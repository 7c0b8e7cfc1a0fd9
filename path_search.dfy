/**
 * The breadth-first route resolver exercised by transformations/path_test.go:
 * `distGraph` (hop counts from a source), `findPath` (a shortest route to one
 * target) and `findPathGraph` (a forwarding tree reaching one or two targets
 * through a meeting node).
 *
 * Where the resolver must pick one of several equally good nodes, it takes
 * the first in `order`, a listing of the system ids that stands for Go's
 * unspecified map iteration order.
 */
module PathSearch {
  import opened Wrappers
  import opened Graphs

  predicate Edge<T>(g: Graph<T>, u: string, v: string) {
    u in g && v in g[u]
  }

  /** `p` lists the nodes visited after leaving `a`; every step is an edge. */
  predicate IsWalk<T>(g: Graph<T>, a: string, p: seq<string>)
    decreases |p|
  {
    |p| == 0 || (Edge(g, a, p[0]) && IsWalk(g, p[0], p[1..]))
  }

  /** Where a walk from `a` along `p` ends. */
  function Last(a: string, p: seq<string>): string {
    if |p| == 0 then a else p[|p| - 1]
  }

  lemma {:induction false} WalkSnoc<T>(g: Graph<T>, a: string, p: seq<string>, t: string)
    requires IsWalk(g, a, p) && Edge(g, Last(a, p), t)
    ensures IsWalk(g, a, p + [t]) && Last(a, p + [t]) == t
    decreases |p|
  {
    if |p| > 0 {
      WalkSnoc(g, p[0], p[1..], t);
      assert (p + [t])[1..] == p[1..] + [t];
    }
  }

  /** Breadth-first hop counts from `s`, characterised locally: `s` is at 0,
      every other node has a predecessor one hop nearer, and no edge skips
      a level. */
  ghost predicate IsDistMap<T>(g: Graph<T>, s: string, d: map<string, nat>) {
    && s in d && d[s] == 0
    && HasPreds(g, s, d)
    && (forall u, v :: u in d && Edge(g, u, v) ==> v in d && d[v] <= d[u] + 1)
  }

  /** No walk from a node at distance `d[a]` reaches a node beyond
      `d[a] + |p|`, and every node it reaches has a distance. */
  lemma {:induction false} WalkBound<T>(g: Graph<T>, s: string, d: map<string, nat>, a: string, p: seq<string>)
    requires IsDistMap(g, s, d) && a in d && IsWalk(g, a, p)
    ensures Last(a, p) in d && d[Last(a, p)] <= d[a] + |p|
    decreases |p|
  {
    if |p| > 0 {
      WalkBound(g, s, d, p[0], p[1..]);
      assert Last(a, p) == Last(p[0], p[1..]);
    }
  }

  /** Every node of the graph: the targets of its edges. */
  function Targets<T>(g: Graph<T>): set<string> {
    set u, v | u in g && v in g[u] :: v
  }

  ghost predicate BfsInvariant<T>(g: Graph<T>, s: string, dist: map<string, nat>, frontier: set<string>, level: nat) {
    && s in dist && dist[s] == 0
    && IsFrontier(dist, frontier, level)
    && HasPreds(g, s, dist)
    && ClosedBelow(g, dist, level)
    && dist.Keys <= Targets(g) + {s}
  }

  /** Nothing is visited beyond `level`, and the frontier is that level. */
  ghost predicate IsFrontier(dist: map<string, nat>, frontier: set<string>, level: nat) {
    && (forall v :: v in dist ==> dist[v] <= level)
    && (forall v :: v in frontier <==> v in dist && dist[v] == level)
  }

  /** Every visited node other than `s` has a visited predecessor one level up. */
  ghost predicate HasPreds<T>(g: Graph<T>, s: string, dist: map<string, nat>) {
    forall v {:trigger HasPredAt(g, dist, v)} :: v in dist && v != s ==> HasPredAt(g, dist, v)
  }

  /** `v` is visited and has a visited predecessor one level up. */
  ghost predicate HasPredAt<T>(g: Graph<T>, dist: map<string, nat>, v: string) {
    v in dist && dist[v] > 0 && exists u :: u in dist && dist[u] + 1 == dist[v] && Edge(g, u, v)
  }

  /** The nodes below `level` have all their successors visited. */
  ghost predicate ClosedBelow<T>(g: Graph<T>, dist: map<string, nat>, level: nat) {
    forall u, v :: u in dist && dist[u] < level && Edge(g, u, v) ==> v in dist && dist[v] <= dist[u] + 1
  }

  /** The unvisited successors of the frontier. */
  function NextLevel<T>(g: Graph<T>, frontier: set<string>, dist: map<string, nat>): (next: set<string>)
    ensures forall v :: v in next ==> v !in dist && exists u :: u in frontier && Edge(g, u, v)
    ensures forall u, v :: u in frontier && Edge(g, u, v) && v !in dist ==> v in next
    ensures next <= Targets(g)
  {
    set u, v | u in frontier && u in g && v in g[u] && v !in dist :: v
  }

  /** The visited map with the next level added at `level`. */
  function Extend(dist: map<string, nat>, next: set<string>, level: nat): (d: map<string, nat>)
    ensures d.Keys == dist.Keys + next
    ensures forall v :: v in next ==> d[v] == level
    ensures forall v :: v in dist && v !in next ==> d[v] == dist[v]
  {
    dist + map v | v in next :: level
  }

  /** A node first reached at the next level hangs off the frontier. */
  lemma NewNodePred<T>(g: Graph<T>, dist: map<string, nat>, frontier: set<string>, level: nat, v: string)
    requires IsFrontier(dist, frontier, level)
    requires v in NextLevel(g, frontier, dist)
    ensures HasPredAt(g, Extend(dist, NextLevel(g, frontier, dist), level + 1), v)
  {
    var next := NextLevel(g, frontier, dist);
    var dist' := Extend(dist, next, level + 1);
    var u :| u in frontier && Edge(g, u, v);
    assert u in dist && u !in next;
    assert u in dist' && dist'[u] + 1 == dist'[v];
  }

  /** A node visited before keeps its predecessor, which keeps its level. */
  lemma OldNodePred<T>(g: Graph<T>, s: string, dist: map<string, nat>, next: set<string>, level: nat, v: string)
    requires HasPreds(g, s, dist) && v in dist && v != s
    requires forall w :: w in next ==> w !in dist
    ensures HasPredAt(g, Extend(dist, next, level + 1), v)
  {
    var dist' := Extend(dist, next, level + 1);
    assert HasPredAt(g, dist, v);
    var u :| u in dist && dist[u] + 1 == dist[v] && Edge(g, u, v);
    assert u !in next && v !in next;
    assert u in dist' && dist'[u] + 1 == dist'[v];
  }

  lemma BfsStepPreds<T>(g: Graph<T>, s: string, dist: map<string, nat>, frontier: set<string>, level: nat)
    requires HasPreds(g, s, dist) && IsFrontier(dist, frontier, level)
    ensures HasPreds(g, s, Extend(dist, NextLevel(g, frontier, dist), level + 1))
  {
    var next := NextLevel(g, frontier, dist);
    var dist' := Extend(dist, next, level + 1);
    forall v | v in dist' && v != s
      ensures HasPredAt(g, dist', v)
    {
      if v in next {
        NewNodePred(g, dist, frontier, level, v);
      } else {
        OldNodePred(g, s, dist, next, level, v);
      }
    }
  }

  lemma BfsStepClosed<T>(g: Graph<T>, dist: map<string, nat>, frontier: set<string>, level: nat)
    requires ClosedBelow(g, dist, level) && IsFrontier(dist, frontier, level)
    ensures ClosedBelow(g, Extend(dist, NextLevel(g, frontier, dist), level + 1), level + 1)
  {
    var next := NextLevel(g, frontier, dist);
    var dist' := Extend(dist, next, level + 1);
    forall u, v | u in dist' && dist'[u] < level + 1 && Edge(g, u, v)
      ensures v in dist' && dist'[v] <= dist'[u] + 1
    {
      assert u in dist && u !in next && dist'[u] == dist[u];
      if dist[u] == level {
        assert u in frontier;
        if v !in dist {
          assert v in next;
        }
      } else {
        assert v in dist && dist[v] <= dist[u] + 1;
        assert v !in next;
      }
    }
  }

  lemma BfsStepFrontier(dist: map<string, nat>, frontier: set<string>, level: nat, next: set<string>)
    requires IsFrontier(dist, frontier, level) && forall v :: v in next ==> v !in dist
    ensures IsFrontier(Extend(dist, next, level + 1), next, level + 1)
  {
    var dist' := Extend(dist, next, level + 1);
    forall v | v in dist' ensures dist'[v] <= level + 1 && (v in next <==> dist'[v] == level + 1) {
      if v !in next {
        assert dist'[v] == dist[v] <= level;
      }
    }
  }

  lemma BfsStep<T>(g: Graph<T>, s: string, dist: map<string, nat>, frontier: set<string>, level: nat)
    requires BfsInvariant(g, s, dist, frontier, level) && frontier != {}
    ensures BfsInvariant(g, s, Extend(dist, NextLevel(g, frontier, dist), level + 1), NextLevel(g, frontier, dist), level + 1)
  {
    var next := NextLevel(g, frontier, dist);
    var dist' := Extend(dist, next, level + 1);
    assert s !in next;
    assert s in dist' && dist'[s] == 0;
    BfsStepPreds(g, s, dist, frontier, level);
    BfsStepClosed(g, dist, frontier, level);
    BfsStepFrontier(dist, frontier, level, next);
    assert dist'.Keys <= Targets(g) + {s};
  }

  /** Breadth-first expansion, one level per call. */
  function Expand<T>(g: Graph<T>, s: string, dist: map<string, nat>, frontier: set<string>, level: nat): (d: map<string, nat>)
    requires BfsInvariant(g, s, dist, frontier, level)
    ensures IsDistMap(g, s, d)
    decreases Targets(g) + {s} - dist.Keys, frontier
  {
    if frontier == {} then
      dist
    else
      var next := NextLevel(g, frontier, dist);
      BfsStep(g, s, dist, frontier, level);
      var dist' := Extend(dist, next, level + 1);
      assert next == {} || Targets(g) + {s} - dist'.Keys < Targets(g) + {s} - dist.Keys;
      Expand(g, s, dist', next, level + 1)
  }

  /** `distGraph(graph, s)`: the hop count of every node reachable from `s`. */
  function DistGraph<T>(g: Graph<T>, s: string): (d: map<string, nat>)
    ensures IsDistMap(g, s, d)
  {
    Expand(g, s, map[s := 0], {s}, 0)
  }

  /** Two hop-count maps from the same source are equal. */
  lemma DistUnique<T>(g: Graph<T>, s: string, d1: map<string, nat>, d2: map<string, nat>)
    requires IsDistMap(g, s, d1) && IsDistMap(g, s, d2)
    ensures d1 == d2
  {
    forall v | v in d1 ensures v in d2 && d2[v] <= d1[v] {
      var p := ShortestWalk(g, s, d1, v);
      WalkBound(g, s, d2, s, p);
    }
    forall v | v in d2 ensures v in d1 && d1[v] <= d2[v] {
      var p := ShortestWalk(g, s, d2, v);
      WalkBound(g, s, d1, s, p);
    }
  }

  /** A walk realising the hop count of `v`. */
  lemma {:induction false} ShortestWalk<T>(g: Graph<T>, s: string, d: map<string, nat>, v: string) returns (p: seq<string>)
    requires IsDistMap(g, s, d) && v in d
    ensures IsWalk(g, s, p) && Last(s, p) == v && |p| == d[v]
    decreases d[v]
  {
    if v == s {
      p := [];
    } else {
      assert HasPredAt(g, d, v);
      var u :| u in d && d[u] + 1 == d[v] && Edge(g, u, v);
      var q := ShortestWalk(g, s, d, u);
      WalkSnoc(g, s, q, v);
      p := q + [v];
    }
  }

  /** The meaning of `distGraph`: `v` has a hop count exactly when a walk
      from `s` reaches it, and the count is the length of a shortest one. */
  lemma DistGraphIsShortest<T>(g: Graph<T>, s: string, v: string, p: seq<string>)
    requires IsWalk(g, s, p) && Last(s, p) == v
    ensures v in DistGraph(g, s) && DistGraph(g, s)[v] <= |p|
    ensures exists q :: IsWalk(g, s, q) && Last(s, q) == v && |q| == DistGraph(g, s)[v]
  {
    var d := DistGraph(g, s);
    WalkBound(g, s, d, s, p);
    var q := ShortestWalk(g, s, d, v);
  }

  /** Every node with a hop count is the source or the target of an edge. */
  lemma DistKeys<T>(g: Graph<T>, s: string, d: map<string, nat>)
    requires IsDistMap(g, s, d)
    ensures forall v :: v in d ==> v == s || v in Targets(g)
  {
    forall v | v in d && v != s ensures v in Targets(g) {
      assert HasPredAt(g, d, v);
      var u :| u in d && d[u] + 1 == d[v] && Edge(g, u, v);
    }
  }

  /** `order` lists `s` and every node of the graph. */
  ghost predicate Covers<T>(order: seq<string>, g: Graph<T>, s: string) {
    s in order && forall v :: v in Targets(g) ==> v in order
  }

  lemma CoversDist<T>(order: seq<string>, g: Graph<T>, s: string, d: map<string, nat>)
    requires Covers(order, g, s) && IsDistMap(g, s, d)
    ensures forall u :: u in d ==> u in order
  {
    DistKeys(g, s, d);
  }

  /** `u` is one hop nearer to the source than `t` and has an edge to it. */
  predicate IsPred<T>(g: Graph<T>, dg: map<string, nat>, u: string, t: string) {
    u in dg && t in dg && dg[u] + 1 == dg[t] && Edge(g, u, t)
  }

  /** The first predecessor of `t` in `order`. */
  function FirstPred<T>(g: Graph<T>, dg: map<string, nat>, order: seq<string>, t: string): (u: string)
    requires exists w :: w in order && IsPred(g, dg, w, t)
    ensures IsPred(g, dg, u, t)
    ensures exists i :: 0 <= i < |order| && order[i] == u && forall j :: 0 <= j < i ==> !IsPred(g, dg, order[j], t)
  {
    if IsPred(g, dg, order[0], t) then
      order[0]
    else
      assert forall w :: w in order && w != order[0] ==> w in order[1..];
      var u := FirstPred(g, dg, order[1..], t);
      var i :| 0 <= i < |order[1..]| && order[1..][i] == u && forall j :: 0 <= j < i ==> !IsPred(g, dg, order[1..][j], t);
      assert order[i + 1] == u;
      u
  }

  lemma PredInOrder<T>(g: Graph<T>, dg: map<string, nat>, order: seq<string>, s: string, t: string)
    requires IsDistMap(g, s, dg) && forall u :: u in dg ==> u in order
    requires t in dg && t != s
    ensures exists w :: w in order && IsPred(g, dg, w, t)
  {
    assert HasPredAt(g, dg, t);
    var w :| w in dg && dg[w] + 1 == dg[t] && Edge(g, w, t);
    assert w in order && IsPred(g, dg, w, t);
  }

  /** The hop counts along `p` are 1, 2, ..., |p|. */
  ghost predicate Levels(dg: map<string, nat>, p: seq<string>) {
    forall i :: 0 <= i < |p| ==> p[i] in dg && dg[p[i]] == i + 1
  }

  lemma LevelsSnoc(dg: map<string, nat>, p: seq<string>, t: string)
    requires Levels(dg, p) && t in dg && dg[t] == |p| + 1
    ensures Levels(dg, p + [t])
  {
  }

  /** `findPath(graph, dg, s, t)`: a shortest route from `s` to `t`, without
      `s`, built backwards from `t` through first predecessors; None when `t`
      is unreachable. Hop counts rise by one along the route, so it is
      shortest, simple and avoids `s`. */
  function FindPath<T>(g: Graph<T>, dg: map<string, nat>, order: seq<string>, s: string, t: string): (r: Option<seq<string>>)
    requires IsDistMap(g, s, dg)
    requires forall u :: u in dg ==> u in order
    ensures r.Some? <==> t in dg
    ensures t == s ==> r == Some([])
    ensures r.Some? ==> IsWalk(g, s, r.value) && Last(s, r.value) == t && |r.value| == dg[t]
    ensures r.Some? ==> Levels(dg, r.value)
    decreases if t in dg then dg[t] else 0
  {
    if t !in dg then
      None
    else if t == s then
      Some([])
    else
      PredInOrder(g, dg, order, s, t);
      var u := FirstPred(g, dg, order, t);
      var p := FindPath(g, dg, order, s, u).value;
      WalkSnoc(g, s, p, t);
      LevelsSnoc(dg, p, t);
      Some(p + [t])
  }

  // ---------------------------------------------------------------------
  // Forwarding trees

  /** `map[string][]string`: each system's ordered list of next systems. */
  type Forwarding = map<string, seq<string>>

  predicate TreeEdge(f: Forwarding, u: string, v: string) {
    u in f && v in f[u]
  }

  /** `p` is a route through the forwarding tree starting at `a`. */
  predicate IsTreeWalk(f: Forwarding, a: string, p: seq<string>)
    decreases |p|
  {
    |p| == 0 || (TreeEdge(f, a, p[0]) && IsTreeWalk(f, p[0], p[1..]))
  }

  /** Add `v` to the next-list of `u` unless it is already there. */
  function AddEdge(f: Forwarding, u: string, v: string): (f': Forwarding)
    ensures forall a, b :: TreeEdge(f', a, b) <==> TreeEdge(f, a, b) || (a == u && b == v)
    ensures f'.Keys == f.Keys + {u}
  {
    if u in f then
      if v in f[u] then f else f[u := f[u] + [v]]
    else
      f[u := [v]]
  }

  /** Add every step of the walk from `a` along `p`. */
  function AddWalk(f: Forwarding, a: string, p: seq<string>): Forwarding
    decreases |p|
  {
    if |p| == 0 then f else AddWalk(AddEdge(f, a, p[0]), p[0], p[1..])
  }

  ghost predicate SubForwarding(f: Forwarding, f': Forwarding) {
    forall u, v :: TreeEdge(f, u, v) ==> TreeEdge(f', u, v)
  }

  lemma {:induction false} TreeWalkMonotone(f: Forwarding, f': Forwarding, a: string, p: seq<string>)
    requires SubForwarding(f, f') && IsTreeWalk(f, a, p)
    ensures IsTreeWalk(f', a, p)
    decreases |p|
  {
    if |p| > 0 {
      TreeWalkMonotone(f, f', p[0], p[1..]);
    }
  }

  lemma {:induction false} TreeWalkConcat(f: Forwarding, a: string, p: seq<string>, q: seq<string>)
    requires IsTreeWalk(f, a, p) && IsTreeWalk(f, Last(a, p), q)
    ensures IsTreeWalk(f, a, p + q) && Last(a, p + q) == Last(Last(a, p), q)
    decreases |p|
  {
    if |p| > 0 {
      TreeWalkConcat(f, p[0], p[1..], q);
      assert (p + q)[1..] == p[1..] + q;
      assert Last(a, p) == Last(p[0], p[1..]);
    } else {
      assert p + q == q;
    }
  }

  /** AddWalk keeps the tree's edges and adds exactly the walk's steps. */
  lemma {:induction false} AddWalkEdges(f: Forwarding, a: string, p: seq<string>)
    ensures SubForwarding(f, AddWalk(f, a, p))
    ensures IsTreeWalk(AddWalk(f, a, p), a, p)
    decreases |p|
  {
    if |p| > 0 {
      var f1 := AddEdge(f, a, p[0]);
      AddWalkEdges(f1, p[0], p[1..]);
      assert TreeEdge(f1, a, p[0]);
    }
  }

  /** Two nodes joined by an edge in either direction. */
  predicate Linked<T>(g: Graph<T>, u: string, v: string) {
    Edge(g, u, v) || Edge(g, v, u)
  }

  predicate IsLinkWalk<T>(g: Graph<T>, a: string, p: seq<string>)
    decreases |p|
  {
    |p| == 0 || (Linked(g, a, p[0]) && IsLinkWalk(g, p[0], p[1..]))
  }

  lemma {:induction false} LinkWalkSnoc<T>(g: Graph<T>, a: string, p: seq<string>, t: string)
    requires IsLinkWalk(g, a, p) && Linked(g, Last(a, p), t)
    ensures IsLinkWalk(g, a, p + [t])
    decreases |p|
  {
    if |p| > 0 {
      LinkWalkSnoc(g, p[0], p[1..], t);
      assert (p + [t])[1..] == p[1..] + [t];
    }
  }

  lemma {:induction false} WalkIsLinkWalk<T>(g: Graph<T>, a: string, p: seq<string>)
    requires IsWalk(g, a, p)
    ensures IsLinkWalk(g, a, p)
    decreases |p|
  {
    if |p| > 0 {
      WalkIsLinkWalk(g, p[0], p[1..]);
    }
  }

  /** The walk from `a` along `p`, travelled back: from its end to `a`. */
  function RevWalk(a: string, p: seq<string>): (r: seq<string>)
    ensures |r| == |p|
    ensures Last(Last(a, p), r) == a
    decreases |p|
  {
    if |p| == 0 then [] else RevWalk(p[0], p[1..]) + [a]
  }

  lemma {:induction false} RevWalkLinked<T>(g: Graph<T>, a: string, p: seq<string>)
    requires IsWalk(g, a, p)
    ensures IsLinkWalk(g, Last(a, p), RevWalk(a, p))
    decreases |p|
  {
    if |p| > 0 {
      RevWalkLinked(g, p[0], p[1..]);
      assert Last(a, p) == Last(p[0], p[1..]);
      var r := RevWalk(p[0], p[1..]);
      assert Last(Last(p[0], p[1..]), r) == p[0];
      LinkWalkSnoc(g, Last(a, p), r, a);
    }
  }

  /** Every edge of the tree joins two linked nodes. */
  ghost predicate TreeLinked<T>(g: Graph<T>, f: Forwarding) {
    forall u, v :: TreeEdge(f, u, v) ==> Linked(g, u, v)
  }

  /** Every edge of the tree is an edge of the graph. */
  ghost predicate TreeInGraph<T>(g: Graph<T>, f: Forwarding) {
    forall u, v :: TreeEdge(f, u, v) ==> Edge(g, u, v)
  }

  lemma {:induction false} AddLinkWalk<T>(g: Graph<T>, f: Forwarding, a: string, p: seq<string>)
    requires TreeLinked(g, f) && IsLinkWalk(g, a, p)
    ensures TreeLinked(g, AddWalk(f, a, p))
    decreases |p|
  {
    if |p| > 0 {
      AddLinkWalk(g, AddEdge(f, a, p[0]), p[0], p[1..]);
    }
  }

  lemma {:induction false} AddGraphWalk<T>(g: Graph<T>, f: Forwarding, a: string, p: seq<string>)
    requires TreeInGraph(g, f) && IsWalk(g, a, p)
    ensures TreeInGraph(g, AddWalk(f, a, p))
    decreases |p|
  {
    if |p| > 0 {
      AddGraphWalk(g, AddEdge(f, a, p[0]), p[0], p[1..]);
    }
  }

  // ---------------------------------------------------------------------
  // Meeting node

  /** `m` is reachable from the source and from both targets. */
  predicate Meets(dS: map<string, nat>, d1: map<string, nat>, d2: map<string, nat>, m: string) {
    m in dS && m in d1 && m in d2
  }

  function MeetCost(dS: map<string, nat>, d1: map<string, nat>, d2: map<string, nat>, m: string): nat
    requires Meets(dS, d1, d2, m)
  {
    dS[m] + d1[m] + d2[m]
  }

  /** `best` is the first position of least cost among `order[..i]`, or
      None when none of them meets. */
  ghost predicate BestSoFar(order: seq<string>, dS: map<string, nat>, d1: map<string, nat>, d2: map<string, nat>, i: nat, best: Option<nat>)
    requires i <= |order|
  {
    && (best.None? <==> forall j :: 0 <= j < i ==> !Meets(dS, d1, d2, order[j]))
    && (best.Some? ==>
         && best.value < i && Meets(dS, d1, d2, order[best.value])
         && (forall j :: 0 <= j < i && Meets(dS, d1, d2, order[j]) ==>
               MeetCost(dS, d1, d2, order[best.value]) <= MeetCost(dS, d1, d2, order[j]))
         && (forall j :: 0 <= j < best.value && Meets(dS, d1, d2, order[j]) ==>
               MeetCost(dS, d1, d2, order[best.value]) < MeetCost(dS, d1, d2, order[j])))
  }

  /** Scans `order` from position `i`, replacing the best position only on a
      strictly smaller cost. */
  function BestFrom(order: seq<string>, dS: map<string, nat>, d1: map<string, nat>, d2: map<string, nat>, i: nat, best: Option<nat>): (r: Option<nat>)
    requires i <= |order| && BestSoFar(order, dS, d1, d2, i, best)
    ensures BestSoFar(order, dS, d1, d2, |order|, r)
    decreases |order| - i
  {
    if i == |order| then
      best
    else if Meets(dS, d1, d2, order[i])
            && (best.None? || MeetCost(dS, d1, d2, order[i]) < MeetCost(dS, d1, d2, order[best.value])) then
      BestFrom(order, dS, d1, d2, i + 1, Some(i))
    else
      BestFrom(order, dS, d1, d2, i + 1, best)
  }

  /** The position in `order` of the meeting node: the smallest sum of the
      three hop counts, the first in `order` among equals. */
  function BestMeeting(order: seq<string>, dS: map<string, nat>, d1: map<string, nat>, d2: map<string, nat>): (r: Option<nat>)
    ensures r.None? <==> forall j :: 0 <= j < |order| ==> !Meets(dS, d1, d2, order[j])
    ensures r.Some? ==> r.value < |order| && Meets(dS, d1, d2, order[r.value])
    ensures r.Some? ==> forall j :: 0 <= j < |order| && Meets(dS, d1, d2, order[j]) ==>
      MeetCost(dS, d1, d2, order[r.value]) <= MeetCost(dS, d1, d2, order[j])
    ensures r.Some? ==> forall j :: 0 <= j < r.value && Meets(dS, d1, d2, order[j]) ==>
      MeetCost(dS, d1, d2, order[r.value]) < MeetCost(dS, d1, d2, order[j])
  {
    BestFrom(order, dS, d1, d2, 0, None)
  }

  /** The meeting position is the first position of least cost, and no
      other. */
  lemma BestMeetingIsFirstLeast(order: seq<string>, dS: map<string, nat>, d1: map<string, nat>, d2: map<string, nat>, k: nat)
    requires k < |order| && Meets(dS, d1, d2, order[k])
    requires forall j :: 0 <= j < k && Meets(dS, d1, d2, order[j]) ==>
      MeetCost(dS, d1, d2, order[k]) < MeetCost(dS, d1, d2, order[j])
    requires forall j :: k < j < |order| && Meets(dS, d1, d2, order[j]) ==>
      MeetCost(dS, d1, d2, order[k]) <= MeetCost(dS, d1, d2, order[j])
    ensures BestMeeting(order, dS, d1, d2) == Some(k)
  {
    var r := BestMeeting(order, dS, d1, d2);
    assert r.Some? && MeetCost(dS, d1, d2, order[r.value]) <= MeetCost(dS, d1, d2, order[k]);
  }

  /** `findPathGraph(graph, s, [t1, t2])`, with `t2 == ""` for a single
      target. One target: the chain of the shortest route. Two targets: the
      route from `s` to the meeting node, merged with the routes from each
      target to the meeting node travelled back. None when no route exists. */
  function FindPathGraph<T>(g: Graph<T>, order: seq<string>, s: string, t1: string, t2: string): Option<Forwarding>
    requires Covers(order, g, s) && Covers(order, g, t1) && (t2 == "" || Covers(order, g, t2))
  {
    var dS := DistGraph(g, s);
    CoversDist(order, g, s, dS);
    if t2 == "" then
      match FindPath(g, dS, order, s, t1)
      case None => None
      case Some(p) => Some(AddWalk(map[], s, p))
    else
      var d1 := DistGraph(g, t1);
      var d2 := DistGraph(g, t2);
      CoversDist(order, g, t1, d1);
      CoversDist(order, g, t2, d2);
      match BestMeeting(order, dS, d1, d2)
      case None => None
      case Some(i) =>
        var m := order[i];
        var pS := FindPath(g, dS, order, s, m).value;
        var p1 := FindPath(g, d1, order, t1, m).value;
        var p2 := FindPath(g, d2, order, t2, m).value;
        Some(MergedTree(s, pS, m, t1, p1, t2, p2))
  }

  /** Some route through the tree leads from `a` to `b`. */
  ghost predicate TreeReaches(f: Forwarding, a: string, b: string) {
    exists p :: IsTreeWalk(f, a, p) && Last(a, p) == b
  }

  /** One target: found exactly when the target is reachable; the tree is
      the chain of a shortest route, empty when the target is the source,
      made of graph edges, and it reaches the target. */
  lemma FindPathGraphSingle<T>(g: Graph<T>, order: seq<string>, s: string, t1: string)
    requires Covers(order, g, s) && Covers(order, g, t1)
    ensures var r := FindPathGraph(g, order, s, t1, "");
      && (r.Some? <==> t1 in DistGraph(g, s))
      && (t1 == s ==> r == Some(map[]))
      && (r.Some? ==> TreeInGraph(g, r.value) && TreeReaches(r.value, s, t1))
  {
    var dS := DistGraph(g, s);
    CoversDist(order, g, s, dS);
    var r := FindPathGraph(g, order, s, t1, "");
    if r.Some? {
      var p := FindPath(g, dS, order, s, t1).value;
      AddWalkEdges(map[], s, p);
      AddGraphWalk(g, map[], s, p);
    }
  }

  /** The tree merged from a route `pS` from `s` to `m` and routes `p1`,
      `p2` from the targets to `m` travelled back. */
  function MergedTree(s: string, pS: seq<string>, m: string, t1: string, p1: seq<string>, t2: string, p2: seq<string>): Forwarding {
    AddWalk(AddWalk(AddWalk(map[], s, pS), m, RevWalk(t1, p1)), m, RevWalk(t2, p2))
  }

  lemma MergedTreeLinked<T>(g: Graph<T>, s: string, pS: seq<string>, m: string, t1: string, p1: seq<string>, t2: string, p2: seq<string>)
    requires IsWalk(g, s, pS) && IsWalk(g, t1, p1) && IsWalk(g, t2, p2)
    requires Last(t1, p1) == m && Last(t2, p2) == m
    ensures TreeLinked(g, MergedTree(s, pS, m, t1, p1, t2, p2))
  {
    var f0 := AddWalk(map[], s, pS);
    var f1 := AddWalk(f0, m, RevWalk(t1, p1));
    WalkIsLinkWalk(g, s, pS);
    AddLinkWalk(g, map[], s, pS);
    RevWalkLinked(g, t1, p1);
    AddLinkWalk(g, f0, m, RevWalk(t1, p1));
    RevWalkLinked(g, t2, p2);
    AddLinkWalk(g, f1, m, RevWalk(t2, p2));
  }

  lemma MergedTreeReaches(s: string, pS: seq<string>, m: string, t1: string, p1: seq<string>, t2: string, p2: seq<string>)
    requires Last(s, pS) == m && Last(t1, p1) == m && Last(t2, p2) == m
    ensures var f := MergedTree(s, pS, m, t1, p1, t2, p2);
      TreeReaches(f, s, t1) && TreeReaches(f, s, t2)
  {
    var r1, r2 := RevWalk(t1, p1), RevWalk(t2, p2);
    var f0 := AddWalk(map[], s, pS);
    var f1 := AddWalk(f0, m, r1);
    var f2 := AddWalk(f1, m, r2);
    AddWalkEdges(map[], s, pS);
    AddWalkEdges(f0, m, r1);
    AddWalkEdges(f1, m, r2);
    TreeWalkMonotone(f0, f1, s, pS);
    TreeWalkMonotone(f1, f2, s, pS);
    TreeWalkMonotone(f1, f2, m, r1);
    TreeWalkConcat(f2, s, pS, r1);
    TreeWalkConcat(f2, s, pS, r2);
    assert IsTreeWalk(f2, s, pS + r1) && Last(s, pS + r1) == t1;
    assert IsTreeWalk(f2, s, pS + r2) && Last(s, pS + r2) == t2;
  }

  /** Two targets: found exactly when some node is reachable from the source
      and from both targets; the tree then reaches both targets from the
      source, and every tree edge is a graph edge in one direction or the
      other (in both when the graph is symmetric, as the configured graphs
      are). */
  lemma FindPathGraphDual<T>(g: Graph<T>, order: seq<string>, s: string, t1: string, t2: string)
    requires Covers(order, g, s) && Covers(order, g, t1) && Covers(order, g, t2) && t2 != ""
    ensures var r := FindPathGraph(g, order, s, t1, t2);
      && (r.Some? <==> exists j :: 0 <= j < |order| && Meets(DistGraph(g, s), DistGraph(g, t1), DistGraph(g, t2), order[j]))
      && (r.Some? ==> TreeLinked(g, r.value) && TreeReaches(r.value, s, t1) && TreeReaches(r.value, s, t2))
  {
    var dS, d1, d2 := DistGraph(g, s), DistGraph(g, t1), DistGraph(g, t2);
    CoversDist(order, g, s, dS);
    CoversDist(order, g, t1, d1);
    CoversDist(order, g, t2, d2);
    var r := FindPathGraph(g, order, s, t1, t2);
    if r.Some? {
      var i := BestMeeting(order, dS, d1, d2).value;
      var m := order[i];
      var pS := FindPath(g, dS, order, s, m).value;
      var p1 := FindPath(g, d1, order, t1, m).value;
      var p2 := FindPath(g, d2, order, t2, m).value;
      assert r.value == MergedTree(s, pS, m, t1, p1, t2, p2);
      MergedTreeLinked(g, s, pS, m, t1, p1, t2, p2);
      MergedTreeReaches(s, pS, m, t1, p1, t2, p2);
    }
  }
}
