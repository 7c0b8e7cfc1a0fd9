/**
 * `getPath` (transformations/graph-path.go): a depth-first search from
 * `current` that marks every target it visits in a `targets` map shared by
 * all recursive calls, and returns the shortest non-empty candidate of the
 * neighbours.
 *
 * Go visits the neighbours of a node in unspecified map order; here they come
 * in the order of the list `order`. The source recurses without bound (its
 * `path` never grows, so a cycle is never cut); the model carries a depth
 * bound `fuel` and reports `None` when a call chain would go deeper.
 */
module GraphPath {
  import opened Wrappers
  import opened Graphs
  import opened PathSearch
  import opened PathFixture

  /** The targets map passed by reference to every call: target id to
      whether it has been reached. */
  class TargetFlags {
    var flags: map<string, bool>

    /** `make(map[string]bool)`. */
    constructor ()
      ensures flags == map[]
    {
      flags := map[];
    }

    /** `targets[key] = value`. */
    method Put(key: string, value: bool)
      modifies this
      ensures flags == old(flags)[key := value]
    {
      flags := flags[key := value];
    }
  }

  /** What each recursive call receives. As written (`SamePath`), the
      caller's own `path` (graph-path.go:60) and the targets map shared by
      every call. With `ExtendedPath`, that path extended with the caller's
      node, the map still shared. With `IsolatedTargets`, the extended path
      and, for each neighbour, the targets as the caller saw them, so that a
      target reached in one neighbour's search does not end the searches of
      the later ones (both corrections are described in the Findings of the
      README). */
  datatype Recursion = SamePath | ExtendedPath | IsolatedTargets

  /** The initial best length of the neighbour loop: longer routes are never
      taken. */
  const MaxLen := 1000000

  /** A call's returned path (None: the depth bound was hit) and the targets
      map after it. */
  datatype Outcome = Outcome(route: Option<seq<string>>, flags: map<string, bool>)

  /** `current` marked reached when it is a target. */
  function Mark(targets: map<string, bool>, current: string): (t: map<string, bool>)
    ensures t.Keys == targets.Keys
    ensures current in targets ==> t[current]
    ensures forall k :: k in targets && k != current ==> t[k] == targets[k]
  {
    if current in targets then targets[current := true] else targets
  }

  predicate AllReached(targets: map<string, bool>) {
    forall k :: k in targets ==> targets[k]
  }

  /** The flags after a call: same targets, and no reached target reset. */
  predicate Grows(before: map<string, bool>, after: map<string, bool>) {
    after.Keys == before.Keys && forall k :: k in before && before[k] ==> after[k]
  }

  lemma GrowsTrans(a: map<string, bool>, b: map<string, bool>, c: map<string, bool>)
    requires Grows(a, b) && Grows(b, c)
    ensures Grows(a, c)
  {
  }

  /** The elements of `order` that lie in `s`, in order. */
  function Select(order: seq<string>, s: set<string>): (r: seq<string>)
    ensures forall v :: v in r <==> v in order && v in s
  {
    if |order| == 0 then []
    else (if order[0] in s then [order[0]] else []) + Select(order[1..], s)
  }

  /** The neighbours of `u` (`graph[u]`, empty for an unknown `u`) in
      iteration order. */
  function Neighbours<T>(g: Graph<T>, order: seq<string>, u: string): (ns: seq<string>)
    ensures forall v :: v in ns ==> Edge(g, u, v)
  {
    if u in g then Select(order, g[u].Keys) else []
  }

  /** As written, a non-empty result is the caller's `path` plus one node. */
  predicate Shaped(path: seq<string>, r: seq<string>) {
    r == [] || (|r| == |path| + 1 && r[..|path|] == path)
  }

  /** As intended, a non-empty result is `path`, then `current`, then a walk
      in the graph leaving `current`. */
  predicate Routed<T>(g: Graph<T>, path: seq<string>, current: string, r: seq<string>) {
    |r| > |path| && r[..|path|] == path && r[|path|] == current && IsWalk(g, current, r[|path| + 1..])
  }

  predicate Found<T>(rule: Recursion, g: Graph<T>, path: seq<string>, current: string, r: seq<string>) {
    if rule == SamePath then Shaped(path, r) else r == [] || Routed(g, path, current, r)
  }

  function ChildPath(rule: Recursion, path: seq<string>, current: string): seq<string> {
    if rule == SamePath then path else path + [current]
  }

  /** The targets the next neighbour's search starts from, after a call that
      left them as `after`. */
  function Passed(rule: Recursion, before: map<string, bool>, after: map<string, bool>): map<string, bool> {
    if rule == IsolatedTargets then before else after
  }

  /** One call `getPath(graph, current, targets, path)`. */
  function Visit<T>(rule: Recursion, g: Graph<T>, order: seq<string>, current: string,
                    targets: map<string, bool>, path: seq<string>, fuel: nat): (o: Outcome)
    ensures Grows(targets, o.flags)
    ensures current in targets ==> o.flags[current]
    ensures AllReached(Mark(targets, current)) ==> o == Outcome(Some(path + [current]), Mark(targets, current))
    ensures o.route.Some? ==> Found(rule, g, path, current, o.route.value)
    decreases fuel, 0
  {
    var t := Mark(targets, current);
    if AllReached(t) then
      assert IsWalk(g, current, (path + [current])[|path| + 1..]);
      Outcome(Some(path + [current]), t)
    else if fuel == 0 then Outcome(None, t)
    else
      var o := Scan(rule, g, order, current, Neighbours(g, order, current), 0, t, path, fuel - 1, MaxLen, []);
      GrowsTrans(targets, t, o.flags);
      o
  }

  /** The neighbour loop of one call from its `i`-th neighbour on, with the
      best length and candidate so far. */
  function Scan<T>(rule: Recursion, g: Graph<T>, order: seq<string>, current: string, nbrs: seq<string>, i: nat,
                   targets: map<string, bool>, path: seq<string>, fuel: nat, bestLen: int, best: seq<string>): (o: Outcome)
    requires i <= |nbrs| && forall v :: v in nbrs ==> Edge(g, current, v)
    requires Found(rule, g, path, current, best)
    ensures Grows(targets, o.flags)
    ensures o.route.Some? ==> Found(rule, g, path, current, o.route.value)
    decreases fuel, 1, |nbrs| - i
  {
    if i == |nbrs| then Outcome(Some(best), targets)
    else
      var next := nbrs[i];
      if next in ChildPath(rule, path, current) then
        Scan(rule, g, order, current, nbrs, i + 1, targets, path, fuel, bestLen, best)
      else
        var c := Visit(rule, g, order, next, targets, ChildPath(rule, path, current), fuel);
        if c.route.None? then c
        else
          var r := c.route.value;
          var flags := Passed(rule, targets, c.flags);
          var o :=
            if |r| == 0 then
              Scan(rule, g, order, current, nbrs, i + 1, flags, path, fuel, bestLen, best)
            else if |r| <= bestLen then
              FoundChild(rule, g, path, current, next, r);
              Scan(rule, g, order, current, nbrs, i + 1, flags, path, fuel, |r|, r)
            else
              Scan(rule, g, order, current, nbrs, i + 1, flags, path, fuel, bestLen, best);
          GrowsTrans(targets, flags, o.flags);
          o
  }

  /** The state the neighbour loop moves to after its `i`-th neighbour:
      the flags and best candidate after skipping it, or after a call on it
      that returned a route. */
  predicate StepTo<T>(rule: Recursion, g: Graph<T>, order: seq<string>, current: string, nbrs: seq<string>, i: nat,
                      targets: map<string, bool>, path: seq<string>, fuel: nat, bestLen: int, best: seq<string>,
                      targets': map<string, bool>, bestLen': int, best': seq<string>)
    requires i < |nbrs|
  {
    if nbrs[i] in ChildPath(rule, path, current) then
      targets' == targets && bestLen' == bestLen && best' == best
    else
      var c := Visit(rule, g, order, nbrs[i], targets, ChildPath(rule, path, current), fuel);
      && c.route.Some? && Passed(rule, targets, c.flags) == targets'
      && if 0 < |c.route.value| <= bestLen then bestLen' == |c.route.value| && best' == c.route.value
         else bestLen' == bestLen && best' == best
  }

  /** One step of the neighbour loop that goes on to the next neighbour. */
  lemma ScanStep<T>(rule: Recursion, g: Graph<T>, order: seq<string>, current: string, nbrs: seq<string>, i: nat,
                    targets: map<string, bool>, path: seq<string>, fuel: nat, bestLen: int, best: seq<string>,
                    targets': map<string, bool>, bestLen': int, best': seq<string>)
    requires i < |nbrs| && forall v :: v in nbrs ==> Edge(g, current, v)
    requires Found(rule, g, path, current, best)
    requires StepTo(rule, g, order, current, nbrs, i, targets, path, fuel, bestLen, best, targets', bestLen', best')
    ensures Found(rule, g, path, current, best')
    ensures Scan(rule, g, order, current, nbrs, i, targets, path, fuel, bestLen, best)
         == Scan(rule, g, order, current, nbrs, i + 1, targets', path, fuel, bestLen', best')
  {
    var next := nbrs[i];
    if next !in ChildPath(rule, path, current) {
      var c := Visit(rule, g, order, next, targets, ChildPath(rule, path, current), fuel);
      if 0 < |c.route.value| <= bestLen {
        FoundChild(rule, g, path, current, next, c.route.value);
      }
    }
  }

  /** A call on a neighbour that hits the depth bound ends the loop with its outcome. */
  lemma ScanAbort<T>(rule: Recursion, g: Graph<T>, order: seq<string>, current: string, nbrs: seq<string>, i: nat,
                     targets: map<string, bool>, path: seq<string>, fuel: nat, bestLen: int, best: seq<string>)
    requires i < |nbrs| && forall v :: v in nbrs ==> Edge(g, current, v)
    requires Found(rule, g, path, current, best)
    requires nbrs[i] !in ChildPath(rule, path, current)
    requires Visit(rule, g, order, nbrs[i], targets, ChildPath(rule, path, current), fuel).route.None?
    ensures Scan(rule, g, order, current, nbrs, i, targets, path, fuel, bestLen, best)
         == Visit(rule, g, order, nbrs[i], targets, ChildPath(rule, path, current), fuel)
  {
  }

  /** A child's non-empty result is a result of its caller. */
  lemma FoundChild<T>(rule: Recursion, g: Graph<T>, path: seq<string>, current: string, next: string, r: seq<string>)
    requires Edge(g, current, next) && r != []
    requires Found(rule, g, ChildPath(rule, path, current), next, r)
    ensures Found(rule, g, path, current, r)
  {
    if rule != SamePath {
      var p := path + [current];
      assert r[..|p|] == p;
      assert r[..|path|] == path && r[|path|] == current by {
        assert r[..|path|] == p[..|path|];
      }
      assert r[|path| + 1..] == [next] + r[|p| + 1..];
    }
  }

  // ---------------------------------------------------------------------
  // Which route a call returns

  /** The calls the neighbour loop makes from its `i`-th neighbour on, in
      order: the neighbours it searches and the routes they returned;
      `aborted` when the last search hit the depth bound, which ends the
      loop. */
  datatype Calls = Calls(called: seq<string>, routes: seq<seq<string>>, aborted: bool)

  /** A neighbour in the child path is skipped; every other one is searched,
      with the targets threaded as `Passed` says, until a search hits the
      depth bound. */
  function CallsFrom<T>(rule: Recursion, g: Graph<T>, order: seq<string>, current: string, nbrs: seq<string>, i: nat,
                        targets: map<string, bool>, path: seq<string>, fuel: nat): (cs: Calls)
    requires i <= |nbrs|
    ensures |cs.called| == |cs.routes| + (if cs.aborted then 1 else 0)
    decreases |nbrs| - i
  {
    if i == |nbrs| then Calls([], [], false)
    else if nbrs[i] in ChildPath(rule, path, current) then
      CallsFrom(rule, g, order, current, nbrs, i + 1, targets, path, fuel)
    else
      var c := Visit(rule, g, order, nbrs[i], targets, ChildPath(rule, path, current), fuel);
      if c.route.None? then Calls([nbrs[i]], [], true)
      else
        var rest := CallsFrom(rule, g, order, current, nbrs, i + 1, Passed(rule, targets, c.flags), path, fuel);
        Calls([nbrs[i]] + rest.called, [c.route.value] + rest.routes, rest.aborted)
  }

  /** The loop searches only neighbours outside the child path, and, unless
      a search hits the depth bound, every one of them. */
  lemma {:induction false} CallsFromSkips<T>(rule: Recursion, g: Graph<T>, order: seq<string>, current: string, nbrs: seq<string>, i: nat,
                                             targets: map<string, bool>, path: seq<string>, fuel: nat)
    requires i <= |nbrs|
    ensures var cs := CallsFrom(rule, g, order, current, nbrs, i, targets, path, fuel);
      && (forall v :: v in cs.called ==> v in nbrs[i..] && v !in ChildPath(rule, path, current))
      && (!cs.aborted ==> forall j :: i <= j < |nbrs| && nbrs[j] !in ChildPath(rule, path, current) ==> nbrs[j] in cs.called)
    decreases |nbrs| - i
  {
    if i < |nbrs| {
      assert nbrs[i..] == [nbrs[i]] + nbrs[i + 1..];
      var cp := ChildPath(rule, path, current);
      if nbrs[i] in cp {
        CallsFromSkips(rule, g, order, current, nbrs, i + 1, targets, path, fuel);
      } else {
        var c := Visit(rule, g, order, nbrs[i], targets, cp, fuel);
        if c.route.Some? {
          CallsFromSkips(rule, g, order, current, nbrs, i + 1, Passed(rule, targets, c.flags), path, fuel);
        }
      }
    }
  }

  /** A route the loop takes over its best so far of length `cap`. */
  predicate Eligible(r: seq<string>, cap: int) {
    0 < |r| <= cap
  }

  /** `rs[j]` is the last of the eligible routes of least length. */
  predicate LastShortest(rs: seq<seq<string>>, cap: int, j: int) {
    && 0 <= j < |rs| && Eligible(rs[j], cap)
    && (forall k :: 0 <= k < |rs| && Eligible(rs[k], cap) ==> |rs[j]| <= |rs[k]|)
    && (forall k :: j < k < |rs| && Eligible(rs[k], cap) ==> |rs[j]| < |rs[k]|)
  }

  /** An eligible first route that no later route undercuts is selected. */
  lemma LastShortestHead(r: seq<string>, rest: seq<seq<string>>, cap: int)
    requires Eligible(r, cap) && forall k :: 0 <= k < |rest| ==> !Eligible(rest[k], |r|)
    ensures LastShortest([r] + rest, cap, 0)
  {
    var rs := [r] + rest;
    forall k | 0 < k < |rs| && Eligible(rs[k], cap)
      ensures |r| < |rs[k]|
    {
      assert rs[k] == rest[k - 1];
    }
  }

  /** After an eligible first route the selection among the rest, capped
      by its length, is the selection of the whole. */
  lemma LastShortestUnder(r: seq<string>, rest: seq<seq<string>>, cap: int, j: int)
    requires Eligible(r, cap) && LastShortest(rest, |r|, j)
    ensures LastShortest([r] + rest, cap, j + 1)
  {
    var rs := [r] + rest;
    forall k | 0 <= k < |rs| && Eligible(rs[k], cap)
      ensures |rs[j + 1]| <= |rs[k]| && (k > j + 1 ==> |rs[j + 1]| < |rs[k]|)
    {
      if k > 0 {
        assert rs[k] == rest[k - 1];
      }
    }
  }

  /** A first route that is not eligible does not change the selection. */
  lemma LastShortestSkip(r: seq<string>, rest: seq<seq<string>>, cap: int, j: int)
    requires !Eligible(r, cap) && LastShortest(rest, cap, j)
    ensures LastShortest([r] + rest, cap, j + 1)
  {
    var rs := [r] + rest;
    forall k | 0 <= k < |rs| && Eligible(rs[k], cap)
      ensures |rs[j + 1]| <= |rs[k]| && (k > j + 1 ==> |rs[j + 1]| < |rs[k]|)
    {
      assert rs[k] == rest[k - 1];
    }
  }

  /** What the neighbour loop returns, given the calls it makes. */
  predicate Selects(o: Option<seq<string>>, cs: Calls, cap: int, best: seq<string>) {
    && (o.None? <==> cs.aborted)
    && (!cs.aborted && (forall k :: 0 <= k < |cs.routes| ==> !Eligible(cs.routes[k], cap)) ==> o == Some(best))
    && (!cs.aborted && (exists k :: 0 <= k < |cs.routes| && Eligible(cs.routes[k], cap)) ==>
          exists j :: 0 <= j < |cs.routes| && LastShortest(cs.routes, cap, j) && o == Some(cs.routes[j]))
  }

  /** A search that returned an eligible `r` ahead of the calls `rest`:
      the selection over both is the selection over `rest` with `r` as the
      best so far. */
  lemma SelectsTaken(next: string, r: seq<string>, rest: Calls, o: Option<seq<string>>, cap: int, best: seq<string>)
    requires Eligible(r, cap) && Selects(o, rest, |r|, r)
    ensures Selects(o, Calls([next] + rest.called, [r] + rest.routes, rest.aborted), cap, best)
  {
    if !rest.aborted {
      if forall k :: 0 <= k < |rest.routes| ==> !Eligible(rest.routes[k], |r|) {
        LastShortestHead(r, rest.routes, cap);
        assert LastShortest([r] + rest.routes, cap, 0);
      } else {
        var j :| 0 <= j < |rest.routes| && LastShortest(rest.routes, |r|, j) && o == Some(rest.routes[j]);
        LastShortestUnder(r, rest.routes, cap, j);
        assert ([r] + rest.routes)[j + 1] == rest.routes[j];
      }
    }
  }

  /** A search whose route `r` is not eligible does not change the
      selection over the calls `rest` after it. */
  lemma SelectsPassed(next: string, r: seq<string>, rest: Calls, o: Option<seq<string>>, cap: int, best: seq<string>)
    requires !Eligible(r, cap) && Selects(o, rest, cap, best)
    ensures Selects(o, Calls([next] + rest.called, [r] + rest.routes, rest.aborted), cap, best)
  {
    var rs := [r] + rest.routes;
    if !rest.aborted {
      if exists k :: 0 <= k < |rs| && Eligible(rs[k], cap) {
        var k0 :| 0 <= k0 < |rs| && Eligible(rs[k0], cap);
        assert rs[k0] == rest.routes[k0 - 1];
        var j :| 0 <= j < |rest.routes| && LastShortest(rest.routes, cap, j) && o == Some(rest.routes[j]);
        LastShortestSkip(r, rest.routes, cap, j);
        assert rs[j + 1] == rest.routes[j];
      } else {
        forall k | 0 <= k < |rest.routes|
          ensures !Eligible(rest.routes[k], cap)
        {
          assert rest.routes[k] == rs[k + 1];
        }
      }
    }
  }

  /** The neighbour loop returns no route exactly when a search hits the
      depth bound; otherwise its best so far when no search returned an
      eligible route, and else the last of the shortest eligible routes. */
  lemma {:induction false} ScanSelects<T>(rule: Recursion, g: Graph<T>, order: seq<string>, current: string,
                                          nbrs: seq<string>, i: nat, targets: map<string, bool>, path: seq<string>,
                                          fuel: nat, bestLen: int, best: seq<string>)
    requires i <= |nbrs| && forall v :: v in nbrs ==> Edge(g, current, v)
    requires Found(rule, g, path, current, best)
    ensures Selects(Scan(rule, g, order, current, nbrs, i, targets, path, fuel, bestLen, best).route,
                    CallsFrom(rule, g, order, current, nbrs, i, targets, path, fuel), bestLen, best)
    decreases |nbrs| - i
  {
    if i < |nbrs| {
      var next := nbrs[i];
      var cp := ChildPath(rule, path, current);
      if next in cp {
        ScanStep(rule, g, order, current, nbrs, i, targets, path, fuel, bestLen, best, targets, bestLen, best);
        ScanSelects(rule, g, order, current, nbrs, i + 1, targets, path, fuel, bestLen, best);
      } else {
        var c := Visit(rule, g, order, next, targets, cp, fuel);
        if c.route.None? {
          ScanAbort(rule, g, order, current, nbrs, i, targets, path, fuel, bestLen, best);
        } else {
          var r := c.route.value;
          var flags := Passed(rule, targets, c.flags);
          var bestLen', best' := if Eligible(r, bestLen) then |r| else bestLen, if Eligible(r, bestLen) then r else best;
          ScanStep(rule, g, order, current, nbrs, i, targets, path, fuel, bestLen, best, flags, bestLen', best');
          ScanSelects(rule, g, order, current, nbrs, i + 1, flags, path, fuel, bestLen', best');
          var rest := CallsFrom(rule, g, order, current, nbrs, i + 1, flags, path, fuel);
          var o := Scan(rule, g, order, current, nbrs, i + 1, flags, path, fuel, bestLen', best').route;
          if Eligible(r, bestLen) {
            SelectsTaken(next, r, rest, o, bestLen, best);
          } else {
            SelectsPassed(next, r, rest, o, bestLen, best);
          }
        }
      }
    }
  }

  /** The selection rule of graph-path.go:35-75 for a call that has not
      reached every target and has depth left: it returns no route exactly
      when a search of a neighbour hits the depth bound; otherwise the empty
      route exactly when no search returned a non-empty route of at most
      `MaxLen` systems, and else the last of the shortest such routes. */
  lemma VisitSelects<T>(rule: Recursion, g: Graph<T>, order: seq<string>, current: string,
                        targets: map<string, bool>, path: seq<string>, fuel: nat)
    requires !AllReached(Mark(targets, current)) && fuel > 0
    ensures var cs := CallsFrom(rule, g, order, current, Neighbours(g, order, current), 0, Mark(targets, current), path, fuel - 1);
      var o := Visit(rule, g, order, current, targets, path, fuel).route;
      && (o.None? <==> cs.aborted)
      && (!cs.aborted ==> (o == Some([]) <==> forall k :: 0 <= k < |cs.routes| ==> !Eligible(cs.routes[k], MaxLen)))
      && (!cs.aborted && o != Some([]) ==> exists j :: 0 <= j < |cs.routes| && LastShortest(cs.routes, MaxLen, j) && o == Some(cs.routes[j]))
  {
    var nbrs := Neighbours(g, order, current);
    ScanSelects(rule, g, order, current, nbrs, 0, Mark(targets, current), path, fuel - 1, MaxLen, []);
    SelectsFromEmpty(Visit(rule, g, order, current, targets, path, fuel).route,
                     CallsFrom(rule, g, order, current, nbrs, 0, Mark(targets, current), path, fuel - 1));
  }

  /** Starting from the empty best, the loop's result is empty exactly when
      no call returned an eligible route. */
  lemma SelectsFromEmpty(o: Option<seq<string>>, cs: Calls)
    requires Selects(o, cs, MaxLen, [])
    ensures !cs.aborted ==> (o == Some([]) <==> forall k :: 0 <= k < |cs.routes| ==> !Eligible(cs.routes[k], MaxLen))
    ensures !cs.aborted && o != Some([]) ==> exists j :: 0 <= j < |cs.routes| && LastShortest(cs.routes, MaxLen, j) && o == Some(cs.routes[j])
  {
    if !cs.aborted && exists k :: 0 <= k < |cs.routes| && Eligible(cs.routes[k], MaxLen) {
      var j :| 0 <= j < |cs.routes| && LastShortest(cs.routes, MaxLen, j) && o == Some(cs.routes[j]);
      assert o != Some([]);
    }
  }

  // ---------------------------------------------------------------------
  // Reaching the targets

  /** Every target not reached in `targets` lies on `r`. */
  predicate Covers(targets: map<string, bool>, r: seq<string>) {
    forall k :: k in targets && !targets[k] ==> k in r
  }

  /** With isolated targets, a non-empty route of a call continues its path
      through every target the call started without. */
  lemma {:induction false} VisitReaches<T>(g: Graph<T>, order: seq<string>, current: string,
                                           targets: map<string, bool>, path: seq<string>, fuel: nat)
    ensures var o := Visit(IsolatedTargets, g, order, current, targets, path, fuel);
      o.route.Some? && o.route.value != [] ==> |o.route.value| > |path| && Covers(targets, o.route.value[|path|..])
    decreases fuel, 0
  {
    var t := Mark(targets, current);
    var o := Visit(IsolatedTargets, g, order, current, targets, path, fuel);
    if AllReached(t) {
      AppendedTail(path, current);
    } else if fuel > 0 && o.route.Some? && o.route.value != [] {
      var nbrs := Neighbours(g, order, current);
      var r := o.route.value;
      assert Covers(t, r[|path| + 1..]) by {
        assert o == Scan(IsolatedTargets, g, order, current, nbrs, 0, t, path, fuel - 1, MaxLen, []);
        ScanReaches(g, order, current, nbrs, 0, t, path, fuel - 1, MaxLen, []);
      }
      assert Routed(g, path, current, r);
      CoversFrom(targets, current, r, |path|);
    }
  }

  lemma AppendedTail(path: seq<string>, current: string)
    ensures (path + [current])[|path|..] == [current]
  {
  }

  /** A route through `current` whose rest covers the targets left after
      marking `current` covers the targets. */
  lemma CoversFrom(targets: map<string, bool>, current: string, r: seq<string>, n: nat)
    requires n < |r| && r[n] == current && Covers(Mark(targets, current), r[n + 1..])
    ensures Covers(targets, r[n..])
  {
    assert r[n..] == [current] + r[n + 1..];
    forall k | k in targets && !targets[k]
      ensures k in r[n..]
    {
      if k != current {
        assert !Mark(targets, current)[k];
      }
    }
  }

  lemma {:induction false} ScanReaches<T>(g: Graph<T>, order: seq<string>, current: string, nbrs: seq<string>, i: nat,
                                          targets: map<string, bool>, path: seq<string>, fuel: nat,
                                          bestLen: int, best: seq<string>)
    requires i <= |nbrs| && forall v :: v in nbrs ==> Edge(g, current, v)
    requires Found(IsolatedTargets, g, path, current, best)
    requires best != [] ==> Covers(targets, best[|path| + 1..])
    ensures var o := Scan(IsolatedTargets, g, order, current, nbrs, i, targets, path, fuel, bestLen, best);
      o.route.Some? && o.route.value != [] ==> Covers(targets, o.route.value[|path| + 1..])
    decreases fuel, 1, |nbrs| - i
  {
    if i < |nbrs| {
      var next := nbrs[i];
      var cp := path + [current];
      if next in cp {
        ScanReaches(g, order, current, nbrs, i + 1, targets, path, fuel, bestLen, best);
      } else {
        var c := Visit(IsolatedTargets, g, order, next, targets, cp, fuel);
        VisitReaches(g, order, next, targets, cp, fuel);
        if c.route.Some? {
          var r := c.route.value;
          if Eligible(r, bestLen) {
            FoundChild(IsolatedTargets, g, path, current, next, r);
            ScanReaches(g, order, current, nbrs, i + 1, targets, path, fuel, |r|, r);
          } else {
            ScanReaches(g, order, current, nbrs, i + 1, targets, path, fuel, bestLen, best);
          }
        }
      }
    }
  }

  /** The scan of `path` for `node` (graph-path.go:45-52): it does not stop
      at the first match. */
  method InPath(path: seq<string>, node: string) returns (visited: bool)
    ensures visited <==> node in path
  {
    visited := false;
    for j := 0 to |path|
      invariant visited <==> node in path[..j]
    {
      assert path[..j + 1] == path[..j] + [path[j]];
      if path[j] == node {
        visited := true;
      }
    }
    assert path[..|path|] == path;
  }

  /** The check of graph-path.go:13-28: false at the first target not yet
      reached. */
  method ReachedAll(targets: map<string, bool>) returns (reachedAll: bool)
    ensures reachedAll == AllReached(targets)
  {
    reachedAll := true;
    var unseen := targets.Keys;
    while unseen != {}
      invariant unseen <= targets.Keys
      invariant reachedAll
      invariant forall k :: k in targets && k !in unseen ==> targets[k]
      decreases unseen
    {
      var k :| k in unseen;
      if !targets[k] {
        reachedAll := false;
        break;
      }
      unseen := unseen - {k};
    }
  }

  /** `getPath`: marks `current`, returns `path + [current]` once every
      target is reached, and otherwise keeps the shortest non-empty result
      of the unvisited neighbours, the last one among equals (`VisitSelects`
      states the rule). With `SamePath` it passes `path` and the targets map
      on unchanged, as written. */
  method GetPath<T>(rule: Recursion, g: Graph<T>, order: seq<string>, current: string, targets: TargetFlags,
                    path: seq<string>, fuel: nat) returns (r: Option<seq<string>>)
    modifies targets
    ensures Outcome(r, targets.flags) == Visit(rule, g, order, current, old(targets.flags), path, fuel)
    decreases fuel, 0
  {
    if current in targets.flags {
      targets.flags := targets.flags[current := true];
    }
    var reachedAll := ReachedAll(targets.flags);
    if reachedAll {
      return Some(path + [current]);
    }
    if fuel == 0 {
      return None;
    }
    r := ShortestCandidate(rule, g, order, current, targets, path, fuel - 1);
  }

  /** The neighbour loop of `getPath` (graph-path.go:35-75). */
  method ShortestCandidate<T>(rule: Recursion, g: Graph<T>, order: seq<string>, current: string, targets: TargetFlags,
                              path: seq<string>, fuel: nat) returns (r: Option<seq<string>>)
    modifies targets
    ensures Outcome(r, targets.flags)
      == Scan(rule, g, order, current, Neighbours(g, order, current), 0, old(targets.flags), path, fuel, MaxLen, [])
    decreases fuel, 2
  {
    var shortestPathLen := MaxLen;
    var shortestPath: seq<string> := [];
    var nbrs := Neighbours(g, order, current);
    for i := 0 to |nbrs|
      invariant Found(rule, g, path, current, shortestPath)
      invariant Scan(rule, g, order, current, nbrs, i, targets.flags, path, fuel, shortestPathLen, shortestPath)
        == Scan(rule, g, order, current, nbrs, 0, old(targets.flags), path, fuel, MaxLen, [])
    {
      var stop;
      stop, shortestPathLen, shortestPath :=
        SearchNeighbour(rule, g, order, current, nbrs, i, targets, path, fuel, shortestPathLen, shortestPath);
      if stop {
        return None;
      }
    }
    return Some(shortestPath);
  }

  /** One turn of the neighbour loop: skip the i-th neighbour when it is in
      the path, else search it and keep its route when it is non-empty and
      no longer than the best so far; `stop` when that search hit the depth
      bound. */
  method SearchNeighbour<T>(rule: Recursion, g: Graph<T>, order: seq<string>, current: string, nbrs: seq<string>,
                            i: nat, targets: TargetFlags, path: seq<string>, fuel: nat,
                            bestLen: int, best: seq<string>)
    returns (stop: bool, bestLen': int, best': seq<string>)
    requires i < |nbrs| && forall v :: v in nbrs ==> Edge(g, current, v)
    requires Found(rule, g, path, current, best)
    modifies targets
    ensures Found(rule, g, path, current, best')
    ensures stop ==> Scan(rule, g, order, current, nbrs, i, old(targets.flags), path, fuel, bestLen, best)
                     == Outcome(None, targets.flags)
    ensures !stop ==> Scan(rule, g, order, current, nbrs, i, old(targets.flags), path, fuel, bestLen, best)
                      == Scan(rule, g, order, current, nbrs, i + 1, targets.flags, path, fuel, bestLen', best')
    decreases fuel, 1
  {
    var nextNode := nbrs[i];
    var childPath := ChildPath(rule, path, current);
    var visited := InPath(childPath, nextNode);
    var before := targets.flags;
    bestLen', best' := bestLen, best;
    if visited {
      ScanStep(rule, g, order, current, nbrs, i, before, path, fuel, bestLen, best, before, bestLen, best);
      return false, bestLen', best';
    }
    var newPath := GetPath(rule, g, order, nextNode, targets, childPath, fuel);
    if newPath.None? {
      ScanAbort(rule, g, order, current, nbrs, i, before, path, fuel, bestLen, best);
      return true, bestLen', best';
    }
    if rule == IsolatedTargets {
      targets.flags := before;
    }
    if 0 < |newPath.value| <= bestLen {
      bestLen', best' := |newPath.value|, newPath.value;
    }
    ScanStep(rule, g, order, current, nbrs, i, before, path, fuel, bestLen, best, targets.flags, bestLen', best');
    stop := false;
  }

  /** As written, a search started with an empty path returns no system or
      exactly one: the route it walked is never accumulated. On the height
      fixture, hs5 is 4 hops from hs1, yet the search from hs1 for hs5
      returns at most one system. */
  lemma AsWrittenFixtureHs1ToHs5(order: seq<string>, fuel: nat)
    ensures "hs5" in DistGraph(HsGraph, "hs1") && DistGraph(HsGraph, "hs1")["hs5"] == 4
    ensures var o := Visit(SamePath, HsGraph, order, "hs1", map["hs5" := false], [], fuel);
      o.route.Some? ==> |o.route.value| <= 1
  {
    assert "hs5" in DistGraph(HsGraph, "hs1") && DistGraph(HsGraph, "hs1")["hs5"] == 4 by {
      DistFromHs1();
    }
    AsWrittenAtMostOne(HsGraph, order, "hs1", map["hs5" := false], fuel);
  }

  /** As written, a search started with an empty path returns no system or
      exactly one. */
  lemma AsWrittenAtMostOne<T>(g: Graph<T>, order: seq<string>, s: string, targets: map<string, bool>, fuel: nat)
    ensures var o := Visit(SamePath, g, order, s, targets, [], fuel);
      o.route.Some? ==> |o.route.value| <= 1
  {
  }

  /** Corrected (each call passes its path extended with its own node): a
      non-empty result starts at the start node and continues along edges of
      the graph. */
  lemma CorrectedSearchWalks<T>(rule: Recursion, g: Graph<T>, order: seq<string>, s: string, targets: map<string, bool>, fuel: nat)
    requires rule != SamePath
    ensures var o := Visit(rule, g, order, s, targets, [], fuel);
      o.route.Some? && o.route.value != [] ==> o.route.value[0] == s && IsWalk(g, s, o.route.value[1..])
  {
  }

  /** Corrected (extended paths, and every neighbour searched from the
      targets its call started with): a non-empty result is a walk from the
      start node through every target. */
  lemma CorrectedSearchReaches<T>(g: Graph<T>, order: seq<string>, s: string, targets: map<string, bool>, fuel: nat)
    ensures var o := Visit(IsolatedTargets, g, order, s, targets, [], fuel);
      o.route.Some? && o.route.value != [] ==>
        && o.route.value[0] == s && IsWalk(g, s, o.route.value[1..])
        && Covers(targets, o.route.value)
  {
    VisitReaches(g, order, s, targets, [], fuel);
    var o := Visit(IsolatedTargets, g, order, s, targets, [], fuel);
    if o.route.Some? && o.route.value != [] {
      assert o.route.value[0..] == o.route.value;
    }
  }

  /** A graph on which the shared targets go wrong: "t" lies past "a" only.
      The failure needs "a" to be visited before "b", as `ProbeOrder` fixes. */
  const Probe: Graph<bool> := map["s" := map["a" := true, "b" := true], "a" := map["t" := true]]
  const ProbeOrder := ["a", "b", "t"]

  /** As written, the map of targets is shared by sibling searches: once
      the search through "a" has reached "t", the search through "b" finds
      every target reached and returns the shorter route ["s", "b"], which
      does not reach "t". Searching every neighbour from the targets its
      call started with returns ["s", "a", "t"]. */
  lemma SharedTargetsMissTarget(fuel: nat)
    requires fuel >= 2
    ensures Visit(ExtendedPath, Probe, ProbeOrder, "s", map["t" := false], [], fuel).route == Some(["s", "b"])
    ensures Visit(IsolatedTargets, Probe, ProbeOrder, "s", map["t" := false], [], fuel).route == Some(["s", "a", "t"])
  {
    ProbeNeighbours();
    assert Visit(ExtendedPath, Probe, ProbeOrder, "s", map["t" := false], [], fuel).route == Some(["s", "b"]) by {
      ProbeShared(fuel - 1);
      ProbeStart(ExtendedPath, fuel);
    }
    assert Visit(IsolatedTargets, Probe, ProbeOrder, "s", map["t" := false], [], fuel).route == Some(["s", "a", "t"]) by {
      ProbeIsolated(fuel - 1);
      ProbeStart(IsolatedTargets, fuel);
    }
  }

  /** The search from "s" is its neighbour loop. */
  lemma ProbeStart(rule: Recursion, fuel: nat)
    requires fuel >= 1 && Neighbours(Probe, ProbeOrder, "s") == ["a", "b"]
    ensures Visit(rule, Probe, ProbeOrder, "s", map["t" := false], [], fuel)
         == Scan(rule, Probe, ProbeOrder, "s", ["a", "b"], 0, map["t" := false], [], fuel - 1, MaxLen, [])
  {
    var t := Mark(map["t" := false], "s");
    assert "t" in t && !t["t"];
  }

  /** The neighbour loop at "s" with the shared targets. */
  lemma ProbeShared(fuel: nat)
    requires fuel >= 1
    requires Neighbours(Probe, ProbeOrder, "a") == ["t"]
    ensures Scan(ExtendedPath, Probe, ProbeOrder, "s", ["a", "b"], 0, map["t" := false], [], fuel, MaxLen, []).route == Some(["s", "b"])
  {
    var open, done := map["t" := false], map["t" := true];
    assert ChildPath(ExtendedPath, [], "s") == ["s"];
    ProbeBranchA(ExtendedPath, fuel);
    ProbeSharedB(fuel);
    ScanStep(ExtendedPath, Probe, ProbeOrder, "s", ["a", "b"], 0, open, [], fuel, MaxLen, [], done, 3, ["s", "a", "t"]);
    ScanStep(ExtendedPath, Probe, ProbeOrder, "s", ["a", "b"], 1, done, [], fuel, 3, ["s", "a", "t"], done, 2, ["s", "b"]);
  }

  /** The neighbour loop at "s" with isolated targets. */
  lemma ProbeIsolated(fuel: nat)
    requires fuel >= 1
    requires Neighbours(Probe, ProbeOrder, "a") == ["t"] && Neighbours(Probe, ProbeOrder, "b") == []
    ensures Scan(IsolatedTargets, Probe, ProbeOrder, "s", ["a", "b"], 0, map["t" := false], [], fuel, MaxLen, []).route == Some(["s", "a", "t"])
  {
    var open := map["t" := false];
    assert ChildPath(IsolatedTargets, [], "s") == ["s"];
    ProbeBranchA(IsolatedTargets, fuel);
    ProbeIsolatedB(fuel);
    ScanStep(IsolatedTargets, Probe, ProbeOrder, "s", ["a", "b"], 0, open, [], fuel, MaxLen, [], open, 3, ["s", "a", "t"]);
    ScanStep(IsolatedTargets, Probe, ProbeOrder, "s", ["a", "b"], 1, open, [], fuel, 3, ["s", "a", "t"], open, 3, ["s", "a", "t"]);
  }

  /** As written, the route a search returns can be a single system that
      is not a target: on the probe graph, visiting "a" before "b", the
      search from "s" for "t" returns ["b"]. */
  lemma AsWrittenProbeOneSystem(fuel: nat)
    requires fuel >= 2
    ensures Visit(SamePath, Probe, ProbeOrder, "s", map["t" := false], [], fuel).route == Some(["b"])
  {
    ProbeNeighbours();
    ProbeStart(SamePath, fuel);
    ProbeSameLoop(fuel - 1);
  }

  /** The as-written neighbour loop at "s": "a" returns ["t"], then "b",
      with "t" already reached, returns itself and, as short, replaces it. */
  lemma ProbeSameLoop(fuel: nat)
    requires fuel >= 1 && Neighbours(Probe, ProbeOrder, "a") == ["t"]
    ensures Scan(SamePath, Probe, ProbeOrder, "s", ["a", "b"], 0, map["t" := false], [], fuel, MaxLen, []).route == Some(["b"])
  {
    var open, done := map["t" := false], map["t" := true];
    assert Scan(SamePath, Probe, ProbeOrder, "s", ["a", "b"], 0, open, [], fuel, MaxLen, [])
        == Scan(SamePath, Probe, ProbeOrder, "s", ["a", "b"], 1, done, [], fuel, 1, ["t"]) by {
      ProbeSameA(fuel);
      ScanStep(SamePath, Probe, ProbeOrder, "s", ["a", "b"], 0, open, [], fuel, MaxLen, [], done, 1, ["t"]);
    }
    assert Mark(done, "b") == done;
    ScanStep(SamePath, Probe, ProbeOrder, "s", ["a", "b"], 1, done, [], fuel, 1, ["t"], done, 1, ["b"]);
  }

  /** As written, the search through "a" returns just ["t"]. */
  lemma ProbeSameA(fuel: nat)
    requires fuel >= 1 && Neighbours(Probe, ProbeOrder, "a") == ["t"]
    ensures Visit(SamePath, Probe, ProbeOrder, "a", map["t" := false], [], fuel) == Outcome(Some(["t"]), map["t" := true])
  {
    var open, done := map["t" := false], map["t" := true];
    var t := Mark(open, "a");
    assert "t" in t && !t["t"];
    assert Mark(open, "t") == done;
    ScanStep(SamePath, Probe, ProbeOrder, "a", ["t"], 0, open, [], fuel - 1, MaxLen, [], done, 1, ["t"]);
  }

  lemma ProbeNeighbours()
    ensures Neighbours(Probe, ProbeOrder, "s") == ["a", "b"]
    ensures Neighbours(Probe, ProbeOrder, "a") == ["t"]
    ensures Neighbours(Probe, ProbeOrder, "b") == []
  {
    var sk, ak := Probe["s"].Keys, Probe["a"].Keys;
    assert sk == {"a", "b"} && ak == {"t"};
    assert Select(["t"], sk) == [];
    assert Select(["b", "t"], sk) == ["b"];
    assert Select(ProbeOrder, sk) == ["a", "b"];
    assert Select(["t"], ak) == ["t"];
    assert Select(["b", "t"], ak) == ["t"];
    assert Select(ProbeOrder, ak) == ["t"];
  }

  /** The search through "a" on the probe graph reaches "t". */
  lemma ProbeBranchA(rule: Recursion, fuel: nat)
    requires rule != SamePath && fuel >= 1 && Neighbours(Probe, ProbeOrder, "a") == ["t"]
    ensures var c := Visit(rule, Probe, ProbeOrder, "a", map["t" := false], ["s"], fuel);
      c.route == Some(["s", "a", "t"]) && (rule == ExtendedPath ==> c.flags == map["t" := true])
  {
    var open := map["t" := false];
    assert ChildPath(rule, ["s"], "a") == ["s", "a"];
    assert Mark(open, "t") == map["t" := true];
    assert ["s", "a"] + ["t"] == ["s", "a", "t"];
    var ct := Visit(rule, Probe, ProbeOrder, "t", open, ["s", "a"], fuel - 1);
    assert ct == Outcome(Some(["s", "a", "t"]), map["t" := true]);
    ScanStep(rule, Probe, ProbeOrder, "a", ["t"], 0, open, ["s"], fuel - 1, MaxLen, [], Passed(rule, open, ct.flags), 3, ["s", "a", "t"]);
  }

  lemma ProbeSharedB(fuel: nat)
    ensures Visit(ExtendedPath, Probe, ProbeOrder, "b", map["t" := true], ["s"], fuel).route == Some(["s", "b"])
  {
    assert AllReached(Mark(map["t" := true], "b"));
    assert ["s"] + ["b"] == ["s", "b"];
  }

  lemma ProbeIsolatedB(fuel: nat)
    requires fuel >= 1 && Neighbours(Probe, ProbeOrder, "b") == []
    ensures Visit(IsolatedTargets, Probe, ProbeOrder, "b", map["t" := false], ["s"], fuel).route == Some([])
  {
    var t := Mark(map["t" := false], "b");
    assert "t" in t && !t["t"];
  }
}
