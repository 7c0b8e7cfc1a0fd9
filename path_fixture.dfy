/**
 * The seven-system height graph of transformations/path_test.go and the
 * routes its tests expect, derived from the resolver's contracts.
 *
 *   hs1---hs2---[grid]---hs3
 *          |              |
 *         hs4    hs5     hs6
 *           \     |      /
 *            \---hs7--[grid]
 */
module PathFixture {
  import opened Wrappers
  import opened Config
  import opened Graphs
  import opened PathSearch

  function Plane(name: string, direction: real): HSTransformation {
    HSTransformation("plane", name, direction)
  }

  function Grid(name: string, direction: real): HSTransformation {
    HSTransformation("grid", name, direction)
  }

  const DefaultPlane := HPlaneTransformation(0.0, 0.0, 0.0, 0.0, 0.0)
  const DefaultGrid := HGridTransformation("dbpath", 0.0, 0.0, 100.0)

  const HsGraph: Graph<HSTransformation> := map[
    "hs1" := map["hs2" := Plane("ptr12", 1.0)],
    "hs2" := map["hs1" := Plane("ptr12", -1.0), "hs3" := Grid("gtr23", 1.0), "hs4" := Plane("ptr24", 1.0)],
    "hs3" := map["hs2" := Grid("gtr23", -1.0), "hs6" := Plane("ptr36", 1.0)],
    "hs4" := map["hs2" := Plane("ptr24", -1.0), "hs7" := Plane("ptr47", 1.0)],
    "hs5" := map["hs7" := Plane("ptr57", 1.0)],
    "hs6" := map["hs3" := Plane("ptr36", -1.0), "hs7" := Grid("gtr67", 1.0)],
    "hs7" := map["hs4" := Plane("ptr47", -1.0), "hs5" := Grid("gtr57", -1.0), "hs6" := Grid("gtr67", -1.0)]
  ]

  const Methods := TransformationMethods(
    map["gtr23" := DefaultGrid, "gtr67" := DefaultGrid],
    map["ptr12" := DefaultPlane, "ptr24" := DefaultPlane, "ptr36" := DefaultPlane,
        "ptr47" := DefaultPlane, "ptr57" := DefaultPlane])

  /** The ids in sorted order: the tie-break order of the routes below. */
  const Order := ["hs1", "hs2", "hs3", "hs4", "hs5", "hs6", "hs7"]

  /** The graph's edges as a set of pairs. */
  const EdgeList: set<(string, string)> := {
    ("hs1", "hs2"),
    ("hs2", "hs1"), ("hs2", "hs3"), ("hs2", "hs4"),
    ("hs3", "hs2"), ("hs3", "hs6"),
    ("hs4", "hs2"), ("hs4", "hs7"),
    ("hs5", "hs7"),
    ("hs6", "hs3"), ("hs6", "hs7"),
    ("hs7", "hs4"), ("hs7", "hs5"), ("hs7", "hs6")
  }

  /** `es` lists exactly the edges of `g`. */
  ghost predicate EdgesAre<T>(g: Graph<T>, es: set<(string, string)>) {
    forall u, v :: Edge(g, u, v) <==> (u, v) in es
  }

  lemma FixtureEdges()
    ensures EdgesAre(HsGraph, EdgeList)
  {
    forall u, v ensures Edge(HsGraph, u, v) <==> (u, v) in EdgeList {
      EdgePair(u, v);
    }
  }

  lemma EdgePair(u: string, v: string)
    ensures Edge(HsGraph, u, v) <==> (u, v) in EdgeList
  {
  }

  /** IsDistMap stated over a listed edge set. */
  ghost predicate IsDistMapOn(es: set<(string, string)>, s: string, d: map<string, nat>) {
    && s in d && d[s] == 0
    && (forall v :: v in d && v != s ==> d[v] > 0 && exists u :: u in d && d[u] + 1 == d[v] && (u, v) in es)
    && (forall u, v :: u in d && (u, v) in es ==> v in d && d[v] <= d[u] + 1)
  }

  lemma DistMapOn<T>(g: Graph<T>, es: set<(string, string)>, s: string, d: map<string, nat>)
    requires EdgesAre(g, es) && IsDistMapOn(es, s, d)
    ensures DistGraph(g, s) == d
  {
    assert IsDistMap(g, s, d);
    DistUnique(g, s, DistGraph(g, s), d);
  }

  /** Every node but `s` has its listed predecessor one level up. */
  ghost predicate PredsListed(es: set<(string, string)>, s: string, d: map<string, nat>, pred: map<string, string>) {
    forall v :: v in d && v != s ==> d[v] > 0 && v in pred && pred[v] in d && d[pred[v]] + 1 == d[v] && (pred[v], v) in es
  }

  ghost predicate ClosedOn(es: set<(string, string)>, d: map<string, nat>) {
    forall u, v :: u in d && (u, v) in es ==> v in d && d[v] <= d[u] + 1
  }

  /** A listed map of hop counts, checked edge by edge, is distGraph's result. */
  lemma FixtureDist(s: string, d: map<string, nat>, pred: map<string, string>)
    requires s in d && d[s] == 0 && PredsListed(EdgeList, s, d, pred) && ClosedOn(EdgeList, d)
    ensures DistGraph(HsGraph, s) == d
  {
    forall v | v in d && v != s
      ensures d[v] > 0 && exists u :: u in d && d[u] + 1 == d[v] && (u, v) in EdgeList
    {
      assert pred[v] in d && d[pred[v]] + 1 == d[v] && (pred[v], v) in EdgeList;
    }
    FixtureEdges();
    DistMapOn(HsGraph, EdgeList, s, d);
  }

  const D1 := map["hs1" := 0, "hs2" := 1, "hs3" := 2, "hs4" := 2, "hs5" := 4, "hs6" := 3, "hs7" := 3]
  const D2 := map["hs1" := 1, "hs2" := 0, "hs3" := 1, "hs4" := 1, "hs5" := 3, "hs6" := 2, "hs7" := 2]
  const D3 := map["hs1" := 2, "hs2" := 1, "hs3" := 0, "hs4" := 2, "hs5" := 3, "hs6" := 1, "hs7" := 2]
  const D4 := map["hs1" := 2, "hs2" := 1, "hs3" := 2, "hs4" := 0, "hs5" := 2, "hs6" := 2, "hs7" := 1]
  const D5 := map["hs1" := 4, "hs2" := 3, "hs3" := 3, "hs4" := 2, "hs5" := 0, "hs6" := 2, "hs7" := 1]
  const D6 := map["hs1" := 3, "hs2" := 2, "hs3" := 1, "hs4" := 2, "hs5" := 2, "hs6" := 0, "hs7" := 1]
  const D7 := map["hs1" := 3, "hs2" := 2, "hs3" := 2, "hs4" := 1, "hs5" := 1, "hs6" := 1, "hs7" := 0]

  lemma Preds1()
    ensures PredsListed(EdgeList, "hs1", D1, map["hs2" := "hs1", "hs3" := "hs2", "hs4" := "hs2", "hs6" := "hs3", "hs7" := "hs4", "hs5" := "hs7"])
  {
    var pred := map["hs2" := "hs1", "hs3" := "hs2", "hs4" := "hs2", "hs6" := "hs3", "hs7" := "hs4", "hs5" := "hs7"];
    forall v | v in D1 && v != "hs1"
      ensures D1[v] > 0 && v in pred && pred[v] in D1 && D1[pred[v]] + 1 == D1[v] && (pred[v], v) in EdgeList
    {
      assert v == "hs2" || v == "hs3" || v == "hs4" || v == "hs5" || v == "hs6" || v == "hs7";
    }
  }

  lemma Closed1()
    ensures ClosedOn(EdgeList, D1)
  {
    forall u, v | u in D1 && (u, v) in EdgeList ensures v in D1 && D1[v] <= D1[u] + 1 {
    }
  }

  lemma Preds2()
    ensures PredsListed(EdgeList, "hs2", D2, map["hs1" := "hs2", "hs3" := "hs2", "hs4" := "hs2", "hs6" := "hs3", "hs7" := "hs4", "hs5" := "hs7"])
  {
    var pred := map["hs1" := "hs2", "hs3" := "hs2", "hs4" := "hs2", "hs6" := "hs3", "hs7" := "hs4", "hs5" := "hs7"];
    forall v | v in D2 && v != "hs2"
      ensures D2[v] > 0 && v in pred && pred[v] in D2 && D2[pred[v]] + 1 == D2[v] && (pred[v], v) in EdgeList
    {
      assert v == "hs1" || v == "hs3" || v == "hs4" || v == "hs5" || v == "hs6" || v == "hs7";
    }
  }

  lemma Closed2()
    ensures ClosedOn(EdgeList, D2)
  {
    forall u, v | u in D2 && (u, v) in EdgeList ensures v in D2 && D2[v] <= D2[u] + 1 {
    }
  }

  lemma Preds3()
    ensures PredsListed(EdgeList, "hs3", D3, map["hs2" := "hs3", "hs6" := "hs3", "hs1" := "hs2", "hs4" := "hs2", "hs7" := "hs6", "hs5" := "hs7"])
  {
    var pred := map["hs2" := "hs3", "hs6" := "hs3", "hs1" := "hs2", "hs4" := "hs2", "hs7" := "hs6", "hs5" := "hs7"];
    forall v | v in D3 && v != "hs3"
      ensures D3[v] > 0 && v in pred && pred[v] in D3 && D3[pred[v]] + 1 == D3[v] && (pred[v], v) in EdgeList
    {
      assert v == "hs1" || v == "hs2" || v == "hs4" || v == "hs5" || v == "hs6" || v == "hs7";
    }
  }

  lemma Closed3()
    ensures ClosedOn(EdgeList, D3)
  {
    forall u, v | u in D3 && (u, v) in EdgeList ensures v in D3 && D3[v] <= D3[u] + 1 {
    }
  }

  lemma Preds4()
    ensures PredsListed(EdgeList, "hs4", D4, map["hs2" := "hs4", "hs7" := "hs4", "hs1" := "hs2", "hs3" := "hs2", "hs5" := "hs7", "hs6" := "hs7"])
  {
    var pred := map["hs2" := "hs4", "hs7" := "hs4", "hs1" := "hs2", "hs3" := "hs2", "hs5" := "hs7", "hs6" := "hs7"];
    forall v | v in D4 && v != "hs4"
      ensures D4[v] > 0 && v in pred && pred[v] in D4 && D4[pred[v]] + 1 == D4[v] && (pred[v], v) in EdgeList
    {
      assert v == "hs1" || v == "hs2" || v == "hs3" || v == "hs5" || v == "hs6" || v == "hs7";
    }
  }

  lemma Closed4()
    ensures ClosedOn(EdgeList, D4)
  {
    forall u, v | u in D4 && (u, v) in EdgeList ensures v in D4 && D4[v] <= D4[u] + 1 {
    }
  }

  lemma Preds5()
    ensures PredsListed(EdgeList, "hs5", D5, map["hs7" := "hs5", "hs4" := "hs7", "hs6" := "hs7", "hs2" := "hs4", "hs3" := "hs6", "hs1" := "hs2"])
  {
    var pred := map["hs7" := "hs5", "hs4" := "hs7", "hs6" := "hs7", "hs2" := "hs4", "hs3" := "hs6", "hs1" := "hs2"];
    forall v | v in D5 && v != "hs5"
      ensures D5[v] > 0 && v in pred && pred[v] in D5 && D5[pred[v]] + 1 == D5[v] && (pred[v], v) in EdgeList
    {
      assert v == "hs1" || v == "hs2" || v == "hs3" || v == "hs4" || v == "hs6" || v == "hs7";
    }
  }

  lemma Closed5()
    ensures ClosedOn(EdgeList, D5)
  {
    forall u, v | u in D5 && (u, v) in EdgeList ensures v in D5 && D5[v] <= D5[u] + 1 {
    }
  }

  lemma Preds6()
    ensures PredsListed(EdgeList, "hs6", D6, map["hs3" := "hs6", "hs7" := "hs6", "hs2" := "hs3", "hs4" := "hs7", "hs5" := "hs7", "hs1" := "hs2"])
  {
    var pred := map["hs3" := "hs6", "hs7" := "hs6", "hs2" := "hs3", "hs4" := "hs7", "hs5" := "hs7", "hs1" := "hs2"];
    forall v | v in D6 && v != "hs6"
      ensures D6[v] > 0 && v in pred && pred[v] in D6 && D6[pred[v]] + 1 == D6[v] && (pred[v], v) in EdgeList
    {
      assert v == "hs1" || v == "hs2" || v == "hs3" || v == "hs4" || v == "hs5" || v == "hs7";
    }
  }

  lemma Closed6()
    ensures ClosedOn(EdgeList, D6)
  {
    forall u, v | u in D6 && (u, v) in EdgeList ensures v in D6 && D6[v] <= D6[u] + 1 {
    }
  }

  lemma Preds7()
    ensures PredsListed(EdgeList, "hs7", D7, map["hs4" := "hs7", "hs5" := "hs7", "hs6" := "hs7", "hs2" := "hs4", "hs3" := "hs6", "hs1" := "hs2"])
  {
    var pred := map["hs4" := "hs7", "hs5" := "hs7", "hs6" := "hs7", "hs2" := "hs4", "hs3" := "hs6", "hs1" := "hs2"];
    forall v | v in D7 && v != "hs7"
      ensures D7[v] > 0 && v in pred && pred[v] in D7 && D7[pred[v]] + 1 == D7[v] && (pred[v], v) in EdgeList
    {
      assert v == "hs1" || v == "hs2" || v == "hs3" || v == "hs4" || v == "hs5" || v == "hs6";
    }
  }

  lemma Closed7()
    ensures ClosedOn(EdgeList, D7)
  {
    forall u, v | u in D7 && (u, v) in EdgeList ensures v in D7 && D7[v] <= D7[u] + 1 {
    }
  }

  /** The hop counts TestDist expects from each of the seven systems. */
  lemma DistFromHs1()
    ensures DistGraph(HsGraph, "hs1") == D1
  {
    Preds1();
    Closed1();
    FixtureDist("hs1", D1, map["hs2" := "hs1", "hs3" := "hs2", "hs4" := "hs2", "hs6" := "hs3", "hs7" := "hs4", "hs5" := "hs7"]);
  }

  lemma DistFromHs2()
    ensures DistGraph(HsGraph, "hs2") == D2
  {
    Preds2();
    Closed2();
    FixtureDist("hs2", D2, map["hs1" := "hs2", "hs3" := "hs2", "hs4" := "hs2", "hs6" := "hs3", "hs7" := "hs4", "hs5" := "hs7"]);
  }

  lemma DistFromHs3()
    ensures DistGraph(HsGraph, "hs3") == D3
  {
    Preds3();
    Closed3();
    FixtureDist("hs3", D3, map["hs2" := "hs3", "hs6" := "hs3", "hs1" := "hs2", "hs4" := "hs2", "hs7" := "hs6", "hs5" := "hs7"]);
  }

  lemma DistFromHs4()
    ensures DistGraph(HsGraph, "hs4") == D4
  {
    Preds4();
    Closed4();
    FixtureDist("hs4", D4, map["hs2" := "hs4", "hs7" := "hs4", "hs1" := "hs2", "hs3" := "hs2", "hs5" := "hs7", "hs6" := "hs7"]);
  }

  lemma DistFromHs5()
    ensures DistGraph(HsGraph, "hs5") == D5
  {
    Preds5();
    Closed5();
    FixtureDist("hs5", D5, map["hs7" := "hs5", "hs4" := "hs7", "hs6" := "hs7", "hs2" := "hs4", "hs3" := "hs6", "hs1" := "hs2"]);
  }

  lemma DistFromHs6()
    ensures DistGraph(HsGraph, "hs6") == D6
  {
    Preds6();
    Closed6();
    FixtureDist("hs6", D6, map["hs3" := "hs6", "hs7" := "hs6", "hs2" := "hs3", "hs4" := "hs7", "hs5" := "hs7", "hs1" := "hs2"]);
  }

  lemma DistFromHs7()
    ensures DistGraph(HsGraph, "hs7") == D7
  {
    Preds7();
    Closed7();
    FixtureDist("hs7", D7, map["hs4" := "hs7", "hs5" := "hs7", "hs6" := "hs7", "hs2" := "hs4", "hs3" := "hs6", "hs1" := "hs2"]);
  }

  /** The node before step `i` of a walk from `a` along `p`. */
  function Prev(a: string, p: seq<string>, i: nat): string
    requires i < |p|
  {
    if i == 0 then a else p[i - 1]
  }

  lemma {:induction false} WalkPairs<T>(g: Graph<T>, es: set<(string, string)>, a: string, p: seq<string>)
    requires EdgesAre(g, es) && IsWalk(g, a, p)
    ensures forall i :: 0 <= i < |p| ==> (Prev(a, p, i), p[i]) in es
    decreases |p|
  {
    if |p| > 0 {
      WalkPairs(g, es, p[0], p[1..]);
      forall i | 0 < i < |p| ensures (Prev(a, p, i), p[i]) in es {
        assert Prev(a, p, i) == Prev(p[0], p[1..], i - 1);
      }
    }
  }

  /** The route findPath returns from `s` to `t`, with the hop counts of
      distGraph, as the tests call it. */
  function TestPath(s: string, t: string): Option<seq<string>>
    requires IsSystem(s)
  {
    FixtureCovers(s);
    CoversDist(Order, HsGraph, s, DistGraph(HsGraph, s));
    FindPath(HsGraph, DistGraph(HsGraph, s), Order, s, t)
  }

  /** What findPath's contract fixes about a route over listed edges. */
  lemma RouteSteps<T>(g: Graph<T>, es: set<(string, string)>, order: seq<string>, d: map<string, nat>, s: string, t: string)
    returns (r: seq<string>)
    requires EdgesAre(g, es) && IsDistMap(g, s, d) && (forall u :: u in d ==> u in order) && t in d
    ensures FindPath(g, d, order, s, t) == Some(r)
    ensures |r| == d[t] && Last(s, r) == t && Levels(d, r)
    ensures forall i :: 0 <= i < |r| ==> (Prev(s, r, i), r[i]) in es
  {
    r := FindPath(g, d, order, s, t).value;
    WalkPairs(g, es, s, r);
  }

  lemma FixtureRoute(d: map<string, nat>, s: string, t: string) returns (r: seq<string>)
    requires IsSystem(s) && DistGraph(HsGraph, s) == d && t in d
    ensures TestPath(s, t) == Some(r)
    ensures |r| == d[t] && Last(s, r) == t && Levels(d, r)
    ensures forall i :: 0 <= i < |r| ==> Prev(s, r, i) in Nbrs(r[i])
  {
    FixtureEdges();
    FixtureCovers(s);
    CoversDist(Order, HsGraph, s, d);
    r := RouteSteps(HsGraph, EdgeList, Order, d, s, t);
    forall i | 0 <= i < |r| ensures Prev(s, r, i) in Nbrs(r[i]) {
      EdgeNbrs(Prev(s, r, i), r[i]);
    }
  }

  /** The systems with an edge into `v`. */
  function Nbrs(v: string): set<string> {
    if v == "hs1" then {"hs2"}
    else if v == "hs2" then {"hs1", "hs3", "hs4"}
    else if v == "hs3" then {"hs2", "hs6"}
    else if v == "hs4" then {"hs2", "hs7"}
    else if v == "hs5" then {"hs7"}
    else if v == "hs6" then {"hs3", "hs7"}
    else if v == "hs7" then {"hs4", "hs5", "hs6"}
    else {}
  }

  lemma EdgeNbrs(u: string, v: string)
    requires (u, v) in EdgeList
    ensures u in Nbrs(v)
  {
  }

  lemma OrderAt()
    ensures |Order| == 7
    ensures Order[0] == "hs1" && Order[1] == "hs2" && Order[2] == "hs3" && Order[3] == "hs4"
    ensures Order[4] == "hs5" && Order[5] == "hs6" && Order[6] == "hs7"
  {
  }

  /** One of the seven systems of the fixture. */
  predicate IsSystem(s: string) {
    s == "hs1" || s == "hs2" || s == "hs3" || s == "hs4" || s == "hs5" || s == "hs6" || s == "hs7"
  }

  lemma SystemInOrder(v: string)
    requires IsSystem(v)
    ensures v in Order
  {
    OrderAt();
  }

  lemma EdgeEnds(u: string, v: string)
    requires (u, v) in EdgeList
    ensures IsSystem(v)
  {
  }

  /** `Order` lists every system of the graph. */
  lemma FixtureCovers(s: string)
    requires IsSystem(s)
    ensures Covers(Order, HsGraph, s)
  {
    FixtureEdges();
    SystemInOrder(s);
    forall v | v in Targets(HsGraph) ensures v in Order {
      var u :| u in HsGraph && v in HsGraph[u];
      assert Edge(HsGraph, u, v);
      EdgeEnds(u, v);
      SystemInOrder(v);
    }
  }

  /** What the contracts say about a route from `s` to `t` over the listed edges. */
  ghost predicate RouteFacts(d: map<string, nat>, s: string, t: string, r: seq<string>) {
    && t in d && |r| == d[t] && Last(s, r) == t && Levels(d, r)
    && forall i :: 0 <= i < |r| ==> Prev(s, r, i) in Nbrs(r[i])
  }

  lemma Route1to2(r: seq<string>)
    requires RouteFacts(D1, "hs1", "hs2", r)
    ensures r == ["hs2"]
  {
    assert r[0] == "hs2";
  }

  lemma Route1to3(r: seq<string>)
    requires RouteFacts(D1, "hs1", "hs3", r)
    ensures r == ["hs2", "hs3"]
  {
    assert r[1] == "hs3";
    assert r[0] in Nbrs("hs3");
    assert r[0] == "hs2";
  }

  lemma Route1to4(r: seq<string>)
    requires RouteFacts(D1, "hs1", "hs4", r)
    ensures r == ["hs2", "hs4"]
  {
    assert r[1] == "hs4";
    assert r[0] in Nbrs("hs4");
    assert r[0] == "hs2";
  }

  lemma Route1to5(r: seq<string>)
    requires RouteFacts(D1, "hs1", "hs5", r)
    ensures r == ["hs2", "hs4", "hs7", "hs5"]
  {
    assert r[3] == "hs5";
    assert r[2] in Nbrs("hs5");
    assert r[2] == "hs7";
    assert r[1] in Nbrs("hs7");
    assert r[1] == "hs4";
    assert r[0] in Nbrs("hs4");
    assert r[0] == "hs2";
  }

  lemma Route1to6(r: seq<string>)
    requires RouteFacts(D1, "hs1", "hs6", r)
    ensures r == ["hs2", "hs3", "hs6"]
  {
    assert r[2] == "hs6";
    assert r[1] in Nbrs("hs6");
    assert r[1] == "hs3";
    assert r[0] in Nbrs("hs3");
    assert r[0] == "hs2";
  }

  lemma Route1to7(r: seq<string>)
    requires RouteFacts(D1, "hs1", "hs7", r)
    ensures r == ["hs2", "hs4", "hs7"]
  {
    assert r[2] == "hs7";
    assert r[1] in Nbrs("hs7");
    assert r[1] == "hs4";
    assert r[0] in Nbrs("hs4");
    assert r[0] == "hs2";
  }

  lemma Route3to1(r: seq<string>)
    requires RouteFacts(D3, "hs3", "hs1", r)
    ensures r == ["hs2", "hs1"]
  {
    assert r[1] == "hs1";
    assert r[0] in Nbrs("hs1");
    assert r[0] == "hs2";
  }

  lemma Route3to2(r: seq<string>)
    requires RouteFacts(D3, "hs3", "hs2", r)
    ensures r == ["hs2"]
  {
    assert r[0] == "hs2";
  }

  lemma Route3to4(r: seq<string>)
    requires RouteFacts(D3, "hs3", "hs4", r)
    ensures r == ["hs2", "hs4"]
  {
    assert r[1] == "hs4";
    assert r[0] in Nbrs("hs4");
    assert r[0] == "hs2";
  }

  lemma Route3to5(r: seq<string>)
    requires RouteFacts(D3, "hs3", "hs5", r)
    ensures r == ["hs6", "hs7", "hs5"]
  {
    assert r[2] == "hs5";
    assert r[1] in Nbrs("hs5");
    assert r[1] == "hs7";
    assert r[0] in Nbrs("hs7");
    assert r[0] == "hs6";
  }

  lemma Route3to6(r: seq<string>)
    requires RouteFacts(D3, "hs3", "hs6", r)
    ensures r == ["hs6"]
  {
    assert r[0] == "hs6";
  }

  lemma Route3to7(r: seq<string>)
    requires RouteFacts(D3, "hs3", "hs7", r)
    ensures r == ["hs6", "hs7"]
  {
    assert r[1] == "hs7";
    assert r[0] in Nbrs("hs7");
    assert r[0] == "hs6";
  }

  lemma Route7to1(r: seq<string>)
    requires RouteFacts(D7, "hs7", "hs1", r)
    ensures r == ["hs4", "hs2", "hs1"]
  {
    assert r[2] == "hs1";
    assert r[1] in Nbrs("hs1");
    assert r[1] == "hs2";
    assert r[0] in Nbrs("hs2");
    assert r[0] == "hs4";
  }

  lemma Route7to2(r: seq<string>)
    requires RouteFacts(D7, "hs7", "hs2", r)
    ensures r == ["hs4", "hs2"]
  {
    assert r[1] == "hs2";
    assert r[0] in Nbrs("hs2");
    assert r[0] == "hs4";
  }

  lemma Route7to3(r: seq<string>)
    requires RouteFacts(D7, "hs7", "hs3", r)
    ensures r == ["hs6", "hs3"]
  {
    assert r[1] == "hs3";
    assert r[0] in Nbrs("hs3");
    assert r[0] == "hs6";
  }

  lemma Route7to4(r: seq<string>)
    requires RouteFacts(D7, "hs7", "hs4", r)
    ensures r == ["hs4"]
  {
    assert r[0] == "hs4";
  }

  lemma Route7to5(r: seq<string>)
    requires RouteFacts(D7, "hs7", "hs5", r)
    ensures r == ["hs5"]
  {
    assert r[0] == "hs5";
  }

  lemma Route7to6(r: seq<string>)
    requires RouteFacts(D7, "hs7", "hs6", r)
    ensures r == ["hs6"]
  {
    assert r[0] == "hs6";
  }

  lemma Route5to2(r: seq<string>)
    requires RouteFacts(D5, "hs5", "hs2", r)
    ensures r == ["hs7", "hs4", "hs2"]
  {
    assert r[2] == "hs2";
    assert r[1] in Nbrs("hs2");
    assert r[1] == "hs4";
    assert r[0] in Nbrs("hs4");
    assert r[0] == "hs7";
  }

  lemma Route4to2(r: seq<string>)
    requires RouteFacts(D4, "hs4", "hs2", r)
    ensures r == ["hs2"]
  {
    assert r[0] == "hs2";
  }

  lemma Route5to4(r: seq<string>)
    requires RouteFacts(D5, "hs5", "hs4", r)
    ensures r == ["hs7", "hs4"]
  {
    assert r[1] == "hs4";
    assert r[0] in Nbrs("hs4");
    assert r[0] == "hs7";
  }

  lemma Route6to4(r: seq<string>)
    requires RouteFacts(D6, "hs6", "hs4", r)
    ensures r == ["hs7", "hs4"]
  {
    assert r[1] == "hs4";
    assert r[0] in Nbrs("hs4");
    assert r[0] == "hs7";
  }

  /** TestPath: the route from a system to itself is empty. */
  lemma PathToSelf(s: string)
    requires IsSystem(s)
    ensures TestPath(s, s) == Some([])
  {
  }

  /** TestPath: the routes the tests expect from hs1, hs3 and hs7. */
  lemma PathHs1Hs2()
    ensures TestPath("hs1", "hs2") == Some(["hs2"])
  {
    DistFromHs1();
    var r := FixtureRoute(D1, "hs1", "hs2");
    Route1to2(r);
  }

  lemma PathHs1Hs3()
    ensures TestPath("hs1", "hs3") == Some(["hs2", "hs3"])
  {
    DistFromHs1();
    var r := FixtureRoute(D1, "hs1", "hs3");
    Route1to3(r);
  }

  lemma PathHs1Hs4()
    ensures TestPath("hs1", "hs4") == Some(["hs2", "hs4"])
  {
    DistFromHs1();
    var r := FixtureRoute(D1, "hs1", "hs4");
    Route1to4(r);
  }

  lemma PathHs1Hs5()
    ensures TestPath("hs1", "hs5") == Some(["hs2", "hs4", "hs7", "hs5"])
  {
    DistFromHs1();
    var r := FixtureRoute(D1, "hs1", "hs5");
    Route1to5(r);
  }

  lemma PathHs1Hs6()
    ensures TestPath("hs1", "hs6") == Some(["hs2", "hs3", "hs6"])
  {
    DistFromHs1();
    var r := FixtureRoute(D1, "hs1", "hs6");
    Route1to6(r);
  }

  lemma PathHs1Hs7()
    ensures TestPath("hs1", "hs7") == Some(["hs2", "hs4", "hs7"])
  {
    DistFromHs1();
    var r := FixtureRoute(D1, "hs1", "hs7");
    Route1to7(r);
  }

  lemma PathHs3Hs1()
    ensures TestPath("hs3", "hs1") == Some(["hs2", "hs1"])
  {
    DistFromHs3();
    var r := FixtureRoute(D3, "hs3", "hs1");
    Route3to1(r);
  }

  lemma PathHs3Hs2()
    ensures TestPath("hs3", "hs2") == Some(["hs2"])
  {
    DistFromHs3();
    var r := FixtureRoute(D3, "hs3", "hs2");
    Route3to2(r);
  }

  lemma PathHs3Hs4()
    ensures TestPath("hs3", "hs4") == Some(["hs2", "hs4"])
  {
    DistFromHs3();
    var r := FixtureRoute(D3, "hs3", "hs4");
    Route3to4(r);
  }

  lemma PathHs3Hs5()
    ensures TestPath("hs3", "hs5") == Some(["hs6", "hs7", "hs5"])
  {
    DistFromHs3();
    var r := FixtureRoute(D3, "hs3", "hs5");
    Route3to5(r);
  }

  lemma PathHs3Hs6()
    ensures TestPath("hs3", "hs6") == Some(["hs6"])
  {
    DistFromHs3();
    var r := FixtureRoute(D3, "hs3", "hs6");
    Route3to6(r);
  }

  lemma PathHs3Hs7()
    ensures TestPath("hs3", "hs7") == Some(["hs6", "hs7"])
  {
    DistFromHs3();
    var r := FixtureRoute(D3, "hs3", "hs7");
    Route3to7(r);
  }

  lemma PathHs7Hs1()
    ensures TestPath("hs7", "hs1") == Some(["hs4", "hs2", "hs1"])
  {
    DistFromHs7();
    var r := FixtureRoute(D7, "hs7", "hs1");
    Route7to1(r);
  }

  lemma PathHs7Hs2()
    ensures TestPath("hs7", "hs2") == Some(["hs4", "hs2"])
  {
    DistFromHs7();
    var r := FixtureRoute(D7, "hs7", "hs2");
    Route7to2(r);
  }

  lemma PathHs7Hs3()
    ensures TestPath("hs7", "hs3") == Some(["hs6", "hs3"])
  {
    DistFromHs7();
    var r := FixtureRoute(D7, "hs7", "hs3");
    Route7to3(r);
  }

  lemma PathHs7Hs4()
    ensures TestPath("hs7", "hs4") == Some(["hs4"])
  {
    DistFromHs7();
    var r := FixtureRoute(D7, "hs7", "hs4");
    Route7to4(r);
  }

  lemma PathHs7Hs5()
    ensures TestPath("hs7", "hs5") == Some(["hs5"])
  {
    DistFromHs7();
    var r := FixtureRoute(D7, "hs7", "hs5");
    Route7to5(r);
  }

  lemma PathHs7Hs6()
    ensures TestPath("hs7", "hs6") == Some(["hs6"])
  {
    DistFromHs7();
    var r := FixtureRoute(D7, "hs7", "hs6");
    Route7to6(r);
  }

  /** Routes the route-tree cases below rely on. */
  lemma PathHs5Hs2()
    ensures TestPath("hs5", "hs2") == Some(["hs7", "hs4", "hs2"])
  {
    DistFromHs5();
    var r := FixtureRoute(D5, "hs5", "hs2");
    Route5to2(r);
  }

  lemma PathHs4Hs2()
    ensures TestPath("hs4", "hs2") == Some(["hs2"])
  {
    DistFromHs4();
    var r := FixtureRoute(D4, "hs4", "hs2");
    Route4to2(r);
  }

  lemma PathHs5Hs4()
    ensures TestPath("hs5", "hs4") == Some(["hs7", "hs4"])
  {
    DistFromHs5();
    var r := FixtureRoute(D5, "hs5", "hs4");
    Route5to4(r);
  }

  lemma PathHs6Hs4()
    ensures TestPath("hs6", "hs4") == Some(["hs7", "hs4"])
  {
    DistFromHs6();
    var r := FixtureRoute(D6, "hs6", "hs4");
    Route6to4(r);
  }

  // ---------------------------------------------------------------------
  // TestPathGraph

  /** The route tree findPathGraph returns for one target, as the tests call it. */
  function TestPathGraph(s: string, t: string): Option<Forwarding>
    requires IsSystem(s) && IsSystem(t)
  {
    FixtureCovers(s);
    FixtureCovers(t);
    FindPathGraph(HsGraph, Order, s, t, "")
  }

  lemma SingleTree(s: string, t: string, p: seq<string>)
    requires IsSystem(s) && IsSystem(t) && TestPath(s, t) == Some(p)
    ensures TestPathGraph(s, t) == Some(AddWalk(map[], s, p))
  {
  }

  lemma Least1to2and3()
    ensures BestMeeting(Order, D1, D2, D3) == Some(1)
  {
    BestMeetingIsFirstLeast(Order, D1, D2, D3, 1);
  }

  lemma Merge1to2and3()
    ensures MergedTree("hs1", ["hs2"], "hs2", "hs2", [], "hs3", ["hs2"]) == map["hs1" := ["hs2"], "hs2" := ["hs3"]]
  {
  }

  lemma Least1to2and5()
    ensures BestMeeting(Order, D1, D2, D5) == Some(1)
  {
    BestMeetingIsFirstLeast(Order, D1, D2, D5, 1);
  }

  lemma Merge1to2and5()
    ensures MergedTree("hs1", ["hs2"], "hs2", "hs2", [], "hs5", ["hs7", "hs4", "hs2"]) == map["hs1" := ["hs2"], "hs2" := ["hs4"], "hs4" := ["hs7"], "hs7" := ["hs5"]]
  {
  }

  lemma Least1to7and6()
    ensures BestMeeting(Order, D1, D7, D6) == Some(5)
  {
    BestMeetingIsFirstLeast(Order, D1, D7, D6, 5);
  }

  lemma Merge1to7and6()
    ensures MergedTree("hs1", ["hs2", "hs3", "hs6"], "hs6", "hs7", ["hs6"], "hs6", []) == map["hs1" := ["hs2"], "hs2" := ["hs3"], "hs3" := ["hs6"], "hs6" := ["hs7"]]
  {
  }

  lemma Least1to3and4()
    ensures BestMeeting(Order, D1, D3, D4) == Some(1)
  {
    BestMeetingIsFirstLeast(Order, D1, D3, D4, 1);
  }

  lemma Merge1to3and4()
    ensures MergedTree("hs1", ["hs2"], "hs2", "hs3", ["hs2"], "hs4", ["hs2"]) == map["hs1" := ["hs2"], "hs2" := ["hs3", "hs4"]]
  {
    var f1 := map["hs1" := ["hs2"], "hs2" := ["hs3"]];
    assert AddWalk(AddWalk(map[], "hs1", ["hs2"]), "hs2", RevWalk("hs3", ["hs2"])) == f1;
    assert RevWalk("hs4", ["hs2"]) == ["hs4"];
    assert "hs4" !in f1["hs2"];
    assert AddWalk(f1, "hs2", ["hs4"]) == AddEdge(f1, "hs2", "hs4");
    assert ["hs3"] + ["hs4"] == ["hs3", "hs4"];
    assert AddEdge(f1, "hs2", "hs4") == f1["hs2" := ["hs3", "hs4"]];
    assert f1["hs2" := ["hs3", "hs4"]] == map["hs1" := ["hs2"], "hs2" := ["hs3", "hs4"]];
  }

  lemma Least1to4and5()
    ensures BestMeeting(Order, D1, D4, D5) == Some(3)
  {
    BestMeetingIsFirstLeast(Order, D1, D4, D5, 3);
  }

  lemma Merge1to4and5()
    ensures MergedTree("hs1", ["hs2", "hs4"], "hs4", "hs4", [], "hs5", ["hs7", "hs4"]) == map["hs1" := ["hs2"], "hs2" := ["hs4"], "hs4" := ["hs7"], "hs7" := ["hs5"]]
  {
  }

  lemma Least4to5and3()
    ensures BestMeeting(Order, D4, D5, D3) == Some(3)
  {
    BestMeetingIsFirstLeast(Order, D4, D5, D3, 3);
  }

  lemma Merge4to5and3()
    ensures MergedTree("hs4", [], "hs4", "hs5", ["hs7", "hs4"], "hs3", ["hs2", "hs4"]) == map["hs4" := ["hs7", "hs2"], "hs7" := ["hs5"], "hs2" := ["hs3"]]
  {
    var f1 := map["hs4" := ["hs7"], "hs7" := ["hs5"]];
    assert AddWalk(AddWalk(map[], "hs4", []), "hs4", RevWalk("hs5", ["hs7", "hs4"])) == f1;
    assert RevWalk("hs3", ["hs2", "hs4"]) == ["hs2", "hs3"];
    assert "hs2" !in f1["hs4"];
    var f2 := AddEdge(f1, "hs4", "hs2");
    assert ["hs7"] + ["hs2"] == ["hs7", "hs2"];
    assert f2 == f1["hs4" := ["hs7", "hs2"]];
    assert f2 == map["hs4" := ["hs7", "hs2"], "hs7" := ["hs5"]];
    assert AddWalk(f1, "hs4", ["hs2", "hs3"]) == AddWalk(f2, "hs2", ["hs3"]);
  }

  lemma Least2to2and3()
    ensures BestMeeting(Order, D2, D2, D3) == Some(1)
  {
    BestMeetingIsFirstLeast(Order, D2, D2, D3, 1);
  }

  lemma Merge2to2and3()
    ensures MergedTree("hs2", [], "hs2", "hs2", [], "hs3", ["hs2"]) == map["hs2" := ["hs3"]]
  {
  }

  lemma Chain1to2()
    ensures AddWalk(map[], "hs1", ["hs2"]) == map["hs1" := ["hs2"]]
  {
  }

  lemma Tree1to2()
    ensures TestPathGraph("hs1", "hs2") == Some(map["hs1" := ["hs2"]])
  {
    PathHs1Hs2();
    SingleTree("hs1", "hs2", ["hs2"]);
    Chain1to2();
  }

  lemma Chain1to6()
    ensures AddWalk(map[], "hs1", ["hs2", "hs3", "hs6"]) == map["hs1" := ["hs2"], "hs2" := ["hs3"], "hs3" := ["hs6"]]
  {
  }

  lemma Tree1to6()
    ensures TestPathGraph("hs1", "hs6") == Some(map["hs1" := ["hs2"], "hs2" := ["hs3"], "hs3" := ["hs6"]])
  {
    PathHs1Hs6();
    SingleTree("hs1", "hs6", ["hs2", "hs3", "hs6"]);
    Chain1to6();
  }

  lemma Chain1to5()
    ensures AddWalk(map[], "hs1", ["hs2", "hs4", "hs7", "hs5"]) == map["hs1" := ["hs2"], "hs2" := ["hs4"], "hs4" := ["hs7"], "hs7" := ["hs5"]]
  {
  }

  lemma Tree1to5()
    ensures TestPathGraph("hs1", "hs5") == Some(map["hs1" := ["hs2"], "hs2" := ["hs4"], "hs4" := ["hs7"], "hs7" := ["hs5"]])
  {
    PathHs1Hs5();
    SingleTree("hs1", "hs5", ["hs2", "hs4", "hs7", "hs5"]);
    Chain1to5();
  }

  lemma Chain6to4()
    ensures AddWalk(map[], "hs6", ["hs7", "hs4"]) == map["hs6" := ["hs7"], "hs7" := ["hs4"]]
  {
  }

  lemma Tree6to4()
    ensures TestPathGraph("hs6", "hs4") == Some(map["hs6" := ["hs7"], "hs7" := ["hs4"]])
  {
    PathHs6Hs4();
    SingleTree("hs6", "hs4", ["hs7", "hs4"]);
    Chain6to4();
  }

  lemma Tree1to1()
    ensures TestPathGraph("hs1", "hs1") == Some(map[])
  {
    PathToSelf("hs1");
    SingleTree("hs1", "hs1", []);
  }
}
