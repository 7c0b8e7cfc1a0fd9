/**
 * The batch engine of transformations/transformer.go: a session that holds
 * the forwarding trees of the coordinate-system (CS) route and of the
 * height-system (HS) route, and the points added to it.
 *
 * `TransformBatch` walks every point through the CS forwarding tree, one
 * level of the tree at a time, applying the first zone of each edge that
 * contains it, and then applies every HS edge to the whole batch. The
 * package-global repository becomes the parameters `cg` and `hg`; the
 * iteration order of Go maps becomes the parameters `ids` (points) and
 * `hsOrder` (HS forwarding entries); the SQLite query becomes `fetch`, the
 * provider's answer for a list of vertex names.
 */
module Transformer {
  import opened Wrappers
  import opened Config
  import opened Graphs
  import opened HeightTransform
  import opened PathSearch

  /** One point of a batch and its intermediate results. */
  datatype PointResult = PointResult(
    name: string,
    x: real, y: real, xyErr: string,
    h: real, hasH: bool, hErr: string,
    xbgs: real, ybgs: real,
    vars: seq<string>)

  /** What aborts a batch: `errors.ErrUnsupported`, the error of a height
      step, an index out of range (a Go panic), or a walk still running when
      the level bound is used up (where the source would not stop). */
  datatype BatchError = Unsupported | Failed(message: string) | Crash | Endless

  const OutOfBounds: string := "point out of transformation bounds"
  const BgsCad: string := "bgs-cad"
  const GridKind: string := "grid"
  const PlaneKind: string := "plane"

  /** The two rules a batch depends on: how a zone decides that it contains
      a point, and how the offsets inside a grid cell are normalised.
      `Source` is the code as written; `Intended` holds the corrections
      described in the Findings of the README. */
  datatype Rules = Rules(intercept: InterceptRule, normalise: Normalise)

  const Source := Rules(AsWritten, ByHundred)
  const Intended := Rules(Corrected, ByGridSize)

  /** The fields a session is created with and never changes. */
  datatype Session = Session(csPath: Forwarding, hsPath: Forwarding, includesGrid: bool,
                             ics: string, ihs: string, ocs: string, ohs: string)

  /** `ids` lists the keys of `points`, each once. */
  predicate IsOrder<K>(ids: seq<K>, keys: set<K>) {
    (forall j :: 0 <= j < |ids| ==> ids[j] in keys)
    && (forall k :: k in keys ==> k in ids)
    && (forall j, j' :: 0 <= j < j' < |ids| ==> ids[j] != ids[j'])
  }

  // ---------------------------------------------------------------------
  // Applying a step to every point

  /** The points after a pass over them, and what stopped the pass early. */
  datatype Pass = Pass(points: map<int, PointResult>, failure: Option<BatchError>)

  /** Apply `f` to the points `ids[i..]` in that order, stopping at the first
      failure with the points updated so far. */
  function MapPoints(ids: seq<int>, i: nat, points: map<int, PointResult>,
                     f: PointResult -> Result<PointResult, BatchError>): (r: Pass)
    requires i <= |ids|
    requires forall j :: 0 <= j < |ids| ==> ids[j] in points
    ensures r.points.Keys == points.Keys
    decreases |ids| - i
  {
    if i == |ids| then Pass(points, None)
    else
      match f(points[ids[i]])
      case Err(e) => Pass(points, Some(e))
      case Ok(p) => MapPoints(ids, i + 1, points[ids[i] := p], f)
  }

  /** Per-point isolation: a pass succeeds exactly when `f` succeeds on
      every point, and then each point is `f` of that point alone; points
      not listed are untouched. */
  lemma {:induction false} MapPointsPointwise(ids: seq<int>, i: nat, points: map<int, PointResult>,
                                              f: PointResult -> Result<PointResult, BatchError>)
    requires i <= |ids|
    requires forall j :: 0 <= j < |ids| ==> ids[j] in points
    requires forall j, j' :: 0 <= j < j' < |ids| ==> ids[j] != ids[j']
    ensures MapPoints(ids, i, points, f).failure.None? <==> forall j :: i <= j < |ids| ==> f(points[ids[j]]).Ok?
    ensures MapPoints(ids, i, points, f).failure.None? ==>
      (forall j :: i <= j < |ids| ==> MapPoints(ids, i, points, f).points[ids[j]] == f(points[ids[j]]).value)
    ensures MapPoints(ids, i, points, f).failure.None? ==>
      (forall k :: k in points && k !in ids[i..] ==> MapPoints(ids, i, points, f).points[k] == points[k])
    decreases |ids| - i
  {
    if i < |ids| {
      var k := ids[i];
      match f(points[k])
      case Err(e) =>
      case Ok(p) =>
        var points' := points[k := p];
        MapPointsPointwise(ids, i + 1, points', f);
        assert forall j :: i < j < |ids| ==> points'[ids[j]] == points[ids[j]];
        forall k' | k' in points && k' !in ids[i..]
          ensures MapPoints(ids, i + 1, points', f).failure.None? ==> MapPoints(ids, i + 1, points', f).points[k'] == points[k']
        {
          assert k' != k && k' !in ids[i + 1..];
        }
    }
  }

  /** The pass as a loop over `ids` that updates the map in place. */
  method ApplyAll(ids: seq<int>, points: map<int, PointResult>,
                  f: PointResult -> Result<PointResult, BatchError>) returns (r: Pass)
    requires forall j :: 0 <= j < |ids| ==> ids[j] in points
    ensures r == MapPoints(ids, 0, points, f)
  {
    var cur := points;
    for i := 0 to |ids|
      invariant cur.Keys == points.Keys
      invariant MapPoints(ids, i, cur, f) == MapPoints(ids, 0, points, f)
    {
      var res := f(cur[ids[i]]);
      if res.Err? {
        return Pass(cur, Some(res.error));
      }
      cur := cur[ids[i] := res.value];
    }
    r := Pass(cur, None);
  }

  // ---------------------------------------------------------------------
  // The CS walk of one point (transformer.go:62-201)

  /** A system reached by the walk with the coordinates carried there. */
  datatype Node = Node(cs: string, x: real, y: real)

  /** How a walk, a level or an edge list ended. */
  datatype Stop = Done | OutOfZone | NoEdge | NoEnd

  /** The coordinates recorded for ocs and bgs-cad. */
  type Recorded = map<string, (real, real)>

  /** The zone loop: the first zone, in declared order, that contains the
      point under the intercept rule `rule` is applied; None when no zone
      contains it. */
  function Hop(rule: InterceptRule, dist: DistFn, zones: seq<CSTransformation>, x: real, y: real): (r: Option<(real, real)>)
    ensures r.None? <==> forall j :: 0 <= j < |zones| ==> !InZoneBy(rule, dist, zones[j], x, y)
  {
    match Locate(rule, dist, zones, x, y)
    case None => None
    case Some(i) => Some(Apply(zones[i], x, y))
  }

  /** The first zone containing the point decides the hop; the later zones
      are ignored, whether they contain the point or not. */
  lemma FirstZoneWins(rule: InterceptRule, dist: DistFn, zones: seq<CSTransformation>, x: real, y: real, j: nat)
    requires j < |zones| && InZoneBy(rule, dist, zones[j], x, y)
    requires forall j' :: 0 <= j' < j ==> !InZoneBy(rule, dist, zones[j'], x, y)
    ensures Hop(rule, dist, zones, x, y) == Some(Apply(zones[j], x, y))
  {
    var i := Locate(rule, dist, zones, x, y);
    assert i.Some?;
    assert !(i.value < j);
  }

  /** A rule choosing the hop of a point through the zones of one edge. */
  type ZoneRule = (seq<CSTransformation>, real, real) -> Option<(real, real)>

  /** The first zone that contains the point under the intercept rule
      `rule`; with `AsWritten` it is the rule of transformer.go. */
  function HopBy(rule: InterceptRule, dist: DistFn): (hop: ZoneRule)
    ensures forall zones, x, y :: hop(zones, x, y) == Hop(rule, dist, zones, x, y)
  {
    (zones, x, y) => Hop(rule, dist, zones, x, y)
  }

  /** The zone loop of transformer.go:128-166; under the source's rule each
      zone is tested by `CSTransformation.InZone` itself. */
  method FirstZone(rule: InterceptRule, dist: DistFn, zones: seq<CSTransformation>, x: real, y: real)
    returns (r: Option<(real, real)>)
    ensures r == Hop(rule, dist, zones, x, y)
  {
    for j := 0 to |zones|
      invariant forall j' :: 0 <= j' < j ==> !InZoneBy(rule, dist, zones[j'], x, y)
    {
      var inside: bool;
      if rule == AsWritten {
        inside := InZone(zones[j], x, y, dist);
      } else {
        inside := InZoneBy(rule, dist, zones[j], x, y);
      }
      if !inside {
        continue;
      }
      FirstZoneWins(rule, dist, zones, x, y, j);
      return Some(Apply(zones[j], x, y));
    }
    return None;
  }

  /** The connections of one node, from the i-th on, appended to `next`.
      Every edge's zones are looked up from `ics`, whatever the node. */
  function Connect(g: CSTransformationGraph, hop: ZoneRule, ics: string, node: Node,
                   tos: seq<string>, i: nat, next: seq<Node>): (r: (Stop, seq<Node>))
    requires i <= |tos|
    decreases |tos| - i
  {
    if i == |tos| then (Done, next)
    else
      match g.Get(ics, tos[i])
      case None => (NoEdge, next)
      case Some(zones) =>
        match hop(zones, node.x, node.y)
        case None => (OutOfZone, next)
        case Some(c) => Connect(g, hop, ics, node, tos, i + 1, next + [Node(tos[i], c.0, c.1)])
  }

  /** The connections loop of transformer.go:109-176. */
  method ConnectAll(g: CSTransformationGraph, rule: InterceptRule, dist: DistFn, ics: string, node: Node,
                    tos: seq<string>, next0: seq<Node>) returns (stop: Stop, next: seq<Node>)
    ensures (stop, next) == Connect(g, HopBy(rule, dist), ics, node, tos, 0, next0)
  {
    next := next0;
    for i := 0 to |tos|
      invariant Connect(g, HopBy(rule, dist), ics, node, tos, i, next) == Connect(g, HopBy(rule, dist), ics, node, tos, 0, next0)
    {
      var to := tos[i];
      var zones := g.Get(ics, to);
      if zones.None? {
        return NoEdge, next;
      }
      var c := FirstZone(rule, dist, zones.value, node.x, node.y);
      if c.None? {
        return OutOfZone, next;
      }
      next := next + [Node(to, c.value.0, c.value.1)];
    }
    stop := Done;
  }

  /** Record the node's coordinates when it is ocs, or bgs-cad in a session
      that involves a grid; no other entry changes. */
  function Record(s: Session, node: Node, res: Recorded): (r: Recorded)
    ensures node.cs == s.ocs ==> node.cs in r && r[node.cs] == (node.x, node.y)
    ensures s.includesGrid && node.cs == BgsCad ==> node.cs in r && r[node.cs] == (node.x, node.y)
    ensures node.cs != s.ocs && !(s.includesGrid && node.cs == BgsCad) ==> r == res
    ensures forall k :: k != node.cs ==> (k in r <==> k in res) && (k in res ==> r[k] == res[k])
  {
    var r1 := if node.cs == s.ocs then res[s.ocs := (node.x, node.y)] else res;
    if s.includesGrid && node.cs == BgsCad then r1[BgsCad := (node.x, node.y)] else r1
  }

  /** One level of the walk from the j-th node on (transformer.go:90-177). */
  function Level(s: Session, g: CSTransformationGraph, hop: ZoneRule, nodes: seq<Node>, j: nat,
                 next: seq<Node>, res: Recorded): (r: (Stop, seq<Node>, Recorded))
    requires j <= |nodes|
    decreases |nodes| - j
  {
    if j == |nodes| then (Done, next, res)
    else
      var res' := Record(s, nodes[j], res);
      if nodes[j].cs !in s.csPath then Level(s, g, hop, nodes, j + 1, next, res')
      else
        var c := Connect(g, hop, s.ics, nodes[j], s.csPath[nodes[j].cs], 0, next);
        if c.0 == Done then Level(s, g, hop, nodes, j + 1, c.1, res') else (c.0, c.1, res')
  }

  /** The node loop of one level. */
  method LevelAll(s: Session, g: CSTransformationGraph, rule: InterceptRule, dist: DistFn, nodes: seq<Node>, res0: Recorded)
    returns (stop: Stop, next: seq<Node>, res: Recorded)
    ensures (stop, next, res) == Level(s, g, HopBy(rule, dist), nodes, 0, [], res0)
  {
    next, res := [], res0;
    for j := 0 to |nodes|
      invariant Level(s, g, HopBy(rule, dist), nodes, j, next, res) == Level(s, g, HopBy(rule, dist), nodes, 0, [], res0)
    {
      var node := nodes[j];
      res := Record(s, node, res);
      if node.cs !in s.csPath {
        continue;
      }
      var st;
      st, next := ConnectAll(g, rule, dist, s.ics, node, s.csPath[node.cs], next);
      if st != Done {
        return st, next, res;
      }
    }
    stop := Done;
  }

  /** The walk from the frontier `nodes`, one level at a time, for at most
      `levels` levels. */
  function Walk(s: Session, g: CSTransformationGraph, hop: ZoneRule, nodes: seq<Node>,
                res: Recorded, levels: nat): (r: (Stop, Recorded))
    decreases levels
  {
    if |nodes| == 0 then (Done, res)
    else if levels == 0 then (NoEnd, res)
    else
      var l := Level(s, g, hop, nodes, 0, [], res);
      if l.0 == Done then Walk(s, g, hop, l.1, l.2, levels - 1) else (l.0, l.2)
  }

  /** The recorded coordinates of a system, or Go's zero value. */
  function Recalled(res: Recorded, cs: string): (real, real) {
    if cs in res then res[cs] else (0.0, 0.0)
  }

  /** A point after its CS walk: an abort for a missing edge, the error for
      a point outside every zone of an edge, or the coordinates recorded at
      ocs (and at bgs-cad when a grid is involved). */
  function WalkPoint(s: Session, g: CSTransformationGraph, hop: ZoneRule, pt: PointResult, levels: nat)
    : (r: Result<PointResult, BatchError>)
    ensures var w := Walk(s, g, hop, [Node(s.ics, pt.x, pt.y)], map[], levels);
      && (r == Err(Unsupported) <==> w.0 == NoEdge)
      && (r == Err(Endless) <==> w.0 == NoEnd)
      && (w.0 == OutOfZone ==> r == Ok(pt.(xyErr := OutOfBounds)))
      && (w.0 == Done && |pt.xyErr| > 0 ==> r == Ok(pt))
      && (w.0 == Done && |pt.xyErr| == 0 ==>
            r.Ok? && (r.value.x, r.value.y) == Recalled(w.1, s.ocs)
            && (s.includesGrid ==> (r.value.xbgs, r.value.ybgs) == Recalled(w.1, BgsCad))
            && (!s.includesGrid ==> (r.value.xbgs, r.value.ybgs) == (pt.xbgs, pt.ybgs)))
    ensures r.Ok? ==> r.value.name == pt.name && r.value.h == pt.h && r.value.hasH == pt.hasH
                      && r.value.hErr == pt.hErr && r.value.vars == pt.vars
  {
    var w := Walk(s, g, hop, [Node(s.ics, pt.x, pt.y)], map[], levels);
    match w.0
    case NoEdge => Err(Unsupported)
    case NoEnd => Err(Endless)
    case _ =>
      var pt' := if w.0 == OutOfZone then pt.(xyErr := OutOfBounds) else pt;
      if |pt'.xyErr| > 0 then Ok(pt')
      else
        var o := Recalled(w.1, s.ocs);
        var moved := pt'.(x := o.0, y := o.1);
        if s.includesGrid then
          var b := Recalled(w.1, BgsCad);
          Ok(moved.(xbgs := b.0, ybgs := b.1))
        else Ok(moved)
  }

  /** The walk of one point as the source runs it: the level loop with its
      labelled break, then the update of the point. */
  method WalkOne(s: Session, g: CSTransformationGraph, rule: InterceptRule, dist: DistFn, pt: PointResult, levels: nat)
    returns (r: Result<PointResult, BatchError>)
    ensures r == WalkPoint(s, g, HopBy(rule, dist), pt, levels)
  {
    var fromNodes := [Node(s.ics, pt.x, pt.y)];
    var res: Recorded := map[];
    var left := levels;
    var stop := Done;
    while |fromNodes| > 0
      invariant Walk(s, g, HopBy(rule, dist), fromNodes, res, left) == Walk(s, g, HopBy(rule, dist), [Node(s.ics, pt.x, pt.y)], map[], levels)
      invariant stop == Done
      decreases left
    {
      if left == 0 {
        stop := NoEnd;
        break;
      }
      var next;
      stop, next, res := LevelAll(s, g, rule, dist, fromNodes, res);
      if stop != Done {
        break;
      }
      fromNodes, left := next, left - 1;
    }
    if stop == NoEdge {
      return Err(Unsupported);
    }
    if stop == NoEnd {
      return Err(Endless);
    }
    var p := pt;
    if stop == OutOfZone {
      p := p.(xyErr := OutOfBounds);
    }
    if |p.xyErr| > 0 {
      return Ok(p);
    }
    var o := Recalled(res, s.ocs);
    p := p.(x := o.0, y := o.1);
    if s.includesGrid {
      var b := Recalled(res, BgsCad);
      p := p.(xbgs := b.0, ybgs := b.1);
    }
    r := Ok(p);
  }

  /** The CS step as a function of one point. */
  function WalkStep(s: Session, g: CSTransformationGraph, hop: ZoneRule, levels: nat)
    : PointResult -> Result<PointResult, BatchError>
  {
    (pt: PointResult) => WalkPoint(s, g, hop, pt, levels)
  }

  // ---------------------------------------------------------------------
  // The HS steps (transformer.go:203-359)

  /** The vertex name of `makeOndulationVertexNameFromXY`; with a zero grid
      size Go formats the infinite or NaN floor as text. */
  function VertexName(gp: HGridTransformation, x: real, y: real): (k: string)
    ensures gp.gridSize != 0.0 ==> Some(k) == CellKey(gp, x, y)
  {
    match CellKey(gp, x, y)
    case Some(k) => k
    case None => NonFinite(x - gp.x0) + "/" + NonFinite(y - gp.y0)
  }

  function NonFinite(v: real): string {
    if v > 0.0 then "+Inf" else if v < 0.0 then "-Inf" else "NaN"
  }

  /** A point whose grid vertex is fetched: it has an H and no XY error. */
  predicate Fetched(pt: PointResult) {
    pt.hasH && |pt.xyErr| == 0
  }

  /** The fetch list over the first n points in iteration order: the base
      vertex of every point that has an H and no XY error. */
  function FetchKeys(gp: HGridTransformation, ids: seq<int>, points: map<int, PointResult>, n: nat): (keys: seq<string>)
    requires n <= |ids|
    requires forall j :: 0 <= j < |ids| ==> ids[j] in points
    ensures |keys| <= n
  {
    if n == 0 then []
    else
      var pt := points[ids[n - 1]];
      FetchKeys(gp, ids, points, n - 1) + (if Fetched(pt) then [VertexName(gp, pt.xbgs, pt.ybgs)] else [])
  }

  /** A name is fetched exactly when some point with an H and no XY error
      has it as its base vertex. */
  lemma {:induction false} FetchKeysExactly(gp: HGridTransformation, ids: seq<int>, points: map<int, PointResult>, n: nat, k: string)
    requires n <= |ids|
    requires forall j :: 0 <= j < |ids| ==> ids[j] in points
    ensures k in FetchKeys(gp, ids, points, n) <==>
      exists j :: 0 <= j < n && Fetched(points[ids[j]]) && k == VertexName(gp, points[ids[j]].xbgs, points[ids[j]].ybgs)
  {
    if n > 0 {
      FetchKeysExactly(gp, ids, points, n - 1, k);
    }
  }

  /** The fetch-list loop of transformer.go:228-243. */
  method FetchList(gp: HGridTransformation, ids: seq<int>, points: map<int, PointResult>) returns (keys: seq<string>)
    requires forall j :: 0 <= j < |ids| ==> ids[j] in points
    ensures keys == FetchKeys(gp, ids, points, |ids|)
  {
    keys := [];
    for i := 0 to |ids|
      invariant keys == FetchKeys(gp, ids, points, i)
    {
      var pt := points[ids[i]];
      if !(pt.hasH && |pt.xyErr| == 0) {
        continue;
      }
      keys := keys + [VertexName(gp, pt.xbgs, pt.ybgs)];
    }
  }

  /** The grid correction of one point, at its bgs-cad coordinates, with
      the offsets normalised by `norm`. */
  function GridStep(norm: Normalise, gp: HGridTransformation, sign: real, vertices: map<string, real>)
    : PointResult -> Result<PointResult, BatchError>
  {
    (pt: PointResult) =>
      match Grid(norm, gp, pt.xbgs, pt.ybgs, pt.h, sign, vertices)
      case Err(m) => Err(Failed(m))
      case Ok(h) => Ok(pt.(h := h))
  }

  /** The plane correction of one point, at its output coordinates. */
  function PlaneStep(pp: HPlaneTransformation, sign: real): PointResult -> Result<PointResult, BatchError> {
    (pt: PointResult) => Ok(pt.(h := Plane(pp, pt.x, pt.y, pt.h, sign)))
  }

  /** One HS edge applied to the batch: the grid or plane method it names,
      ErrUnsupported for a missing method or an unknown kind. */
  function HsStep(norm: Normalise, hg: HSTransformationGraph, params: HSTransformation, ids: seq<int>,
                  points: map<int, PointResult>, fetch: (string, seq<string>) -> map<string, real>): (r: Pass)
    requires forall j :: 0 <= j < |ids| ==> ids[j] in points
    ensures r.points.Keys == points.Keys
    ensures params.kind != GridKind && params.kind != PlaneKind ==> r == Pass(points, Some(Unsupported))
    ensures ((params.kind == GridKind && params.name !in hg.methods.grid)
             || (params.kind == PlaneKind && params.name !in hg.methods.plane))
            ==> r == Pass(points, Some(Unsupported))
  {
    if params.kind == GridKind then
      if params.name !in hg.methods.grid then Pass(points, Some(Unsupported))
      else
        var gp := hg.methods.grid[params.name];
        var vertices := fetch(gp.db, FetchKeys(gp, ids, points, |ids|));
        MapPoints(ids, 0, points, GridStep(norm, gp, params.direction, vertices))
    else if params.kind == PlaneKind then
      if params.name !in hg.methods.plane then Pass(points, Some(Unsupported))
      else MapPoints(ids, 0, points, PlaneStep(hg.methods.plane[params.name], params.direction))
    else Pass(points, Some(Unsupported))
  }

  /** The HS loop from the i-th forwarding entry on, in iteration order,
      with the current `from`: each entry's first successor is the edge's
      target. */
  function HsWalk(norm: Normalise, hg: HSTransformationGraph, hsPath: Forwarding, order: seq<string>, i: nat, from: string,
                  ids: seq<int>, points: map<int, PointResult>,
                  fetch: (string, seq<string>) -> map<string, real>): (r: Pass)
    requires i <= |order|
    requires forall j :: 0 <= j < |order| ==> order[j] in hsPath
    requires forall j :: 0 <= j < |ids| ==> ids[j] in points
    ensures r.points.Keys == points.Keys
    ensures r.failure.None? ==> forall j :: i <= j < |order| ==> |hsPath[order[j]]| > 0
    ensures r.failure.None? && i < |order| && |hsPath[order[i]]| > 0 ==> hg.Get(from, hsPath[order[i]][0]).Some?
    ensures r.failure.None? ==> forall j :: i < j < |order| && |hsPath[order[j - 1]]| > 0 && |hsPath[order[j]]| > 0 ==>
      hg.Get(hsPath[order[j - 1]][0], hsPath[order[j]][0]).Some?
    decreases |order| - i
  {
    if i == |order| then Pass(points, None)
    else
      var tos := hsPath[order[i]];
      if |tos| == 0 then Pass(points, Some(Crash))
      else
        match hg.Get(from, tos[0])
        case None => Pass(points, Some(Unsupported))
        case Some(params) =>
          var p := HsStep(norm, hg, params, ids, points, fetch);
          if p.failure.Some? then p else HsWalk(norm, hg, hsPath, order, i + 1, tos[0], ids, p.points, fetch)
  }

  /** A whole batch under the rules `rules`: the CS walk of every point,
      then the HS loop. */
  function Batch(rules: Rules, s: Session, cg: CSTransformationGraph, hg: HSTransformationGraph, dist: DistFn,
                 ids: seq<int>, hsOrder: seq<string>, points: map<int, PointResult>,
                 fetch: (string, seq<string>) -> map<string, real>, levels: nat): (r: Pass)
    requires forall j :: 0 <= j < |ids| ==> ids[j] in points
    requires forall j :: 0 <= j < |hsOrder| ==> hsOrder[j] in s.hsPath
    ensures r.points.Keys == points.Keys
  {
    var walked := MapPoints(ids, 0, points, WalkStep(s, cg, HopBy(rules.intercept, dist), levels));
    if walked.failure.Some? then walked
    else HsWalk(rules.normalise, hg, s.hsPath, hsOrder, 0, s.ihs, ids, walked.points, fetch)
  }

  // ---------------------------------------------------------------------
  // Properties of a batch

  /** Per-point error isolation of the CS step: it aborts exactly when the
      walk of some point aborts, and otherwise every point is the result of
      its own walk, whatever happened to the others (an out-of-bounds point
      only gets its error). */
  lemma WalkIsolated(s: Session, cg: CSTransformationGraph, hop: ZoneRule, ids: seq<int>,
                     points: map<int, PointResult>, levels: nat)
    requires IsOrder(ids, points.Keys)
    ensures var p := MapPoints(ids, 0, points, WalkStep(s, cg, hop, levels));
      && (p.failure.None? <==> forall k :: k in points ==> WalkPoint(s, cg, hop, points[k], levels).Ok?)
      && (p.failure.None? ==> forall k :: k in points ==> p.points[k] == WalkPoint(s, cg, hop, points[k], levels).value)
  {
    var f := WalkStep(s, cg, hop, levels);
    MapPointsPointwise(ids, 0, points, f);
    forall k | k in points
      ensures exists j :: 0 <= j < |ids| && ids[j] == k
    {
      assert k in ids;
    }
  }

  /** The connections loop over a single successor. */
  lemma ConnectSingle(g: CSTransformationGraph, hop: ZoneRule, ics: string, node: Node, to: string, next: seq<Node>)
    ensures g.Get(ics, to).None? ==> Connect(g, hop, ics, node, [to], 0, next) == (NoEdge, next)
    ensures g.Get(ics, to).Some? && hop(g.Get(ics, to).value, node.x, node.y).None? ==>
      Connect(g, hop, ics, node, [to], 0, next) == (OutOfZone, next)
    ensures g.Get(ics, to).Some? && hop(g.Get(ics, to).value, node.x, node.y).Some? ==>
      var c := hop(g.Get(ics, to).value, node.x, node.y).value;
      Connect(g, hop, ics, node, [to], 0, next) == (Done, next + [Node(to, c.0, c.1)])
  {
    var tos := [to];
    if g.Get(ics, to).Some? && hop(g.Get(ics, to).value, node.x, node.y).Some? {
      var c := hop(g.Get(ics, to).value, node.x, node.y).value;
      var next' := next + [Node(to, c.0, c.1)];
      assert Connect(g, hop, ics, node, tos, 1, next') == (Done, next');
    }
  }

  /** A level of a single node with an empty frontier so far. */
  lemma LevelSingle(s: Session, g: CSTransformationGraph, hop: ZoneRule, node: Node, res: Recorded)
    ensures node.cs !in s.csPath ==> Level(s, g, hop, [node], 0, [], res) == (Done, [], Record(s, node, res))
    ensures node.cs in s.csPath ==>
      var c := Connect(g, hop, s.ics, node, s.csPath[node.cs], 0, []);
      Level(s, g, hop, [node], 0, [], res) == (c.0, c.1, Record(s, node, res))
  {
    var res' := Record(s, node, res);
    if node.cs in s.csPath {
      var c := Connect(g, hop, s.ics, node, s.csPath[node.cs], 0, []);
      assert Level(s, g, hop, [node], 1, c.1, res') == (Done, c.1, res');
    } else {
      assert Level(s, g, hop, [node], 1, [], res') == (Done, [], res');
    }
  }

  /** A path of one edge from ics to ocs: the point leaves with the
      coordinates of the first zone that contains it, or with the
      out-of-bounds error and its own coordinates. */
  lemma OneEdgeWalk(s: Session, cg: CSTransformationGraph, hop: ZoneRule, pt: PointResult,
                    zones: seq<CSTransformation>, levels: nat)
    requires s.ics != s.ocs && s.csPath == map[s.ics := [s.ocs]] && !s.includesGrid
    requires cg.Get(s.ics, s.ocs) == Some(zones)
    requires levels >= 2 && pt.xyErr == ""
    ensures hop(zones, pt.x, pt.y).None? ==> WalkPoint(s, cg, hop, pt, levels) == Ok(pt.(xyErr := OutOfBounds))
    ensures hop(zones, pt.x, pt.y).Some? ==>
      var c := hop(zones, pt.x, pt.y).value;
      WalkPoint(s, cg, hop, pt, levels) == Ok(pt.(x := c.0, y := c.1))
  {
    var start := Node(s.ics, pt.x, pt.y);
    assert s.ics in s.csPath && s.csPath[s.ics] == [s.ocs];
    ConnectSingle(cg, hop, s.ics, start, s.ocs, []);
    LevelSingle(s, cg, hop, start, map[]);
    assert Record(s, start, map[]) == map[];
    var w := Walk(s, cg, hop, [start], map[], levels);
    match hop(zones, pt.x, pt.y)
    case None =>
      assert w.0 == OutOfZone;
    case Some(h) =>
      var last := Node(s.ocs, h.0, h.1);
      assert [] + [last] == [last];
      assert Level(s, cg, hop, [start], 0, [], map[]) == (Done, [last], map[]);
      assert w == Walk(s, cg, hop, [last], map[], levels - 1);
      assert s.ocs !in s.csPath;
      LevelSingle(s, cg, hop, last, map[]);
      var res := Record(s, last, map[]);
      assert Walk(s, cg, hop, [last], map[], levels - 1) == Walk(s, cg, hop, [], res, levels - 2);
      assert s.ocs in res && res[s.ocs] == (h.0, h.1);
  }

  /** As written, a point on a one-edge route whose zones all have
      axis-parallel borders (rectangles, say) is out of bounds wherever it
      lies: the source's zone test counts no crossing on such a border. */
  lemma AsWrittenAxisZonesOutOfBounds(s: Session, cg: CSTransformationGraph, dist: DistFn, pt: PointResult,
                                      zones: seq<CSTransformation>, levels: nat)
    requires s.ics != s.ocs && s.csPath == map[s.ics := [s.ocs]] && !s.includesGrid
    requires cg.Get(s.ics, s.ocs) == Some(zones)
    requires levels >= 2 && pt.xyErr == ""
    requires forall j :: 0 <= j < |zones| ==> AxisAligned(zones[j].border)
    ensures WalkPoint(s, cg, HopBy(AsWritten, dist), pt, levels) == Ok(pt.(xyErr := OutOfBounds))
  {
    forall j | 0 <= j < |zones|
      ensures !InZoneBy(AsWritten, dist, zones[j], pt.x, pt.y)
    {
      AsWrittenAxisAlignedNoCrossing(dist, zones[j].border, pt.x, pt.y, |zones[j].border|);
    }
    OneEdgeWalk(s, cg, HopBy(AsWritten, dist), pt, zones, levels);
  }

  /** With the corrected intercept and Euclidean distances, a point strictly
      inside the rectangular zone of a one-edge route leaves with that
      zone's coordinates. */
  lemma CorrectedRectangleHop(s: Session, cg: CSTransformationGraph, pt: PointResult, z: CSTransformation,
                              a: real, b: real, c: real, d: real, levels: nat)
    requires s.ics != s.ocs && s.csPath == map[s.ics := [s.ocs]] && !s.includesGrid
    requires cg.Get(s.ics, s.ocs) == Some([z])
    requires levels >= 2 && pt.xyErr == ""
    requires z.border == Rectangle(a, b, c, d) && a < pt.x < c && b < pt.y < d
    ensures var o := Apply(z, pt.x, pt.y);
      WalkPoint(s, cg, HopBy(Corrected, SqDist), pt, levels) == Ok(pt.(x := o.0, y := o.1))
  {
    CorrectedRectangle(z, a, b, c, d, pt.x, pt.y);
    FirstZoneWins(Corrected, SqDist, [z], pt.x, pt.y, 0);
    OneEdgeWalk(s, cg, HopBy(Corrected, SqDist), pt, [z], levels);
  }

  /** Every hop of the CS walk looks its zones up from ics: on the route
      ics -> mid -> ocs the second hop needs an edge ics -> ocs, and the
      batch aborts without one even when the edge mid -> ocs exists. */
  lemma CsLookupFromIcs(s: Session, cg: CSTransformationGraph, hop: ZoneRule, pt: PointResult,
                        mid: string, zones: seq<CSTransformation>, levels: nat)
    requires s.ics != mid && mid != s.ocs && s.ics != s.ocs
    requires s.csPath == map[s.ics := [mid], mid := [s.ocs]]
    requires cg.Get(s.ics, mid) == Some(zones) && hop(zones, pt.x, pt.y).Some?
    requires cg.Get(s.ics, s.ocs).None?
    requires levels >= 2
    ensures WalkPoint(s, cg, hop, pt, levels) == Err(Unsupported)
  {
    var start := Node(s.ics, pt.x, pt.y);
    var h := hop(zones, pt.x, pt.y).value;
    var next := Node(mid, h.0, h.1);
    assert s.ics in s.csPath && s.csPath[s.ics] == [mid];
    assert mid in s.csPath && s.csPath[mid] == [s.ocs];
    ConnectSingle(cg, hop, s.ics, start, mid, []);
    LevelSingle(s, cg, hop, start, map[]);
    var res := Record(s, start, map[]);
    assert [] + [next] == [next];
    assert Level(s, cg, hop, [start], 0, [], map[]) == (Done, [next], res);
    ConnectSingle(cg, hop, s.ics, next, s.ocs, []);
    LevelSingle(s, cg, hop, next, res);
    assert Level(s, cg, hop, [next], 0, [], res).0 == NoEdge;
    assert Walk(s, cg, hop, [start], map[], levels).0 == NoEdge;
  }

  /** The grid step interpolates every point, fetched or not, and aborts
      with "outside of bound" exactly when some point misses a corner. */
  lemma GridEveryPoint(norm: Normalise, hg: HSTransformationGraph, params: HSTransformation, ids: seq<int>,
                       points: map<int, PointResult>, fetch: (string, seq<string>) -> map<string, real>)
    requires IsOrder(ids, points.Keys)
    requires params.kind == GridKind && params.name in hg.methods.grid
    ensures var gp := hg.methods.grid[params.name];
      var vertices := fetch(gp.db, FetchKeys(gp, ids, points, |ids|));
      var p := HsStep(norm, hg, params, ids, points, fetch);
      && (p.failure.None? <==> forall k :: k in points ==> Corners(gp, points[k].xbgs, points[k].ybgs, vertices).Some?)
      && (p.failure.Some? ==> p.failure == Some(Failed("outside of bound")))
  {
    var gp := hg.methods.grid[params.name];
    var vertices := fetch(gp.db, FetchKeys(gp, ids, points, |ids|));
    var f := GridStep(norm, gp, params.direction, vertices);
    MapPointsPointwise(ids, 0, points, f);
    FirstFailure(ids, 0, points, f, Failed("outside of bound"));
    forall k | k in points
      ensures exists j :: 0 <= j < |ids| && ids[j] == k
    {
      assert k in ids;
    }
  }

  /** The plane step never fails: every point, with or without an H and
      with or without an XY error, takes the plane's height at its output
      coordinates and keeps every other field. */
  lemma PlaneEveryPoint(norm: Normalise, hg: HSTransformationGraph, params: HSTransformation, ids: seq<int>,
                        points: map<int, PointResult>, fetch: (string, seq<string>) -> map<string, real>)
    requires IsOrder(ids, points.Keys)
    requires params.kind == PlaneKind && params.name in hg.methods.plane
    ensures var pp := hg.methods.plane[params.name];
      var p := HsStep(norm, hg, params, ids, points, fetch);
      && p.failure.None?
      && forall k :: k in points ==> p.points[k] == points[k].(h := Plane(pp, points[k].x, points[k].y, points[k].h, params.direction))
  {
    var pp := hg.methods.plane[params.name];
    var f := PlaneStep(pp, params.direction);
    MapPointsPointwise(ids, 0, points, f);
    forall k | k in points
      ensures exists j :: 0 <= j < |ids| && ids[j] == k
    {
      assert k in ids;
    }
  }

  /** When every failure of `f` is the same error, so is the pass's. */
  lemma {:induction false} FirstFailure(ids: seq<int>, i: nat, points: map<int, PointResult>,
                                        f: PointResult -> Result<PointResult, BatchError>, e: BatchError)
    requires i <= |ids|
    requires forall j :: 0 <= j < |ids| ==> ids[j] in points
    requires forall pt :: f(pt).Err? ==> f(pt).error == e
    ensures MapPoints(ids, i, points, f).failure.Some? ==> MapPoints(ids, i, points, f).failure == Some(e)
    decreases |ids| - i
  {
    if i < |ids| && f(points[ids[i]]).Ok? {
      FirstFailure(ids, i + 1, points[ids[i] := f(points[ids[i]]).value], f, e);
    }
  }

  /** Only the base vertex of each point is fetched: for a batch of one
      point and a provider that answers only the names it is asked for, the
      other three corners are missing and the grid step aborts. */
  lemma GridLonePointFails(norm: Normalise, hg: HSTransformationGraph, params: HSTransformation, id: int, pt: PointResult,
                           fetch: (string, seq<string>) -> map<string, real>)
    requires params.kind == GridKind && params.name in hg.methods.grid
    requires hg.methods.grid[params.name].gridSize > 0.0
    requires forall db, keys :: fetch(db, keys).Keys <= set k | k in keys
    ensures HsStep(norm, hg, params, [id], map[id := pt], fetch) == Pass(map[id := pt], Some(Failed("outside of bound")))
  {
    var gp := hg.methods.grid[params.name];
    var points := map[id := pt];
    var keys := FetchKeys(gp, [id], points, 1);
    assert keys == [] + (if Fetched(pt) then [VertexName(gp, pt.xbgs, pt.ybgs)] else []);
    var vertices := fetch(gp.db, keys);
    LoneCornerMissing(gp, pt.xbgs, pt.ybgs, vertices);
    var f := GridStep(norm, gp, params.direction, vertices);
    assert f(pt) == Err(Failed("outside of bound"));
  }

  /** With at most the base vertex known, the +x corner is missing. */
  lemma LoneCornerMissing(gp: HGridTransformation, x: real, y: real, vertices: map<string, real>)
    requires gp.gridSize > 0.0
    requires vertices.Keys <= {VertexName(gp, x, y)}
    ensures Corners(gp, x, y, vertices).None?
  {
    NextCellKeyDiffers(gp, x, y);
    assert VertexName(gp, x, y) == CellKey(gp, x, y).value;
  }

  /** The HS loop follows the forwarding entries in map order, not along
      the route: on the route ihs -> mid -> ohs, taking the entry of mid
      first looks up an edge ihs -> ohs and aborts without one. */
  lemma HsOrderMatters(norm: Normalise, hg: HSTransformationGraph, ihs: string, mid: string, ohs: string,
                       ids: seq<int>, points: map<int, PointResult>,
                       fetch: (string, seq<string>) -> map<string, real>)
    requires ihs != mid
    requires hg.Get(ihs, ohs).None?
    requires forall j :: 0 <= j < |ids| ==> ids[j] in points
    ensures HsWalk(norm, hg, map[ihs := [mid], mid := [ohs]], [mid, ihs], 0, ihs, ids, points, fetch)
         == Pass(points, Some(Unsupported))
  {
  }

  // ---------------------------------------------------------------------
  // The session

  /** `TransformerOutput`: the session's fixed fields and its points. */
  class TransformerOutput {
    const csPath: Forwarding
    const hsPath: Forwarding
    const includesGrid: bool
    const ics: string
    const ihs: string
    const ocs: string
    const ohs: string
    var points: map<int, PointResult>

    /** A session with no points yet. */
    constructor(csPath: Forwarding, hsPath: Forwarding, includesGrid: bool,
                ics: string, ihs: string, ocs: string, ohs: string)
      ensures this.csPath == csPath && this.hsPath == hsPath && this.includesGrid == includesGrid
      ensures this.ics == ics && this.ihs == ihs && this.ocs == ocs && this.ohs == ohs
      ensures points == map[]
    {
      this.csPath, this.hsPath, this.includesGrid := csPath, hsPath, includesGrid;
      this.ics, this.ihs, this.ocs, this.ohs := ics, ihs, ocs, ohs;
      points := map[];
    }

    function Settings(): Session {
      Session(csPath, hsPath, includesGrid, ics, ihs, ocs, ohs)
    }

    /** `Add`: store the point under its id, replacing any earlier one. */
    method Add(id: int, pt: PointResult)
      modifies this
      ensures points == old(points)[id := pt]
      ensures id in points && points[id] == pt
      ensures forall k :: k != id ==> (k in points <==> k in old(points)) && (k in old(points) ==> points[k] == old(points)[k])
    {
      points := points[id := pt];
    }

    /** One HS edge applied to the points in place (transformer.go:218-358). */
    method ApplyEdge(norm: Normalise, hg: HSTransformationGraph, params: HSTransformation, ids: seq<int>,
                     fetch: (string, seq<string>) -> map<string, real>) returns (failure: Option<BatchError>)
      requires forall j :: 0 <= j < |ids| ==> ids[j] in points
      modifies this
      ensures Pass(points, failure) == HsStep(norm, hg, params, ids, old(points), fetch)
    {
      if params.kind == GridKind {
        if params.name !in hg.methods.grid {
          return Some(Unsupported);
        }
        var gp := hg.methods.grid[params.name];
        var keys := FetchList(gp, ids, points);
        var vertices := fetch(gp.db, keys);
        var p := ApplyAll(ids, points, GridStep(norm, gp, params.direction, vertices));
        points, failure := p.points, p.failure;
      } else if params.kind == PlaneKind {
        if params.name !in hg.methods.plane {
          return Some(Unsupported);
        }
        var p := ApplyAll(ids, points, PlaneStep(hg.methods.plane[params.name], params.direction));
        points, failure := p.points, p.failure;
      } else {
        failure := Some(Unsupported);
      }
    }

    /** The CS walk of every point in the order `ids` (transformer.go:62-201). */
    method WalkPoints(cg: CSTransformationGraph, rule: InterceptRule, dist: DistFn, ids: seq<int>, levels: nat)
      returns (failure: Option<BatchError>)
      requires forall j :: 0 <= j < |ids| ==> ids[j] in points
      modifies this
      ensures Pass(points, failure) == MapPoints(ids, 0, old(points), WalkStep(Settings(), cg, HopBy(rule, dist), levels))
    {
      var s := Settings();
      ghost var f := WalkStep(s, cg, HopBy(rule, dist), levels);
      for i := 0 to |ids|
        invariant points.Keys == old(points).Keys
        invariant MapPoints(ids, i, points, f) == MapPoints(ids, 0, old(points), f)
      {
        var w := WalkOne(s, cg, rule, dist, points[ids[i]], levels);
        if w.Err? {
          return Some(w.error);
        }
        points := points[ids[i] := w.value];
      }
      failure := None;
    }

    /** The HS loop over the forwarding entries in the order `hsOrder`
        (transformer.go:204-359). */
    method HeightPoints(norm: Normalise, hg: HSTransformationGraph, ids: seq<int>, hsOrder: seq<string>,
                        fetch: (string, seq<string>) -> map<string, real>)
      returns (failure: Option<BatchError>)
      requires forall j :: 0 <= j < |ids| ==> ids[j] in points
      requires forall j :: 0 <= j < |hsOrder| ==> hsOrder[j] in hsPath
      modifies this
      ensures Pass(points, failure) == HsWalk(norm, hg, hsPath, hsOrder, 0, ihs, ids, old(points), fetch)
    {
      var from := ihs;
      for i := 0 to |hsOrder|
        invariant points.Keys == old(points).Keys
        invariant HsWalk(norm, hg, hsPath, hsOrder, i, from, ids, points, fetch)
               == HsWalk(norm, hg, hsPath, hsOrder, 0, ihs, ids, old(points), fetch)
      {
        var tos := hsPath[hsOrder[i]];
        if |tos| == 0 {
          return Some(Crash);
        }
        var params := hg.Get(from, tos[0]);
        if params.None? {
          return Some(Unsupported);
        }
        from := tos[0];
        failure := ApplyEdge(norm, hg, params.value, ids, fetch);
        if failure.Some? {
          return;
        }
      }
      failure := None;
    }

    /** `TransformBatch` under the rules `rules` (`Source` for the code as
        written): the CS walk of every point in iteration order `ids`, then
        the HS edges in the order `hsOrder` of the forwarding entries; on an
        abort, the points keep what was done before it. */
    method TransformBatch(rules: Rules, cg: CSTransformationGraph, hg: HSTransformationGraph, dist: DistFn,
                          ids: seq<int>, hsOrder: seq<string>,
                          fetch: (string, seq<string>) -> map<string, real>, levels: nat)
      returns (r: Result<map<int, PointResult>, BatchError>)
      requires IsOrder(ids, points.Keys)
      requires IsOrder(hsOrder, hsPath.Keys)
      modifies this
      ensures var b := Batch(rules, Settings(), cg, hg, dist, ids, hsOrder, old(points), fetch, levels);
        points == b.points && r == (if b.failure.None? then Ok(b.points) else Err(b.failure.value))
    {
      var failure := WalkPoints(cg, rules.intercept, dist, ids, levels);
      if failure.None? {
        failure := HeightPoints(rules.normalise, hg, ids, hsOrder, fetch);
      }
      r := if failure.None? then Ok(points) else Err(failure.value);
    }
  }
}
