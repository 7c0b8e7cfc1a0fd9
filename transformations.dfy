/**
 * Session set-up of transformations/transformations.go: the repository of
 * valid systems and graphs (`Setup`), the validation of a request's four
 * systems (`Validate`, `GetTransformer`), the choice of the CS and HS
 * routes, and the legacy list-path batch (`TransformBatch` of the older
 * `TransformerOutput`, whose routes are lists and whose points are values).
 *
 * `GetTransformer` is written with two switches that the source does not
 * have: `search` (how `getPath` recurses) and `test` (which field marks a
 * grid edge). `GetTransformer(…, SamePath, ByName, …)` is the code as
 * written; `ExtendedPath`, `IsolatedTargets` and `ByType` are the
 * corrections described in the Findings of the README. Likewise the legacy
 * batch takes the zone test's intercept rule, `AsWritten` for the code as
 * written.
 */
module Transformations {
  import opened Wrappers
  import opened Config
  import opened Graphs
  import opened GraphPath
  import opened HeightTransform
  import opened Transformer
  import PathFixture

  const InvalidCS: string := "Invalid input CS"
  const InvalidHS: string := "Invalid input HS"
  const PointOutOfBounds: string := "point out of bounds"

  /** The systems listed, each mapped to true (`map[string]bool`). */
  function Listed(ids: seq<string>): (m: map<string, bool>)
    ensures forall k :: k in m <==> k in ids
    ensures forall k :: k in m ==> m[k]
  {
    map k | k in ids :: true
  }

  /** `Validate`: the four membership checks, in the source's order, each
      with its own message. */
  function Validate(validCSs: map<string, bool>, validHSs: map<string, bool>,
                    ics: string, ocs: string, ihs: string, ohs: string): (err: Option<string>)
    ensures err.None? <==> ics in validCSs && ocs in validCSs && ihs in validHSs && ohs in validHSs
    ensures err == Some(InvalidCS) <==> ics !in validCSs || ocs !in validCSs
    ensures err == Some(InvalidHS) <==> ics in validCSs && ocs in validCSs && (ihs !in validHSs || ohs !in validHSs)
  {
    if ics !in validCSs then Some(InvalidCS)
    else if ocs !in validCSs then Some(InvalidCS)
    else if ihs !in validHSs then Some(InvalidHS)
    else if ohs !in validHSs then Some(InvalidHS)
    else None
  }

  /** The checks of validation_test.go on the systems cs1, cs2, hs1, hs2:
      all valid passes, and each unknown system is refused. */
  lemma ValidationFixture()
    ensures var cs, hs := Listed(["cs1", "cs2"]), Listed(["hs1", "hs2"]);
      && Validate(cs, hs, "cs1", "cs2", "hs1", "hs2").None?
      && Validate(cs, hs, "cs3", "cs2", "hs1", "hs2") == Some(InvalidCS)
      && Validate(cs, hs, "cs1", "cs3", "hs1", "hs2") == Some(InvalidCS)
      && Validate(cs, hs, "cs1", "cs2", "hs3", "hs2") == Some(InvalidHS)
      && Validate(cs, hs, "cs1", "cs1", "hs1", "hs3") == Some(InvalidHS)
  {
    var cs, hs := Listed(["cs1", "cs2"]), Listed(["hs1", "hs2"]);
    assert "cs1" in cs && "cs2" in cs && "hs1" in hs && "hs2" in hs;
    assert "cs3" !in cs && "hs3" !in hs;
  }

  // ---------------------------------------------------------------------
  // Route choice

  /** Which field marks an HS edge as a grid edge: the method name, as
      written, or the method type, as evidently intended. */
  datatype GridTest = ByName | ByType

  predicate MarksGrid(test: GridTest, params: HSTransformation) {
    match test
    case ByName => params.name == GridKind
    case ByType => params.kind == GridKind
  }

  /** Go's zero value of an HS edge, which a failed lookup yields. */
  const ZeroEdge := HSTransformation("", "", 0.0)

  function EdgeOrZero(hg: HSTransformationGraph, from: string, to: string): HSTransformation {
    match hg.Get(from, to)
    case Some(p) => p
    case None => ZeroEdge
  }

  /** The system before the i-th one of a route that starts at `from`. */
  function Before(from: string, route: seq<string>, i: nat): string
    requires i < |route|
  {
    if i == 0 then from else route[i - 1]
  }

  /** Whether the loop over the HS route finds a grid edge. */
  function StoreBgs(test: GridTest, hg: HSTransformationGraph, from: string, route: seq<string>): bool
    decreases |route|
  {
    |route| > 0 && (MarksGrid(test, EdgeOrZero(hg, from, route[0])) || StoreBgs(test, hg, route[0], route[1..]))
  }

  /** Some edge of the route from `from` is marked as a grid edge. */
  predicate SomeGridEdge(test: GridTest, hg: HSTransformationGraph, from: string, route: seq<string>) {
    exists i :: 0 <= i < |route| && MarksGrid(test, EdgeOrZero(hg, Before(from, route, i), route[i]))
  }

  /** The bgs coordinates are kept exactly when some edge of the route is
      marked as a grid edge. */
  lemma {:induction false} StoreBgsSomeEdge(test: GridTest, hg: HSTransformationGraph, from: string, route: seq<string>)
    ensures StoreBgs(test, hg, from, route) <==> SomeGridEdge(test, hg, from, route)
    decreases |route|
  {
    if |route| > 0 {
      StoreBgsSomeEdge(test, hg, route[0], route[1..]);
      if StoreBgs(test, hg, route[0], route[1..]) {
        var i :| 0 <= i < |route| - 1 && MarksGrid(test, EdgeOrZero(hg, Before(route[0], route[1..], i), route[1..][i]));
        assert Before(from, route, i + 1) == Before(route[0], route[1..], i);
      }
      forall i | 1 <= i < |route| && MarksGrid(test, EdgeOrZero(hg, Before(from, route, i), route[i]))
        ensures StoreBgs(test, hg, route[0], route[1..])
      {
        assert Before(route[0], route[1..], i - 1) == Before(from, route, i);
        assert route[1..][i - 1] == route[i];
      }
    }
  }

  /** As written, grid edges are recognised by a method name equal to
      "grid": on the height fixture the route hs1 -> hs2 -> hs3 crosses the
      grid edge gtr23, which the name test misses and the type test finds. */
  lemma AsWrittenGridByName()
    ensures var hg := HSTransformationGraph(PathFixture.HsGraph, PathFixture.Methods);
      && !StoreBgs(ByName, hg, "hs1", ["hs2", "hs3"])
      && StoreBgs(ByType, hg, "hs1", ["hs2", "hs3"])
  {
    var hg := HSTransformationGraph(PathFixture.HsGraph, PathFixture.Methods);
    assert EdgeOrZero(hg, "hs1", "hs2") == PathFixture.Plane("ptr12", 1.0);
    assert EdgeOrZero(hg, "hs2", "hs3") == PathFixture.Grid("gtr23", 1.0);
    assert ["hs2", "hs3"][1..] == ["hs3"];
    assert ["hs3"][1..] == [];
  }

  /** The route a search returns as a route of hops: as written the list
      itself; corrected, without the start system the search now includes. */
  function Trail(search: Recursion, route: seq<string>): seq<string> {
    match search
    case SamePath => route
    case _ => if |route| == 0 then [] else route[1..]
  }

  /** The fields `GetTransformer` fills: a list route for each graph. */
  datatype LegacySession = LegacySession(csPath: seq<string>, hsPath: seq<string>, includesGrid: bool,
                                         ics: string, ihs: string)

  /** A refused system, or a search deeper than the bound. */
  datatype SetupError = Invalid(message: string) | TooDeep

  /** The CS targets: ocs, and bgs-cad when the HS route has a grid edge. */
  function CsTargets(ocs: string, storeBgs: bool): (t: map<string, bool>)
    ensures forall k :: k in t <==> k == ocs || (storeBgs && k == BgsCad)
    ensures forall k :: k in t ==> !t[k]
  {
    if storeBgs then map[ocs := false][BgsCad := false] else map[ocs := false]
  }

  /** What `GetTransformer` computes: validation, the HS route to ohs, the
      grid test over it, then the CS route to the CS targets. */
  function Plan(validCSs: map<string, bool>, validHSs: map<string, bool>,
                cg: CSTransformationGraph, hg: HSTransformationGraph,
                ics: string, ocs: string, ihs: string, ohs: string,
                search: Recursion, test: GridTest, hsOrder: seq<string>, csOrder: seq<string>, fuel: nat)
    : (r: Result<LegacySession, SetupError>)
  {
    match Validate(validCSs, validHSs, ics, ocs, ihs, ohs)
    case Some(m) => Err(Invalid(m))
    case None =>
      var hs := Visit(search, hg.data, hsOrder, ihs, map[ohs := false], [], fuel);
      if hs.route.None? then Err(TooDeep)
      else
        var hsPath := Trail(search, hs.route.value);
        var storeBgs := StoreBgs(test, hg, ihs, hsPath);
        var cs := Visit(search, cg.data, csOrder, ics, CsTargets(ocs, storeBgs), [], fuel);
        if cs.route.None? then Err(TooDeep)
        else Ok(LegacySession(Trail(search, cs.route.value), hsPath, storeBgs, ics, ihs))
  }

  /** The valid request of the validation test is set up: with no
      transformation loaded, both searches have no neighbour to try and end
      with an empty route, whatever the search rule and iteration order. */
  lemma ValidationFixturePlans(search: Recursion, test: GridTest, methods: TransformationMethods,
                               hsOrder: seq<string>, csOrder: seq<string>, fuel: nat)
    requires fuel >= 1
    ensures Plan(Listed(["cs1", "cs2"]), Listed(["hs1", "hs2"]), CSTransformationGraph(map[]), HSTransformationGraph(map[], methods),
                 "cs1", "cs2", "hs1", "hs2", search, test, hsOrder, csOrder, fuel).Ok?
  {
    ValidationFixture();
    var hg := HSTransformationGraph(map[], methods);
    var hs := Visit(search, hg.data, hsOrder, "hs1", map["hs2" := false], [], fuel);
    var t := Mark(map["hs2" := false], "hs1");
    assert "hs2" in t && !t["hs2"];
    assert Neighbours(hg.data, hsOrder, "hs1") == [];
    assert hs == Scan(search, hg.data, hsOrder, "hs1", [], 0, t, [], fuel - 1, MaxLen, []);
    var storeBgs := StoreBgs(test, hg, "hs1", Trail(search, hs.route.value));
    var ct := Mark(CsTargets("cs2", storeBgs), "cs1");
    assert "cs2" in ct && !ct["cs2"];
    var cg: Graph<seq<CSTransformation>> := map[];
    assert Neighbours(cg, csOrder, "cs1") == [];
    assert Visit(search, cg, csOrder, "cs1", CsTargets("cs2", storeBgs), [], fuel)
        == Scan(search, cg, csOrder, "cs1", [], 0, ct, [], fuel - 1, MaxLen, []);
  }

  /** `GetTransformer` refuses exactly what `Validate` refuses, with the
      same message, and a session records the input systems; the grid flag
      is set exactly when some edge of its HS route marks a grid. */
  lemma PlanValidates(validCSs: map<string, bool>, validHSs: map<string, bool>,
                      cg: CSTransformationGraph, hg: HSTransformationGraph,
                      ics: string, ocs: string, ihs: string, ohs: string,
                      search: Recursion, test: GridTest, hsOrder: seq<string>, csOrder: seq<string>, fuel: nat)
    ensures var r := Plan(validCSs, validHSs, cg, hg, ics, ocs, ihs, ohs, search, test, hsOrder, csOrder, fuel);
      var v := Validate(validCSs, validHSs, ics, ocs, ihs, ohs);
      && (v.Some? <==> r.Err? && r.error.Invalid?)
      && (v.Some? ==> r == Err(Invalid(v.value)))
      && (r.Ok? ==> r.value.ics == ics && r.value.ihs == ihs)
      && (r.Ok? ==> (r.value.includesGrid <==> SomeGridEdge(test, hg, ihs, r.value.hsPath)))
  {
    var r := Plan(validCSs, validHSs, cg, hg, ics, ocs, ihs, ohs, search, test, hsOrder, csOrder, fuel);
    if r.Ok? {
      StoreBgsSomeEdge(test, hg, ihs, r.value.hsPath);
    }
  }

  /** As written, both routes hold at most one system: the search never
      extends `path`, so it returns `[]` or `[reached system]`. */
  lemma AsWrittenRoutesShort(validCSs: map<string, bool>, validHSs: map<string, bool>,
                             cg: CSTransformationGraph, hg: HSTransformationGraph,
                             ics: string, ocs: string, ihs: string, ohs: string,
                             test: GridTest, hsOrder: seq<string>, csOrder: seq<string>, fuel: nat)
    ensures var r := Plan(validCSs, validHSs, cg, hg, ics, ocs, ihs, ohs, SamePath, test, hsOrder, csOrder, fuel);
      r.Ok? ==> |r.value.hsPath| <= 1 && |r.value.csPath| <= 1
  {
  }

  // ---------------------------------------------------------------------
  // The repository

  /** `Repository`: the valid systems and the two graphs. */
  class Repository {
    var app: App
    var validCSs: map<string, bool>
    var validHSs: map<string, bool>
    var csGraph: CSTransformationGraph
    var hsGraph: HSTransformationGraph

    /** `Setup`: the valid sets hold exactly the listed systems, and the
        graphs are the configured ones. */
    constructor Setup(a: App)
      ensures app == a
      ensures validCSs == Listed(a.validCSs) && validHSs == Listed(a.validHSs)
      ensures csGraph == CSTransformationGraph(a.csGraph)
      ensures hsGraph == HSTransformationGraph(a.hsGraph, a.hTransformations)
    {
      var cs := ListAll(a.validCSs);
      var hs := ListAll(a.validHSs);
      app := a;
      validCSs, validHSs := cs, hs;
      csGraph := CSTransformationGraph(a.csGraph);
      hsGraph := HSTransformationGraph(a.hsGraph, a.hTransformations);
    }

    /** `GetTransformer`: validation, then the routes and the grid flag. */
    method GetTransformer(ics: string, ocs: string, ihs: string, ohs: string,
                          search: Recursion, test: GridTest, hsOrder: seq<string>, csOrder: seq<string>, fuel: nat)
      returns (r: Result<LegacySession, SetupError>)
      ensures r == Plan(validCSs, validHSs, csGraph, hsGraph, ics, ocs, ihs, ohs, search, test, hsOrder, csOrder, fuel)
    {
      if ics !in validCSs {
        return Err(Invalid(InvalidCS));
      }
      if ocs !in validCSs {
        return Err(Invalid(InvalidCS));
      }
      if ihs !in validHSs {
        return Err(Invalid(InvalidHS));
      }
      if ohs !in validHSs {
        return Err(Invalid(InvalidHS));
      }
      var hsTargets := new TargetFlags();
      hsTargets.Put(ohs, false);
      var hsRoute := GetPath(search, hsGraph.data, hsOrder, ihs, hsTargets, [], fuel);
      if hsRoute.None? {
        return Err(TooDeep);
      }
      var hsPath := Trail(search, hsRoute.value);
      var storeBgs := FindGrid(test, hsGraph, ihs, hsPath);
      var csTargets := new TargetFlags();
      csTargets.Put(ocs, false);
      if storeBgs {
        csTargets.Put(BgsCad, false);
      }
      assert csTargets.flags == CsTargets(ocs, storeBgs);
      var csRoute := GetPath(search, csGraph.data, csOrder, ics, csTargets, [], fuel);
      if csRoute.None? {
        return Err(TooDeep);
      }
      r := Ok(LegacySession(Trail(search, csRoute.value), hsPath, storeBgs, ics, ihs));
    }
  }

  /** The fill loop of `Setup`. */
  method ListAll(ids: seq<string>) returns (m: map<string, bool>)
    ensures m == Listed(ids)
  {
    m := map[];
    for i := 0 to |ids|
      invariant m == Listed(ids[..i])
    {
      assert ids[..i + 1] == ids[..i] + [ids[i]];
      m := m[ids[i] := true];
    }
    assert ids[..|ids|] == ids;
  }

  /** The loop over the HS route that sets `storeBgs` (transformations.go:74-98). */
  method FindGrid(test: GridTest, hg: HSTransformationGraph, ihs: string, hsPath: seq<string>)
    returns (storeBgs: bool)
    ensures storeBgs == StoreBgs(test, hg, ihs, hsPath)
  {
    storeBgs := false;
    var from := ihs;
    var i := 0;
    while i < |hsPath|
      invariant 0 <= i <= |hsPath|
      invariant StoreBgs(test, hg, ihs, hsPath) == StoreBgs(test, hg, from, hsPath[i..])
      invariant !storeBgs
    {
      var to := hsPath[i];
      var found := hg.Get(from, to);
      var params := if found.Some? then found.value else ZeroEdge;
      assert hsPath[i..][1..] == hsPath[i + 1..];
      from := to;
      i := i + 1;
      if !MarksGrid(test, params) {
        continue;
      }
      storeBgs := true;
      break;
    }
  }

  // ---------------------------------------------------------------------
  // The legacy batch

  /** The CS loop of the legacy batch from `from` along `path`: each edge
      must exist, and each point, at the coordinates it was added with (the
      loop updates copies), must lie in some zone of the edge under the
      intercept rule `rule`. */
  function LegacyCs(rule: InterceptRule, cg: CSTransformationGraph, dist: DistFn, from: string, path: seq<string>,
                    points: map<int, PointResult>): Option<BatchError>
    decreases |path|
  {
    if |path| == 0 then None
    else
      match cg.Get(from, path[0])
      case None => Some(Unsupported)
      case Some(zones) =>
        if exists k :: k in points && Hop(rule, dist, zones, points[k].x, points[k].y).None? then Some(Failed(PointOutOfBounds))
        else LegacyCs(rule, cg, dist, path[0], path[1..], points)
  }

  /** The legacy fetch list: the vertex at (X, Y) of every point with an H. */
  function LegacyKeys(gp: HGridTransformation, ids: seq<int>, points: map<int, PointResult>, n: nat): seq<string>
    requires n <= |ids|
    requires forall j :: 0 <= j < |ids| ==> ids[j] in points
  {
    if n == 0 then []
    else
      var pt := points[ids[n - 1]];
      LegacyKeys(gp, ids, points, n - 1) + (if pt.hasH then [VertexName(gp, pt.x, pt.y)] else [])
  }

  /** One HS edge of the legacy batch: the grid step fails when a point
      misses a corner (its result is discarded otherwise); the plane step
      never fails. */
  function LegacyEdge(hg: HSTransformationGraph, params: HSTransformation, ids: seq<int>,
                      points: map<int, PointResult>, fetch: (string, seq<string>) -> map<string, real>): Option<BatchError>
    requires forall j :: 0 <= j < |ids| ==> ids[j] in points
  {
    if params.kind == GridKind then
      if params.name !in hg.methods.grid then Some(Unsupported)
      else
        var gp := hg.methods.grid[params.name];
        var vertices := fetch(gp.db, LegacyKeys(gp, ids, points, |ids|));
        if exists k :: k in points && Grid(ByHundred, gp, points[k].xbgs, points[k].ybgs, points[k].h, params.direction, vertices).Err?
        then Some(Failed(OutsideOfBound))
        else None
    else if params.kind == PlaneKind then
      if params.name !in hg.methods.plane then Some(Unsupported) else None
    else Some(Unsupported)
  }

  const OutsideOfBound: string := "outside of bound"

  /** The HS loop of the legacy batch from `from` along `path`. */
  function LegacyHs(hg: HSTransformationGraph, from: string, path: seq<string>, ids: seq<int>,
                    points: map<int, PointResult>, fetch: (string, seq<string>) -> map<string, real>): Option<BatchError>
    requires forall j :: 0 <= j < |ids| ==> ids[j] in points
    decreases |path|
  {
    if |path| == 0 then None
    else
      match hg.Get(from, path[0])
      case None => Some(Unsupported)
      case Some(params) =>
        var e := LegacyEdge(hg, params, ids, points, fetch);
        if e.Some? then e else LegacyHs(hg, path[0], path[1..], ids, points, fetch)
  }

  /** The legacy batch with the zone test `rule` (`AsWritten` for the code
      as written): the first error, or the points exactly as added. */
  function LegacyBatch(rule: InterceptRule, s: LegacySession, cg: CSTransformationGraph, hg: HSTransformationGraph, dist: DistFn,
                       ids: seq<int>, points: map<int, PointResult>,
                       fetch: (string, seq<string>) -> map<string, real>): (r: Result<map<int, PointResult>, BatchError>)
    requires forall j :: 0 <= j < |ids| ==> ids[j] in points
    ensures r.Ok? ==> r.value == points
    ensures r.Err? <==> LegacyCs(rule, cg, dist, s.ics, s.csPath, points).Some? || LegacyHs(hg, s.ihs, s.hsPath, ids, points, fetch).Some?
  {
    match LegacyCs(rule, cg, dist, s.ics, s.csPath, points)
    case Some(e) => Err(e)
    case None =>
      match LegacyHs(hg, s.ihs, s.hsPath, ids, points, fetch)
      case Some(e) => Err(e)
      case None => Ok(points)
  }

  /** A point outside every zone of the first CS edge aborts the whole
      legacy batch with "point out of bounds". */
  lemma LegacyOutOfBoundsAborts(rule: InterceptRule, s: LegacySession, cg: CSTransformationGraph, hg: HSTransformationGraph,
                                dist: DistFn, ids: seq<int>, points: map<int, PointResult>,
                                fetch: (string, seq<string>) -> map<string, real>, k: int, zones: seq<CSTransformation>)
    requires forall j :: 0 <= j < |ids| ==> ids[j] in points
    requires |s.csPath| > 0 && cg.Get(s.ics, s.csPath[0]) == Some(zones)
    requires k in points && forall z :: z in zones ==> !InZoneBy(rule, dist, z, points[k].x, points[k].y)
    ensures LegacyBatch(rule, s, cg, hg, dist, ids, points, fetch) == Err(Failed(PointOutOfBounds))
  {
    assert Hop(rule, dist, zones, points[k].x, points[k].y).None?;
  }

  /** As written, a legacy batch whose first CS edge has only axis-parallel
      zones (rectangles, say) aborts as soon as it holds a point `k`. */
  lemma AsWrittenLegacyAxisZonesAbort(s: LegacySession, cg: CSTransformationGraph, hg: HSTransformationGraph,
                                      dist: DistFn, ids: seq<int>, points: map<int, PointResult>,
                                      fetch: (string, seq<string>) -> map<string, real>, zones: seq<CSTransformation>,
                                      k: int)
    requires forall j :: 0 <= j < |ids| ==> ids[j] in points
    requires |s.csPath| > 0 && cg.Get(s.ics, s.csPath[0]) == Some(zones)
    requires forall j :: 0 <= j < |zones| ==> AxisAligned(zones[j].border)
    requires k in points
    ensures LegacyBatch(AsWritten, s, cg, hg, dist, ids, points, fetch) == Err(Failed(PointOutOfBounds))
  {
    forall z | z in zones
      ensures !InZoneBy(AsWritten, dist, z, points[k].x, points[k].y)
    {
      AsWrittenAxisAlignedNoCrossing(dist, z.border, points[k].x, points[k].y, |z.border|);
    }
    LegacyOutOfBoundsAborts(AsWritten, s, cg, hg, dist, ids, points, fetch, k, zones);
  }

  /** The legacy `TransformerOutput`; its `points` map is created empty. */
  class LegacyTransformer {
    const session: LegacySession
    var points: map<int, PointResult>

    constructor (session: LegacySession)
      ensures this.session == session && points == map[]
    {
      this.session := session;
      points := map[];
    }

    /** `Add`: store a copy of the point under its id. */
    method Add(id: int, pt: PointResult)
      modifies this
      ensures points == old(points)[id := pt]
    {
      points := points[id := pt];
    }

    /** The legacy `TransformBatch` with the zone test `rule` (`AsWritten`
        for the code as written): it changes no point and returns the points
        as added, or the first error. */
    method TransformBatch(rule: InterceptRule, cg: CSTransformationGraph, hg: HSTransformationGraph, dist: DistFn,
                          ids: seq<int>, fetch: (string, seq<string>) -> map<string, real>)
      returns (r: Result<map<int, PointResult>, BatchError>)
      requires IsOrder(ids, points.Keys)
      ensures r == LegacyBatch(rule, session, cg, hg, dist, ids, points, fetch)
    {
      var csPath := session.csPath;
      var from := session.ics;
      for i := 0 to |csPath|
        invariant LegacyCs(rule, cg, dist, from, csPath[i..], points) == LegacyCs(rule, cg, dist, session.ics, csPath, points)
      {
        assert csPath[i..][1..] == csPath[i + 1..];
        var zones := cg.Get(from, csPath[i]);
        if zones.None? {
          return Err(Unsupported);
        }
        from := csPath[i];
        var allIn := AllInZones(rule, dist, zones.value, ids, points);
        if !allIn {
          return Err(Failed(PointOutOfBounds));
        }
      }
      var hsPath := session.hsPath;
      from := session.ihs;
      for i := 0 to |hsPath|
        invariant LegacyHs(hg, from, hsPath[i..], ids, points, fetch) == LegacyHs(hg, session.ihs, hsPath, ids, points, fetch)
      {
        assert hsPath[i..][1..] == hsPath[i + 1..];
        var params := hg.Get(from, hsPath[i]);
        if params.None? {
          return Err(Unsupported);
        }
        from := hsPath[i];
        var e := LegacyStep(hg, params.value, ids, points, fetch);
        if e.Some? {
          return Err(e.value);
        }
      }
      r := Ok(points);
    }
  }

  /** The point loop of one legacy CS edge. */
  method AllInZones(rule: InterceptRule, dist: DistFn, zones: seq<CSTransformation>, ids: seq<int>,
                    points: map<int, PointResult>) returns (allIn: bool)
    requires IsOrder(ids, points.Keys)
    ensures allIn <==> forall k :: k in points ==> Hop(rule, dist, zones, points[k].x, points[k].y).Some?
  {
    for i := 0 to |ids|
      invariant forall j :: 0 <= j < i ==> Hop(rule, dist, zones, points[ids[j]].x, points[ids[j]].y).Some?
    {
      var pt := points[ids[i]];
      var c := FirstZone(rule, dist, zones, pt.x, pt.y);
      if c.None? {
        return false;
      }
    }
    forall k | k in points
      ensures Hop(rule, dist, zones, points[k].x, points[k].y).Some?
    {
      var j :| 0 <= j < |ids| && ids[j] == k;
    }
    return true;
  }

  /** The legacy fetch-list loop (transformations.go:270-287). */
  method LegacyKeyList(gp: HGridTransformation, ids: seq<int>, points: map<int, PointResult>) returns (keys: seq<string>)
    requires forall j :: 0 <= j < |ids| ==> ids[j] in points
    ensures keys == LegacyKeys(gp, ids, points, |ids|)
  {
    keys := [];
    for i := 0 to |ids|
      invariant keys == LegacyKeys(gp, ids, points, i)
    {
      var pt := points[ids[i]];
      if !pt.hasH {
        continue;
      }
      keys := keys + [VertexName(gp, pt.x, pt.y)];
    }
  }

  /** The legacy interpolation loop, with the test of one point as `ok`:
      it stops at the first point that fails it (the heights it computes are
      discarded). */
  method AllPass(ok: PointResult -> bool, ids: seq<int>, points: map<int, PointResult>) returns (passed: bool)
    requires IsOrder(ids, points.Keys)
    ensures passed <==> forall k :: k in points ==> ok(points[k])
  {
    for i := 0 to |ids|
      invariant forall j :: 0 <= j < i ==> ok(points[ids[j]])
    {
      if !ok(points[ids[i]]) {
        return false;
      }
    }
    forall k | k in points
      ensures ok(points[k])
    {
      var j :| 0 <= j < |ids| && ids[j] == k;
    }
    return true;
  }

  /** One legacy HS edge: the fetch list loop, then the interpolation loop. */
  method LegacyStep(hg: HSTransformationGraph, params: HSTransformation, ids: seq<int>,
                    points: map<int, PointResult>, fetch: (string, seq<string>) -> map<string, real>)
    returns (e: Option<BatchError>)
    requires IsOrder(ids, points.Keys)
    ensures e == LegacyEdge(hg, params, ids, points, fetch)
  {
    if params.kind == GridKind {
      if params.name !in hg.methods.grid {
        return Some(Unsupported);
      }
      var gp := hg.methods.grid[params.name];
      var keys := LegacyKeyList(gp, ids, points);
      var vertices := fetch(gp.db, keys);
      var onGrid := AllPass((pt: PointResult) => Grid(ByHundred, gp, pt.xbgs, pt.ybgs, pt.h, params.direction, vertices).Ok?,
                            ids, points);
      return if onGrid then None else Some(Failed(OutsideOfBound));
    } else if params.kind == PlaneKind {
      if params.name !in hg.methods.plane {
        return Some(Unsupported);
      }
      return None;
    }
    e := Some(Unsupported);
  }
}
