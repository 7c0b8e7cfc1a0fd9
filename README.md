# bgstrans-2-api: coordinate and height transformation engine, modelled in Dafny

bgstrans-2-api is a service that takes batches of points and transforms them:
- their planar coordinates, from one coordinate system (CS) to another;
- their heights, from one height system (HS) to another.

The systems form two graphs:
- An edge of the CS graph carries an ordered list of zones. Each zone is a polygon with a bivariate cubic polynomial for X and for Y.
- An edge of the HS graph names a height correction: a `plane` (a tilted plane) or a `grid` (a bilinear interpolation over four corner values fetched from a vertex database).

A request gives the input and output systems and a list of text rows. The service proceeds in five steps:
1. It validates the four systems.
2. It searches each graph for a route.
3. It reads every row into a point record.
4. It walks every point through the CS route, with zone selection and polynomial, then applies every HS edge to the whole batch.
5. It writes every record back as a response row.

The model covers the transformation engine and the row handling around it, one module per source file:

| module | file | what it models |
|---|---|---|
| `Config` | config.dfy | the configuration records, `CSTransformation.InZone` (ray-crossing parity over a closed border), the polynomial of one hop |
| `Graphs` | graphs.dfy | the two read-only graphs and their `Get` lookups |
| `GraphPath` | graph_path.dfy | `getPath`, the recursive target search that marks reached targets in a shared map, and which route it selects |
| `PathSearch` | path_search.dfy | the breadth-first resolver `distGraph` / `findPath` / `findPathGraph` exercised by the path tests |
| `PathFixture` | path_fixture.dfy | the seven-system height graph of the path tests and every distance, route and route tree the tests expect |
| `HeightTransform` | height.dfy | `planeInterpolation`, `gridInterpolation`, `makeOndulationVertexNameFromXY` |
| `Transformer` | transformer.dfy | `TransformerOutput.Add` and `TransformBatch` of transformer.go (the forwarding-tree batch engine) |
| `Transformations` | transformations.dfy | `Repository`, `Setup`, `GetTransformer`, `Validate` and the older list-route `TransformBatch` of transformations.go |
| `Handler` | handler.dfy | the row loop and response loop of the `/transform` handler in main.go |
| `Wrappers` | wrappers.dfy | `Option` and `Result` |

Code that changes state step by step is modelled as methods with loops. Each method is proved equal to a specification function, and the properties are proved about those functions. This covers:
- `InZone`;
- the `getPath` loops;
- `Setup` and `GetTransformer`;
- both `TransformBatch` functions and their point loops;
- the handler's row loops.

Objects whose fields the source updates are classes: the targets map of `getPath`, `Repository`, and both `TransformerOutput` types. Pure code is modelled as functions: the lookups, the height corrections and the resolver.

Several things the source takes from outside become parameters:

| parameter | stands for |
|---|---|
| `dist` | `util.Dist` |
| `fetch` | the SQLite vertex query: database path and key list in, found vertex values out |
| `parse` | `strconv.ParseFloat` |
| `format` | `fmt.Sprintf("%.3f", ·)` |
| `order`, `ids`, `hsOrder`, `csOrder` | Go's map iteration order |
| `fuel`, `levels` | depth bounds on loops the source does not bound |

Coordinates, heights and coefficients are `real`.

The source holds two declarations of `TransformerOutput`, one in transformations.go and one in transformer.go, and they cannot be compiled together. Both are modelled:
- `Transformer.TransformerOutput` is the forwarding-tree engine that the handler uses;
- `Transformations.LegacyTransformer` is the older list-route batch.

The source has five defects (see "## Findings"). For each one, the model keeps the code as written and the corrected code side by side, selected by a parameter, and proves the defect on a concrete input:
- the zone test takes an `InterceptRule`: `AsWritten` or `Corrected`;
- the grid step takes a `Normalise`: `ByHundred` (as written) or `ByGridSize`;
- `getPath` takes a `Recursion`: `SamePath` (as written), `ExtendedPath` (the path grows) or `IsolatedTargets` (the path grows, and each neighbour is searched from the targets its call started with);
- `GetTransformer` takes the search rule and the grid test (`ByName` as written, or `ByType`).

The batch engine takes a `Rules` value that pairs an intercept rule with a normalisation. `Transformer.Source` is the source's own pair (`AsWritten`, `ByHundred`), and `Transformer.Intended` the corrected one. The handler runs the batch under `Source`, and the legacy batch takes its intercept rule the same way.

## Model

| member | source | states |
|---|---|---|
| Config.EdgeEnd | config/config.go:61-77 | edge i of a border runs to vertex (i+1) mod n, so the last edge closes back to vertex 0 |
| Config.Crossings | config/config.go:61-106 | the as-written crossing count over the first n edges; what each edge adds is stated by `CrossingsStep`, and the count never exceeds n |
| Config.CrossingsStep | config/config.go:97-105 | unfolding lemma for `Crossings`: each further edge adds exactly its own crossing flag (d1i < d12, d2i <= d12, xInt > x) to the count |
| Config.InZone | config/config.go:56-110 | the loop's result is true exactly when the number of counted crossings is odd; an empty border contains no point; the zone is only read |
| Config.AsWrittenAxisEdgeNotCrossed | config/config.go:86-105 | as written, a vertical edge takes the point itself as intersection (xInt > x fails) and a horizontal edge divides by a zero slope, so neither is ever counted |
| Config.AsWrittenAxisAlignedNoCrossing | config/config.go:61-106 | as written, a border made only of axis-parallel edges has zero crossings for every point |
| Config.AsWrittenRectangleEmpty | config/config.go:56-110 | as written, no point lies in a rectangular zone, whatever the distance function |
| Config.AsWrittenInterceptOffLine | config/config.go:86-91 | as written (`m = y1 - k/x1`), edge (2,0)-(4,2) meets y = 1 at x = 1.5 instead of 3; corrected it is 3 |
| Config.CorrectedInterceptOnLine | config/config.go:86-91 | corrected (`m = y1 - k*x1`), the intercept of a non-horizontal edge lies on the edge's line at height y |
| Config.CorrectedHorizontalNotCrossed | config/config.go:82-105 | corrected, a horizontal edge is parallel to the ray and never counted |
| Config.CorrectedVerticalIntercept | config/config.go:92-95 | corrected, a vertical edge meets the ray's line at the edge's own abscissa |
| Config.CorrectedVerticalCrossed | config/config.go:92-105 | corrected, with Euclidean distance, a vertical edge to the right of the point whose span strictly contains y is counted |
| Config.CorrectedRectangle | config/config.go:56-110 | corrected, a point strictly inside a rectangle is in the zone and a point to its right is not |
| Config.ShiftHop | transformations/transformer.go:136-159 | with A10 = B01 = 1 and every other coefficient 0, a hop maps (X, Y) to (X - X0, Y - Y0) |
| Config.Locate | transformations/transformer.go:128-166 | the chosen zone is the first, in declared order, that contains the point; none is chosen exactly when no zone contains it |
| Graphs.Lookup | transformations/graphs.go:11-14 | found exactly when `to` is a key of `data[from]`, with the stored value; a `from` with no entry gives not-found |
| Graphs.CSTransformationGraph.Get | transformations/graphs.go:11-14 | found exactly when the edge exists, returning the stored zone list unchanged and in order |
| Graphs.HSTransformationGraph.Get | transformations/graphs.go:23-26 | found exactly when the edge exists, returning the stored {Type, Name, Direction} |
| GraphPath.TargetFlags.constructor | transformations/transformations.go:67-68 | the targets map starts empty |
| GraphPath.TargetFlags.Put | transformations/graph-path.go:8-10 | a flag write changes that one key and nothing else |
| GraphPath.Mark | transformations/graph-path.go:8-10 | `current` is marked reached when it is a target; no other flag and no key changes |
| GraphPath.Select | transformations/graph-path.go:42 | the listed neighbours are exactly the systems of the iteration order that are keys of the inner map |
| GraphPath.Neighbours | transformations/graph-path.go:42 | every neighbour visited is joined to `current` by a graph edge |
| GraphPath.Visit | transformations/graph-path.go:5-76 | one call never resets a reached flag, marks `current` when it is a target, returns `path + [current]` once every target is reached, and any route it returns is a result of this call; which route it selects is stated by `VisitSelects` |
| GraphPath.Scan | transformations/graph-path.go:35-75 | the neighbour loop never resets a flag and keeps its best candidate a result of the call; which candidate it keeps is stated by `ScanSelects` |
| GraphPath.FoundChild | transformations/graph-path.go:58-71 | a non-empty result of a call on a neighbour is a result of the caller |
| GraphPath.InPath | transformations/graph-path.go:45-52 | the scan of `path` reports the node exactly when it occurs in `path` |
| GraphPath.ReachedAll | transformations/graph-path.go:13-28 | the loop's flag is true exactly when every target is reached |
| GraphPath.GetPath | transformations/graph-path.go:5-76 | the recursive method returns the route and leaves the targets map equal to the specification `Visit` |
| GraphPath.ShortestCandidate | transformations/graph-path.go:35-75 | the neighbour loop returns what `Scan` specifies; `ScanSelects` states which route that is |
| GraphPath.SearchNeighbour | transformations/graph-path.go:44-71 | one turn of the neighbour loop in place: a neighbour already in the path is skipped, a search that hits the depth bound stops the loop, and otherwise the loop moves on to the specified next state |
| GraphPath.CallsFromSkips | transformations/graph-path.go:42-60 | the loop searches no neighbour that is already in the path, and, unless a search hits the depth bound, it searches every other neighbour |
| GraphPath.ScanSelects | transformations/graph-path.go:35-75 | the loop returns no route exactly when a search hits the depth bound; otherwise it returns its best so far when no search returned a non-empty route within the best length, and else the last of the shortest such routes (`<=`) |
| GraphPath.VisitSelects | transformations/graph-path.go:5-76 | a call with targets left and depth to spare returns the empty route exactly when no neighbour's search returned a non-empty route, and otherwise the last of the shortest non-empty routes |
| GraphPath.AsWrittenFixtureHs1ToHs5 | transformations/graph-path.go:60 | as written, hs5 is 4 hops from hs1 on the test graph, yet whenever the search from hs1 for hs5 returns, it returns at most one system |
| GraphPath.CorrectedSearchWalks | transformations/graph-path.go:58-75 | with a growing path (`ExtendedPath` or `IsolatedTargets`), a non-empty result starts at the start system and follows graph edges |
| GraphPath.CorrectedSearchReaches | transformations/graph-path.go:4-76 | with a growing path and isolated targets, a non-empty result starts at the start system, follows graph edges and passes through every target not yet reached |
| GraphPath.SharedTargetsMissTarget | transformations/graph-path.go:8-10 | with the targets map shared by sibling searches, on a graph where "t" lies past "a" only, and when Go's map iteration visits "a" before "b", the search from "s" returns ["s", "b"], which misses "t"; with isolated targets it returns ["s", "a", "t"] |
| GraphPath.AsWrittenProbeOneSystem | transformations/graph-path.go:60 | as written, when Go's map iteration visits "a" before "b", the same search returns the single system ["b"], which is not a target |
| PathSearch.DistGraph | transformations/path_test.go:185-264 | the hop counts from `s` are breadth-first distances: `s` is at 0, every counted node has a neighbour one hop nearer, and no edge skips a level |
| PathSearch.DistUnique | transformations/path_test.go:185-264 | two hop-count maps from the same source are equal, so the expected tables fix `distGraph` |
| PathSearch.DistGraphIsShortest | transformations/path_test.go:185-264 | a node has a hop count exactly when a walk reaches it; the count is at most every walk's length and is attained by one |
| PathSearch.FindPath | transformations/path_test.go:267-404 | found exactly when the target is reachable; empty for the source itself; otherwise a walk of graph edges that excludes the start, ends at the target and has the target's hop count as its length |
| PathSearch.BestMeeting | transformations/path_test.go:454-516 | the meeting node is reachable from the source and from both targets, has the least sum of the three hop counts, and is the first in iteration order among equals |
| PathSearch.BestMeetingIsFirstLeast | transformations/path_test.go:454-516 | the first position of least cost, and no other, is the meeting node |
| PathSearch.AddWalkEdges | transformations/path_test.go:532 | adding a route to a forwarding tree keeps the tree's edges and makes the route a route of the tree |
| PathSearch.FindPathGraphSingle | transformations/path_test.go:415-453 | one target: found exactly when it is reachable, the empty tree for the source itself, otherwise a tree of graph edges that reaches the target |
| PathSearch.FindPathGraphDual | transformations/path_test.go:454-516 | two targets: found exactly when some node is reachable from the source and both targets; the tree then reaches both targets, and each of its edges is a graph edge in one direction or the other |
| PathFixture.DistFromHs1 | transformations/path_test.go:188-197 | hop counts from hs1 on the test graph: hs2 1, hs3 2, hs4 2, hs6 3, hs7 3, hs5 4 |
| PathFixture.DistFromHs2 | transformations/path_test.go:200-208 | hop counts from hs2 as the test expects |
| PathFixture.DistFromHs3 | transformations/path_test.go:211-219 | hop counts from hs3 as the test expects |
| PathFixture.DistFromHs4 | transformations/path_test.go:222-230 | hop counts from hs4 as the test expects |
| PathFixture.DistFromHs5 | transformations/path_test.go:233-241 | hop counts from hs5 as the test expects (hs1 is 4 hops away) |
| PathFixture.DistFromHs6 | transformations/path_test.go:244-252 | hop counts from hs6 as the test expects |
| PathFixture.DistFromHs7 | transformations/path_test.go:255-263 | hop counts from hs7 as the test expects |
| PathFixture.PathToSelf | transformations/path_test.go:276-280 | the route from a system to itself is empty |
| PathFixture.PathHs1Hs2 | transformations/path_test.go:281-285 | the route from hs1 to hs2 is [hs2] |
| PathFixture.PathHs1Hs3 | transformations/path_test.go:286-290 | the route from hs1 to hs3 is [hs2, hs3] |
| PathFixture.PathHs1Hs4 | transformations/path_test.go:291-295 | the route from hs1 to hs4 is [hs2, hs4] |
| PathFixture.PathHs1Hs5 | transformations/path_test.go:296-300 | the route from hs1 to hs5 is [hs2, hs4, hs7, hs5], of length 4 as its hop count |
| PathFixture.PathHs1Hs6 | transformations/path_test.go:301-305 | the route from hs1 to hs6 is [hs2, hs3, hs6] |
| PathFixture.PathHs1Hs7 | transformations/path_test.go:306-310 | the route from hs1 to hs7 is [hs2, hs4, hs7] |
| PathFixture.PathHs3Hs1 | transformations/path_test.go:311-315 | the route from hs3 to hs1 is [hs2, hs1] |
| PathFixture.PathHs3Hs2 | transformations/path_test.go:316-320 | the route from hs3 to hs2 is [hs2] |
| PathFixture.PathHs3Hs4 | transformations/path_test.go:321-325 | the route from hs3 to hs4 is [hs2, hs4] |
| PathFixture.PathHs3Hs5 | transformations/path_test.go:326-330 | the route from hs3 to hs5 is [hs6, hs7, hs5] |
| PathFixture.PathHs3Hs6 | transformations/path_test.go:331-335 | the route from hs3 to hs6 is [hs6] |
| PathFixture.PathHs3Hs7 | transformations/path_test.go:336-340 | the route from hs3 to hs7 is [hs6, hs7] |
| PathFixture.PathHs7Hs1 | transformations/path_test.go:341-345 | the route from hs7 to hs1 is [hs4, hs2, hs1] |
| PathFixture.PathHs7Hs2 | transformations/path_test.go:346-350 | the route from hs7 to hs2 is [hs4, hs2] |
| PathFixture.PathHs7Hs3 | transformations/path_test.go:351-355 | the route from hs7 to hs3 is [hs6, hs3] |
| PathFixture.PathHs7Hs4 | transformations/path_test.go:356-360 | the route from hs7 to hs4 is [hs4] |
| PathFixture.PathHs7Hs5 | transformations/path_test.go:361-365 | the route from hs7 to hs5 is [hs5] |
| PathFixture.PathHs7Hs6 | transformations/path_test.go:366-370 | the route from hs7 to hs6 is [hs6] |
| PathFixture.Tree1to1 | transformations/path_test.go:415-419 | the route tree from hs1 to hs1 is empty |
| PathFixture.Tree1to2 | transformations/path_test.go:420-426 | the route tree from hs1 to hs2 is hs1 -> [hs2] |
| PathFixture.Tree1to6 | transformations/path_test.go:427-435 | the route tree from hs1 to hs6 is the chain hs1 -> hs2 -> hs3 -> hs6 |
| PathFixture.Tree1to5 | transformations/path_test.go:436-445 | the route tree from hs1 to hs5 is the chain hs1 -> hs2 -> hs4 -> hs7 -> hs5 |
| PathFixture.Tree6to4 | transformations/path_test.go:446-453 | the route tree from hs6 to hs4 is the chain hs6 -> hs7 -> hs4 |
| PathFixture.Least1to2and3 | transformations/path_test.go:454-461 | from hs1 to {hs2, hs3} the meeting node is hs2 |
| PathFixture.Merge1to2and3 | transformations/path_test.go:454-461 | the tree merged at hs2 is hs1 -> [hs2], hs2 -> [hs3]: hs2 lies on the route to hs3, so this is the single chain |
| PathFixture.Least1to2and5 | transformations/path_test.go:462-471 | from hs1 to {hs2, hs5} the meeting node is hs2 |
| PathFixture.Merge1to2and5 | transformations/path_test.go:462-471 | the tree merged at hs2 is the chain hs1 -> hs2 -> hs4 -> hs7 -> hs5 |
| PathFixture.Least1to7and6 | transformations/path_test.go:472-481 | from hs1 to {hs7, hs6} the meeting node is hs6 |
| PathFixture.Merge1to7and6 | transformations/path_test.go:472-481 | the tree merged at hs6 is the chain hs1 -> hs2 -> hs3 -> hs6 -> hs7 |
| PathFixture.Least1to3and4 | transformations/path_test.go:482-489 | from hs1 to {hs3, hs4} the meeting node is hs2 |
| PathFixture.Merge1to3and4 | transformations/path_test.go:482-489 | the tree merged at hs2 branches there: hs1 -> [hs2], hs2 -> [hs3, hs4] |
| PathFixture.Least1to4and5 | transformations/path_test.go:490-499 | from hs1 to {hs4, hs5} the meeting node is hs4 |
| PathFixture.Merge1to4and5 | transformations/path_test.go:490-499 | the tree merged at hs4 is the chain hs1 -> hs2 -> hs4 -> hs7 -> hs5 |
| PathFixture.Least4to5and3 | transformations/path_test.go:500-508 | from hs4 to {hs5, hs3} the meeting node is hs4 itself |
| PathFixture.Merge4to5and3 | transformations/path_test.go:500-508 | the tree merged at hs4 branches at the root: hs4 -> [hs7, hs2], hs7 -> [hs5], hs2 -> [hs3] |
| PathFixture.Least2to2and3 | transformations/path_test.go:509-516 | from hs2 to {hs2, hs3} the meeting node is hs2 |
| PathFixture.Merge2to2and3 | transformations/path_test.go:509-516 | the tree merged at hs2 is hs2 -> [hs3] |
| HeightTransform.Plane | transformations/transform-hs.go:12-19 | the plane changes h by exactly sign * (A + (x - X0) * B + (y - Y0) * C) and never fails |
| HeightTransform.PlaneRoundTrip | transformations/transform-hs.go:15-18 | applying a plane with sign +1 and then -1 at the same position (or the reverse) returns the original height |
| HeightTransform.ZeroPlane | transformations/transform-hs.go:15-18 | a plane with A = B = C = 0 leaves every height unchanged |
| HeightTransform.IntString | transformations/transform-hs.go:58-60 | the `%.0f` text of a whole number is non-empty and holds no `/` |
| HeightTransform.ParseIntString | transformations/transform-hs.go:58-60 | the `%.0f` text of a whole number reads back as that number |
| HeightTransform.KeyInjective | transformations/transform-hs.go:55-61 | distinct cells have distinct `"i/j"` keys |
| HeightTransform.CellKey | transformations/transform-hs.go:55-61 | a vertex name exists exactly when the grid size is not zero |
| HeightTransform.CornerKeys | transformations/transform-hs.go:29-32 | the four corners fetched for (x, y) are the cells (i, j), (i+1, j), (i, j+1), (i+1, j+1) of the point's cell (i, j) |
| HeightTransform.NextCellKeyDiffers | transformations/transform-hs.go:29-32 | the base vertex and the +x corner of a cell are different vertices |
| HeightTransform.Corners | transformations/transform-hs.go:29-37 | the four corner values are known exactly when the grid size is not zero and all four corner keys are present |
| HeightTransform.Grid | transformations/transform-hs.go:22-52 | the grid fails with "outside of bound" exactly when a corner value is missing, and otherwise gives the bilinear blend of the four corners |
| HeightTransform.GridFlat | transformations/transform-hs.go:48-51 | four equal corners v give h + sign * v anywhere in the cell, under either normalisation |
| HeightTransform.GridAtBase | transformations/transform-hs.go:40-51 | at the base corner of a cell the result is h + sign * (base corner value), under either normalisation |
| HeightTransform.CorrectedGridExactOnPlanes | transformations/transform-hs.go:40-51 | normalised by the grid size, corners sampled from a sloping plane give that plane's value anywhere in the cell |
| HeightTransform.AsWrittenGridOffByScale | transformations/transform-hs.go:44-45 | as written (offsets divided by 100), a 50-unit grid sloping by 1 per unit gives 12.5 at x = 25 instead of 25 |
| Transformer.MapPoints | transformations/transformer.go:62-201 | a pass over the points keeps exactly the same point ids |
| Transformer.MapPointsPointwise | transformations/transformer.go:62-201 | a pass succeeds exactly when the step succeeds on every point; each point is then its own step's result and the points outside the order are unchanged |
| Transformer.ApplyAll | transformations/transformer.go:62-201 | the in-place loop over the points gives exactly the specified pass |
| Transformer.Hop | transformations/transformer.go:128-166 | under either intercept rule, no hop exactly when no zone of the edge contains the point by that rule |
| Transformer.FirstZoneWins | transformations/transformer.go:128-166 | under either intercept rule, the first zone in declared order that contains the point decides the hop, and later zones are ignored |
| Transformer.FirstZone | transformations/transformer.go:128-166 | the zone loop returns the specified hop; under `AsWritten` it calls the as-written `InZone` loop itself |
| Transformer.ConnectAll | transformations/transformer.go:101-176 | the connections loop of one node, under the given intercept rule, gives the specified stop reason and next frontier |
| Transformer.Record | transformations/transformer.go:93-98 | a node's coordinates are recorded under ocs, and under bgs-cad when the session includes a grid; nothing else changes |
| Transformer.LevelAll | transformations/transformer.go:90-177 | the node loop of one level, under the given intercept rule, gives the specified stop reason, frontier and recorded coordinates |
| Transformer.WalkPoint | transformations/transformer.go:62-201 | a point's walk aborts with ErrUnsupported exactly on a missing edge; a point outside every zone only gets the out-of-bounds error; a successful point takes X/Y from ocs and Xbgs/Ybgs from bgs-cad when a grid is involved; name, H and pass-through fields are kept |
| Transformer.WalkOne | transformations/transformer.go:62-201 | the level loop of one point, under the given intercept rule, returns the specified walk result |
| Transformer.VertexName | transformations/transform-hs.go:55-61 | with a non-zero grid size, the vertex name is the cell key of the position |
| Transformer.FetchKeys | transformations/transformer.go:228-243 | the fetch list holds at most one name per point; which names it holds is stated by `FetchKeysExactly` |
| Transformer.FetchKeysExactly | transformations/transformer.go:228-243 | a name is fetched exactly when some point with an H and no XY error has that base vertex |
| Transformer.FetchList | transformations/transformer.go:228-243 | the fetch-list loop returns the specified list |
| Transformer.HsStep | transformations/transformer.go:218-358 | under either normalisation, one HS edge keeps the point ids; an unknown method kind, or a method name missing from the grid or plane table, gives ErrUnsupported and changes no point |
| Transformer.PlaneEveryPoint | transformations/transformer.go:331-351 | a plane edge never fails, and every point, with or without an H or an XY error, takes the plane's height at its output coordinates with every other field kept |
| Transformer.HsWalk | transformations/transformer.go:203-359 | under either normalisation, the HS loop keeps the point ids; when it succeeds, every visited forwarding entry was non-empty, and each hop it took, from ihs and then from one entry's system to the next, is an edge of the HS graph |
| Transformer.Batch | transformations/transformer.go:56-362 | under any rules, a whole batch keeps the point ids |
| Transformer.WalkIsolated | transformations/transformer.go:62-201 | per-point isolation: the CS step aborts exactly when some point's own walk aborts, and otherwise every point is the result of its own walk |
| Transformer.OneEdgeWalk | transformations/transformer.go:62-201 | over a one-edge route, a point outside every zone keeps X/Y and gets the out-of-bounds error; otherwise it takes the hop's coordinates |
| Transformer.AsWrittenAxisZonesOutOfBounds | transformations/transformer.go:128-166 | as written, over a one-edge route whose zones are all axis-parallel, every point gets the out-of-bounds error and keeps X/Y |
| Transformer.CorrectedRectangleHop | transformations/transformer.go:128-166 | corrected, with Euclidean distance, a point strictly inside a one-zone rectangular edge takes the zone's polynomial |
| Transformer.CsLookupFromIcs | transformations/transformer.go:119-122 | every hop looks its zones up from ics: on a route ics -> mid -> ocs without an edge ics -> ocs the batch aborts with ErrUnsupported |
| Transformer.GridEveryPoint | transformations/transformer.go:219-328 | the grid step succeeds exactly when every point, fetched or not, has its four corners; otherwise it aborts with "outside of bound" |
| Transformer.FirstFailure | transformations/transformer.go:62-201 | when every failure of a step is the same error, so is the pass's |
| Transformer.GridLonePointFails | transformations/transformer.go:228-325 | only base vertices are fetched, so a batch of one point over a grid edge always fails with "outside of bound" |
| Transformer.LoneCornerMissing | transformations/transform-hs.go:29-37 | with at most the base vertex known, the corners are incomplete |
| Transformer.HsOrderMatters | transformations/transformer.go:203-210 | the HS loop follows map order from `from`, not the route: visiting mid's entry first on a route ihs -> mid -> ohs looks up ihs -> ohs and aborts |
| Transformer.TransformerOutput.constructor | transformations/transformer.go:13-46 | a session records its routes, grid flag and systems, and starts with no points |
| Transformer.TransformerOutput.Add | transformations/transformer.go:49-53 | `Add` stores the point under its id, replacing any earlier one, and touches nothing else |
| Transformer.TransformerOutput.ApplyEdge | transformations/transformer.go:218-358 | one HS edge applied in place, under the given normalisation, leaves exactly the points of the specified step |
| Transformer.TransformerOutput.WalkPoints | transformations/transformer.go:62-201 | the CS walk of every point in place, under the given intercept rule, leaves exactly the points of the specified pass |
| Transformer.TransformerOutput.HeightPoints | transformations/transformer.go:203-359 | the HS loop in place, under the given normalisation, leaves exactly the points of the specified HS walk |
| Transformer.TransformerOutput.TransformBatch | transformations/transformer.go:56-362 | the batch under the given rules leaves the points of `Batch` and returns them, or its first abort; the handler calls it with the source's rules |
| Transformations.Listed | transformations/transformations.go:39-46 | the map holds exactly the listed systems, each true |
| Transformations.Validate | transformations/transformations.go:407-425 | no error exactly when ics and ocs are valid CSs and ihs and ohs valid HSs; the CS message exactly when a CS is invalid, else the HS message |
| Transformations.ValidationFixture | transformations/validation_test.go:22-49 | with cs1, cs2, hs1, hs2 valid, the valid request passes validation and each unknown system is refused with its message |
| Transformations.ValidationFixturePlans | transformations/validation_test.go:21-25 | with no transformation loaded, the valid request of the test is set up successfully for every search rule, grid test and iteration order, given depth at least one |
| Transformations.StoreBgsSomeEdge | transformations/transformations.go:74-98 | the grid flag is set exactly when some edge of the HS route is marked as a grid edge |
| Transformations.AsWrittenGridByName | transformations/transformations.go:88 | as written (name test), the route hs1 -> hs2 -> hs3 over grid edge gtr23 is not flagged; the type test flags it |
| Transformations.CsTargets | transformations/transformations.go:101-107 | the CS targets are ocs, plus bgs-cad exactly when the grid flag is set, none yet reached |
| Transformations.PlanValidates | transformations/transformations.go:50-119 | `GetTransformer` refuses exactly what `Validate` refuses, with the same message; a session records ics and ihs, and its grid flag is set exactly when some edge of its HS route is a grid edge |
| Transformations.AsWrittenRoutesShort | transformations/transformations.go:67-110 | as written, both routes of a session hold at most one system |
| Transformations.Repository.Setup | transformations/transformations.go:27-47 | the valid sets hold exactly the listed systems and the graphs are the configured ones |
| Transformations.Repository.GetTransformer | transformations/transformations.go:50-119 | the method computes the specified plan: validation, HS route, grid flag, CS route |
| Transformations.ListAll | transformations/transformations.go:39-46 | the fill loop gives exactly the listed systems |
| Transformations.FindGrid | transformations/transformations.go:74-98 | the loop over the HS route gives the specified grid flag |
| Transformations.LegacyBatch | transformations/transformations.go:163-404 | under either intercept rule, the legacy batch fails exactly when its CS loop or HS loop fails, and otherwise returns the points exactly as added |
| Transformations.LegacyOutOfBoundsAborts | transformations/transformations.go:238-241 | a point outside every zone of the first CS edge, by the given intercept rule, aborts the whole batch with "point out of bounds" |
| Transformations.AsWrittenLegacyAxisZonesAbort | transformations/transformations.go:196-241 | as written, a batch with a point whose first CS edge has only axis-parallel zones (rectangles, say) aborts with "point out of bounds" |
| Transformations.LegacyTransformer.constructor | transformations/transformations.go:146-153 | a legacy session starts with no points |
| Transformations.LegacyTransformer.Add | transformations/transformations.go:156-160 | `Add` stores a copy of the point under its id |
| Transformations.LegacyTransformer.TransformBatch | transformations/transformations.go:163-404 | the method returns the specified legacy batch under the given intercept rule |
| Transformations.AllInZones | transformations/transformations.go:169-245 | the point loop of one CS edge succeeds exactly when every point lies in some zone of the edge by the given intercept rule |
| Transformations.LegacyKeyList | transformations/transformations.go:270-287 | the legacy fetch-list loop returns the specified list |
| Transformations.AllPass | transformations/transformations.go:358-368 | the interpolation loop succeeds exactly when every point passes |
| Transformations.LegacyStep | transformations/transformations.go:248-401 | one legacy HS edge gives the specified error: unsupported method or kind, or a missing grid corner |
| Handler.ReadRow | main.go:80-139 | rows of length 1 and >= 3 start with a name; X and Y come from fields 0-1 without a name and 1-2 with one; an X or Y parse failure sets XYErr, an H parse failure HErr; a fourth field is H (HasH), further fields pass through; a row is handed over exactly when it has X and Y and no error |
| Handler.Read | main.go:68-142 | the transformer receives exactly the well-formed rows, each under its row index |
| Handler.OutputRow | main.go:166-190 | a response row is the name if not empty, the XY error or two coordinates, the H error or the height, then the pass-through fields |
| Handler.Records | main.go:68-77 | one record per request row, in order |
| Handler.Rows | main.go:156-194 | one response row per record, in order, showing the transformer's record for rows it received |
| Handler.AddRows | main.go:71-143 | the row loop keeps every record and hands exactly the well-formed rows to the transformer |
| Handler.Respond | main.go:156-194 | the response loop builds exactly the specified rows |
| Handler.Transform | main.go:68-194 | the handler returns the error of the batch run under the source's own rules, or the specified response rows |
| Handler.OneRowPerRow | main.go:68-194 | a response has exactly one row per request row, and a row not handed to the transformer is echoed from its own record |
| Handler.NoPointRowsPadded | main.go:80-92 | an empty row answers three zero fields; a one-field row answers its name (when not empty) and three zero fields |
| Handler.BadCoordinateEchoed | main.go:107-121 | a row whose X does not parse answers its name (when it has one), the parse message and the zero height |
| Handler.RowRoundTrip | main.go:80-190 | a named point with X, Y and H, printed as a row and read back, is the same point whenever the parser reads back each of its three printed numbers |

## Left out

- HTTP routing, the Content-Type check, JSON decoding and encoding, server start and YAML loading: these are I/O. The configuration arrives as an `App` value.
- SQLite: opening, pinging, pool settings, the timeout, the query text and row scanning, and their error paths. The vertex query is the total parameter `fetch`, so a database error that aborts a batch in the source has no counterpart.
- Floating point. Values are `real`, and:
  - an infinite or NaN intercept is modelled only where it decides an edge comparison (a division by a zero slope or by x1 = 0), as "not counted";
  - `%.3f` and `ParseFloat` are the abstract parameters `format` and `parse`;
  - the `%.0f` vertex key is the exact decimal of the floored cell index, so a `-0` key cannot arise.
  - a zero grid size, for which Go's key is "+Inf/…", "-Inf/…" or "NaN/…" (transform-hs.go:55-61), is not modelled: `Grid` then always answers "outside of bound", whereas in Go a vertex stored under such a key would let the grid step go on and return NaN.
- `util.Dist` is the abstract parameter `dist`, except where a lemma fixes Euclidean (squared) distance.
- Go's map iteration order: the order of neighbours in `getPath`, of points in both batches and of the HS forwarding entries. It is an explicit sequence parameter, and a single `order` serves every call of the search and every loop over the same map, whereas Go draws a fresh order for each `range`. Lemmas whose result depends on the order fix it explicitly: `SharedTargetsMissTarget` and `AsWrittenProbeOneSystem` take `ProbeOrder` ("a" before "b"), `Least1to7and6` and `Least4to5and3` take the sorted order, and `HsOrderMatters` exhibits the order that aborts. The other lemmas hold for every order.
- The package-global `Repo`: the repository is an object passed explicitly.
- GraphPath.GetPath: the source need not terminate on a cyclic graph because `path` never grows. The model bounds the depth by `fuel`; when it runs out, the result is `None`, and `GetTransformer` then fails with `TooDeep`.
- Transformer.WalkPoint: the CS walk repeats while some node has successors, which can loop forever on a cyclic forwarding map. The model bounds it by `levels` and reports `Endless` when the bound is hit.
- The implementations of `distGraph`, `findPath` and `findPathGraph` are not part of this model. They are modelled from the behaviour path_test.go asserts: breadth-first distances, shortest routes with ties broken by iteration order, and a meeting node for two targets.
- The two-target `findPathGraph` cases of path_test.go are stated in parts: the meeting node (`Least…`), the merged tree (`Merge…`) and the three routes (`PathHs…`). There is no single lemma per case equating `FindPathGraph` with the expected tree. `PathSearch.FindPathGraphDual` states the general properties.
- Partial state after an abort: when a batch aborts, the model keeps the points of the pass that aborted, and no caller reads them.
- The legacy `points` map is never created in `GetTransformer`, so `Add` would panic on a nil map. `Transformations.LegacyTransformer.constructor` starts it empty.
- The legacy batch updates copies of the points, so `Transformations.LegacyBatch` returns the points as added. The per-point X/Y and height arithmetic of those loops is therefore not modelled beyond the errors it can raise.
- The handler's response is `nil` rather than an empty list when there are no rows. This is not modelled.
- The handler obtains its transformer from `GetTransformer`, whose legacy return type does not match the `Transformer` interface that main.go calls. The model passes in a `Transformer.TransformerOutput` already created with its session.
- An empty forwarding list for a system that has an entry makes the source panic at `to[0]`. The model returns the batch error `Crash` instead of ending the process.

## Findings

| source | as written | input that shows it | evidently intended | confidence | as-written member | corrected member |
|---|---|---|---|---|---|---|
| config/config.go:86-95 | the intercept uses `m = y1 - k/x1`; a vertical edge takes xInt = x, and a horizontal edge divides by a zero slope, so axis-parallel edges are never counted | edge (2,0)-(4,2) at y = 1 gives xInt = 1.5, not 3; any point inside the rectangle (0,0)-(10,10) is reported outside | `m = y1 - k*x1`; a vertical edge's intercept is x1; a horizontal edge is not crossed | not executed | Config.AsWrittenInterceptOffLine, Config.AsWrittenRectangleEmpty, Transformer.AsWrittenAxisZonesOutOfBounds | Config.CorrectedInterceptOnLine, Config.CorrectedRectangle, Transformer.CorrectedRectangleHop |
| transformations/graph-path.go:60 | the recursive call passes `path` unchanged, so a result holds at most one system | on the path-test graph, hs1 to hs5 (4 hops) returns at most one system; on the graph s -> a, s -> b, a -> t, when Go's map iteration visits a before b, the search from s for t returns ["b"] | pass `path` extended with `current` | not executed | GraphPath.AsWrittenFixtureHs1ToHs5, GraphPath.AsWrittenProbeOneSystem | GraphPath.CorrectedSearchWalks |
| transformations/graph-path.go:8-10 | the targets map is shared by sibling searches, so a later sibling finds the targets already reached by an earlier one and returns at once | on the graph s -> a, s -> b, a -> t, with the path extended and when Go's map iteration visits a before b, the search from s for t returns ["s", "b"] | search every neighbour from the targets its call started with | not executed | GraphPath.SharedTargetsMissTarget | GraphPath.CorrectedSearchReaches |
| transformations/transformations.go:88 | an edge counts as a grid edge when its method Name is "grid" | route hs1 -> hs2 -> hs3 over grid edge gtr23 (named "gtr23") is not flagged | test the method Type | not executed | Transformations.AsWrittenGridByName | Transformations.StoreBgsSomeEdge |
| transformations/transform-hs.go:44-45 | the offsets inside a cell are divided by a fixed 100 | a 50-unit grid with corners 0 and 50 along x gives 12.5 at x = 25 | divide by GridSize | not executed | HeightTransform.AsWrittenGridOffByScale | HeightTransform.CorrectedGridExactOnPlanes |
