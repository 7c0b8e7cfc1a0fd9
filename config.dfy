/**
 * Configuration records of the transformation service and the zone test
 * `CSTransformation.InZone` (config/config.go).
 *
 * Coordinates, heights and coefficients are `real`; floating-point rounding is
 * not modelled. `util.Dist` is not part of this model: it is the abstract
 * parameter `dist`.
 */
module Config {
  import opened Wrappers

  /** A vertex of a zone border. */
  datatype Vertex = Vertex(x: real, y: real)

  /** The ten coefficients of one output coordinate: A00, A10, A01, A20, A11,
      A02, A30, A21, A12, A03 (or the same B coefficients), cIJ multiplying
      dx^I * dy^J. */
  datatype Poly = Poly(c00: real, c10: real, c01: real, c20: real, c11: real,
                       c02: real, c30: real, c21: real, c12: real, c03: real)

  /** One zone of a CS edge: a closed border, an origin and the polynomials
      for the output X (`a`) and the output Y (`b`). */
  datatype CSTransformation = CSTransformation(border: seq<Vertex>, x0: real, y0: real, a: Poly, b: Poly)

  /** An HS edge: the method kind ("grid" or "plane"), the method name and the
      sign applied to its correction. */
  datatype HSTransformation = HSTransformation(kind: string, name: string, direction: real)

  datatype HGridTransformation = HGridTransformation(db: string, x0: real, y0: real, gridSize: real)

  datatype HPlaneTransformation = HPlaneTransformation(x0: real, y0: real, a: real, b: real, c: real)

  datatype TransformationMethods = TransformationMethods(
    grid: map<string, HGridTransformation>,
    plane: map<string, HPlaneTransformation>)

  datatype App = App(
    validCSs: seq<string>,
    validHSs: seq<string>,
    csGraph: map<string, map<string, seq<CSTransformation>>>,
    hsGraph: map<string, map<string, HSTransformation>>,
    hTransformations: TransformationMethods)

  /** The distance function `util.Dist(x1, y1, x2, y2)`. */
  type DistFn = (real, real, real, real) -> real

  /** Squared Euclidean distance. It orders pairs of points exactly as the
      Euclidean distance does, so it can stand for it in comparisons. */
  function SqDist(x1: real, y1: real, x2: real, y2: real): real {
    (x2 - x1) * (x2 - x1) + (y2 - y1) * (y2 - y1)
  }

  /** The second end of border edge `i`: the next vertex, wrapping to vertex 0. */
  function EdgeEnd(border: seq<Vertex>, i: nat): (v: Vertex)
    requires i < |border|
    ensures v == border[(i + 1) % |border|]
  {
    if i + 1 == |border| then border[0] else border[i + 1]
  }

  /** How the intersection of the horizontal line through the point with an
      edge's line is computed: as the source writes it, or as evidently
      intended (see the Findings of the README). */
  datatype InterceptRule = AsWritten | Corrected

  /** The abscissa of that intersection, or None where the source's
      float division yields an infinite or NaN value: then every distance
      comparison with it is false and the edge is not counted. */
  function Intercept(rule: InterceptRule, p1: Vertex, p2: Vertex, x: real, y: real): Option<real> {
    if p2.x - p1.x != 0.0 then
      var k := (p2.y - p1.y) / (p2.x - p1.x);
      match rule
      case AsWritten =>
        if p1.x == 0.0 || k == 0.0 then None
        else
          var m := p1.y - k / p1.x;
          Some((y - m) / k)
      case Corrected =>
        if k == 0.0 then None
        else
          var m := p1.y - k * p1.x;
          Some((y - m) / k)
    else
      match rule
      case AsWritten => Some(x)
      case Corrected => Some(p1.x)
  }

  /** Whether the edge p1-p2 counts as a crossing of the ray going right from (x, y). */
  predicate Crosses(rule: InterceptRule, dist: DistFn, p1: Vertex, p2: Vertex, x: real, y: real) {
    match Intercept(rule, p1, p2, x, y)
    case None => false
    case Some(xInt) =>
      var d12 := dist(p1.x, p1.y, p2.x, p2.y);
      var d1i := dist(p1.x, p1.y, xInt, y);
      var d2i := dist(p2.x, p2.y, xInt, y);
      d1i < d12 && d2i <= d12 && xInt > x
  }

  /** Number of the first `n` border edges (vertex i to the next one) on
      which `hit` holds. */
  function CountEdges(border: seq<Vertex>, n: nat, hit: (Vertex, Vertex) -> bool): (c: nat)
    requires n <= |border|
    ensures c <= n
  {
    if n == 0 then 0 else CountEdges(border, n - 1, hit) + (if hit(border[n - 1], EdgeEnd(border, n - 1)) then 1 else 0)
  }

  /** No edge among the first `n` satisfies `hit`, none counted. */
  lemma {:induction false} NoneCounted(border: seq<Vertex>, n: nat, hit: (Vertex, Vertex) -> bool)
    requires n <= |border|
    requires forall i :: 0 <= i < n ==> !hit(border[i], EdgeEnd(border, i))
    ensures CountEdges(border, n, hit) == 0
  {
    if n > 0 {
      NoneCounted(border, n - 1, hit);
    }
  }

  /** The edge test of one rule, distance and point. */
  function CrossTest(rule: InterceptRule, dist: DistFn, x: real, y: real): (hit: (Vertex, Vertex) -> bool)
    ensures forall p1, p2 :: hit(p1, p2) == Crosses(rule, dist, p1, p2, x, y)
  {
    (p1, p2) => Crosses(rule, dist, p1, p2, x, y)
  }

  /** Number of the first `n` border edges that count as crossings. */
  function Crossings(rule: InterceptRule, dist: DistFn, border: seq<Vertex>, x: real, y: real, n: nat): (c: nat)
    requires n <= |border|
    ensures c <= n
  {
    CountEdges(border, n, CrossTest(rule, dist, x, y))
  }

  /** Unfolding lemma: one more edge adds its own crossing flag to the count. */
  lemma CrossingsStep(rule: InterceptRule, dist: DistFn, border: seq<Vertex>, x: real, y: real, i: nat)
    requires i < |border|
    ensures Crossings(rule, dist, border, x, y, i + 1)
      == Crossings(rule, dist, border, x, y, i) + (if Crosses(rule, dist, border[i], EdgeEnd(border, i), x, y) then 1 else 0)
  {
  }

  /** The zone contains the point when the number of crossings is odd. */
  predicate InZoneBy(rule: InterceptRule, dist: DistFn, z: CSTransformation, x: real, y: real) {
    Crossings(rule, dist, z.border, x, y, |z.border|) % 2 == 1
  }

  /** `CSTransformation.InZone` as written: a loop over the border edges
      counting crossings, then a parity test. It reads the zone only. */
  method InZone(z: CSTransformation, x: real, y: real, dist: DistFn) returns (inside: bool)
    ensures inside <==> Crossings(AsWritten, dist, z.border, x, y, |z.border|) % 2 == 1
    ensures |z.border| == 0 ==> !inside
  {
    var intersections: nat := 0;
    for i := 0 to |z.border|
      invariant intersections == Crossings(AsWritten, dist, z.border, x, y, i)
    {
      var x1 := z.border[i].x;
      var y1 := z.border[i].y;
      var x2, y2;
      if i + 1 == |z.border| {
        x2, y2 := z.border[0].x, z.border[0].y;
      } else {
        x2, y2 := z.border[i + 1].x, z.border[i + 1].y;
      }
      ghost var p1, p2 := z.border[i], EdgeEnd(z.border, i);
      assert p1 == Vertex(x1, y1) && p2 == Vertex(x2, y2);
      var xInt: Option<real>;
      if x2 - x1 != 0.0 {
        var k := (y2 - y1) / (x2 - x1);
        if x1 == 0.0 || k == 0.0 {
          xInt := None;
        } else {
          var m := y1 - k / x1;
          xInt := Some((y - m) / k);
        }
      } else {
        xInt := Some(x);
      }
      assert xInt == Intercept(AsWritten, p1, p2, x, y);
      CrossingsStep(AsWritten, dist, z.border, x, y, i);
      if xInt.Some? {
        var d12 := dist(x1, y1, x2, y2);
        var d1i := dist(x1, y1, xInt.value, y);
        var d2i := dist(x2, y2, xInt.value, y);
        if d1i < d12 && d2i <= d12 && xInt.value > x {
          intersections := intersections + 1;
        }
      }
    }
    inside := intersections % 2 == 1;
  }

  /** Every edge of the border is vertical or horizontal. */
  predicate AxisAligned(border: seq<Vertex>) {
    forall i :: 0 <= i < |border| ==>
      border[i].x == EdgeEnd(border, i).x || border[i].y == EdgeEnd(border, i).y
  }

  /** As written, a vertical edge takes the point itself as intersection and
      a horizontal one divides by zero, so an axis-aligned border never
      counts a crossing. */
  lemma {:induction false} AsWrittenAxisAlignedNoCrossing(dist: DistFn, border: seq<Vertex>, x: real, y: real, n: nat)
    requires n <= |border| && AxisAligned(border)
    ensures Crossings(AsWritten, dist, border, x, y, n) == 0
  {
    forall i | 0 <= i < n ensures !Crosses(AsWritten, dist, border[i], EdgeEnd(border, i), x, y) {
      AsWrittenAxisEdgeNotCrossed(dist, border[i], EdgeEnd(border, i), x, y);
    }
    NoneCounted(border, n, CrossTest(AsWritten, dist, x, y));
  }

  lemma AsWrittenAxisEdgeNotCrossed(dist: DistFn, p1: Vertex, p2: Vertex, x: real, y: real)
    requires p1.x == p2.x || p1.y == p2.y
    ensures !Crosses(AsWritten, dist, p1, p2, x, y)
  {
    if p2.x - p1.x != 0.0 {
      assert p2.y - p1.y == 0.0;
      assert (p2.y - p1.y) / (p2.x - p1.x) == 0.0;
      assert Intercept(AsWritten, p1, p2, x, y).None?;
    }
  }

  /** The four-corner rectangle [a, c] x [b, d], listed as in the fixture zone. */
  function Rectangle(a: real, b: real, c: real, d: real): (border: seq<Vertex>)
    ensures |border| == 4 && AxisAligned(border)
  {
    [Vertex(a, b), Vertex(a, d), Vertex(c, d), Vertex(c, b)]
  }

  /** As written, no point lies in a rectangular zone, whatever the distance. */
  lemma AsWrittenRectangleEmpty(dist: DistFn, z: CSTransformation, a: real, b: real, c: real, d: real, x: real, y: real)
    requires z.border == Rectangle(a, b, c, d)
    ensures !InZoneBy(AsWritten, dist, z, x, y)
  {
    AsWrittenAxisAlignedNoCrossing(dist, z.border, x, y, 4);
  }

  /** As written, the intercept of a slanted edge is off the edge's line:
      edge (2,0)-(4,2) meets y = 1 at x = 3, the source computes 1.5. */
  lemma AsWrittenInterceptOffLine()
    ensures Intercept(AsWritten, Vertex(2.0, 0.0), Vertex(4.0, 2.0), 0.0, 1.0) == Some(1.5)
    ensures Intercept(Corrected, Vertex(2.0, 0.0), Vertex(4.0, 2.0), 0.0, 1.0) == Some(3.0)
  {
  }

  /** Corrected: the intercept of a non-horizontal edge lies on the edge's line. */
  lemma CorrectedInterceptOnLine(p1: Vertex, p2: Vertex, x: real, y: real)
    requires p1.y != p2.y
    ensures Intercept(Corrected, p1, p2, x, y).Some?
    ensures var xi := Intercept(Corrected, p1, p2, x, y).value;
      (xi - p1.x) * (p2.y - p1.y) == (y - p1.y) * (p2.x - p1.x)
  {
    if p2.x - p1.x != 0.0 {
      var k := (p2.y - p1.y) / (p2.x - p1.x);
      assert k * (p2.x - p1.x) == p2.y - p1.y;
      assert k != 0.0;
      var m := p1.y - k * p1.x;
      var xi := (y - m) / k;
      assert xi * k == y - m;
      calc {
        (xi - p1.x) * (p2.y - p1.y);
        (xi - p1.x) * (k * (p2.x - p1.x));
        (xi * k - p1.x * k) * (p2.x - p1.x);
        (y - p1.y) * (p2.x - p1.x);
      }
    }
  }

  lemma PositiveProduct(a: real, b: real)
    requires a > 0.0 && b > 0.0
    ensures a * b > 0.0
  {
  }

  lemma SquareLess(u: real, v: real)
    requires 0.0 <= u < v
    ensures u * u < v * v
  {
    PositiveProduct(v - u, v + u);
    assert v * v - u * u == (v - u) * (v + u);
  }

  /** Corrected: a horizontal edge is parallel to the ray and never crossed. */
  lemma CorrectedHorizontalNotCrossed(dist: DistFn, p1: Vertex, p2: Vertex, x: real, y: real)
    requires p1.y == p2.y && p1.x != p2.x
    ensures !Crosses(Corrected, dist, p1, p2, x, y)
  {
    assert (p2.y - p1.y) / (p2.x - p1.x) == 0.0;
  }

  /** Corrected: a vertical edge meets the horizontal line at its own abscissa. */
  lemma CorrectedVerticalIntercept(p1: Vertex, p2: Vertex, x: real, y: real)
    requires p1.x == p2.x
    ensures Intercept(Corrected, p1, p2, x, y) == Some(p1.x)
  {
  }

  /** Corrected, Euclidean: a vertical edge to the right of the point whose
      span strictly contains y is crossed. */
  lemma CorrectedVerticalCrossed(p1: Vertex, p2: Vertex, x: real, y: real)
    requires p1.x == p2.x && x < p1.x
    requires p1.y < y < p2.y || p2.y < y < p1.y
    ensures Crosses(Corrected, SqDist, p1, p2, x, y)
  {
    CorrectedVerticalIntercept(p1, p2, x, y);
    InsideSpan(p1.y, p2.y, y);
    VerticalDists(p1, p2, y);
  }

  /** Squared distances along a vertical edge. */
  lemma VerticalDists(p1: Vertex, p2: Vertex, y: real)
    requires p1.x == p2.x
    ensures SqDist(p1.x, p1.y, p2.x, p2.y) == (p2.y - p1.y) * (p2.y - p1.y)
    ensures SqDist(p1.x, p1.y, p1.x, y) == (y - p1.y) * (y - p1.y)
    ensures SqDist(p2.x, p2.y, p1.x, y) == (y - p2.y) * (y - p2.y)
  {
  }

  /** A value strictly between a and b is closer to each end than the ends
      are to each other. */
  lemma InsideSpan(a: real, b: real, y: real)
    requires a < y < b || b < y < a
    ensures (y - a) * (y - a) < (b - a) * (b - a)
    ensures (y - b) * (y - b) < (b - a) * (b - a)
  {
    if a < b {
      SquareLess(y - a, b - a);
      SquareLess(b - y, b - a);
      assert (y - b) * (y - b) == (b - y) * (b - y);
    } else {
      SquareLess(a - y, a - b);
      SquareLess(y - b, a - b);
      assert (y - a) * (y - a) == (a - y) * (a - y);
      assert (b - a) * (b - a) == (a - b) * (a - b);
    }
  }

  /** Corrected, Euclidean: a point strictly inside a rectangle is in the zone
      (only the right edge is crossed) and a point to its right is not. */
  lemma CorrectedRectangle(z: CSTransformation, a: real, b: real, c: real, d: real, x: real, y: real)
    requires z.border == Rectangle(a, b, c, d)
    requires a < c && b < d && b < y < d
    ensures a < x < c ==> InZoneBy(Corrected, SqDist, z, x, y)
    ensures c < x ==> !InZoneBy(Corrected, SqDist, z, x, y)
  {
    var bd := z.border;
    var v0, v1, v2, v3 := Vertex(a, b), Vertex(a, d), Vertex(c, d), Vertex(c, b);
    assert EdgeEnd(bd, 0) == v1 && EdgeEnd(bd, 1) == v2 && EdgeEnd(bd, 2) == v3 && EdgeEnd(bd, 3) == v0;
    CorrectedHorizontalNotCrossed(SqDist, v1, v2, x, y);
    CorrectedHorizontalNotCrossed(SqDist, v3, v0, x, y);
    CorrectedVerticalIntercept(v0, v1, x, y);
    CorrectedVerticalIntercept(v2, v3, x, y);
    var right := if Crosses(Corrected, SqDist, v2, v3, x, y) then 1 else 0;
    assert Crossings(Corrected, SqDist, bd, x, y, 4) == Crossings(Corrected, SqDist, bd, x, y, 3);
    assert Crossings(Corrected, SqDist, bd, x, y, 3) == Crossings(Corrected, SqDist, bd, x, y, 2) + right;
    assert Crossings(Corrected, SqDist, bd, x, y, 2) == Crossings(Corrected, SqDist, bd, x, y, 1);
    if a < x < c {
      assert Crossings(Corrected, SqDist, bd, x, y, 1) == 0;
      CorrectedVerticalCrossed(v2, v3, x, y);
    }
    if c < x {
      assert Crossings(Corrected, SqDist, bd, x, y, 1) == 0;
      assert right == 0;
    }
  }

  /** One polynomial evaluated at the offsets (dx, dy). */
  function Eval(p: Poly, dx: real, dy: real): real {
    p.c00 + p.c10 * dx + p.c01 * dy
    + p.c20 * dx * dx + p.c11 * dx * dy + p.c02 * dy * dy
    + p.c30 * dx * dx * dx + p.c21 * dx * dx * dy + p.c12 * dx * dy * dy + p.c03 * dy * dy * dy
  }

  /** The output coordinates of one hop through zone `z` (transformer.go:136-159). */
  function Apply(z: CSTransformation, x: real, y: real): (real, real) {
    var dx := x - z.x0;
    var dy := y - z.y0;
    (Eval(z.a, dx, dy), Eval(z.b, dx, dy))
  }

  const ShiftX := Poly(0.0, 1.0, 0.0, 0.0, 0.0, 0.0, 0.0, 0.0, 0.0, 0.0)
  const ShiftY := Poly(0.0, 0.0, 1.0, 0.0, 0.0, 0.0, 0.0, 0.0, 0.0, 0.0)

  /** With A10 = B01 = 1 and every other coefficient 0, a hop subtracts the
      zone origin; with the origin at 0 it is the identity. */
  lemma ShiftHop(z: CSTransformation, x: real, y: real)
    requires z.a == ShiftX && z.b == ShiftY
    ensures Apply(z, x, y) == (x - z.x0, y - z.y0)
    ensures z.x0 == 0.0 && z.y0 == 0.0 ==> Apply(z, x, y) == (x, y)
  {
  }

  /** The index of the first zone, in declared order, that contains the point. */
  function Locate(rule: InterceptRule, dist: DistFn, zones: seq<CSTransformation>, x: real, y: real): (r: Option<nat>)
    ensures r.Some? ==> r.value < |zones| && InZoneBy(rule, dist, zones[r.value], x, y)
    ensures r.Some? ==> forall j :: 0 <= j < r.value ==> !InZoneBy(rule, dist, zones[j], x, y)
    ensures r.None? <==> forall j :: 0 <= j < |zones| ==> !InZoneBy(rule, dist, zones[j], x, y)
  {
    if |zones| == 0 then None
    else if InZoneBy(rule, dist, zones[0], x, y) then Some(0)
    else
      match Locate(rule, dist, zones[1..], x, y)
      case None => None
      case Some(i) => Some(i + 1)
  }
}
