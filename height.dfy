/**
 * The height corrections of transformations/transform-hs.go: the plane
 * model, the bilinear grid model over four cell corners fetched by key, and
 * the cell key built from a position.
 *
 * `%.0f` of a whole number is its decimal form; it is written out as
 * `IntString`. Values are `real`, so infinities and NaN (a zero grid size)
 * are not modelled: a zero grid size yields no key at all.
 */
module HeightTransform {
  import opened Wrappers
  import opened Config

  // ---------------------------------------------------------------------
  // Plane

  /** `planeInterpolation`: `h + sign * (A + (x - X0) * B + (y - Y0) * C)`; it
      never fails. */
  function PlaneCorrection(p: HPlaneTransformation, x: real, y: real): real {
    p.a + (x - p.x0) * p.b + (y - p.y0) * p.c
  }

  function Plane(p: HPlaneTransformation, x: real, y: real, h: real, sign: real): (r: real)
    ensures r - h == sign * PlaneCorrection(p, x, y)
  {
    h + sign * PlaneCorrection(p, x, y)
  }

  /** Going along an edge and back (signs +1 and -1) at the same position
      restores the height. */
  lemma PlaneRoundTrip(p: HPlaneTransformation, x: real, y: real, h: real)
    ensures Plane(p, x, y, Plane(p, x, y, h, 1.0), -1.0) == h
    ensures Plane(p, x, y, Plane(p, x, y, h, -1.0), 1.0) == h
  {
  }

  /** A plane with A = B = C = 0 leaves every height unchanged. */
  lemma ZeroPlane(p: HPlaneTransformation, x: real, y: real, h: real, sign: real)
    requires p.a == 0.0 && p.b == 0.0 && p.c == 0.0
    ensures Plane(p, x, y, h, sign) == h
  {
  }

  // ---------------------------------------------------------------------
  // Cell keys

  function DigitChar(d: nat): (c: char)
    requires d < 10
    ensures '0' <= c <= '9'
  {
    "0123456789"[d]
  }

  function DigitValue(c: char): nat {
    if '0' <= c <= '9' then (c - '0') as nat else 0
  }

  /** Decimal digits of `n`, most significant first. */
  function NatString(n: nat): (s: string)
    ensures |s| > 0 && forall i :: 0 <= i < |s| ==> '0' <= s[i] <= '9'
  {
    if n < 10 then [DigitChar(n)] else NatString(n / 10) + [DigitChar(n % 10)]
  }

  /** `%.0f` of a whole number: a minus sign for negatives, then the digits. */
  function IntString(n: int): (s: string)
    ensures |s| > 0 && '/' !in s
  {
    if n < 0 then "-" + NatString(-n) else NatString(n)
  }

  /** The value of a string of decimal digits. */
  function ParseNat(s: string): nat {
    if |s| == 0 then 0 else ParseNat(s[..|s| - 1]) * 10 + DigitValue(s[|s| - 1])
  }

  function ParseInt(s: string): int {
    if |s| > 0 && s[0] == '-' then 0 - ParseNat(s[1..]) else ParseNat(s)
  }

  lemma {:induction false} ParseNatString(n: nat)
    ensures ParseNat(NatString(n)) == n
  {
    if n >= 10 {
      var s := NatString(n);
      ParseNatString(n / 10);
      assert s[..|s| - 1] == NatString(n / 10);
    }
  }

  /** Reading the decimal form back gives the number. */
  lemma ParseIntString(n: int)
    ensures ParseInt(IntString(n)) == n
  {
    if n < 0 {
      var m: nat := 0 - n;
      assert IntString(n) == "-" + NatString(m);
      ParseSigned(m);
    } else {
      assert IntString(n) == NatString(n);
      ParseUnsigned(n);
    }
  }

  lemma ParseSigned(m: nat)
    ensures ParseInt("-" + NatString(m)) == 0 - m
  {
    var d := NatString(m);
    ParseNatString(m);
    assert ("-" + d)[1..] == d;
  }

  lemma ParseUnsigned(m: nat)
    ensures ParseInt(NatString(m)) == m
  {
    ParseNatString(m);
    assert NatString(m)[0] != '-';
  }

  /** The key `"i/j"` of cell (i, j). */
  function Key(i: int, j: int): string {
    IntString(i) + "/" + IntString(j)
  }

  /** A string holding one `/` splits at it in one way only. */
  lemma SlashSplit(a: string, b: string, c: string, d: string)
    requires '/' !in a && '/' !in c && a + "/" + b == c + "/" + d
    ensures a == c && b == d
  {
    var k := a + "/" + b;
    assert k[|a|] == '/';
    assert k[|c|] == '/';
    assert |a| == |c|;
    assert a == k[..|a|] == c;
    assert b == k[|a| + 1..] == d;
  }

  /** Distinct cells have distinct keys. */
  lemma KeyInjective(i1: int, j1: int, i2: int, j2: int)
    requires Key(i1, j1) == Key(i2, j2)
    ensures i1 == i2 && j1 == j2
  {
    var s1, s2 := IntString(i1), IntString(i2);
    var k := Key(i1, j1);
    SlashSplit(s1, IntString(j1), s2, IntString(j2));
    ParseIntString(i1);
    ParseIntString(i2);
    ParseIntString(j1);
    ParseIntString(j2);
  }

  /** The cell index of one coordinate: `floor((v - origin) / size)`. */
  function Cell(v: real, origin: real, size: real): int
    requires size != 0.0
  {
    ((v - origin) / size).Floor
  }

  /** `makeOndulationVertexNameFromXY`; a zero grid size has no key. */
  function CellKey(p: HGridTransformation, x: real, y: real): (k: Option<string>)
    ensures k.Some? <==> p.gridSize != 0.0
  {
    if p.gridSize == 0.0 then None
    else Some(Key(Cell(x, p.x0, p.gridSize), Cell(y, p.y0, p.gridSize)))
  }

  lemma DivUnique(x: real, size: real, q: real)
    requires size != 0.0 && q * size == x
    ensures x / size == q
  {
  }

  lemma FloorPlusOne(r: real)
    ensures (r + 1.0).Floor == r.Floor + 1
  {
  }

  /** One grid step along a coordinate moves to the next cell. */
  lemma CellStep(v: real, origin: real, size: real)
    requires size > 0.0
    ensures Cell(v + size, origin, size) == Cell(v, origin, size) + 1
  {
    var q := (v - origin) / size;
    DivUnique(v + size - origin, size, q + 1.0);
    FloorPlusOne(q);
  }

  /** The four corners fetched for (x, y) are cells (i, j), (i+1, j),
      (i, j+1) and (i+1, j+1) of the cell (i, j) holding the point. */
  lemma CornerKeys(p: HGridTransformation, x: real, y: real)
    requires p.gridSize > 0.0
    ensures var i, j := Cell(x, p.x0, p.gridSize), Cell(y, p.y0, p.gridSize);
      && CellKey(p, x, y) == Some(Key(i, j))
      && CellKey(p, x + p.gridSize, y) == Some(Key(i + 1, j))
      && CellKey(p, x, y + p.gridSize) == Some(Key(i, j + 1))
      && CellKey(p, x + p.gridSize, y + p.gridSize) == Some(Key(i + 1, j + 1))
  {
    CellStep(x, p.x0, p.gridSize);
    CellStep(y, p.y0, p.gridSize);
  }

  /** The base vertex and the +x corner of a cell have different keys. */
  lemma NextCellKeyDiffers(p: HGridTransformation, x: real, y: real)
    requires p.gridSize > 0.0
    ensures CellKey(p, x + p.gridSize, y) != CellKey(p, x, y)
  {
    CornerKeys(p, x, y);
    var i, j := Cell(x, p.x0, p.gridSize), Cell(y, p.y0, p.gridSize);
    if Key(i + 1, j) == Key(i, j) {
      KeyInjective(i + 1, j, i, j);
    }
  }

  // ---------------------------------------------------------------------
  // Grid

  /** How the offsets inside a cell are normalised: by the fixed 100 of the
      source, or by the grid size as evidently intended (see the Findings of
      the README). */
  datatype Normalise = ByHundred | ByGridSize

  /** The base corner coordinate of the cell holding `v`. */
  function CellBase(v: real, origin: real, size: real): real
    requires size != 0.0
  {
    (Cell(v, origin, size) as real) * size + origin
  }

  /** The bilinear blend of corner values a (base), b (+x), c (+y), d (+x+y)
      at normalised offsets (xr, yr). */
  function Blend(a: real, b: real, c: real, d: real, xr: real, yr: real): real {
    a * (1.0 - xr) * (1.0 - yr) + b * xr * (1.0 - yr) + c * (1.0 - xr) * yr + d * xr * yr
  }

  /** The four corner values of the cell holding (x, y), when all are known. */
  function Corners(p: HGridTransformation, x: real, y: real, data: map<string, real>): (r: Option<(real, real, real, real)>)
    ensures r.Some? <==> (p.gridSize != 0.0
      && CellKey(p, x, y).value in data && CellKey(p, x + p.gridSize, y).value in data
      && CellKey(p, x, y + p.gridSize).value in data && CellKey(p, x + p.gridSize, y + p.gridSize).value in data)
  {
    var ka, kb := CellKey(p, x, y), CellKey(p, x + p.gridSize, y);
    var kc, kd := CellKey(p, x, y + p.gridSize), CellKey(p, x + p.gridSize, y + p.gridSize);
    if ka.Some? && ka.value in data && kb.value in data && kc.value in data && kd.value in data then
      Some((data[ka.value], data[kb.value], data[kc.value], data[kd.value]))
    else None
  }

  /** The divisor of the offsets. */
  function Scale(rule: Normalise, p: HGridTransformation): real {
    if rule == ByHundred then 100.0 else p.gridSize
  }

  /** The normalised offset of `v` from the base of its cell. */
  function Offset(rule: Normalise, p: HGridTransformation, v: real, origin: real): real
    requires p.gridSize != 0.0
  {
    (v - CellBase(v, origin, p.gridSize)) / Scale(rule, p)
  }

  /** The corrected height once the four corner values `cs` are known. */
  function Interpolate(rule: Normalise, p: HGridTransformation, x: real, y: real, h: real, sign: real,
                       cs: (real, real, real, real)): real
    requires p.gridSize != 0.0
  {
    h + sign * Blend(cs.0, cs.1, cs.2, cs.3, Offset(rule, p, x, p.x0), Offset(rule, p, y, p.y0))
  }

  /** `gridInterpolation`: "outside of bound" unless the four corner values
      are known, else their bilinear blend at the offsets from the cell base,
      times `sign`, added to `h`. */
  function Grid(rule: Normalise, p: HGridTransformation, x: real, y: real, h: real, sign: real,
                data: map<string, real>): (r: Result<real, string>)
    ensures r.Err? <==> Corners(p, x, y, data).None?
    ensures r.Err? ==> r.error == "outside of bound"
    ensures r.Ok? ==> r.value == Interpolate(rule, p, x, y, h, sign, Corners(p, x, y, data).value)
  {
    match Corners(p, x, y, data)
    case None => Err("outside of bound")
    case Some(cs) => Ok(Interpolate(rule, p, x, y, h, sign, cs))
  }

  lemma BlendConstant(v: real, xr: real, yr: real)
    ensures Blend(v, v, v, v, xr, yr) == v
  {
    assert Blend(v, v, v, v, xr, yr) == v * ((1.0 - xr) * (1.0 - yr) + xr * (1.0 - yr) + (1.0 - xr) * yr + xr * yr);
  }

  /** Four equal corners give their value anywhere in the cell, under either
      normalisation: the weights sum to 1. */
  lemma GridFlat(rule: Normalise, p: HGridTransformation, x: real, y: real, h: real, sign: real,
                 data: map<string, real>, v: real)
    requires Corners(p, x, y, data) == Some((v, v, v, v))
    ensures Grid(rule, p, x, y, h, sign, data) == Ok(h + sign * v)
  {
    InterpolateFlat(rule, p, x, y, h, sign, v);
    assert Grid(rule, p, x, y, h, sign, data).Ok?;
  }

  lemma InterpolateFlat(rule: Normalise, p: HGridTransformation, x: real, y: real, h: real, sign: real, v: real)
    requires p.gridSize != 0.0
    ensures Interpolate(rule, p, x, y, h, sign, (v, v, v, v)) == h + sign * v
  {
    BlendConstant(v, Offset(rule, p, x, p.x0), Offset(rule, p, y, p.y0));
  }

  /** At the base corner of a cell the result is `h + sign * a`. */
  lemma GridAtBase(rule: Normalise, p: HGridTransformation, x: real, y: real, h: real, sign: real,
                   data: map<string, real>, cs: (real, real, real, real))
    requires p.gridSize != 0.0
    requires x == CellBase(x, p.x0, p.gridSize) && y == CellBase(y, p.y0, p.gridSize)
    requires Corners(p, x, y, data) == Some(cs)
    ensures Grid(rule, p, x, y, h, sign, data) == Ok(h + sign * cs.0)
  {
    InterpolateAtBase(rule, p, x, y, h, sign, cs);
    assert Grid(rule, p, x, y, h, sign, data) == Ok(Interpolate(rule, p, x, y, h, sign, cs));
  }

  lemma InterpolateAtBase(rule: Normalise, p: HGridTransformation, x: real, y: real, h: real, sign: real,
                          cs: (real, real, real, real))
    requires p.gridSize != 0.0
    requires x == CellBase(x, p.x0, p.gridSize) && y == CellBase(y, p.y0, p.gridSize)
    ensures Interpolate(rule, p, x, y, h, sign, cs) == h + sign * cs.0
  {
    assert Offset(rule, p, x, p.x0) == 0.0 && Offset(rule, p, y, p.y0) == 0.0;
    assert Blend(cs.0, cs.1, cs.2, cs.3, 0.0, 0.0) == cs.0;
  }

  /** Corner values sampled from a plane `a + s * dx + t * dy` over a cell of
      side `size`. */
  lemma BlendOfPlane(a: real, s: real, t: real, size: real, dx: real, dy: real)
    requires size != 0.0
    ensures Blend(a, a + s * size, a + t * size, a + s * size + t * size, dx / size, dy / size) == a + s * dx + t * dy
  {
    var xr, yr := dx / size, dy / size;
    assert xr * size == dx && yr * size == dy;
    calc {
      Blend(a, a + s * size, a + t * size, a + s * size + t * size, xr, yr);
      a * ((1.0 - xr) * (1.0 - yr) + xr * (1.0 - yr) + (1.0 - xr) * yr + xr * yr)
        + s * size * (xr * (1.0 - yr) + xr * yr) + t * size * ((1.0 - xr) * yr + xr * yr);
      a + s * (xr * size) + t * (yr * size);
    }
  }

  /** Normalised by the grid size, the grid reproduces a sloping plane
      exactly: corners sampled from `a + s * dx + t * dy` give that plane's
      value anywhere in the cell. */
  lemma CorrectedGridExactOnPlanes(p: HGridTransformation, x: real, y: real, h: real, sign: real,
                                   data: map<string, real>, a: real, s: real, t: real)
    requires p.gridSize != 0.0
    requires Corners(p, x, y, data) == Some((a, a + s * p.gridSize, a + t * p.gridSize, a + s * p.gridSize + t * p.gridSize))
    ensures Grid(ByGridSize, p, x, y, h, sign, data)
      == Ok(h + sign * (a + s * (x - CellBase(x, p.x0, p.gridSize)) + t * (y - CellBase(y, p.y0, p.gridSize))))
  {
    var cs := (a, a + s * p.gridSize, a + t * p.gridSize, a + s * p.gridSize + t * p.gridSize);
    assert Grid(ByGridSize, p, x, y, h, sign, data) == Ok(Interpolate(ByGridSize, p, x, y, h, sign, cs));
    InterpolatePlane(p, x, y, h, sign, a, s, t);
  }

  lemma InterpolatePlane(p: HGridTransformation, x: real, y: real, h: real, sign: real, a: real, s: real, t: real)
    requires p.gridSize != 0.0
    ensures Interpolate(ByGridSize, p, x, y, h, sign, (a, a + s * p.gridSize, a + t * p.gridSize, a + s * p.gridSize + t * p.gridSize))
      == h + sign * (a + s * (x - CellBase(x, p.x0, p.gridSize)) + t * (y - CellBase(y, p.y0, p.gridSize)))
  {
    BlendOfPlane(a, s, t, p.gridSize, x - CellBase(x, p.x0, p.gridSize), y - CellBase(y, p.y0, p.gridSize));
  }

  /** As written, a 50-unit grid whose corners slope by 1 per unit in x gives
      12.5 midway across the cell instead of 25. */
  lemma AsWrittenGridOffByScale()
    ensures var p := HGridTransformation("db", 0.0, 0.0, 50.0);
      var data := map["0/0" := 0.0, "1/0" := 50.0, "0/1" := 0.0, "1/1" := 50.0];
      && Grid(ByHundred, p, 25.0, 0.0, 0.0, 1.0, data) == Ok(12.5)
      && Grid(ByGridSize, p, 25.0, 0.0, 0.0, 1.0, data) == Ok(25.0)
  {
    var p := HGridTransformation("db", 0.0, 0.0, 50.0);
    assert Cell(25.0, 0.0, 50.0) == 0 && Cell(75.0, 0.0, 50.0) == 1;
    assert Cell(0.0, 0.0, 50.0) == 0 && Cell(50.0, 0.0, 50.0) == 1;
    assert IntString(0) == "0" && IntString(1) == "1";
    assert Key(0, 0) == "0/0" && Key(1, 0) == "1/0" && Key(0, 1) == "0/1" && Key(1, 1) == "1/1";
    assert CellKey(p, 25.0, 0.0) == Some("0/0");
    assert CellKey(p, 75.0, 0.0) == Some("1/0");
    assert CellKey(p, 25.0, 50.0) == Some("0/1");
    assert CellKey(p, 75.0, 50.0) == Some("1/1");
  }
}
