/**
 * The row handling of the `/transform` handler in main.go: every request
 * row becomes a point record (a name, X and Y, an optional H, pass-through
 * fields), the well-formed ones are added to the transformer, the batch is
 * run, and every record becomes a response row again.
 *
 * `strconv.ParseFloat` is the parameter `parse` (None for a text that is
 * not a number) and `fmt.Sprintf("%.3f", v)` is the parameter `format`.
 * The handler keeps a pointer to every record and the transformer updates
 * the same records in place, so the response shows a transformed row as the
 * transformer left it: the model reads it from the transformer's map.
 */
module Handler {
  import opened Wrappers
  import opened Config
  import opened Graphs
  import opened Transformer

  type Parser = string -> Option<real>
  type Formatter = real -> string

  /** The zero `PointResult` a row starts from. */
  const Blank := PointResult("", 0.0, 0.0, "", 0.0, false, "", 0.0, 0.0, [])

  /** The message of a field that does not parse as a number. */
  function ParseError(field: string): string {
    "Error parsing '" + field + "' as number"
  }

  /** One request row as a point record, and whether the record is handed
      to the transformer. Rows of length 1 and of length 3 or more start
      with a name; X and Y follow (at 0 and 1 without a name); a fourth
      field is H and the fields after it pass through. The first field that
      does not parse stops the row with its message. */
  function ReadRow(row: seq<string>, parse: Parser): (r: (PointResult, bool))
    ensures |row| == 0 ==> r == (Blank, false)
    ensures |row| == 1 ==> r == (Blank.(name := row[0]), false)
    ensures r.0.name == (if |row| == 1 || |row| > 2 then row[0] else "")
    ensures r.1 <==> |row| >= 2 && r.0.xyErr == "" && r.0.hErr == ""
    ensures |row| >= 2 ==> var xi := if |row| > 2 then 1 else 0;
      && (r.0.xyErr == "" <==> parse(row[xi]).Some? && parse(row[xi + 1]).Some?)
      && (parse(row[xi]).None? ==> r.0.xyErr == ParseError(row[xi]))
      && (parse(row[xi]).Some? && parse(row[xi + 1]).None? ==> r.0.xyErr == ParseError(row[xi + 1]))
      && (r.0.xyErr == "" ==> Some(r.0.x) == parse(row[xi]) && Some(r.0.y) == parse(row[xi + 1]))
    ensures r.0.hErr != "" <==> |row| >= 4 && r.0.xyErr == "" && parse(row[3]).None?
    ensures r.0.hErr != "" ==> r.0.hErr == ParseError(row[3])
    ensures r.0.hasH <==> r.1 && |row| >= 4
    ensures r.0.hasH ==> Some(r.0.h) == parse(row[3])
    ensures !r.0.hasH ==> r.0.h == 0.0
    ensures r.0.vars == (if r.1 && |row| > 4 then row[4..] else [])
    ensures r.0.xbgs == 0.0 && r.0.ybgs == 0.0
  {
    if |row| == 0 then (Blank, false)
    else
      var named := if |row| == 1 || |row| > 2 then Blank.(name := row[0]) else Blank;
      if |row| == 1 then (named, false)
      else
        var xi := if |row| > 2 then 1 else 0;
        match parse(row[xi])
        case None => (named.(xyErr := ParseError(row[xi])), false)
        case Some(x) =>
          match parse(row[xi + 1])
          case None => (named.(x := x, xyErr := ParseError(row[xi + 1])), false)
          case Some(y) =>
            var p := named.(x := x, y := y);
            if |row| > 3 then
              match parse(row[3])
              case None => (p.(hErr := ParseError(row[3])), false)
              case Some(h) => (p.(h := h, hasH := true, vars := if |row| > 4 then row[4..] else []), true)
            else (p, true)
  }

  /** The records of the first n rows that are handed to the transformer,
      under their row index. */
  function Read(rows: seq<seq<string>>, parse: Parser, n: nat): (m: map<int, PointResult>)
    requires n <= |rows|
    ensures forall i :: i in m <==> 0 <= i < n && ReadRow(rows[i], parse).1
    ensures forall i :: i in m ==> m[i] == ReadRow(rows[i], parse).0
  {
    map i | 0 <= i < n && ReadRow(rows[i], parse).1 :: ReadRow(rows[i], parse).0
  }

  /** One response row: the name when it is not empty, the XY error or the
      two formatted coordinates, the H error or the formatted H, then the
      pass-through fields. */
  function OutputRow(pt: PointResult, format: Formatter): (row: seq<string>)
    ensures |row| == (if |pt.name| > 0 then 1 else 0) + (if |pt.xyErr| > 0 then 1 else 2) + 1 + |pt.vars|
    ensures |pt.name| > 0 ==> row[0] == pt.name
    ensures row[|row| - |pt.vars|..] == pt.vars
  {
    (if |pt.name| > 0 then [pt.name] else [])
    + (if |pt.xyErr| > 0 then [pt.xyErr] else [format(pt.x), format(pt.y)])
    + [if |pt.hErr| > 0 then pt.hErr else format(pt.h)]
    + pt.vars
  }

  /** The one-row step of `Read`. */
  lemma ReadNext(rows: seq<seq<string>>, parse: Parser, n: nat)
    requires n < |rows|
    ensures Read(rows, parse, n + 1) ==
      if ReadRow(rows[n], parse).1 then Read(rows, parse, n)[n := ReadRow(rows[n], parse).0] else Read(rows, parse, n)
  {
    var (rec, add) := ReadRow(rows[n], parse);
    var before, after := Read(rows, parse, n), Read(rows, parse, n + 1);
    var expected := if add then before[n := rec] else before;
    assert forall i :: i in after <==> i in expected;
    assert forall i :: i in after ==> after[i] == expected[i];
  }

  /** The record of every row, as read. */
  function Records(rows: seq<seq<string>>, parse: Parser): (rs: seq<PointResult>)
    ensures |rs| == |rows|
    ensures forall i :: 0 <= i < |rows| ==> rs[i] == ReadRow(rows[i], parse).0
  {
    seq(|rows|, i requires 0 <= i < |rows| => ReadRow(rows[i], parse).0)
  }

  /** The record shown for row i: the transformer's, when the row was
      handed to it, else the record as read. */
  function Shown(records: seq<PointResult>, points: map<int, PointResult>, i: nat): PointResult
    requires i < |records|
  {
    if i in points then points[i] else records[i]
  }

  /** The response rows, one per record, in order. */
  function Rows(records: seq<PointResult>, format: Formatter, points: map<int, PointResult>, n: nat)
    : (out: seq<seq<string>>)
    requires n <= |records|
    ensures |out| == n
    ensures forall i :: 0 <= i < n ==> out[i] == OutputRow(Shown(records, points, i), format)
  {
    if n == 0 then [] else Rows(records, format, points, n - 1) + [OutputRow(Shown(records, points, n - 1), format)]
  }

  /** The whole handler after the transformer is obtained: the error of the
      batch, run under the source's own rules, or the response rows. */
  function Response(s: Session, cg: CSTransformationGraph, hg: HSTransformationGraph, dist: DistFn,
                    rows: seq<seq<string>>, parse: Parser, format: Formatter,
                    ids: seq<int>, hsOrder: seq<string>,
                    fetch: (string, seq<string>) -> map<string, real>, levels: nat): Result<seq<seq<string>>, BatchError>
    requires IsOrder(ids, Read(rows, parse, |rows|).Keys)
    requires IsOrder(hsOrder, s.hsPath.Keys)
  {
    var b := Batch(Source, s, cg, hg, dist, ids, hsOrder, Read(rows, parse, |rows|), fetch, levels);
    if b.failure.Some? then Err(b.failure.value) else Ok(Rows(Records(rows, parse), format, b.points, |rows|))
  }

  /** The row loop (main.go:71-143): read every row, hand the well-formed
      records to the transformer, and keep every record for the response. */
  method AddRows(t: TransformerOutput, rows: seq<seq<string>>, parse: Parser) returns (results: seq<PointResult>)
    requires t.points == map[]
    modifies t
    ensures results == Records(rows, parse)
    ensures t.points == Read(rows, parse, |rows|)
  {
    results := [];
    for i := 0 to |rows|
      invariant |results| == i
      invariant forall j :: 0 <= j < i ==> results[j] == ReadRow(rows[j], parse).0
      invariant t.points == Read(rows, parse, i)
    {
      var (o, add) := ReadRow(rows[i], parse);
      ReadNext(rows, parse, i);
      results := results + [o];
      if add {
        t.Add(i, o);
      }
    }
  }

  /** The response loop (main.go:156-194). */
  method Respond(format: Formatter, results: seq<PointResult>, points: map<int, PointResult>)
    returns (out: seq<seq<string>>)
    ensures out == Rows(results, format, points, |results|)
  {
    out := [];
    for i := 0 to |results|
      invariant out == Rows(results, format, points, i)
    {
      var pt := if i in points then points[i] else results[i];
      var row: seq<string> := [];
      if |pt.name| > 0 {
        row := row + [pt.name];
      }
      ghost var named := row;
      assert named == (if |pt.name| > 0 then [pt.name] else []);
      if |pt.xyErr| > 0 {
        row := row + [pt.xyErr];
      } else {
        row := row + [format(pt.x)];
        row := row + [format(pt.y)];
      }
      ghost var placed := row;
      assert placed == named + (if |pt.xyErr| > 0 then [pt.xyErr] else [format(pt.x), format(pt.y)]);
      if |pt.hErr| > 0 {
        row := row + [pt.hErr];
      } else {
        row := row + [format(pt.h)];
      }
      row := row + pt.vars;
      assert row == placed + [if |pt.hErr| > 0 then pt.hErr else format(pt.h)] + pt.vars;
      assert row == OutputRow(pt, format);
      out := out + [row];
    }
  }

  /** The `/transform` handler from the row loop on, with the transformer
      `t` just obtained: `ids` is the iteration order of the points it
      holds, `hsOrder` that of its HS forwarding entries. */
  method Transform(t: TransformerOutput, cg: CSTransformationGraph, hg: HSTransformationGraph, dist: DistFn,
                   rows: seq<seq<string>>, parse: Parser, format: Formatter,
                   ids: seq<int>, hsOrder: seq<string>,
                   fetch: (string, seq<string>) -> map<string, real>, levels: nat)
    returns (r: Result<seq<seq<string>>, BatchError>)
    requires t.points == map[]
    requires IsOrder(ids, Read(rows, parse, |rows|).Keys)
    requires IsOrder(hsOrder, t.hsPath.Keys)
    modifies t
    ensures r == Response(t.Settings(), cg, hg, dist, rows, parse, format, ids, hsOrder, fetch, levels)
  {
    var results := AddRows(t, rows, parse);
    var batch := t.TransformBatch(Source, cg, hg, dist, ids, hsOrder, fetch, levels);
    if batch.Err? {
      return Err(batch.error);
    }
    var out := Respond(format, results, t.points);
    r := Ok(out);
  }

  // ---------------------------------------------------------------------
  // Properties of the response

  /** A response has one row per request row; a row that was not handed to
      the transformer is echoed from its own record. */
  lemma OneRowPerRow(s: Session, cg: CSTransformationGraph, hg: HSTransformationGraph, dist: DistFn,
                     rows: seq<seq<string>>, parse: Parser, format: Formatter,
                     ids: seq<int>, hsOrder: seq<string>,
                     fetch: (string, seq<string>) -> map<string, real>, levels: nat)
    requires IsOrder(ids, Read(rows, parse, |rows|).Keys)
    requires IsOrder(hsOrder, s.hsPath.Keys)
    ensures var r := Response(s, cg, hg, dist, rows, parse, format, ids, hsOrder, fetch, levels);
      r.Ok? ==> (|r.value| == |rows| &&
        forall i :: 0 <= i < |rows| && !ReadRow(rows[i], parse).1 ==> r.value[i] == OutputRow(ReadRow(rows[i], parse).0, format))
  {
    var b := Batch(Source, s, cg, hg, dist, ids, hsOrder, Read(rows, parse, |rows|), fetch, levels);
    assert b.points.Keys == Read(rows, parse, |rows|).Keys;
  }

  /** Rows that carry no point still get coordinates and a height: an empty
      row answers three formatted zeros and a comment row its text and
      three formatted zeros. */
  lemma NoPointRowsPadded(rows: seq<seq<string>>, parse: Parser, format: Formatter,
                          points: map<int, PointResult>, i: nat)
    requires i < |rows| && |rows[i]| <= 1
    requires points.Keys == Read(rows, parse, |rows|).Keys
    ensures var z := format(0.0);
      Rows(Records(rows, parse), format, points, |rows|)[i] ==
        (if |rows[i]| == 1 && rows[i][0] != "" then [rows[i][0], z, z, z] else [z, z, z])
  {
    var rec := ReadRow(rows[i], parse).0;
    assert i !in points;
    assert Shown(Records(rows, parse), points, i) == rec;
    ZeroRow(rec, format);
  }

  /** The row of a record with no errors, zero values and no pass-through fields. */
  lemma ZeroRow(pt: PointResult, format: Formatter)
    requires pt.xyErr == "" && pt.hErr == "" && pt.vars == [] && pt.x == 0.0 && pt.y == 0.0 && pt.h == 0.0
    ensures var z := format(0.0);
      OutputRow(pt, format) == if |pt.name| > 0 then [pt.name, z, z, z] else [z, z, z]
  {
  }

  /** A row whose coordinate does not parse answers its message and the
      formatted zero height, after its name if it has one. */
  lemma BadCoordinateEchoed(rows: seq<seq<string>>, parse: Parser, format: Formatter,
                            points: map<int, PointResult>, i: nat)
    requires i < |rows| && |rows[i]| >= 2
    requires var xi := if |rows[i]| > 2 then 1 else 0; parse(rows[i][xi]).None?
    requires points.Keys == Read(rows, parse, |rows|).Keys
    ensures var xi := if |rows[i]| > 2 then 1 else 0;
      var name := if |rows[i]| > 2 && rows[i][0] != "" then [rows[i][0]] else [];
      Rows(Records(rows, parse), format, points, |rows|)[i] == name + [ParseError(rows[i][xi]), format(0.0)]
  {
    var xi := if |rows[i]| > 2 then 1 else 0;
    var rec := ReadRow(rows[i], parse).0;
    assert i !in points;
    assert Shown(Records(rows, parse), points, i) == rec;
    ErrorRow(rec, format);
  }

  /** The row of a record with an XY error, no H and no pass-through fields. */
  lemma ErrorRow(pt: PointResult, format: Formatter)
    requires pt.xyErr != "" && pt.hErr == "" && pt.vars == [] && pt.h == 0.0
    ensures OutputRow(pt, format) == (if |pt.name| > 0 then [pt.name] else []) + [pt.xyErr, format(0.0)]
  {
  }

  /** A named row with X, Y and H, printed and read back, gives the record
      it was printed from when the parser reads back each of the three
      printed numbers: with three-decimal formatting, values that have at
      most three decimals. */
  lemma RowRoundTrip(pt: PointResult, parse: Parser, format: Formatter)
    requires parse(format(pt.x)) == Some(pt.x) && parse(format(pt.y)) == Some(pt.y) && parse(format(pt.h)) == Some(pt.h)
    requires pt.name != "" && pt.xyErr == "" && pt.hErr == "" && pt.hasH
    ensures ReadRow(OutputRow(pt, format), parse) ==
      (Blank.(name := pt.name, x := pt.x, y := pt.y, h := pt.h, hasH := true, vars := pt.vars), true)
  {
    var row := OutputRow(pt, format);
    assert row == [pt.name, format(pt.x), format(pt.y), format(pt.h)] + pt.vars;
    assert |row| > 4 ==> row[4..] == pt.vars;
  }
}
