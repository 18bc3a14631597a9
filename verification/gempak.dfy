/** parseGEMPAK: one GEMPAK sounding text read into six index-aligned columns
    (pressure, height, temperature, dewpoint, wind direction, wind speed) plus
    the header tokens and the station's latitude and longitude. */
module Gempak {
  import opened Wrappers
  import opened Text

  const StationMarker: string := "STID ="
  const LocationMarker: string := "SLAT ="
  /** The column-header line, written field by field (each name padded to the
      next column). */
  const ColumnHeader: string :=
    "PRES      " + "HGHT     " + "TMPC     " + "DWPC     " + "DRCT     " + "SPED"

  /** A cell as numpy.genfromtxt stores it: a number, or nan where the token does
      not convert (genfromtxt's default loose conversion). */
  datatype Value = Num(x: real) | NaN

  /** The three tokens kept from a header line: its 3rd, 6th and 9th words. */
  datatype Triple = Triple(first: string, second: string, third: string)

  /** The six data columns, in file order. */
  datatype Columns = Columns(
    pres: seq<Value>, hght: seq<Value>, tmpc: seq<Value>,
    dwpc: seq<Value>, drct: seq<Value>, sped: seq<Value>)

  /** Station id, number and time; latitude, longitude and elevation tokens; the
      columns; and `float()` of the latitude and longitude tokens. */
  datatype Report = Report(station: Triple, location: Triple, columns: Columns,
                           latitude: real, longitude: real)

  datatype ParseError =
    | NoStationLine        // no line contains "STID ="
    | ShortStationLine     // the first such line has fewer than nine words
    | NoLocationLine       // no line contains "SLAT ="
    | ShortLocationLine
    | NoColumnHeader       // no line equals the column header
    | RaggedRows           // a data row does not have exactly six words
    | NoDataRows           // as written: unpacking an empty array
    | SingleDataRow        // as written: item assignment on a numpy scalar
    | BadLatitude          // float() of the latitude token raises
    | BadLongitude

  predicate Aligned(c: Columns) {
    && |c.hght| == |c.pres| && |c.tmpc| == |c.pres| && |c.dwpc| == |c.pres|
    && |c.drct| == |c.pres| && |c.sped| == |c.pres|
  }

  /** Row `k` read across the six columns. */
  function RowAt(c: Columns, k: nat): seq<Value>
    requires Aligned(c) && k < |c.pres|
  {
    [c.pres[k], c.hght[k], c.tmpc[k], c.dwpc[k], c.drct[k], c.sped[k]]
  }

  // ---------------------------------------------------------------- lines

  /** `[l.strip() for l in text.split('\n')]`. */
  function Lines(text: string): seq<string>
  {
    var raw := Split(text, '\n');
    seq(|raw|, i requires 0 <= i < |raw| => Strip(raw[i]))
  }

  /** Line `i` is the first line that satisfies `p`. */
  predicate IsFirst(ls: seq<string>, i: int, p: string -> bool) {
    0 <= i < |ls| && p(ls[i]) && forall j :: 0 <= j < i ==> !p(ls[j])
  }

  /** The index of the first line satisfying `p`, if any. */
  function FindFirst(ls: seq<string>, p: string -> bool): (r: Option<nat>)
    ensures r.Some? ==> IsFirst(ls, r.value, p)
    ensures r.None? ==> forall j :: 0 <= j < |ls| ==> !p(ls[j])
  {
    if |ls| == 0 then None
    else if p(ls[0]) then Some(0)
    else
      match FindFirst(ls[1..], p)
      case None => None
      case Some(i) => Some(i + 1)
  }

  /** The test `marker in line`. */
  function Mentions(marker: string): string -> bool {
    line => Contains(line, marker)
  }

  predicate IsColumnHeader(line: string) {
    line == ColumnHeader
  }

  // ---------------------------------------------------------------- header lines

  /** `line.split()[2:9:3]` unpacked into three names: the slice has three
      elements only when the line has at least nine words. */
  function EveryThirdWord(line: string): (r: Option<Triple>)
    ensures r.Some? <==> |Words(line)| >= 9
  {
    var w := Words(line);
    if |w| >= 9 then Some(Triple(w[2], w[5], w[8])) else None
  }

  datatype HeaderError = NoLine | ShortLine

  /** The three tokens of the first line mentioning `marker`. */
  function ReadHeader(ls: seq<string>, marker: string): Result<Triple, HeaderError>
  {
    match FindFirst(ls, Mentions(marker))
    case None => Failure(NoLine)
    case Some(i) =>
      match EveryThirdWord(ls[i])
      case None => Failure(ShortLine)
      case Some(t) => Success(t)
  }

  /** A header is missing exactly when no line mentions its marker; otherwise it
      is read from the first line that does, which needs nine words, and holds
      that line's 3rd, 6th and 9th words. */
  lemma ReadHeaderFirstLine(ls: seq<string>, marker: string)
    ensures ReadHeader(ls, marker) == Failure(NoLine) <==> forall j :: 0 <= j < |ls| ==> !Contains(ls[j], marker)
    ensures forall i :: IsFirst(ls, i, Mentions(marker)) ==>
      var w := Words(ls[i]);
      && (ReadHeader(ls, marker).Success? <==> |w| >= 9)
      && (ReadHeader(ls, marker).Success? ==> ReadHeader(ls, marker).value == Triple(w[2], w[5], w[8]))
  {
    var p := Mentions(marker);
    assert forall j :: 0 <= j < |ls| ==> (p(ls[j]) <==> Contains(ls[j], marker));
    match FindFirst(ls, p)
    case None =>
    case Some(i) =>
      forall h | IsFirst(ls, h, p)
        ensures h == i
      {
        IsFirstUnique(ls, h, i, p);
      }
  }

  /** At most one line is the first to satisfy a test. */
  lemma IsFirstUnique(ls: seq<string>, i: int, j: int, p: string -> bool)
    requires IsFirst(ls, i, p) && IsFirst(ls, j, p)
    ensures i == j
  {
  }

  // ---------------------------------------------------------------- data block

  /** The lines after the first line equal to the column header, to the end. */
  function DataBlock(ls: seq<string>): (r: Option<seq<string>>)
    ensures r.None? <==> ColumnHeader !in ls
    ensures forall h :: IsFirst(ls, h, IsColumnHeader) ==> r == Some(ls[h + 1..])
  {
    match FindFirst(ls, IsColumnHeader)
    case None => None
    case Some(h) => Some(ls[h + 1..])
  }

  /** The words numpy.genfromtxt reads from a line: those before any `#` comment. */
  function RowTokens(line: string): seq<string> {
    Words(Split(line, '#')[0])
  }

  /** The data rows genfromtxt reads from the block: lines with no words are skipped. */
  function DataRows(block: seq<string>): (rows: seq<seq<string>>)
    ensures |rows| <= |block|
    ensures forall r :: r in rows ==> |r| > 0
  {
    DropEmptyNonEmpty(TokenLines(block));
    DropEmpty(TokenLines(block))
  }

  /** The words of each line, blank lines included. */
  function TokenLines(block: seq<string>): (t: seq<seq<string>>)
    ensures |t| == |block|
  {
    MapLines(RowTokens, block)
  }

  function MapLines(f: string -> seq<string>, block: seq<string>): (t: seq<seq<string>>)
    ensures |t| == |block|
  {
    if |block| == 0 then [] else [f(block[0])] + MapLines(f, block[1..])
  }

  function DropEmpty(rows: seq<seq<string>>): (r: seq<seq<string>>)
    ensures |r| <= |rows|
  {
    if |rows| == 0 then []
    else if |rows[0]| == 0 then DropEmpty(rows[1..])
    else [rows[0]] + DropEmpty(rows[1..])
  }

  /** No row that survives the filter is empty. */
  lemma {:induction false} DropEmptyNonEmpty(rows: seq<seq<string>>)
    ensures forall x :: x in DropEmpty(rows) ==> |x| > 0
    decreases |rows|
  {
    if |rows| > 0 {
      DropEmptyNonEmpty(rows[1..]);
    }
  }

  /** Dropping empty rows from rows that are all non-empty changes nothing. */
  lemma {:induction false} DropEmptyKeeps(rows: seq<seq<string>>)
    requires forall i :: 0 <= i < |rows| ==> |rows[i]| > 0
    ensures DropEmpty(rows) == rows
  {
    if |rows| > 0 {
      DropEmptyKeeps(rows[1..]);
      assert rows == [rows[0]] + rows[1..];
    }
  }

  /** Every line of the block has words. */
  predicate NoBlankLines(block: seq<string>) {
    forall i :: 0 <= i < |block| ==> |RowTokens(block[i])| > 0
  }

  /** Without blank lines, row `i` is the words of line `i`. */
  lemma DataRowsKeepLines(block: seq<string>)
    requires NoBlankLines(block)
    ensures |DataRows(block)| == |block|
    ensures forall i :: 0 <= i < |block| ==> DataRows(block)[i] == RowTokens(block[i])
  {
    MapLinesEach(RowTokens, block);
    DropEmptyKeeps(TokenLines(block));
  }

  lemma {:induction false} DropEmptyAppend(x: seq<seq<string>>, y: seq<seq<string>>)
    ensures DropEmpty(x + y) == DropEmpty(x) + DropEmpty(y)
    decreases |x|
  {
    if |x| == 0 {
      assert x + y == y;
    } else {
      DropEmptyAppend(x[1..], y);
      assert (x + y)[0] == x[0] && (x + y)[1..] == x[1..] + y;
    }
  }

  /** genfromtxt reads the lines one at a time: the rows of two blocks in turn
      are the rows of the first, then those of the second. */
  lemma DataRowsAppend(a: seq<string>, b: seq<string>)
    ensures DataRows(a + b) == DataRows(a) + DataRows(b)
  {
    MapLinesAppend(RowTokens, a, b);
    DropEmptyAppend(TokenLines(a), TokenLines(b));
  }

  lemma {:induction false} MapLinesEach(f: string -> seq<string>, block: seq<string>)
    ensures forall i :: 0 <= i < |block| ==> MapLines(f, block)[i] == f(block[i])
    decreases |block|
  {
    if |block| > 0 {
      MapLinesEach(f, block[1..]);
      assert forall i :: 1 <= i < |block| ==> block[1..][i - 1] == block[i];
    }
  }

  lemma {:induction false} MapLinesAppend(f: string -> seq<string>, a: seq<string>, b: seq<string>)
    ensures MapLines(f, a + b) == MapLines(f, a) + MapLines(f, b)
    decreases |a|
  {
    if |a| == 0 {
      assert a + b == b;
    } else {
      var c := a + b;
      assert c[0] == a[0] && c[1..] == a[1..] + b;
      MapLinesAppend(f, a[1..], b);
      assert MapLines(f, c) == [f(a[0])] + MapLines(f, a[1..] + b);
      assert MapLines(f, a) == [f(a[0])] + MapLines(f, a[1..]);
    }
  }

  /** One line gives the row of its words before any `#`, or no row when it
      has none. */
  lemma DataRowsLine(line: string)
    ensures DataRows([line]) == if |RowTokens(line)| == 0 then [] else [RowTokens(line)]
  {
    assert TokenLines([line]) == [RowTokens(line)];
    assert TokenLines([line])[1..] == [];
  }

  /** One token as genfromtxt stores it, given Python's `float()` as `float`. */
  function Cell(float: string -> Option<real>, token: string): Value {
    match float(token)
    case Some(x) => Num(x)
    case None => NaN
  }

  function Cells(float: string -> Option<real>, tokens: seq<string>): seq<Value> {
    seq(|tokens|, i requires 0 <= i < |tokens| => Cell(float, tokens[i]))
  }

  /** genfromtxt unpacked into six columns: every row must have six words, and
      row `k` becomes element `k` of each column. */
  function Tabulate(rows: seq<seq<string>>, float: string -> Option<real>): (r: Option<Columns>)
    ensures r.Some? <==> forall k :: 0 <= k < |rows| ==> |rows[k]| == 6
    ensures r.Some? ==> Aligned(r.value) && |r.value.pres| == |rows|
    ensures r.Some? ==> forall k :: 0 <= k < |rows| ==> RowAt(r.value, k) == Cells(float, rows[k])
  {
    if |rows| == 0 then Some(Columns([], [], [], [], [], []))
    else if |rows[0]| != 6 then None
    else
      match Tabulate(rows[1..], float)
      case None => None
      case Some(c) =>
        var v := Cells(float, rows[0]);
        var r := Columns([v[0]] + c.pres, [v[1]] + c.hght, [v[2]] + c.tmpc,
                         [v[3]] + c.dwpc, [v[4]] + c.drct, [v[5]] + c.sped);
        assert forall k :: 1 <= k < |rows| ==> RowAt(r, k) == RowAt(c, k - 1);
        Some(r)
  }

  // ---------------------------------------------------------------- wind direction

  /** `wdir[wdir == 360] = 0.`: every direction of exactly 360 becomes 0. */
  function NormalizeDirections(d: seq<Value>): (r: seq<Value>)
    ensures |r| == |d|
    ensures forall i :: 0 <= i < |r| ==> r[i] != Num(360.0)
    ensures forall i :: 0 <= i < |d| && d[i] == Num(360.0) ==> r[i] == Num(0.0)
    ensures forall i :: 0 <= i < |d| && d[i] != Num(360.0) ==> r[i] == d[i]
  {
    if |d| == 0 then []
    else
      var head := if d[0] == Num(360.0) then Num(0.0) else d[0];
      var rest := NormalizeDirections(d[1..]);
      assert forall i :: 1 <= i <= |rest| ==> ([head] + rest)[i] == rest[i - 1];
      [head] + rest
  }

  // ---------------------------------------------------------------- the parser

  /** Everything after the column header: the rows, the direction rewrite and
      `float()` of the latitude and longitude tokens. */
  function ReadBody(station: Triple, location: Triple, block: seq<string>,
                    float: string -> Option<real>, asWritten: bool): (r: Result<Report, ParseError>)
    ensures r.Success? ==> Aligned(r.value.columns)
    ensures r.Success? ==> forall i :: 0 <= i < |r.value.columns.drct| ==> r.value.columns.drct[i] != Num(360.0)
    ensures !asWritten ==> r != Failure(NoDataRows) && r != Failure(SingleDataRow)
    ensures asWritten && r.Success? ==> |r.value.columns.drct| >= 2
  {
    match Tabulate(DataRows(block), float)
    case None => Failure(RaggedRows)
    case Some(c) =>
      if asWritten && |c.pres| == 0 then Failure(NoDataRows)
      else if asWritten && |c.pres| == 1 then Failure(SingleDataRow)
      else
        var cols := c.(drct := NormalizeDirections(c.drct));
        match float(location.first)
        case None => Failure(BadLatitude)
        case Some(lat) =>
          match float(location.second)
          case None => Failure(BadLongitude)
          case Some(lon) => Success(Report(station, location, cols, lat, lon))
  }

  /** parseGEMPAK, stage by stage in the script's order. `asWritten` keeps the
      script's behaviour on data blocks of fewer than two rows, which fail inside
      numpy; without it such a block gives short columns. */
  function ParseWith(text: string, float: string -> Option<real>, asWritten: bool): (r: Result<Report, ParseError>)
    ensures r.Success? ==> Aligned(r.value.columns)
    ensures r.Success? ==> forall i :: 0 <= i < |r.value.columns.drct| ==> r.value.columns.drct[i] != Num(360.0)
    ensures !asWritten ==> r != Failure(NoDataRows) && r != Failure(SingleDataRow)
    ensures asWritten && r.Success? ==> |r.value.columns.drct| >= 2
  {
    var ls := Lines(text);
    match ReadHeader(ls, StationMarker)
    case Failure(e) => Failure(if e == NoLine then NoStationLine else ShortStationLine)
    case Success(station) =>
      match ReadHeader(ls, LocationMarker)
      case Failure(e) => Failure(if e == NoLine then NoLocationLine else ShortLocationLine)
      case Success(location) =>
        match DataBlock(ls)
        case None => Failure(NoColumnHeader)
        case Some(block) => ReadBody(station, location, block, float, asWritten)
  }

  /** The parser with short data blocks read as short columns. */
  function Parse(text: string, float: string -> Option<real>): (r: Result<Report, ParseError>)
    ensures r.Success? ==> Aligned(r.value.columns)
    ensures r.Success? ==> forall i :: 0 <= i < |r.value.columns.drct| ==> r.value.columns.drct[i] != Num(360.0)
    ensures r != Failure(NoDataRows) && r != Failure(SingleDataRow)
  {
    ParseWith(text, float, false)
  }

  /** The parser as the script behaves, failing on fewer than two data rows. */
  function ParseAsWritten(text: string, float: string -> Option<real>): (r: Result<Report, ParseError>)
    ensures r.Success? ==> Aligned(r.value.columns) && |r.value.columns.drct| >= 2
  {
    ParseWith(text, float, true)
  }
}
