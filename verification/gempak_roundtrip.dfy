/** Writing a report back out in the GEMPAK text layout, and the proof that the
    parser reads it back unchanged. The same proof shows how the script, as
    written, fails on a report whose data block has no rows. */
module GempakRoundTrip {
  import opened Wrappers
  import opened Text
  import opened Gempak

  /** A token that survives a trip through a text line: non-empty, free of
      whitespace (so of line breaks) and of the comment mark. */
  predicate Token(s: string) {
    |s| > 0 && NoSpace(s) && '#' !in s
  }

  predicate Tokens(ws: seq<string>) {
    forall k :: 0 <= k < |ws| ==> Token(ws[k])
  }

  /** A header line `K1 = a K2 = b K3 = c` carrying the triple `(a, b, c)`. */
  function HeaderLine(k1: string, k2: string, k3: string, t: Triple): string {
    Join([k1, "=", t.first, k2, "=", t.second, k3, "=", t.third], ' ')
  }

  function StationLine(t: Triple): string {
    HeaderLine("STID", "STNM", "TIME", t)
  }

  function LocationLine(t: Triple): string {
    HeaderLine("SLAT", "SLON", "SELV", t)
  }

  function Shown(show: Value -> string, vs: seq<Value>): seq<string> {
    seq(|vs|, i requires 0 <= i < |vs| => show(vs[i]))
  }

  function RowLines(c: Columns, show: Value -> string): seq<string>
    requires Aligned(c)
  {
    seq(|c.pres|, k requires 0 <= k < |c.pres| => Join(Shown(show, RowAt(c, k)), ' '))
  }

  /** The report's lines in GEMPAK order: station line, location line, column
      header, then one line per row. */
  function Document(rep: Report, show: Value -> string): seq<string>
    requires Aligned(rep.columns)
  {
    [StationLine(rep.station), LocationLine(rep.location), ColumnHeader] + RowLines(rep.columns, show)
  }

  /** The report as GEMPAK text. */
  function Render(rep: Report, show: Value -> string): string
    requires Aligned(rep.columns)
  {
    Join(Document(rep, show), '\n')
  }

  function AllCells(c: Columns): seq<Value> {
    c.pres + c.hght + c.tmpc + c.dwpc + c.drct + c.sped
  }

  predicate TripleTokens(t: Triple) {
    Token(t.first) && Token(t.second) && Token(t.third)
  }

  /** Every cell is shown as a token that `float` reads back as the cell. */
  predicate CellsWritable(c: Columns, show: Value -> string, float: string -> Option<real>) {
    Aligned(c) && forall v :: v in AllCells(c) ==> Token(show(v)) && Cell(float, show(v)) == v
  }

  /** What a report must satisfy for its text to read back as itself. */
  predicate Writable(rep: Report, show: Value -> string, float: string -> Option<real>) {
    && TripleTokens(rep.station) && TripleTokens(rep.location)
    && CellsWritable(rep.columns, show, float)
    && !Contains(StationLine(rep.station), LocationMarker)
    && float(rep.location.first) == Some(rep.latitude)
    && float(rep.location.second) == Some(rep.longitude)
    && (forall i :: 0 <= i < |rep.columns.drct| ==> rep.columns.drct[i] != Num(360.0))
  }

  // ---------------------------------------------------------------- lines of tokens

  lemma NoSpaceAvoids(s: string, c: char)
    requires NoSpace(s) && IsSpace(c)
    ensures c !in s
  {
  }

  /** A line of tokens: trimmed, one line, no comment, and its words are the tokens. */
  lemma TokenLine(ws: seq<string>)
    requires |ws| >= 1 && Tokens(ws)
    ensures var s := Join(ws, ' ');
      Trimmed(s) && '\n' !in s && '#' !in s && Words(s) == ws
  {
    forall k | 0 <= k < |ws|
      ensures '\n' !in ws[k]
    {
      NoSpaceAvoids(ws[k], '\n');
    }
    JoinAvoids(ws, ' ', '\n');
    JoinAvoids(ws, ' ', '#');
    JoinEnds(ws, ' ');
    WordsOfJoin(ws);
  }

  /** Splitting the text back into stripped lines gives the lines that were joined. */
  lemma LinesOfJoin(ls: seq<string>)
    requires |ls| >= 1
    requires forall k :: 0 <= k < |ls| ==> '\n' !in ls[k] && Trimmed(ls[k])
    ensures Lines(Join(ls, '\n')) == ls
  {
    SplitOfJoin(ls, '\n');
    forall k | 0 <= k < |ls|
      ensures Strip(ls[k]) == ls[k]
    {
      StripTrimmed(ls[k]);
    }
  }

  // ---------------------------------------------------------------- the rendered lines

  /** A header line is a clean line of nine words whose 3rd, 6th and 9th words
      are the triple. */
  lemma HeaderLineWords(k1: string, k2: string, k3: string, t: Triple)
    requires Token(k1) && Token(k2) && Token(k3) && TripleTokens(t)
    ensures var s := HeaderLine(k1, k2, k3, t);
      && Trimmed(s) && '\n' !in s && '#' !in s
      && EveryThirdWord(s) == Some(t)
  {
    var ws := [k1, "=", t.first, k2, "=", t.second, k3, "=", t.third];
    assert Tokens(ws);
    TokenLine(ws);
  }

  /** A header line starts with `K1 =`. */
  lemma HeaderLineStart(k1: string, k2: string, k3: string, t: Triple)
    requires |k1| > 0
    ensures var s := HeaderLine(k1, k2, k3, t);
      |k1| + 2 <= |s| && s[..|k1| + 2] == k1 + " =" && s[0] == k1[0]
  {
    var ws := [k1, "=", t.first, k2, "=", t.second, k3, "=", t.third];
    assert ws[1..][1..] == ws[2..];
    assert Join(ws[1..], ' ') == "=" + [' '] + Join(ws[2..], ' ');
    var s := Join(ws, ' ');
    assert s == k1 + [' '] + Join(ws[1..], ' ');
    assert s == (k1 + " =") + ([' '] + Join(ws[2..], ' '));
  }

  lemma ColumnHeaderFacts()
    ensures Trimmed(ColumnHeader) && '\n' !in ColumnHeader && ColumnHeader[0] == 'P'
  {
  }

  /** A line with no line break and no surrounding whitespace. */
  predicate CleanLine(s: string) {
    '\n' !in s && Trimmed(s)
  }

  /** The keys of the two header lines are tokens. */
  lemma KeyTokens()
    ensures Token("STID") && Token("STNM") && Token("TIME")
    ensures Token("SLAT") && Token("SLON") && Token("SELV")
  {
  }

  /** A header line is a clean line. */
  lemma HeaderLineClean(k1: string, k2: string, k3: string, t: Triple)
    requires Token(k1) && Token(k2) && Token(k3) && TripleTokens(t)
    ensures CleanLine(HeaderLine(k1, k2, k3, t))
  {
    HeaderLineWords(k1, k2, k3, t);
  }

  /** The two header lines are clean lines. */
  lemma HeaderLinesClean(station: Triple, location: Triple)
    requires TripleTokens(station) && TripleTokens(location)
    ensures CleanLine(StationLine(station)) && CleanLine(LocationLine(location))
  {
    KeyTokens();
    HeaderLineClean("STID", "STNM", "TIME", station);
    HeaderLineClean("SLAT", "SLON", "SELV", location);
  }

  /** A header line mentions its marker, starts with `S` (so is not the column
      header), and carries its triple as 3rd, 6th and 9th words. */
  lemma StationLineRead(station: Triple)
    requires TripleTokens(station)
    ensures EveryThirdWord(StationLine(station)) == Some(station)
    ensures Contains(StationLine(station), StationMarker)
    ensures StationLine(station) != ColumnHeader
  {
    KeyTokens();
    HeaderLineWords("STID", "STNM", "TIME", station);
    HeaderLineStart("STID", "STNM", "TIME", station);
    ContainsPrefix(StationLine(station), StationMarker);
    ColumnHeaderFacts();
  }

  lemma LocationLineRead(location: Triple)
    requires TripleTokens(location)
    ensures EveryThirdWord(LocationLine(location)) == Some(location)
    ensures Contains(LocationLine(location), LocationMarker)
    ensures LocationLine(location) != ColumnHeader
  {
    KeyTokens();
    HeaderLineWords("SLAT", "SLON", "SELV", location);
    HeaderLineStart("SLAT", "SLON", "SELV", location);
    ContainsPrefix(LocationLine(location), LocationMarker);
    ColumnHeaderFacts();
  }

  /** Each data row is a clean line whose words read back as its six cells. */
  lemma RowLineFacts(c: Columns, show: Value -> string, float: string -> Option<real>, k: nat)
    requires CellsWritable(c, show, float) && k < |c.pres|
    ensures var line := RowLines(c, show)[k];
      && CleanLine(line)
      && |RowTokens(line)| == 6
      && Cells(float, RowTokens(line)) == RowAt(c, k)
  {
    var vs := RowAt(c, k);
    forall i | 0 <= i < 6
      ensures vs[i] in AllCells(c)
    {
    }
    var ws := Shown(show, vs);
    TokenLine(ws);
    var line := Join(ws, ' ');
    assert Split(line, '#') == [line];
  }

  lemma RowLinesFacts(c: Columns, show: Value -> string, float: string -> Option<real>)
    requires CellsWritable(c, show, float)
    ensures var rows := RowLines(c, show);
      forall k :: 0 <= k < |rows| ==>
        && CleanLine(rows[k])
        && |RowTokens(rows[k])| == 6
        && Cells(float, RowTokens(rows[k])) == RowAt(c, k)
  {
    var rows := RowLines(c, show);
    forall k | 0 <= k < |rows|
      ensures CleanLine(rows[k]) && |RowTokens(rows[k])| == 6
      ensures Cells(float, RowTokens(rows[k])) == RowAt(c, k)
    {
      RowLineFacts(c, show, float, k);
    }
  }

  // ---------------------------------------------------------------- reading it back

  /** Aligned columns agreeing on every row are equal. */
  lemma ColumnsByRows(a: Columns, b: Columns)
    requires Aligned(a) && Aligned(b) && |a.pres| == |b.pres|
    requires forall k :: 0 <= k < |a.pres| ==> RowAt(a, k) == RowAt(b, k)
    ensures a == b
  {
    forall k | 0 <= k < |a.pres|
      ensures a.pres[k] == b.pres[k] && a.hght[k] == b.hght[k] && a.tmpc[k] == b.tmpc[k]
      ensures a.dwpc[k] == b.dwpc[k] && a.drct[k] == b.drct[k] && a.sped[k] == b.sped[k]
    {
      assert RowAt(a, k)[0] == RowAt(b, k)[0] && RowAt(a, k)[1] == RowAt(b, k)[1];
      assert RowAt(a, k)[2] == RowAt(b, k)[2] && RowAt(a, k)[3] == RowAt(b, k)[3];
      assert RowAt(a, k)[4] == RowAt(b, k)[4] && RowAt(a, k)[5] == RowAt(b, k)[5];
    }
  }

  lemma CleanLines(ls: seq<string>, rows: seq<string>)
    requires |ls| == 3 + |rows| && ls[3..] == rows
    requires CleanLine(ls[0]) && CleanLine(ls[1]) && CleanLine(ls[2])
    requires forall k :: 0 <= k < |rows| ==> CleanLine(rows[k])
    ensures forall k :: 0 <= k < |ls| ==> '\n' !in ls[k] && Trimmed(ls[k])
  {
    forall k | 3 <= k < |ls|
      ensures CleanLine(ls[k])
    {
      assert ls[k] == rows[k - 3];
    }
  }

  /** The stripped lines of the rendered text are the lines that were written. */
  lemma RenderedLines(rep: Report, show: Value -> string, float: string -> Option<real>)
    requires TripleTokens(rep.station) && TripleTokens(rep.location)
    requires CellsWritable(rep.columns, show, float)
    ensures Lines(Render(rep, show)) == Document(rep, show)
  {
    HeaderLinesClean(rep.station, rep.location);
    ColumnHeaderFacts();
    RowLinesFacts(rep.columns, show, float);
    var ls := Document(rep, show);
    CleanLines(ls, RowLines(rep.columns, show));
    LinesOfJoin(ls);
  }

  /** The station header is read from the first line when that line mentions
      its marker. */
  lemma StationStage(ls: seq<string>, station: Triple)
    requires |ls| >= 1
    requires Contains(ls[0], StationMarker) && EveryThirdWord(ls[0]) == Some(station)
    ensures ReadHeader(ls, StationMarker) == Success(station)
  {
    assert FindFirst(ls, Mentions(StationMarker)) == Some(0);
  }

  /** The location header is read from the second line when the first line does
      not mention its marker and the second does. */
  lemma LocationStage(ls: seq<string>, location: Triple)
    requires |ls| >= 2
    requires Contains(ls[1], LocationMarker) && EveryThirdWord(ls[1]) == Some(location)
    requires !Contains(ls[0], LocationMarker)
    ensures ReadHeader(ls, LocationMarker) == Success(location)
  {
    assert FindFirst(ls[1..], Mentions(LocationMarker)) == Some(0);
    assert FindFirst(ls, Mentions(LocationMarker)) == Some(1);
  }

  /** With the column header third, the data block is everything after it. */
  lemma BlockStage(ls: seq<string>)
    requires |ls| >= 3 && ls[2] == ColumnHeader
    requires ls[0] != ColumnHeader && ls[1] != ColumnHeader
    ensures DataBlock(ls) == Some(ls[3..])
  {
    assert IsFirst(ls, 2, IsColumnHeader);
  }

  /** The rows of the rendered data block tabulate back to the columns. */
  lemma TableStage(c: Columns, show: Value -> string, float: string -> Option<real>)
    requires CellsWritable(c, show, float)
    ensures Tabulate(DataRows(RowLines(c, show)), float) == Some(c)
  {
    var block := RowLines(c, show);
    RowLinesFacts(c, show, float);
    DataRowsKeepLines(block);
    var rows := DataRows(block);
    assert forall k :: 0 <= k < |rows| ==> |rows[k]| == 6;
    var t := Tabulate(rows, float);
    forall k | 0 <= k < |rows|
      ensures RowAt(t.value, k) == RowAt(c, k)
    {
      assert rows[k] == RowTokens(block[k]);
    }
    ColumnsByRows(t.value, c);
  }

  lemma DocumentShape(rep: Report, show: Value -> string)
    requires Aligned(rep.columns)
    ensures var ls := Document(rep, show);
      && |ls| >= 3 && ls[0] == StationLine(rep.station) && ls[1] == LocationLine(rep.location)
      && ls[2] == ColumnHeader && ls[3..] == RowLines(rep.columns, show)
  {
  }

  /** The written lines pass every stage of the parser before the direction
      rewrite: both headers, the column header, and the table of rows. */
  lemma DocumentStages(rep: Report, show: Value -> string, float: string -> Option<real>, ls: seq<string>)
    requires Writable(rep, show, float) && ls == Document(rep, show)
    ensures ReadHeader(ls, StationMarker) == Success(rep.station)
    ensures ReadHeader(ls, LocationMarker) == Success(rep.location)
    ensures DataBlock(ls) == Some(RowLines(rep.columns, show))
    ensures Tabulate(DataRows(RowLines(rep.columns, show)), float) == Some(rep.columns)
  {
    DocumentShape(rep, show);
    StationLineRead(rep.station);
    LocationLineRead(rep.location);
    StationStage(ls, rep.station);
    LocationStage(ls, rep.location);
    BlockStage(ls);
    TableStage(rep.columns, show, float);
  }

  /** Writing a report out and parsing it back gives the same report. */
  lemma {:induction false} RoundTrip(rep: Report, show: Value -> string, float: string -> Option<real>)
    requires Writable(rep, show, float)
    ensures Parse(Render(rep, show), float) == Success(rep)
  {
    RenderedLines(rep, show, float);
    DocumentStages(rep, show, float, Lines(Render(rep, show)));
    var d := rep.columns.drct;
    assert NormalizeDirections(d) == d;
  }

  // ---------------------------------------------------------------- short data blocks

  /** A well-formed report with no data rows: the corrected parser reads it back
      with empty columns, while the script as written fails unpacking the empty
      array, before its own empty-profile check could run. */
  lemma {:induction false} EmptyBlockFails(rep: Report, show: Value -> string, float: string -> Option<real>)
    requires Writable(rep, show, float) && |rep.columns.pres| == 0
    ensures Parse(Render(rep, show), float) == Success(rep)
    ensures ParseAsWritten(Render(rep, show), float) == Failure(NoDataRows)
  {
    RoundTrip(rep, show, float);
    RenderedLines(rep, show, float);
    DocumentStages(rep, show, float, Lines(Render(rep, show)));
  }

  /** A well-formed report with one data row: read back by the corrected parser,
      a failure in the script as written (the one row becomes a scalar). */
  lemma {:induction false} SingleRowFails(rep: Report, show: Value -> string, float: string -> Option<real>)
    requires Writable(rep, show, float) && |rep.columns.pres| == 1
    ensures Parse(Render(rep, show), float) == Success(rep)
    ensures ParseAsWritten(Render(rep, show), float) == Failure(SingleDataRow)
  {
    RoundTrip(rep, show, float);
    RenderedLines(rep, show, float);
    DocumentStages(rep, show, float, Lines(Render(rep, show)));
  }

  lemma ReadBodyAgrees(station: Triple, location: Triple, block: seq<string>, float: string -> Option<real>)
    ensures var w := ReadBody(station, location, block, float, true);
      var r := ReadBody(station, location, block, float, false);
      && (w.Success? ==> r == w)
      && (r.Success? && |r.value.columns.pres| >= 2 ==> w == r)
  {
  }

  /** Outside those two cases the two parsers agree: whatever the script as
      written reads is what the corrected parser reads, and a report of two or
      more rows read by the corrected parser is read by the script too. */
  lemma AsWrittenAgrees(text: string, float: string -> Option<real>)
    ensures ParseAsWritten(text, float).Success? ==> Parse(text, float) == ParseAsWritten(text, float)
    ensures Parse(text, float).Success? && |Parse(text, float).value.columns.pres| >= 2 ==>
      ParseAsWritten(text, float) == Parse(text, float)
  {
    var ls := Lines(text);
    match ReadHeader(ls, StationMarker)
    case Failure(_) =>
    case Success(station) =>
      match ReadHeader(ls, LocationMarker)
      case Failure(_) =>
      case Success(location) =>
        match DataBlock(ls)
        case None =>
        case Some(block) => ReadBodyAgrees(station, location, block, float);
  }
}
