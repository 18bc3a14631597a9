/** Timestamps as the script reads them with `datetime.datetime.strptime`, and the
    elapsed time between two of them as `datetime` subtraction measures it.
    A moment is kept as whole minutes, so differences are exact integers. */
module Calendar {
  import opened Wrappers
  import opened Text

  datatype Stamp = Stamp(year: int, month: int, day: int, hour: int, minute: int)

  // ---------------------------------------------------------------- calendar arithmetic

  predicate IsLeapYear(y: int) {
    y % 4 == 0 && (y % 100 != 0 || y % 400 == 0)
  }

  function DaysInMonth(y: int, m: int): int {
    if m == 2 then (if IsLeapYear(y) then 29 else 28)
    else if m == 4 || m == 6 || m == 9 || m == 11 then 30
    else 31
  }

  function DaysInYear(y: int): int {
    if IsLeapYear(y) then 366 else 365
  }

  /** A moment `datetime` accepts: years MINYEAR (1) to MAXYEAR (9999), real days. */
  predicate Valid(t: Stamp) {
    && 1 <= t.year <= 9999
    && 1 <= t.month <= 12
    && 1 <= t.day <= DaysInMonth(t.year, t.month)
    && 0 <= t.hour < 24
    && 0 <= t.minute < 60
  }

  function DaysBeforeYear(y: int): nat
    decreases y
  {
    if y <= 1 then 0 else DaysBeforeYear(y - 1) + DaysInYear(y - 1)
  }

  function DaysBeforeMonth(y: int, m: int): nat
    decreases m
  {
    if m <= 1 then 0 else DaysBeforeMonth(y, m - 1) + DaysInMonth(y, m - 1)
  }

  /** The day's number with 0001-01-01 as day 1, as `date.toordinal` counts. */
  function DayNumber(t: Stamp): int {
    DaysBeforeYear(t.year) + DaysBeforeMonth(t.year, t.month) + t.day
  }

  /** The moment as a count of minutes. */
  function Minutes(t: Stamp): int {
    (DayNumber(t) * 24 + t.hour) * 60 + t.minute
  }

  /** `(b - a).total_seconds() / 3600.`: hours from `a` to `b`, possibly fractional. */
  function HoursBetween(a: Stamp, b: Stamp): real {
    (Minutes(b) - Minutes(a)) as real / 60.0
  }

  // ---------------------------------------------------------------- strptime

  /** The conversion directives the script's formats use: %Y %m %d %H %M. */
  datatype Directive = Year | Month | Day | Hour | Minute

  /** `'%Y%m%d%H'`, the format of an initialization-time path segment. */
  const InitFormat: seq<Directive> := [Year, Month, Day, Hour]

  /** `'%Y%m%d%H%M'`, the format of the valid time in a file name. */
  const ValidFormat: seq<Directive> := [Year, Month, Day, Hour, Minute]

  predicate CharIn(s: string, p: int, lo: char, hi: char) {
    0 <= p < |s| && lo <= s[p] <= hi
  }

  /** `width` ahead of the widths `rest` when the alternative `matches`. */
  function Alt(matches: bool, width: nat, rest: seq<nat>): seq<nat> {
    if matches then [width] + rest else rest
  }

  /** The widths of the alternatives of a directive's pattern in Python 2.7's
      `_strptime` that match `s` at `p`, in the order the pattern lists them.
      %Y is four digits; %m is `1` then 0-2, `0` then 1-9, or one digit 1-9;
      %d is `3` then 0-1, 1-2 then a digit, `0` then 1-9, one digit 1-9, or a
      blank then 1-9; %H is `2` then 0-3, 0-1 then a digit, or one digit; %M is
      0-5 then a digit, or one digit. */
  function Widths(d: Directive, s: string, p: nat): (ws: seq<nat>)
    ensures forall w :: w in ws ==> 1 <= w && p + w <= |s|
  {
    match d
    case Year =>
      Alt(CharIn(s, p, '0', '9') && CharIn(s, p + 1, '0', '9') && CharIn(s, p + 2, '0', '9') && CharIn(s, p + 3, '0', '9'), 4, [])
    case Month =>
      Alt(CharIn(s, p, '1', '1') && CharIn(s, p + 1, '0', '2'), 2,
      Alt(CharIn(s, p, '0', '0') && CharIn(s, p + 1, '1', '9'), 2,
      Alt(CharIn(s, p, '1', '9'), 1, [])))
    case Day =>
      Alt(CharIn(s, p, '3', '3') && CharIn(s, p + 1, '0', '1'), 2,
      Alt(CharIn(s, p, '1', '2') && CharIn(s, p + 1, '0', '9'), 2,
      Alt(CharIn(s, p, '0', '0') && CharIn(s, p + 1, '1', '9'), 2,
      Alt(CharIn(s, p, '1', '9'), 1,
      Alt(CharIn(s, p, ' ', ' ') && CharIn(s, p + 1, '1', '9'), 2, [])))))
    case Hour =>
      Alt(CharIn(s, p, '2', '2') && CharIn(s, p + 1, '0', '3'), 2,
      Alt(CharIn(s, p, '0', '1') && CharIn(s, p + 1, '0', '9'), 2,
      Alt(CharIn(s, p, '0', '9'), 1, [])))
    case Minute =>
      Alt(CharIn(s, p, '0', '5') && CharIn(s, p + 1, '0', '9'), 2,
      Alt(CharIn(s, p, '0', '9'), 1, []))
  }

  function Sum(ws: seq<nat>): nat {
    if |ws| == 0 then 0 else ws[0] + Sum(ws[1..])
  }

  /** The regular expression match (anchored at `p`, not at the end): the
      directives' alternatives are tried in order, backtracking into an earlier
      directive only when a later one cannot match at all. The result is the
      width each directive matched. */
  function RegexMatch(s: string, p: nat, ds: seq<Directive>): (r: Option<seq<nat>>)
    requires p <= |s|
    ensures r.Some? ==> |r.value| == |ds| && p + Sum(r.value) <= |s|
    decreases |ds|, 1, 0
  {
    if |ds| == 0 then Some([]) else TryAlternatives(s, p, ds, Widths(ds[0], s, p))
  }

  function TryAlternatives(s: string, p: nat, ds: seq<Directive>, ws: seq<nat>): (r: Option<seq<nat>>)
    requires |ds| > 0
    requires forall w :: w in ws ==> p + w <= |s|
    ensures r.Some? ==> |r.value| == |ds| && p + Sum(r.value) <= |s|
    decreases |ds|, 0, |ws|
  {
    if |ws| == 0 then None
    else
      assert ws[0] in ws;
      assert forall w :: w in ws[1..] ==> w in ws;
      match RegexMatch(s, p + ws[0], ds[1..])
      case Some(rest) =>
        assert ([ws[0]] + rest)[1..] == rest;
        Some([ws[0]] + rest)
      case None => TryAlternatives(s, p, ds, ws[1..])
  }

  /** `int()` of a matched piece: its digits read as a decimal number. The only
      other character a piece can hold is the leading blank of `%d`, which
      `int()` ignores. */
  function FieldValue(s: string): nat {
    if |s| == 0 then 0
    else if IsDigit(s[|s| - 1]) then 10 * FieldValue(s[..|s| - 1]) + DigitValue(s[|s| - 1])
    else FieldValue(s[..|s| - 1])
  }

  function FieldValues(s: string, p: nat, ws: seq<nat>): (vs: seq<nat>)
    requires p + Sum(ws) <= |s|
    ensures |vs| == |ws|
    decreases |ws|
  {
    if |ws| == 0 then [] else [FieldValue(s[p..p + ws[0]])] + FieldValues(s, p + ws[0], ws[1..])
  }

  /** The integer fields `strptime` reads from `s`, or None where it raises
      ValueError: no match ("does not match format") or a match that stops short
      of the end ("unconverted data remains"). */
  function Strptime(s: string, ds: seq<Directive>): (r: Option<seq<nat>>)
    ensures r.Some? ==> |r.value| == |ds|
  {
    match RegexMatch(s, 0, ds)
    case None => None
    case Some(ws) => if Sum(ws) != |s| then None else Some(FieldValues(s, 0, ws))
  }

  /** `datetime.datetime.strptime(s, '%Y%m%d%H')`. */
  function ParseInitTime(s: string): (r: Option<Stamp>)
    ensures r.Some? ==> Valid(r.value) && r.value.minute == 0
  {
    match Strptime(s, InitFormat)
    case None => None
    case Some(v) =>
      var t := Stamp(v[0], v[1], v[2], v[3], 0);
      if Valid(t) then Some(t) else None
  }

  /** `datetime.datetime.strptime(s, '%Y%m%d%H%M')`. */
  function ParseValidTime(s: string): (r: Option<Stamp>)
    ensures r.Some? ==> Valid(r.value)
  {
    match Strptime(s, ValidFormat)
    case None => None
    case Some(v) =>
      var t := Stamp(v[0], v[1], v[2], v[3], v[4]);
      if Valid(t) then Some(t) else None
  }

  // ---------------------------------------------------------------- canonical text

  /** The `width` low-order decimal digits of `n`, zero-padded. */
  function Fixed(n: nat, width: nat): (s: string)
    ensures |s| == width && AllDigits(s)
  {
    if width == 0 then [] else Fixed(n / 10, width - 1) + [DigitChar(n % 10)]
  }

  function Pow10(k: nat): nat {
    if k == 0 then 1 else 10 * Pow10(k - 1)
  }

  /** The fixed-width `yyyymmddhh` text of a moment on the hour. */
  function InitTimeText(t: Stamp): string
    requires Valid(t)
  {
    Fixed(t.year, 4) + Fixed(t.month, 2) + Fixed(t.day, 2) + Fixed(t.hour, 2)
  }

  /** The fixed-width `yyyymmddhhMM` text of a moment. */
  function ValidTimeText(t: Stamp): string
    requires Valid(t)
  {
    InitTimeText(t) + Fixed(t.minute, 2)
  }

  // ---------------------------------------------------------------- elapsed time

  lemma MonthsFillYear(y: int)
    ensures DaysBeforeMonth(y, 13) == DaysInYear(y)
  {
    assert DaysBeforeMonth(y, 13) == DaysBeforeMonth(y, 12) + 31;
    assert DaysBeforeMonth(y, 12) == DaysBeforeMonth(y, 11) + 30;
    assert DaysBeforeMonth(y, 11) == DaysBeforeMonth(y, 10) + 31;
    assert DaysBeforeMonth(y, 10) == DaysBeforeMonth(y, 9) + 30;
    assert DaysBeforeMonth(y, 9) == DaysBeforeMonth(y, 8) + 31;
    assert DaysBeforeMonth(y, 8) == DaysBeforeMonth(y, 7) + 31;
    assert DaysBeforeMonth(y, 7) == DaysBeforeMonth(y, 6) + 30;
    assert DaysBeforeMonth(y, 6) == DaysBeforeMonth(y, 5) + 31;
    assert DaysBeforeMonth(y, 5) == DaysBeforeMonth(y, 4) + 30;
    assert DaysBeforeMonth(y, 4) == DaysBeforeMonth(y, 3) + 31;
    assert DaysBeforeMonth(y, 3) == DaysBeforeMonth(y, 2) + DaysInMonth(y, 2);
    assert DaysBeforeMonth(y, 2) == 31;
  }

  lemma {:induction false} DaysBeforeMonthGrows(y: int, m1: int, m2: int)
    requires m1 <= m2
    ensures DaysBeforeMonth(y, m1) <= DaysBeforeMonth(y, m2)
    decreases m2 - m1
  {
    if m1 < m2 {
      DaysBeforeMonthGrows(y, m1, m2 - 1);
    }
  }

  lemma {:induction false} YearsAdvance(y1: int, y2: int)
    requires 1 <= y1 < y2
    ensures DaysBeforeYear(y1) + DaysInYear(y1) <= DaysBeforeYear(y2)
    decreases y2 - y1
  {
    if y2 > y1 + 1 {
      YearsAdvance(y1, y2 - 1);
    }
  }

  /** A valid day falls inside its own year. */
  lemma DayWithinYear(t: Stamp)
    requires Valid(t)
    ensures 1 <= DaysBeforeMonth(t.year, t.month) + t.day <= DaysInYear(t.year)
  {
    DaysBeforeMonthGrows(t.year, t.month + 1, 13);
    MonthsFillYear(t.year);
  }

  /** Day numbers follow calendar order. */
  lemma DayNumberOrder(a: Stamp, b: Stamp)
    requires Valid(a) && Valid(b)
    ensures a.year < b.year ==> DayNumber(a) < DayNumber(b)
    ensures a.year == b.year && a.month < b.month ==> DayNumber(a) < DayNumber(b)
    ensures a.year == b.year && a.month == b.month && a.day < b.day ==> DayNumber(a) < DayNumber(b)
  {
    DayWithinYear(a);
    DayWithinYear(b);
    if a.year < b.year {
      YearsAdvance(a.year, b.year);
    }
    if a.year == b.year && a.month < b.month {
      DaysBeforeMonthGrows(a.year, a.month + 1, b.month);
    }
  }

  /** Two valid moments with the same minute count are the same moment. */
  lemma MinutesInjective(a: Stamp, b: Stamp)
    requires Valid(a) && Valid(b)
    requires Minutes(a) == Minutes(b)
    ensures a == b
  {
    DayNumberOrder(a, b);
    DayNumberOrder(b, a);
    assert a.minute == b.minute;
    assert a.hour == b.hour;
  }

  /** The forecast hour is zero exactly when the two times name the same moment. */
  lemma HoursBetweenZero(a: Stamp, b: Stamp)
    requires Valid(a) && Valid(b)
    ensures HoursBetween(a, b) == 0.0 <==> a == b
  {
    if Minutes(a) == Minutes(b) {
      MinutesInjective(a, b);
    }
  }

  /** Moments with the same minute of the hour are a whole number of hours apart. */
  lemma HoursBetweenWhole(a: Stamp, b: Stamp)
    requires a.minute == b.minute
    ensures HoursBetween(a, b) == ((DayNumber(b) - DayNumber(a)) * 24 + b.hour - a.hour) as real
  {
    var k := (DayNumber(b) - DayNumber(a)) * 24 + b.hour - a.hour;
    assert Minutes(b) - Minutes(a) == 60 * k;
  }

  // ---------------------------------------------------------------- strptime facts

  /** An alternative whose continuation matches is taken: nothing after it is tried. */
  lemma TryFirst(s: string, p: nat, ds: seq<Directive>, ws: seq<nat>, rest: seq<nat>)
    requires |ds| > 0 && |ws| > 0 && p + ws[0] <= |s| && forall w :: w in ws ==> p + w <= |s|
    requires RegexMatch(s, p + ws[0], ds[1..]) == Some(rest)
    ensures TryAlternatives(s, p, ds, ws) == Some([ws[0]] + rest)
  {
  }

  /** When the first alternative of the leading directive leads to a match of the
      rest, that is the match: nothing is retried. */
  lemma FirstAlternativeWins(s: string, p: nat, d: Directive, ds: seq<Directive>, rest: seq<nat>)
    requires p <= |s| && |Widths(d, s, p)| > 0
    requires RegexMatch(s, p + Widths(d, s, p)[0], ds) == Some(rest)
    ensures RegexMatch(s, p, [d] + ds) == Some([Widths(d, s, p)[0]] + rest)
  {
    var all := [d] + ds;
    var ws := Widths(d, s, p);
    assert all[0] == d && all[1..] == ds;
    assert RegexMatch(s, p, all) == TryAlternatives(s, p, all, ws);
    TryFirst(s, p, all, ws, rest);
  }

  lemma {:induction false} FixedValue(n: nat, width: nat)
    requires n < Pow10(width)
    ensures FieldValue(Fixed(n, width)) == n
  {
    if width > 0 {
      var s := Fixed(n, width);
      assert s[..|s| - 1] == Fixed(n / 10, width - 1);
      FixedValue(n / 10, width - 1);
    }
  }

  lemma FixedTwo(n: nat)
    requires n < 100
    ensures Fixed(n, 2) == [DigitChar(n / 10), DigitChar(n % 10)]
  {
    var a := n / 10;
    assert a < 10 && a % 10 == a;
    assert Fixed(a, 1) == [DigitChar(a)];
  }

  /** Two zero-padded digits in a directive's range match its first, two-wide alternative. */
  lemma TwoDigitsFirst(d: Directive, s: string, p: nat, n: nat)
    requires d != Year
    requires p + 2 <= |s| && s[p..p + 2] == Fixed(n, 2)
    requires d == Month ==> 1 <= n <= 12
    requires d == Day ==> 1 <= n <= 31
    requires d == Hour ==> n <= 23
    requires d == Minute ==> n <= 59
    ensures |Widths(d, s, p)| > 0 && Widths(d, s, p)[0] == 2
  {
    FixedTwo(n);
    assert s[p] == DigitChar(n / 10) && s[p + 1] == DigitChar(n % 10);
  }

  /** A two-digit field in range, followed by a match of the rest, is matched two wide. */
  lemma TwoDigitStep(s: string, p: nat, d: Directive, ds: seq<Directive>, n: nat, rest: seq<nat>)
    requires d != Year
    requires p + 2 <= |s| && s[p..p + 2] == Fixed(n, 2)
    requires d == Month ==> 1 <= n <= 12
    requires d == Day ==> 1 <= n <= 31
    requires d == Hour ==> n <= 23
    requires d == Minute ==> n <= 59
    requires RegexMatch(s, p + 2, ds) == Some(rest)
    ensures RegexMatch(s, p, [d] + ds) == Some([2] + rest)
  {
    TwoDigitsFirst(d, s, p, n);
    FirstAlternativeWins(s, p, d, ds, rest);
  }

  /** Four digits, followed by a match of the rest, are the year. */
  lemma YearStep(s: string, p: nat, ds: seq<Directive>, rest: seq<nat>)
    requires p + 4 <= |s| && AllDigits(s[p..p + 4])
    requires RegexMatch(s, p + 4, ds) == Some(rest)
    ensures RegexMatch(s, p, [Year] + ds) == Some([4] + rest)
  {
    assert s[p..p + 4][0] == s[p] && s[p..p + 4][1] == s[p + 1];
    assert s[p..p + 4][2] == s[p + 2] && s[p..p + 4][3] == s[p + 3];
    assert Widths(Year, s, p) == [4];
    FirstAlternativeWins(s, p, Year, ds, rest);
  }

  /** Month, day and hour of a valid moment, each two digits, followed by a match
      of the rest. */
  lemma MonthDayHourStep(s: string, p: nat, t: Stamp, ds: seq<Directive>, rest: seq<nat>)
    requires Valid(t) && p + 6 <= |s|
    requires s[p..p + 2] == Fixed(t.month, 2)
    requires s[p + 2..p + 4] == Fixed(t.day, 2)
    requires s[p + 4..p + 6] == Fixed(t.hour, 2)
    requires RegexMatch(s, p + 6, ds) == Some(rest)
    ensures RegexMatch(s, p, [Month] + ([Day] + ([Hour] + ds))) == Some([2] + ([2] + ([2] + rest)))
  {
    TwoDigitStep(s, p + 4, Hour, ds, t.hour, rest);
    TwoDigitStep(s, p + 2, Day, [Hour] + ds, t.day, [2] + rest);
    TwoDigitStep(s, p, Month, [Day] + ([Hour] + ds), t.month, [2] + ([2] + rest));
  }

  lemma InitFormatParts()
    ensures InitFormat == [Year] + ([Month] + ([Day] + ([Hour] + [])))
    ensures [4] + ([2] + ([2] + ([2] + []))) == [4, 2, 2, 2]
    ensures [4] + ([1] + ([1] + ([1] + []))) == [4, 1, 1, 1]
    ensures [4] + ([2] + ([2] + ([1] + []))) == [4, 2, 2, 1]
  {
  }

  lemma ValidFormatParts()
    ensures ValidFormat == [Year] + ([Month] + ([Day] + ([Hour] + ([Minute] + []))))
    ensures [4] + ([2] + ([2] + ([2] + ([2] + [])))) == [4, 2, 2, 2, 2]
  {
  }

  /** The pieces of the fixed-width text of a moment. */
  lemma TextPieces(t: Stamp, s: string)
    requires Valid(t) && (s == InitTimeText(t) || s == ValidTimeText(t))
    ensures |s| >= 10
    ensures s[0..4] == Fixed(t.year, 4) && AllDigits(s[0..4])
    ensures s[4..6] == Fixed(t.month, 2)
    ensures s[6..8] == Fixed(t.day, 2)
    ensures s[8..10] == Fixed(t.hour, 2)
  {
    var i := InitTimeText(t);
    if s != i {
      assert s == i + Fixed(t.minute, 2);
      assert s[..10] == i;
    }
    assert s[..10] == i;
    assert s[0..4] == i[0..4] && s[4..6] == i[4..6] && s[6..8] == i[6..8] && s[8..10] == i[8..10];
  }

  /** The fixed-width text matches each directive with its first, two-digit alternative. */
  lemma InitTextMatch(t: Stamp)
    requires Valid(t)
    ensures RegexMatch(InitTimeText(t), 0, InitFormat) == Some([4, 2, 2, 2])
  {
    InitFormatParts();
    var s := InitTimeText(t);
    TextPieces(t, s);
    assert RegexMatch(s, 10, []) == Some([]);
    MonthDayHourStep(s, 4, t, [], []);
    YearStep(s, 0, [Month] + ([Day] + ([Hour] + [])), [2] + ([2] + ([2] + [])));
  }

  lemma InitTextFields(t: Stamp)
    requires Valid(t)
    ensures FieldValues(InitTimeText(t), 0, [4, 2, 2, 2]) == [t.year, t.month, t.day, t.hour]
  {
    var s := InitTimeText(t);
    assert s[0..4] == Fixed(t.year, 4);
    assert s[4..6] == Fixed(t.month, 2);
    assert s[6..8] == Fixed(t.day, 2);
    assert s[8..10] == Fixed(t.hour, 2);
    FixedValue(t.year, 4);
    FixedValue(t.month, 2);
    FixedValue(t.day, 2);
    FixedValue(t.hour, 2);
    assert [4, 2, 2, 2][1..] == [2, 2, 2];
    assert [2, 2, 2][1..] == [2, 2];
    assert [2, 2][1..] == [2];
  }

  /** The fixed-width text of a moment on the hour reads back as that moment. */
  lemma InitTimeRoundTrip(t: Stamp)
    requires Valid(t) && t.minute == 0
    ensures ParseInitTime(InitTimeText(t)) == Some(t)
  {
    InitTextMatch(t);
    InitTextFields(t);
    assert Sum([4, 2, 2, 2]) == 10;
  }

  lemma ValidTextMatch(t: Stamp)
    requires Valid(t)
    ensures RegexMatch(ValidTimeText(t), 0, ValidFormat) == Some([4, 2, 2, 2, 2])
  {
    ValidFormatParts();
    var s := ValidTimeText(t);
    TextPieces(t, s);
    assert s[10..12] == Fixed(t.minute, 2);
    assert RegexMatch(s, 12, []) == Some([]);
    TwoDigitStep(s, 10, Minute, [], t.minute, []);
    MonthDayHourStep(s, 4, t, [Minute] + [], [2] + []);
    YearStep(s, 0, [Month] + ([Day] + ([Hour] + ([Minute] + []))), [2] + ([2] + ([2] + ([2] + []))));
  }

  lemma ValidTextFields(t: Stamp)
    requires Valid(t)
    ensures FieldValues(ValidTimeText(t), 0, [4, 2, 2, 2, 2]) == [t.year, t.month, t.day, t.hour, t.minute]
  {
    var s := ValidTimeText(t);
    assert s[0..4] == Fixed(t.year, 4);
    assert s[4..6] == Fixed(t.month, 2);
    assert s[6..8] == Fixed(t.day, 2);
    assert s[8..10] == Fixed(t.hour, 2);
    assert s[10..12] == Fixed(t.minute, 2);
    FixedValue(t.year, 4);
    FixedValue(t.month, 2);
    FixedValue(t.day, 2);
    FixedValue(t.hour, 2);
    FixedValue(t.minute, 2);
    assert [4, 2, 2, 2, 2][1..] == [2, 2, 2, 2];
    assert [2, 2, 2, 2][1..] == [2, 2, 2];
    assert [2, 2, 2][1..] == [2, 2];
    assert [2, 2][1..] == [2];
  }

  /** The fixed-width text of any valid moment reads back as that moment. */
  lemma ValidTimeRoundTrip(t: Stamp)
    requires Valid(t)
    ensures ParseValidTime(ValidTimeText(t)) == Some(t)
  {
    ValidTextMatch(t);
    ValidTextFields(t);
    assert Sum([4, 2, 2, 2, 2]) == 12;
  }

  /** An alternative whose continuation cannot match is abandoned for the next one. */
  lemma Backtrack(s: string, p: nat, ds: seq<Directive>, ws: seq<nat>)
    requires |ds| > 0 && |ws| > 0 && p + ws[0] <= |s|
    requires forall w :: w in ws ==> p + w <= |s|
    requires forall w :: w in ws[1..] ==> p + w <= |s|
    requires RegexMatch(s, p + ws[0], ds[1..]).None?
    ensures TryAlternatives(s, p, ds, ws) == TryAlternatives(s, p, ds, ws[1..])
  {
  }

  lemma ShortTextDayHour()
    ensures RegexMatch("2017825", 5, [Day] + ([Hour] + [])) == Some([1] + ([1] + []))
  {
    var s := "2017825";
    var ds := [Day] + ([Hour] + []);
    assert ds[0] == Day && ds[1..] == [Hour] + [];
    assert Widths(Hour, s, 7) == [];
    assert RegexMatch(s, 7, [Hour] + []) == None;
    assert Widths(Hour, s, 6) == [1];
    assert RegexMatch(s, 7, []) == Some([]);
    FirstAlternativeWins(s, 6, Hour, [], []);
    assert Widths(Day, s, 5) == [2, 1];
    Backtrack(s, 5, ds, [2, 1]);
    assert [2, 1][1..] == [1];
    TryFirst(s, 5, ds, [1], [1] + []);
  }

  lemma ShortTextMatch()
    ensures RegexMatch("2017825", 0, InitFormat) == Some([4, 1, 1, 1])
  {
    InitFormatParts();
    var s := "2017825";
    ShortTextDayHour();
    assert Widths(Month, s, 4) == [1];
    FirstAlternativeWins(s, 4, Month, [Day] + ([Hour] + []), [1] + ([1] + []));
    assert AllDigits(s[0..4]) by { assert s[0..4] == "2017"; }
    YearStep(s, 0, [Month] + ([Day] + ([Hour] + [])), [1] + ([1] + ([1] + [])));
  }

  lemma ShortTextFields()
    ensures FieldValues("2017825", 0, [4, 1, 1, 1]) == [2017, 8, 2, 5]
  {
    var s := "2017825";
    assert s[0..4] == "2017";
    assert "2017"[..3] == "201" && "201"[..2] == "20" && "20"[..1] == "2" && "2"[..0] == "";
    assert FieldValue("2017") == 2017;
    assert s[4..5] == "8" && s[5..6] == "2" && s[6..7] == "5";
    assert "8"[..0] == "" && "5"[..0] == "";
    assert [4, 1, 1, 1][1..] == [1, 1, 1];
    assert [1, 1, 1][1..] == [1, 1];
    assert [1, 1][1..] == [1];
  }

  /** strptime is lenient: month, day and hour may be one digit wide, so the
      seven-character text 2017825 reads as 2017-08-02 05:00. */
  lemma ShortTextAccepted()
    ensures ParseInitTime("2017825") == Some(Stamp(2017, 8, 2, 5, 0))
  {
    ShortTextMatch();
    ShortTextFields();
    assert Sum([4, 1, 1, 1]) == 7;
  }

  /** Hour 24 is not an hour: the hour directive takes only the 2, and the
      leftover 4 is unconverted data. */
  lemma HourTwentyFourRejected()
    ensures ParseInitTime("2017082524") == None
  {
    var s := "2017082524";
    HourTwentyFourMatch();
    assert Sum([4, 2, 2, 1]) == 9;
  }

  lemma HourTwentyFourDayHour()
    ensures RegexMatch("2017082524", 6, [Day] + ([Hour] + [])) == Some([2] + ([1] + []))
  {
    var s := "2017082524";
    assert Widths(Hour, s, 8) == [1];
    assert RegexMatch(s, 9, []) == Some([]);
    FirstAlternativeWins(s, 8, Hour, [], []);
    assert Widths(Day, s, 6) == [2, 1];
    FirstAlternativeWins(s, 6, Day, [Hour] + [], [1] + []);
  }

  lemma HourTwentyFourMatch()
    ensures RegexMatch("2017082524", 0, InitFormat) == Some([4, 2, 2, 1])
  {
    InitFormatParts();
    var s := "2017082524";
    HourTwentyFourDayHour();
    assert Widths(Month, s, 4) == [2];
    FirstAlternativeWins(s, 4, Month, [Day] + ([Hour] + []), [2] + ([1] + []));
    assert AllDigits(s[0..4]) by { assert s[0..4] == "2017"; }
    YearStep(s, 0, [Month] + ([Day] + ([Hour] + [])), [2] + ([2] + ([1] + [])));
  }
}
