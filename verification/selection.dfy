/** Which soundings get a plot, and the name of the plot: the forecast-hour
    interval test, the station allow-list for long station names, and the
    output key `init/project.skewt.STATION.hrNNN.png`. */
module Selection {
  import opened Wrappers
  import opened Text

  /** no_ignore_station: long station names that are plotted all the same. */
  const NoIgnoreStations: seq<string> := [
    "S07W112", "N15E121", "N18E121", "N20W155", "N22W159", "N24E124", "N35E125",
    "N35E127", "N36E129", "N37E127", "N38E125", "N40E140", "N40W105"]

  // ---------------------------------------------------------------- the interval test

  /** Python's `x % y` for a float and a non-zero int: the result takes the
      divisor's sign (floor division), unlike Dafny's Euclidean `%`. */
  function PyMod(x: real, y: int): (r: real)
    requires y != 0
    ensures y > 0 ==> 0.0 <= r < y as real
    ensures y < 0 ==> y as real < r <= 0.0
  {
    RemainderBounds(x, y as real);
    x - (y as real) * ((x / (y as real)).Floor as real)
  }

  /** What is left of `x` after the whole multiples of `d` lies between 0 and `d`. */
  lemma RemainderBounds(x: real, d: real)
    requires d != 0.0
    ensures d > 0.0 ==> 0.0 <= x - d * ((x / d).Floor as real) < d
    ensures d < 0.0 ==> d < x - d * ((x / d).Floor as real) <= 0.0
  {
    var q := x / d;
    assert d * q == x;
    Remainder(x, d, q, q.Floor as real);
  }

  lemma Remainder(x: real, d: real, q: real, fl: real)
    requires d != 0.0 && d * q == x && fl <= q < fl + 1.0
    ensures d > 0.0 ==> 0.0 <= x - d * fl < d
    ensures d < 0.0 ==> d < x - d * fl <= 0.0
  {
    var f := q - fl;
    ScaledFraction(d, f);
    assert x - d * fl == d * f;
  }

  lemma ScaledFraction(y: real, f: real)
    requires 0.0 <= f < 1.0
    ensures y > 0.0 ==> 0.0 <= y * f < y
    ensures y < 0.0 ==> y < y * f <= 0.0
  {
  }

  /** `x` is a whole multiple of `y`: the quotient is a whole number. */
  predicate IsMultiple(x: real, y: int)
    requires y != 0
  {
    var q := x / (y as real);
    q.Floor as real == q
  }

  lemma PyModZero(x: real, y: int)
    requires y != 0
    ensures PyMod(x, y) == 0.0 <==> IsMultiple(x, y)
  {
    var q := x / (y as real);
    assert x == (y as real) * q;
  }

  /** A plot is made for hours `fhr` that the interval divides; the other
      reasons a sounding is passed over. */
  datatype Screening = Plot | OffInterval | UnlistedStation

  /** The two tests the script applies before anything is drawn, in its order.
      None is the ZeroDivisionError of an interval of 0, which ends the run. */
  function Screen(station: string, fhr: real, interval: int): (r: Option<Screening>)
    ensures r.None? <==> interval == 0
    ensures r == Some(OffInterval) <==> interval != 0 && !IsMultiple(fhr, interval)
    ensures r == Some(UnlistedStation) <==>
      interval != 0 && IsMultiple(fhr, interval) && |station| > 3 && station !in NoIgnoreStations
    ensures r == Some(Plot) <==>
      interval != 0 && IsMultiple(fhr, interval) && (|station| <= 3 || station in NoIgnoreStations)
  {
    if interval == 0 then None
    else
      PyModZero(fhr, interval);
      if PyMod(fhr, interval) != 0.0 then Some(OffInterval)
      else if |station| > 3 && station !in NoIgnoreStations then Some(UnlistedStation)
      else Some(Plot)
  }

  lemma WholeQuotient(k: int, d: int)
    requires d != 0
    ensures (k * d) as real / d as real == k as real
  {
    assert (k * d) as real == k as real * d as real;
  }

  lemma ProductBounds(d: int, e: int)
    ensures d > 0 && e >= 1 ==> d * e >= d
    ensures d > 0 && e <= -1 ==> d * e <= -d
    ensures d < 0 && e >= 1 ==> d * e <= d
    ensures d < 0 && e <= -1 ==> d * e >= -d
  {
  }

  /** A whole multiple of `d` leaves no remainder. */
  lemma MultipleMod(k: int, d: int)
    requires d != 0
    ensures (k * d) % d == 0
  {
    var m := k * d;
    var t := m / d;
    var r := m % d;
    assert m == d * t + r;
    assert d * (k - t) == r;
    ProductBounds(d, k - t);
    assert k - t == 0;
  }

  /** For a forecast hour of `minutes / 60` (how fhr arises from two times), the
      interval test is divisibility of the minutes by the interval in minutes. */
  lemma IntervalInMinutes(minutes: int, interval: int)
    requires interval != 0
    ensures IsMultiple(minutes as real / 60.0, interval) <==> minutes % (60 * interval) == 0
  {
    var d := 60 * interval;
    var q := (minutes as real / 60.0) / (interval as real);
    assert q == minutes as real / d as real;
    if minutes % d == 0 {
      var k := minutes / d;
      assert minutes == k * d;
      WholeQuotient(k, d);
      assert q == k as real;
    }
    if q.Floor as real == q {
      var k := q.Floor;
      assert minutes as real == q * d as real;
      assert minutes as real == (k * d) as real;
      MultipleMod(k, d);
    }
  }

  // ---------------------------------------------------------------- examples of the tests

  /** With the default interval of 3, hour 7 is passed over and hour 6 is not. */
  lemma IntervalExamples()
    ensures Screen("72A", 7.0, 3) == Some(OffInterval)
    ensures Screen("72A", 6.0, 3) == Some(Plot)
  {
    assert (7.0 / 3.0).Floor == 2;
    assert (6.0 / 3.0).Floor == 2;
  }

  /** A listed long name is plotted; an unlisted one is not; a three-letter name
      never fails the station test. */
  lemma StationExamples(station: string, fhr: real, interval: int)
    requires interval != 0 && IsMultiple(fhr, interval)
    ensures Screen("N40E140", fhr, interval) == Some(Plot)
    ensures Screen("N99E999", fhr, interval) == Some(UnlistedStation)
    ensures |station| <= 3 ==> Screen(station, fhr, interval) == Some(Plot)
  {
    assert NoIgnoreStations[11] == "N40E140";
    assert "N99E999" !in NoIgnoreStations;
  }

  // ---------------------------------------------------------------- the output key

  /** Python's `int(x)` on a float, which `'%d'` applies: truncation toward zero. */
  function Trunc(x: real): (n: int)
    ensures x >= 0.0 ==> 0 <= n && n as real <= x < n as real + 1.0
    ensures x < 0.0 ==> n <= 0 && n as real - 1.0 < x <= n as real
  {
    if x >= 0.0 then x.Floor else -((-x).Floor)
  }

  /** `'%03d' % n`: at least three characters, zero-filled after any sign. */
  function Pad3(n: int): string {
    if n >= 0 then ZeroPad(NatToDecimal(n), 3) else "-" + ZeroPad(NatToDecimal(-n), 2)
  }

  /** `int(s)` for an optionally signed run of decimal digits. */
  function ReadInt(s: string): Option<int> {
    if |s| > 1 && s[0] == '-' && AllDigits(s[1..]) then Some(-(DecimalValue(s[1..]) as int))
    else if |s| > 0 && AllDigits(s) then Some(DecimalValue(s))
    else None
  }

  /** The zero-filled number reads back as itself, and holds no separator. It
      is a sign for a negative number, then digits; exactly three characters
      unless the number needs more, and then with no leading zero, so it is
      the shortest such text of at least three characters. */
  lemma Pad3ReadBack(n: int)
    ensures ReadInt(Pad3(n)) == Some(n)
    ensures |Pad3(n)| >= 3 && '/' !in Pad3(n) && '.' !in Pad3(n)
    ensures n >= 0 ==> AllDigits(Pad3(n))
    ensures n < 0 ==> Pad3(n)[0] == '-' && AllDigits(Pad3(n)[1..])
    ensures |Pad3(n)| > 3 ==> Pad3(n)[if n >= 0 then 0 else 1] != '0'
  {
    if n >= 0 {
      var z := PaddedDigits(n, 3);
      assert Pad3(n) == z;
    } else {
      var z := PaddedDigits(-n, 2);
      var t := "-" + z;
      assert Pad3(n) == t && t[1..] == z && t[0] == '-';
      assert '/' !in t && '.' !in t;
    }
  }

  /** The decimal digits of `m`, zero-filled to `w`: digits only, worth `m`. */
  lemma PaddedDigits(m: nat, w: nat) returns (z: string)
    ensures z == ZeroPad(NatToDecimal(m), w)
    ensures AllDigits(z) && DecimalValue(z) == m && |z| >= w && |z| >= 1
    ensures '/' !in z && '.' !in z && '-' !in z
    ensures w >= 1 && |z| > w ==> z[0] != '0'
  {
    var d := NatToDecimal(m);
    z := ZeroPad(d, w);
    if |d| < w {
      LeadingZeros(w - |d|, d);
    }
    NoDigitAvoided(z, '/');
    NoDigitAvoided(z, '.');
    NoDigitAvoided(z, '-');
  }

  lemma NoDigitAvoided(z: string, c: char)
    requires AllDigits(z) && !IsDigit(c)
    ensures c !in z
  {
  }

  /** The plot's path: `init/project.skewt.STATION.hrNNN.png`, NNN the
      truncated forecast hour. */
  function OutputKey(initTime: string, project: string, station: string, fhr: real): string {
    initTime + "/" + project + ".skewt." + station + ".hr" + Pad3(Trunc(fhr)) + ".png"
  }

  /** The parts a plot's path is made from. */
  datatype KeyFields = KeyFields(initTime: string, project: string, station: string, hour: int)

  /** Reads a plot's path back into its parts. */
  function ReadKey(key: string): Option<KeyFields> {
    var halves := Split(key, '/');
    if |halves| != 2 then None
    else
      var f := Split(halves[1], '.');
      if |f| != 5 || f[1] != "skewt" || f[4] != "png" || |f[3]| < 2 || f[3][..2] != "hr" then None
      else
        match ReadInt(f[3][2..])
        case None => None
        case Some(h) => Some(KeyFields(halves[0], f[0], f[2], h))
  }

  lemma JoinFive(f: seq<string>, sep: char)
    requires |f| == 5
    ensures Join(f, sep) == f[0] + [sep] + f[1] + [sep] + f[2] + [sep] + f[3] + [sep] + f[4]
  {
    assert f[1..][1..][1..][1..] == f[4..];
    assert f[1..][1..][1..] == f[3..];
    assert f[1..][1..] == f[2..];
    assert Join(f[3..], sep) == f[3] + [sep] + f[4];
    assert Join(f[2..], sep) == f[2] + [sep] + Join(f[3..], sep);
    assert Join(f[1..], sep) == f[1] + [sep] + Join(f[2..], sep);
  }

  lemma KeyText(i: string, p: string, st: string, x: string)
    ensures i + "/" + p + ".skewt." + st + ".hr" + x + ".png"
      == i + "/" + (p + ['.'] + "skewt" + ['.'] + st + ['.'] + ("hr" + x) + ['.'] + "png")
  {
    assert ".skewt." == ['.'] + "skewt" + ['.'];
    assert ".hr" == ['.'] + "hr";
    assert ".png" == ['.'] + "png";
  }

  /** The key is the init time and the dotted name, joined by '/'; the dotted
      name is its five fields joined by '.'. */
  lemma KeyAsJoin(initTime: string, project: string, station: string, fhr: real, f: seq<string>)
    requires f == [project, "skewt", station, "hr" + Pad3(Trunc(fhr)), "png"]
    ensures OutputKey(initTime, project, station, fhr) == initTime + "/" + Join(f, '.')
  {
    JoinFive(f, '.');
    KeyText(initTime, project, station, Pad3(Trunc(fhr)));
  }

  lemma ReadKeyOf(initTime: string, f: seq<string>, h: int)
    requires |f| == 5 && f[1] == "skewt" && f[4] == "png"
    requires forall k :: 0 <= k < 5 ==> '/' !in f[k] && '.' !in f[k]
    requires '/' !in initTime
    requires |f[3]| >= 2 && f[3][..2] == "hr" && ReadInt(f[3][2..]) == Some(h)
    ensures ReadKey(initTime + "/" + Join(f, '.')) == Some(KeyFields(initTime, f[0], f[2], h))
  {
    SplitOfJoin(f, '.');
    JoinAvoids(f, '.', '/');
    var tail := Join(f, '.');
    var halves := [initTime, tail];
    assert Join(halves, '/') == initTime + "/" + tail;
    SplitOfJoin(halves, '/');
  }

  /** The plot's path determines the init time, project, station and truncated
      hour it was made from, when those hold no separators. */
  lemma KeyRoundTrip(initTime: string, project: string, station: string, fhr: real)
    requires '/' !in initTime && '/' !in project && '/' !in station
    requires '.' !in project && '.' !in station
    ensures ReadKey(OutputKey(initTime, project, station, fhr))
      == Some(KeyFields(initTime, project, station, Trunc(fhr)))
  {
    var h := Trunc(fhr);
    var tag := HourTag(h);
    var f := [project, "skewt", station, tag, "png"];
    assert forall k :: 0 <= k < 5 ==> '/' !in f[k] && '.' !in f[k];
    KeyAsJoin(initTime, project, station, fhr, f);
    ReadKeyOf(initTime, f, h);
  }

  /** The `hrNNN` field of a plot's path reads back as its hour. */
  lemma HourTag(h: int) returns (tag: string)
    ensures tag == "hr" + Pad3(h)
    ensures |tag| >= 2 && tag[..2] == "hr" && ReadInt(tag[2..]) == Some(h)
    ensures '/' !in tag && '.' !in tag
  {
    Pad3ReadBack(h);
    tag := "hr" + Pad3(h);
    assert tag[..2] == "hr" && tag[2..] == Pad3(h);
  }

  /** Distinct soundings (by init time, project, station or truncated hour) get
      distinct plot paths. */
  lemma KeyInjective(i1: string, p1: string, s1: string, h1: real,
                     i2: string, p2: string, s2: string, h2: real)
    requires '/' !in i1 && '/' !in p1 && '/' !in s1 && '.' !in p1 && '.' !in s1
    requires '/' !in i2 && '/' !in p2 && '/' !in s2 && '.' !in p2 && '.' !in s2
    requires OutputKey(i1, p1, s1, h1) == OutputKey(i2, p2, s2, h2)
    ensures i1 == i2 && p1 == p2 && s1 == s2 && Trunc(h1) == Trunc(h2)
  {
    KeyRoundTrip(i1, p1, s1, h1);
    KeyRoundTrip(i2, p2, s2, h2);
  }

  lemma PadSix()
    ensures Pad3(Trunc(6.0)) == "006"
  {
    assert Trunc(6.0) == 6;
    assert NatToDecimal(6) == "6";
    assert Zeros(2) == "00";
  }

  /** The key of the 6-hour plot of station 72A from the 2017082500 run. */
  lemma KeyExample()
    ensures OutputKey("2017082500", "hur15us", "72A", 6.0)
      == "2017082500/" + "hur15us.skewt." + "72A.hr006.png"
  {
    PadSix();
  }
}
