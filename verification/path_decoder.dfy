/** get_title: the metadata of a sounding read from its path. The first path
    segment that parses as `yyyymmddhh` is the initialization time and the
    segment before it names the model run; the file's basename is
    `station.yyyymmddhhMM....snd`. */
module PathDecoder {
  import opened Wrappers
  import opened Text
  import opened Calendar

  /** model_str: model-run directory name to the model's display label. */
  const ModelNames: map<string, string> := map[
    "hwt2017" := "MPAS-US 15-3km",
    "us" := "MPAS-US 60-15km",
    "wp" := "MPAS-WP 60-15km",
    "al" := "MPAS-AL 60-15km",
    "ep" := "MPAS-EP 60-15km",
    "uni" := "MPAS 15km",
    "mpas" := "MPAS 15km",
    "mpas_ep" := "MPAS-EP 60-15km",
    "spring_exp" := "MPAS",
    "GFS" := "GFS",
    "mpas15_3" := "MPAS 15-3km",
    "mpas50_3" := "MPAS 50-3km",
    "hwt" := "MPAS HWT"]

  /** What get_title returns (its display title aside), with the model it looked up. */
  datatype Metadata = Metadata(
    model: string,        // the path segment before the initialization time
    modelName: string,    // its model_str label
    station: string,      // basename field 0
    initTime: string,     // the initialization-time segment, as text
    validTime: string,    // basename field 1, as text
    fhr: real)            // (valid - init) in hours

  datatype DecodeError =
    | NotSounding              // basename lacks ".snd": `station` is never bound
    | BadValidTime             // basename field 1 is not `%Y%m%d%H%M`
    | NoInitTime               // no segment is `%Y%m%d%H`: the last one is tried and fails
    | UnknownModel(model: string)  // not in model_str: the script exits with status 2

  /** The process exit status each error ends the run with: 2 from `sys.exit(2)`,
      1 for an uncaught exception. */
  function ExitStatus(e: DecodeError): (status: int)
    ensures status == 2 <==> e.UnknownModel?
    ensures status != 0
  {
    if e.UnknownModel? then 2 else 1
  }

  /** `os.path.basename`: the text after the last '/'. */
  function Basename(path: string): (b: string)
    ensures '/' !in b
  {
    var words := Split(path, '/');
    words[|words| - 1]
  }

  /** The basename is the suffix of the path after its last '/': a suffix with
      no '/', preceded by a '/' unless it is the whole path. */
  lemma BasenameSuffix(path: string)
    ensures var b := Basename(path);
      && '/' !in b && |b| <= |path| && b == path[|path| - |b|..]
      && (|b| < |path| ==> path[|path| - |b| - 1] == '/')
  {
    var words := Split(path, '/');
    var b := words[|words| - 1];
    if |words| >= 2 {
      JoinLast(words, '/');
      var front := Join(words[..|words| - 1], '/');
      assert path == front + ['/'] + b;
      assert path[|path| - |b|..] == b;
    } else {
      assert Join(words, '/') == b;
    }
  }

  /** The index of the first segment that parses as an initialization time. */
  function FirstInitSegment(words: seq<string>): (r: Option<nat>)
    ensures r.Some? ==> r.value < |words| && ParseInitTime(words[r.value]).Some?
    ensures r.Some? ==> forall j :: 0 <= j < r.value ==> ParseInitTime(words[j]).None?
    ensures r.None? ==> forall j :: 0 <= j < |words| ==> ParseInitTime(words[j]).None?
  {
    if |words| == 0 then None
    else if ParseInitTime(words[0]).Some? then Some(0)
    else
      match FirstInitSegment(words[1..])
      case None => None
      case Some(i) => Some(i + 1)
  }

  /** The first segment that parses is the one after all that do not. */
  lemma {:induction false} FirstInitUnique(words: seq<string>, i: nat)
    requires i < |words| && ParseInitTime(words[i]).Some?
    requires forall j :: 0 <= j < i ==> ParseInitTime(words[j]).None?
    ensures FirstInitSegment(words) == Some(i)
  {
    if i > 0 {
      var rest := words[1..];
      assert ParseInitTime(words[0]).None?;
      assert forall j :: 0 <= j <= i - 1 ==> rest[j] == words[j + 1];
      FirstInitUnique(rest, i - 1);
    }
  }

  /** A name holding ".snd" holds a '.', so it splits into at least two fields. */
  lemma SoundingNameFields(fname: string)
    requires Contains(fname, ".snd")
    ensures |Split(fname, '.')| >= 2
  {
    ContainsIff(fname, ".snd");
    var i :| OccursAt(fname, ".snd", i);
    assert fname[i] == ".snd"[0];
    assert '.' in fname;
  }

  /** get_title on a real, absolute path. The loop over segments leaves its
      index at the first match, or at the last segment when none matches; the
      model is the segment before, `words[-1]` when the match is the first one.
      The valid time is parsed before the initialization time, as in the
      script's subtraction. */
  function Decode(path: string): Result<Metadata, DecodeError> {
    DecodeSegments(Split(path, '/'), Basename(path))
  }

  /** Decode on the path's '/'-separated segments and its basename. */
  function DecodeSegments(words: seq<string>, fname: string): Result<Metadata, DecodeError>
    requires |words| > 0
  {
    if !Contains(fname, ".snd") then Failure(NotSounding)
    else
      var i := match FirstInitSegment(words) case Some(i) => i case None => |words| - 1;
      var model := if i == 0 then words[|words| - 1] else words[i - 1];
      SoundingNameFields(fname);
      var parts := Split(fname, '.');
      Assemble(model, parts[0], words[i], parts[1])
  }

  /** What a decoded sounding satisfies: its model is in `model_str` with its
      label, both times parse and fhr is the hours between them; an unknown
      model is reported as one; and a path none of whose segments is an
      initialization time does not decode. */
  lemma DecodeSound(path: string)
    ensures var r := Decode(path);
      && (r.Success? ==> r.value.model in ModelNames && r.value.modelName == ModelNames[r.value.model])
      && (r.Success? ==> ParseInitTime(r.value.initTime).Some? && ParseValidTime(r.value.validTime).Some?)
      && (r.Success? ==>
            r.value.fhr == HoursBetween(ParseInitTime(r.value.initTime).value, ParseValidTime(r.value.validTime).value))
      && (r.Failure? && r.error.UnknownModel? ==> r.error.model !in ModelNames)
    ensures (forall j :: 0 <= j < |Split(path, '/')| ==> ParseInitTime(Split(path, '/')[j]).None?) ==> Decode(path).Failure?
  {
    var words := Split(path, '/');
    if forall j :: 0 <= j < |words| ==> ParseInitTime(words[j]).None? {
      assert ParseInitTime(words[|words| - 1]).None?;
    }
  }

  /** The rest of get_title once the segments are chosen: the valid time is
      parsed, then the initialization time, then the model is looked up. */
  function Assemble(model: string, station: string, initTime: string, validTime: string): (r: Result<Metadata, DecodeError>)
    ensures r.Success? ==> r.value.model == model && r.value.station == station
    ensures r.Success? ==> r.value.initTime == initTime && r.value.validTime == validTime
    ensures r.Success? ==> model in ModelNames && r.value.modelName == ModelNames[model]
    ensures r.Success? ==> ParseInitTime(initTime).Some? && ParseValidTime(validTime).Some?
    ensures r.Success? ==> r.value.fhr == HoursBetween(ParseInitTime(initTime).value, ParseValidTime(validTime).value)
    ensures r.Failure? && r.error.UnknownModel? ==> r.error.model == model && model !in ModelNames
    ensures ParseInitTime(initTime).None? ==> r.Failure?
  {
    match ParseValidTime(validTime)
    case None => Failure(BadValidTime)
    case Some(valid) =>
      match ParseInitTime(initTime)
      case None => Failure(NoInitTime)
      case Some(init) =>
        if model !in ModelNames then Failure(UnknownModel(model))
        else Success(Metadata(model, ModelNames[model], station, initTime, validTime,
                              HoursBetween(init, valid)))
  }

  // ---------------------------------------------------------------- properties

  /** What Decode reads from a path whose segment `i` (not the first) is the
      first initialization time: the model is segment `i - 1`, the station and
      valid time come from the basename, and fhr is the hours between the two
      times; the run stops with status 2 when the model is not in the table. */
  lemma DecodeFields(words: seq<string>, fname: string, i: nat, init: Stamp, valid: Stamp)
    requires 1 <= i < |words|
    requires ParseInitTime(words[i]) == Some(init) && forall j :: 0 <= j < i ==> ParseInitTime(words[j]).None?
    requires Contains(fname, ".snd")
    requires var parts := Split(fname, '.');
      |parts| >= 2 && ParseValidTime(parts[1]) == Some(valid)
    ensures var parts := Split(fname, '.');
      var model := words[i - 1];
      && (model in ModelNames ==>
            DecodeSegments(words, fname) == Success(Metadata(model, ModelNames[model], parts[0], words[i], parts[1],
                                                      HoursBetween(init, valid))))
      && (model !in ModelNames ==> DecodeSegments(words, fname) == Failure(UnknownModel(model)))
  {
    var parts := Split(fname, '.');
    SegmentsChoose(words, fname, i);
    AssembleFields(words[i - 1], parts[0], words[i], parts[1], init, valid);
  }

  /** With segment `i` (not the first) the first initialization time, the model
      is segment `i - 1` and the station and valid time are basename fields 0 and 1. */
  lemma SegmentsChoose(words: seq<string>, fname: string, i: nat)
    requires 1 <= i < |words|
    requires ParseInitTime(words[i]).Some? && forall j :: 0 <= j < i ==> ParseInitTime(words[j]).None?
    requires Contains(fname, ".snd")
    ensures var parts := Split(fname, '.');
      |parts| >= 2 && DecodeSegments(words, fname) == Assemble(words[i - 1], parts[0], words[i], parts[1])
  {
    FirstInitUnique(words, i);
    SoundingNameFields(fname);
  }

  lemma AssembleFields(model: string, station: string, initTime: string, validTime: string,
                       init: Stamp, valid: Stamp)
    requires ParseInitTime(initTime) == Some(init) && ParseValidTime(validTime) == Some(valid)
    ensures model in ModelNames ==>
      Assemble(model, station, initTime, validTime)
        == Success(Metadata(model, ModelNames[model], station, initTime, validTime, HoursBetween(init, valid)))
    ensures model !in ModelNames ==> Assemble(model, station, initTime, validTime) == Failure(UnknownModel(model))
  {
  }

  /** Decimal text holds neither a path nor a field separator. */
  lemma DigitsSeparate(s: string)
    requires AllDigits(s)
    ensures '/' !in s && '.' !in s
  {
  }

  lemma TimeTextDigits(t: Stamp)
    requires Valid(t)
    ensures AllDigits(InitTimeText(t)) && AllDigits(ValidTimeText(t))
  {
  }

  /** The basename of a sounding file: `station.yyyymmddhhMM.snd`. */
  function SoundingName(station: string, valid: Stamp): string
    requires Valid(valid)
  {
    Join([station, ValidTimeText(valid), "snd"], '.')
  }

  lemma SoundingNameFacts(station: string, valid: Stamp)
    requires Valid(valid) && '/' !in station && '.' !in station
    ensures var name := SoundingName(station, valid);
      && '/' !in name && Contains(name, ".snd")
      && Split(name, '.') == [station, ValidTimeText(valid), "snd"]
  {
    var vt := ValidTimeText(valid);
    TimeTextDigits(valid);
    DigitsSeparate(vt);
    var parts := [station, vt, "snd"];
    SplitOfJoin(parts, '.');
    JoinAvoids(parts, '.', '/');
    NameSuffix(station, vt);
  }

  lemma NameSuffix(station: string, vt: string)
    ensures Contains(Join([station, vt, "snd"], '.'), ".snd")
  {
    var name := Join([station, vt, "snd"], '.');
    JoinThree(station, vt, "snd", '.');
    var i := |station| + 1 + |vt|;
    assert name[i..i + 4] == ".snd";
    assert OccursAt(name, ".snd", i);
    ContainsIff(name, ".snd");
  }

  lemma JoinThree(a: string, b: string, c: string, sep: char)
    ensures Join([a, b, c], sep) == a + [sep] + b + [sep] + c
  {
    var p := [a, b, c];
    assert p[1..] == [b, c] && p[1..][1..] == [c];
    assert Join([c], sep) == c;
    assert Join([b, c], sep) == b + [sep] + c;
  }

  /** `dirs/model/init/sub/station.valid.snd`: the layout the sounding files
      are found in. */
  function SoundingPath(dirs: seq<string>, model: string, init: Stamp, sub: seq<string>,
                        station: string, valid: Stamp): string
    requires Valid(init) && Valid(valid)
  {
    Join(dirs + [model, InitTimeText(init)] + sub + [SoundingName(station, valid)], '/')
  }

  /** Decoding the path of a sounding file recovers the model, station and both
      times, with fhr the hours from initialization to valid time, provided no
      directory above the initialization time looks like one; an unlisted model
      ends the run with exit status 2. */
  lemma DecodeSoundingPath(dirs: seq<string>, model: string, init: Stamp, sub: seq<string>,
                           station: string, valid: Stamp)
    requires Valid(init) && init.minute == 0 && Valid(valid)
    requires forall k :: 0 <= k < |dirs| ==> '/' !in dirs[k] && ParseInitTime(dirs[k]).None?
    requires '/' !in model && ParseInitTime(model).None?
    requires forall k :: 0 <= k < |sub| ==> '/' !in sub[k]
    requires '/' !in station && '.' !in station
    ensures var r := Decode(SoundingPath(dirs, model, init, sub, station, valid));
      && (model in ModelNames ==>
            r == Success(Metadata(model, ModelNames[model], station, InitTimeText(init),
                                  ValidTimeText(valid), HoursBetween(init, valid))))
      && (model !in ModelNames ==> r == Failure(UnknownModel(model)) && ExitStatus(r.error) == 2)
  {
    var name := SoundingName(station, valid);
    SoundingNameFacts(station, valid);
    TimeTextDigits(init);
    DigitsSeparate(InitTimeText(init));
    InitTimeRoundTrip(init);
    ValidTimeRoundTrip(valid);
    var segs := dirs + [model, InitTimeText(init)] + sub + [name];
    PathSegments(segs, dirs, model, InitTimeText(init), sub, name);
    SplitOfJoin(segs, '/');
    assert Decode(Join(segs, '/')) == DecodeSegments(segs, name);
    DecodeFields(segs, name, |dirs| + 1, init, valid);
  }

  lemma PathSegments(segs: seq<string>, dirs: seq<string>, model: string, initText: string,
                     sub: seq<string>, name: string)
    requires segs == dirs + [model, initText] + sub + [name]
    requires forall k :: 0 <= k < |dirs| ==> '/' !in dirs[k] && ParseInitTime(dirs[k]).None?
    requires '/' !in model && ParseInitTime(model).None? && '/' !in initText
    requires forall k :: 0 <= k < |sub| ==> '/' !in sub[k]
    requires '/' !in name
    ensures |segs| >= 1 && forall k :: 0 <= k < |segs| ==> '/' !in segs[k]
    ensures segs[|dirs|] == model && segs[|dirs| + 1] == initText && segs[|segs| - 1] == name
    ensures forall j :: 0 <= j < |dirs| + 1 ==> ParseInitTime(segs[j]).None?
  {
    forall k | 0 <= k < |segs|
      ensures '/' !in segs[k]
    {
      if k < |dirs| {
        assert segs[k] == dirs[k];
      } else if k >= |dirs| + 2 && k < |segs| - 1 {
        assert segs[k] == sub[k - |dirs| - 2];
      }
    }
    forall j | 0 <= j < |dirs| + 1
      ensures ParseInitTime(segs[j]).None?
    {
      if j < |dirs| {
        assert segs[j] == dirs[j];
      }
    }
  }

  /** fhr is zero exactly when the valid time is the initialization time, and a
      whole number of hours when the valid time is on the hour. */
  lemma DecodedHours(path: string)
    requires Decode(path).Success?
    ensures var m := Decode(path).value;
      && ParseInitTime(m.initTime).Some? && ParseValidTime(m.validTime).Some?
      && var init := ParseInitTime(m.initTime).value;
         var valid := ParseValidTime(m.validTime).value;
         && (m.fhr == 0.0 <==> init == valid)
         && (valid.minute == 0 ==>
               m.fhr == ((DayNumber(valid) - DayNumber(init)) * 24 + valid.hour - init.hour) as real)
  {
    DecodeSound(path);
    var m := Decode(path).value;
    var init := ParseInitTime(m.initTime).value;
    var valid := ParseValidTime(m.validTime).value;
    HoursBetweenZero(init, valid);
    if valid.minute == 0 {
      HoursBetweenWhole(init, valid);
    }
  }
}
