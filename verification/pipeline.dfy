/** The per-sounding loop: decode the path, apply the interval and station
    tests, skip plots that already exist unless forced, read the sounding, and
    skip empty profiles. Any error ends the run: the loop has no handler. The
    plots already on disk are a set of output keys; reading a file is the
    parameter `read`, and Python's `float()` the parameter `float`. */
module Pipeline {
  import opened Wrappers
  import opened Gempak
  import opened PathDecoder
  import opened Selection
  import opened Ordering

  /** The command-line options the loop reads. */
  datatype Settings = Settings(interval: int, project: string, forceNew: bool)

  /** What became of one sounding file. */
  datatype Outcome =
    | Screened(reason: Screening)   // off the interval, or an unlisted long station
    | Existing(key: string)         // the plot is on disk and not forced
    | EmptyProfile(key: string)     // no data rows
    | Plotted(key: string)          // the plot was written at `key`

  /** Why a run stopped early. */
  datatype Halt =
    | DecodeFailed(path: string, error: DecodeError)
    | IntervalZero                  // `fhr % 0`: ZeroDivisionError
    | ParseFailed(path: string, failure: ParseError)

  /** The plot a sounding gets. */
  function KeyOf(m: Metadata, project: string): string {
    OutputKey(m.initTime, project, m.station, m.fhr)
  }

  /** One pass of the loop body, up to the drawing. */
  function Step(path: string, settings: Settings, store: set<string>,
                read: string -> string, float: string -> Option<real>): (r: Result<Outcome, Halt>)
    ensures r.Success? && r.value.Plotted? ==>
      && Decode(path).Success?
      && Screen(Decode(path).value.station, Decode(path).value.fhr, settings.interval) == Some(Plot)
      && r.value.key == KeyOf(Decode(path).value, settings.project)
      && (settings.forceNew || r.value.key !in store)
    ensures r.Success? && r.value.Existing? ==> !settings.forceNew && r.value.key in store
    ensures r.Success? && r.value.Screened? ==> r.value.reason != Plot
    ensures r == Failure(IntervalZero) ==> settings.interval == 0
    ensures Decode(path).Failure? ==> r == Failure(DecodeFailed(path, Decode(path).error))
    ensures Decode(path).Success? && settings.interval == 0 ==> r == Failure(IntervalZero)
    ensures Decode(path).Success? ==>
      var v := Screen(Decode(path).value.station, Decode(path).value.fhr, settings.interval);
      v.Some? && v.value != Plot ==> r == Success(Screened(v.value))
  {
    match Decode(path)
    case Failure(e) => Failure(DecodeFailed(path, e))
    case Success(m) => Admit(m, path, Parse(read(path), float), settings, store)
  }

  /** The loop body after get_title: the two tests, the existing-plot test,
      then the outcome of parsing the file, which matters only past those. */
  function Admit(m: Metadata, path: string, parsed: Result<Report, ParseError>,
                 settings: Settings, store: set<string>): (r: Result<Outcome, Halt>)
    ensures r.Success? && r.value.Plotted? ==>
      && Screen(m.station, m.fhr, settings.interval) == Some(Plot)
      && r.value.key == KeyOf(m, settings.project)
      && (settings.forceNew || r.value.key !in store)
    ensures r.Success? && r.value.Existing? ==> !settings.forceNew && r.value.key in store
    ensures r.Success? && r.value.Screened? ==> r.value.reason != Plot
    ensures r == Failure(IntervalZero) ==> settings.interval == 0
    ensures settings.interval == 0 ==> r == Failure(IntervalZero)
    ensures var v := Screen(m.station, m.fhr, settings.interval);
      v.Some? && v.value != Plot ==> r == Success(Screened(v.value))
    ensures Screen(m.station, m.fhr, settings.interval) == Some(Plot) ==>
      var key := KeyOf(m, settings.project);
      && (!settings.forceNew && key in store ==> r == Success(Existing(key)))
      && (settings.forceNew || key !in store ==>
            && (parsed.Failure? ==> r == Failure(ParseFailed(path, parsed.error)))
            && (parsed.Success? && |parsed.value.columns.drct| == 0 ==> r == Success(EmptyProfile(key)))
            && (parsed.Success? && |parsed.value.columns.drct| > 0 ==> r == Success(Plotted(key))))
  {
    match Screen(m.station, m.fhr, settings.interval)
    case None => Failure(IntervalZero)
    case Some(v) =>
      if v != Plot then Success(Screened(v))
      else
        var key := KeyOf(m, settings.project);
        if !settings.forceNew && key in store then Success(Existing(key))
        else
          match parsed
          case Failure(e) => Failure(ParseFailed(path, e))
          case Success(rep) =>
            if |rep.columns.drct| == 0 then Success(EmptyProfile(key)) else Success(Plotted(key))
  }

  /** The keys of the plots written. */
  function Created(outcomes: seq<Outcome>): set<string> {
    if |outcomes| == 0 then {}
    else (if outcomes[0].Plotted? then {outcomes[0].key} else {}) + Created(outcomes[1..])
  }

  datatype RunResult = RunResult(outcomes: seq<Outcome>, store: set<string>, halt: Option<Halt>)

  /** A loop body: what becomes of a file, given the plots on disk. */
  type Body = (string, set<string>) -> Result<Outcome, Halt>

  /** The loop over the files in visiting order, for any loop body: a file
      that fails ends the run, and a plot written joins the plots on disk. */
  function Loop(files: seq<string>, body: Body, store: set<string>): (r: RunResult)
    ensures |r.outcomes| <= |files|
    ensures r.halt.None? <==> |r.outcomes| == |files|
    ensures r.store == store + Created(r.outcomes)
  {
    if |files| == 0 then RunResult([], store, None)
    else
      match body(files[0], store)
      case Failure(h) => RunResult([], store, Some(h))
      case Success(o) =>
        var next := if o.Plotted? then store + {o.key} else store;
        var rest := Loop(files[1..], body, next);
        CreatedCons(o, rest.outcomes);
        RunResult([o] + rest.outcomes, rest.store, rest.halt)
  }

  /** Each outcome of a loop is what the body gave its file on the plots on
      disk at that point, and a run that stops does so on the body's failure
      for the next file. */
  lemma {:induction false} LoopFollowsBody(files: seq<string>, body: Body, store: set<string>)
    ensures var r := Loop(files, body, store);
      forall k :: 0 <= k < |r.outcomes| ==>
        body(files[k], store + Created(r.outcomes[..k])) == Success(r.outcomes[k])
    ensures var r := Loop(files, body, store);
      r.halt.Some? ==> |r.outcomes| < |files| && body(files[|r.outcomes|], r.store) == Failure(r.halt.value)
  {
    var r := Loop(files, body, store);
    if |files| > 0 && body(files[0], store).Success? {
      var o := body(files[0], store).value;
      var next := if o.Plotted? then store + {o.key} else store;
      var rest := Loop(files[1..], body, next);
      LoopFollowsBody(files[1..], body, next);
      assert r.outcomes == [o] + rest.outcomes && r.store == rest.store && r.halt == rest.halt;
      ConsOutcomes(files, body, store, o, next, rest.outcomes);
      if r.halt.Some? {
        assert files[|r.outcomes|] == files[1..][|rest.outcomes|];
      }
    }
  }

  lemma ConsOutcomes(files: seq<string>, body: Body, store: set<string>, o: Outcome,
                     next: set<string>, later: seq<Outcome>)
    requires |files| > 0 && body(files[0], store) == Success(o)
    requires next == if o.Plotted? then store + {o.key} else store
    requires |later| < |files|
    requires forall k :: 0 <= k < |later| ==>
      body(files[1..][k], next + Created(later[..k])) == Success(later[k])
    ensures forall k :: 0 <= k < 1 + |later| ==>
      body(files[k], store + Created(([o] + later)[..k])) == Success(([o] + later)[k])
  {
    forall k | 0 <= k < 1 + |later|
      ensures body(files[k], store + Created(([o] + later)[..k])) == Success(([o] + later)[k])
    {
      if k == 0 {
        assert ([o] + later)[..0] == [] && ([o] + later)[0] == o;
        assert store + Created(([o] + later)[..0]) == store;
      } else {
        ShiftedOutcome(files, body, store, o, next, later, k);
      }
    }
  }

  lemma ShiftedOutcome(files: seq<string>, body: Body, store: set<string>, o: Outcome,
                       next: set<string>, later: seq<Outcome>, k: nat)
    requires next == if o.Plotted? then store + {o.key} else store
    requires 1 <= k <= |later| && k < |files|
    requires body(files[1..][k - 1], next + Created(later[..k - 1])) == Success(later[k - 1])
    ensures body(files[k], store + Created(([o] + later)[..k])) == Success(([o] + later)[k])
  {
    assert ([o] + later)[..k] == [o] + later[..k - 1];
    CreatedCons(o, later[..k - 1]);
    assert store + Created(([o] + later)[..k]) == next + Created(later[..k - 1]);
    assert files[k] == files[1..][k - 1] && ([o] + later)[k] == later[k - 1];
  }

  lemma CreatedCons(o: Outcome, rest: seq<Outcome>)
    ensures Created([o] + rest) == (if o.Plotted? then {o.key} else {}) + Created(rest)
  {
    assert ([o] + rest)[0] == o && ([o] + rest)[1..] == rest;
  }

  /** The script's loop body, as a function of the file and the plots on disk. */
  function StepBody(settings: Settings, read: string -> string, float: string -> Option<real>): Body {
    (p, s) => Step(p, settings, s, read, float)
  }

  /** The script's loop. */
  function Run(files: seq<string>, settings: Settings, store: set<string>,
               read: string -> string, float: string -> Option<real>): (r: RunResult)
    ensures r.halt.None? <==> |r.outcomes| == |files|
    ensures r.store == store + Created(r.outcomes)
  {
    Loop(files, StepBody(settings, read, float), store)
  }

  /** Each outcome of the script's loop is the loop body's outcome for its file
      on the plots on disk at that point; a run that stops does so on the
      failure of the next file's step. */
  lemma RunFollowsSteps(files: seq<string>, settings: Settings, store: set<string>,
                        read: string -> string, float: string -> Option<real>)
    ensures var r := Run(files, settings, store, read, float);
      forall k :: 0 <= k < |r.outcomes| ==>
        Step(files[k], settings, store + Created(r.outcomes[..k]), read, float) == Success(r.outcomes[k])
    ensures var r := Run(files, settings, store, read, float);
      r.halt.Some? ==>
        |r.outcomes| < |files| && Step(files[|r.outcomes|], settings, r.store, read, float) == Failure(r.halt.value)
  {
    LoopFollowsBody(files, StepBody(settings, read, float), store);
  }

  /** A whole run: the files found, sorted and cut to `nplots`, then the loop. */
  function Session(found: seq<string>, nplots: int, settings: Settings, store: set<string>,
                   read: string -> string, float: string -> Option<real>): RunResult
  {
    Run(Visit(found, nplots), settings, store, read, float)
  }

  /** The order the directory listings give the files in changes nothing. */
  lemma SessionOrder(f1: seq<string>, f2: seq<string>, nplots: int, settings: Settings,
                     store: set<string>, read: string -> string, float: string -> Option<real>)
    requires multiset(f1) == multiset(f2)
    ensures Session(f1, nplots, settings, store, read, float) == Session(f2, nplots, settings, store, read, float)
  {
    VisitOrder(f1, f2, nplots);
  }

  /** The process exit status: 0 after the last file, 2 for an unlisted model,
      1 for any other error. */
  function RunStatus(r: RunResult): (status: int)
    ensures status == 0 <==> r.halt.None?
    ensures status == 2 <==> r.halt.Some? && r.halt.value.DecodeFailed? && r.halt.value.error.UnknownModel?
  {
    match r.halt
    case None => 0
    case Some(DecodeFailed(_, e)) => ExitStatus(e)
    case Some(_) => 1
  }

  // ---------------------------------------------------------------- properties

  /** A sounding that passes both tests is skipped, unread, when its plot is on
      disk and the run is not forced. */
  lemma StepSkipsExisting(path: string, settings: Settings, store: set<string>,
                          read: string -> string, float: string -> Option<real>)
    requires Decode(path).Success?
    requires Screen(Decode(path).value.station, Decode(path).value.fhr, settings.interval) == Some(Plot)
    requires !settings.forceNew && KeyOf(Decode(path).value, settings.project) in store
    ensures Step(path, settings, store, read, float) == Success(Existing(KeyOf(Decode(path).value, settings.project)))
  {
  }

  /** A decoded sounding that passes both tests, forced or with no plot on
      disk, is read: a parse failure ends the run, an empty profile is
      skipped, and any other profile is plotted under its key. */
  lemma StepReads(path: string, settings: Settings, store: set<string>,
                  read: string -> string, float: string -> Option<real>)
    requires Decode(path).Success?
    requires Screen(Decode(path).value.station, Decode(path).value.fhr, settings.interval) == Some(Plot)
    requires settings.forceNew || KeyOf(Decode(path).value, settings.project) !in store
    ensures var key := KeyOf(Decode(path).value, settings.project);
      var parsed := Parse(read(path), float);
      var r := Step(path, settings, store, read, float);
      && (parsed.Failure? ==> r == Failure(ParseFailed(path, parsed.error)))
      && (parsed.Success? && |parsed.value.columns.drct| == 0 ==> r == Success(EmptyProfile(key)))
      && (parsed.Success? && |parsed.value.columns.drct| > 0 ==> r == Success(Plotted(key)))
  {
  }

  /** A forced step does not look at the plots on disk. */
  lemma StepForced(path: string, settings: Settings, s1: set<string>, s2: set<string>,
                   read: string -> string, float: string -> Option<real>)
    requires settings.forceNew
    ensures Step(path, settings, s1, read, float) == Step(path, settings, s2, read, float)
  {
    if Decode(path).Success? {
      AdmitForced(Decode(path).value, path, Parse(read(path), float), settings, s1, s2);
    }
  }

  lemma AdmitForced(m: Metadata, path: string, parsed: Result<Report, ParseError>, settings: Settings,
                    s1: set<string>, s2: set<string>)
    requires settings.forceNew
    ensures Admit(m, path, parsed, settings, s1) == Admit(m, path, parsed, settings, s2)
  {
  }

  /** A loop whose body does not look at the plots on disk does the same
      thing whatever is on disk. */
  lemma {:induction false} LoopBlind(files: seq<string>, body: Body, s1: set<string>, s2: set<string>)
    requires forall p, a, b :: Blind(body, p, a, b)
    ensures Loop(files, body, s1).outcomes == Loop(files, body, s2).outcomes
    ensures Loop(files, body, s1).halt == Loop(files, body, s2).halt
  {
    if |files| > 0 {
      assert Blind(body, files[0], s1, s2);
      match body(files[0], s1)
      case Failure(_) =>
      case Success(o) =>
        var n1 := if o.Plotted? then s1 + {o.key} else s1;
        var n2 := if o.Plotted? then s2 + {o.key} else s2;
        LoopBlind(files[1..], body, n1, n2);
    }
  }

  predicate Blind(body: Body, p: string, a: set<string>, b: set<string>) {
    body(p, a) == body(p, b)
  }

  /** A forced run does the same thing whatever is on disk. */
  lemma RunForced(files: seq<string>, settings: Settings, s1: set<string>, s2: set<string>,
                  read: string -> string, float: string -> Option<real>)
    requires settings.forceNew
    ensures Run(files, settings, s1, read, float).outcomes == Run(files, settings, s2, read, float).outcomes
    ensures Run(files, settings, s1, read, float).halt == Run(files, settings, s2, read, float).halt
  {
    var body := StepBody(settings, read, float);
    forall p, a, b ensures Blind(body, p, a, b) {
      StepForced(p, settings, a, b, read, float);
    }
    LoopBlind(files, body, s1, s2);
  }

  /** On a store holding every plot a completed run ended with, a step of the
      same files, not forced, writes nothing and does not fail. */
  lemma StepAgain(path: string, settings: Settings, store: set<string>, big: set<string>,
                  read: string -> string, float: string -> Option<real>)
    requires Step(path, settings, store, read, float).Success?
    requires store <= big
    requires var o := Step(path, settings, store, read, float).value;
      o.Plotted? ==> o.key in big
    ensures var again := Step(path, settings.(forceNew := false), big, read, float);
      again.Success? && !again.value.Plotted?
  {
    AdmitAgain(Decode(path).value, path, Parse(read(path), float), settings, store, big);
  }

  lemma AdmitAgain(m: Metadata, path: string, parsed: Result<Report, ParseError>, settings: Settings,
                   store: set<string>, big: set<string>)
    requires Admit(m, path, parsed, settings, store).Success?
    requires store <= big
    requires var o := Admit(m, path, parsed, settings, store).value;
      o.Plotted? ==> o.key in big
    ensures var again := Admit(m, path, parsed, settings.(forceNew := false), big);
      again.Success? && !again.value.Plotted?
  {
  }

  /** `again` repeats `body` without writing: where `body` succeeded on the
      plots `s`, `again` succeeds on any larger `b` holding what `body` wrote,
      and writes nothing. */
  predicate Repeats(body: Body, again: Body, p: string, s: set<string>, b: set<string>) {
    body(p, s).Success? && s <= b && (body(p, s).value.Plotted? ==> body(p, s).value.key in b) ==>
      again(p, b).Success? && !again(p, b).value.Plotted?
  }

  /** Running a repeating body after a completed loop, on a store holding at
      least what the loop left, writes no plot and completes. */
  lemma {:induction false} LoopAgain(files: seq<string>, body: Body, again: Body,
                                     store: set<string>, big: set<string>)
    requires forall p, s, b :: Repeats(body, again, p, s, b)
    requires Loop(files, body, store).halt.None?
    requires Loop(files, body, store).store <= big
    ensures var r := Loop(files, again, big);
      r.halt.None? && r.store == big && Created(r.outcomes) == {}
  {
    if |files| > 0 {
      var o := body(files[0], store).value;
      var next := if o.Plotted? then store + {o.key} else store;
      var rest := Loop(files[1..], body, next);
      assert Loop(files, body, store).store == rest.store;
      assert next <= rest.store;
      assert Repeats(body, again, files[0], store, big);
      LoopAgain(files[1..], body, again, next, big);
    }
  }

  /** Running again over the same files, not forced, on a store holding at
      least what a completed run left, writes no plot and completes. */
  lemma RerunGeneral(files: seq<string>, settings: Settings, store: set<string>,
                     big: set<string>, read: string -> string, float: string -> Option<real>)
    requires Run(files, settings, store, read, float).halt.None?
    requires Run(files, settings, store, read, float).store <= big
    ensures var again := Run(files, settings.(forceNew := false), big, read, float);
      again.halt.None? && again.store == big && Created(again.outcomes) == {}
  {
    var body := StepBody(settings, read, float);
    var again := StepBody(settings.(forceNew := false), read, float);
    forall p, s, b ensures Repeats(body, again, p, s, b) {
      if body(p, s).Success? && s <= b && (body(p, s).value.Plotted? ==> body(p, s).value.key in b) {
        StepAgain(p, settings, s, b, read, float);
      }
    }
    LoopAgain(files, body, again, store, big);
  }

  /** Idempotence: running again, not forced, after a completed run writes no
      plot and leaves the same plots on disk. */
  lemma Rerun(files: seq<string>, settings: Settings, store: set<string>,
              read: string -> string, float: string -> Option<real>)
    requires Run(files, settings, store, read, float).halt.None?
    ensures var first := Run(files, settings, store, read, float);
      var again := Run(files, settings.(forceNew := false), first.store, read, float);
      again.halt.None? && again.store == first.store && Created(again.outcomes) == {}
  {
    var first := Run(files, settings, store, read, float);
    RerunGeneral(files, settings, store, first.store, read, float);
  }
}
