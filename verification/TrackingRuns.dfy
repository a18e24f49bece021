// What the tracking multiplexer keeps over every run.
module TrackingRuns {
  import opened Wrappers
  import opened SortedMaps
  import opened TrackingModel

  // ----- The interval scan finds a minimum -----

  // v is the smallest interval among the sessions other than skip
  ghost predicate IsMinInterval(ss: seq<Entry<Options>>, skip: Option<int>, v: nat) {
    && (exists e :: e in ss && Some(e.key) != skip && e.value.minInterval == v)
    && (forall e :: e in ss && Some(e.key) != skip ==> v <= e.value.minInterval)
  }

  lemma {:induction false} SmallestFrom(ss: seq<Entry<Options>>, skip: Option<int>, best: Options)
    requires forall e :: e in ss ==> e.value.size > 0
    ensures var r := Smallest(ss, skip, best);
            && (forall e :: e in ss && Some(e.key) != skip ==> r.size > 0 && r.minInterval <= e.value.minInterval)
            && (best.size > 0 ==> r.minInterval <= best.minInterval)
            && (r == best || exists e :: e in ss && Some(e.key) != skip && e.value == r)
  {
    if ss != [] {
      assert ss == [ss[0]] + ss[1..];
      var next := if TakesInterval(ss[0], skip, best) then ss[0].value else best;
      SmallestFrom(ss[1..], skip, next);
      if next != best { assert ss[0] in ss; }
    }
  }

  lemma SmallestIsMin(ss: seq<Entry<Options>>, skip: Option<int>, e: Entry<Options>)
    requires (forall x :: x in ss ==> x.value.size > 0) && e in ss && Some(e.key) != skip
    ensures IsMinInterval(ss, skip, Smallest(ss, skip, UNSET).minInterval)
  {
    SmallestFrom(ss, skip, UNSET);
  }

  // ----- The invariants -----

  ghost predicate Wf(a: Adapter) {
    && Sorted(a.timeBased)
    && forall e :: e in a.timeBased ==> e.value.size > 0 && e.value.minInterval >= MIN_TRACKING_INTERVAL
  }

  // The engine runs exactly when a time-based session exists, fast enough for every one of them
  ghost predicate Serves(a: Adapter) {
    && (a.engine.Some? <==> a.timeBased != [])
    && (a.engine.Some? ==>
          && a.engine.value.minInterval >= MIN_TRACKING_INTERVAL
          && forall e :: e in a.timeBased ==> a.engine.value.minInterval <= e.value.minInterval)
  }

  // ... and no faster than the fastest of them
  ghost predicate Exact(a: Adapter) {
    a.engine.Some? ==> IsMinInterval(a.timeBased, None, a.engine.value.minInterval)
  }

  lemma StartMuxServes(a: Adapter, k: int, o: Options)
    requires Wf(a) && Serves(a) && o.size > 0 && o.minInterval >= MIN_TRACKING_INTERVAL
    ensures var b := Adapter(Saved(a.timeBased, k, o), a.distBased, StartMux(a, o).0);
            Wf(b) && Serves(b) && (Exact(a) && Lookup(a.timeBased, k) == None ==> Exact(b))
  {
    SavedMeaning(a.timeBased, k, o);
    LookupMeaning(a.timeBased, k);
    assert Entry(k, o) in Saved(a.timeBased, k, o);
    if a.timeBased != [] {
      SmallestIsMin(a.timeBased, None, a.timeBased[0]);
    }
  }

  lemma OthersExist(ss: seq<Entry<Options>>, k: int) returns (e: Entry<Options>)
    requires Sorted(ss) && |ss| > 1
    ensures e in ss && e.key != k
  {
    e := ss[0];
    if e.key == k {
      e := ss[1];
      assert e == ss[1..][0] && e in ss[1..];
    }
  }

  lemma StopMuxServes(a: Adapter, k: int)
    requires Wf(a) && Serves(a) && Lookup(a.timeBased, k).Some?
    ensures var b := Adapter(Removed(a.timeBased, k), a.distBased, StopMux(a, k).0);
            Wf(b) && Serves(b) && (Exact(a) ==> Exact(b))
  {
    RemovedMeaning(a.timeBased, k);
    LookupMeaning(a.timeBased, k);
    if |a.timeBased| > 1 {
      var e := OthersExist(a.timeBased, k);
      SmallestIsMin(a.timeBased, Some(k), e);
      assert e in Removed(a.timeBased, k);
      if Exact(a) { StopMuxExact(a, k); }
    } else {
      assert a.timeBased == [a.timeBased[0]];
    }
  }

  lemma StopMuxExact(a: Adapter, k: int)
    requires Wf(a) && Serves(a) && Exact(a) && Lookup(a.timeBased, k).Some? && |a.timeBased| > 1
    ensures IsMinInterval(Removed(a.timeBased, k), None, StopMux(a, k).0.value.minInterval)
  {
    RemovedMeaning(a.timeBased, k);
    LookupMeaning(a.timeBased, k);
    var e := OthersExist(a.timeBased, k);
    var best := Smallest(a.timeBased, Some(k), UNSET).minInterval;
    SmallestIsMin(a.timeBased, Some(k), e);
    var least :| least in a.timeBased && Some(least.key) != Some(k) && least.value.minInterval == best;
    assert least in Removed(a.timeBased, k);
    var engine := a.engine.value.minInterval;
    var fastest :| fastest in a.timeBased && fastest.value.minInterval == engine;
    if fastest.key != k { assert fastest in Removed(a.timeBased, k); }
  }

  lemma UpdateMuxServes(a: Adapter, k: int, o: Options)
    requires Wf(a) && Serves(a) && o.size > 0 && o.minInterval >= MIN_TRACKING_INTERVAL
    requires Lookup(a.timeBased, k).Some?
    ensures var b := Adapter(Saved(a.timeBased, k, o), a.distBased, UpdateMux(a, k, o).0); Wf(b) && Serves(b)
  {
    SavedMeaning(a.timeBased, k, o);
    LookupMeaning(a.timeBased, k);
    assert Entry(k, o) in Saved(a.timeBased, k, o);
    if |a.timeBased| > 1 {
      var e := OthersExist(a.timeBased, k);
      SmallestIsMin(a.timeBased, Some(k), e);
    } else {
      assert a.timeBased == [a.timeBased[0]];
    }
  }

  // ----- Runs -----

  datatype Action =
    | StartAct(key: int, opts: Options, hasCallback: bool)
    | UpdateAct(key: int, opts: Options)
    | StopAct(key: int)
    | EngineUpAct

  function Do(a: Adapter, act: Action, supported: bool): Adapter {
    match act
    case StartAct(k, o, cb) => Start(a, k, o, cb, supported)
    case UpdateAct(k, o) => Update(a, k, o, supported)
    case StopAct(k) => Stop(a, k)
    case EngineUpAct => EngineUp(a)
  }

  function Run(acts: seq<Action>, supported: bool): Adapter {
    if acts == [] then INITIAL else Do(Run(acts[..|acts| - 1], supported), acts[|acts| - 1], supported)
  }

  lemma StepServes(a: Adapter, act: Action)
    requires Wf(a) && Serves(a)
    ensures Wf(Do(a, act, true)) && Serves(Do(a, act, true))
    ensures Exact(a) && !act.UpdateAct? && (act.StartAct? ==> Lookup(a.timeBased, act.key) == None) ==>
              Exact(Do(a, act, true))
  {
    match act
    case StartAct(k, opts, cb) =>
      if cb && opts.size > 0 { StartMuxServes(a, k, PowerChecked(Clamped(opts))); }
    case UpdateAct(k, opts) =>
      UpdateServes(a, k, opts);
    case StopAct(k) =>
      if Lookup(a.timeBased, k).Some? { StopMuxServes(a, k); }
    case EngineUpAct =>
      if a.timeBased != [] { SmallestIsMin(a.timeBased, None, a.timeBased[0]); }
  }

  lemma UpdateServes(a: Adapter, k: int, opts: Options)
    requires Wf(a) && Serves(a)
    ensures Wf(Update(a, k, opts, true)) && Serves(Update(a, k, opts, true))
  {
    var isTimeBased, isDistBased := Lookup(a.timeBased, k).Some?, Lookup(a.distBased, k).Some?;
    var o := Clamped(PowerChecked(opts));
    if (isTimeBased || isDistBased) && opts.size > 0 {
      if isTimeBased && o.minDistance > 0 {
        StopMuxServes(a, k);
      } else if isDistBased && o.minDistance == 0 {
        var b := EraseSession(a, k);
        RemovedMeaning(a.timeBased, k);
        EraseThenStart(a, b, k, o);
      } else if isTimeBased {
        UpdateMuxServes(a, k, o);
      }
    }
  }

  // Erasing a session outright leaves at worst an engine with nobody to serve, which a start mends
  lemma EraseThenStart(a: Adapter, b: Adapter, k: int, o: Options)
    requires Wf(a) && Serves(a) && o.size > 0 && o.minInterval >= MIN_TRACKING_INTERVAL
    requires b.engine == a.engine && (b.timeBased == a.timeBased || b.timeBased == Removed(a.timeBased, k))
    ensures var c := Adapter(Saved(b.timeBased, k, o), b.distBased, StartMux(b, o).0); Wf(c) && Serves(c)
  {
    RemovedMeaning(a.timeBased, k);
    if b.timeBased == [] {
      SavedMeaning(b.timeBased, k, o);
    } else {
      assert b.timeBased[0] in b.timeBased;
      StartMuxServes(b, k, o);
    }
  }

  /** Where distance-based tracking is supported, in every run the engine runs if and only if a
      time-based session exists, and then at an interval of at least 100 ms that is no longer than
      any session asked for. */
  lemma {:induction false} EngineServesEverySession(acts: seq<Action>)
    ensures Wf(Run(acts, true)) && Serves(Run(acts, true))
  {
    if acts != [] {
      EngineServesEverySession(acts[..|acts| - 1]);
      StepServes(Run(acts[..|acts| - 1], true), acts[|acts| - 1]);
    }
  }

  lemma RunSnoc(acts: seq<Action>, act: Action, supported: bool)
    ensures Run(acts + [act], supported) == Do(Run(acts, supported), act, supported)
  {
    assert (acts + [act])[..|acts|] == acts;
  }

  // Without support, turning a lone session into a distance-based one stops the engine and then
  // saves the session as time-based
  lemma UnsupportedUpdateStrands(acts: seq<Action>)
    requires acts == [StartAct(1, Options(1, 1000, 0, 1, 0), true), UpdateAct(1, Options(1, 1000, 5, 1, 0))]
    ensures !Serves(Run(acts, false))
  {
    var o := Options(1, 1000, 0, 1, 0);
    RunSnoc([], acts[0], false);
    RunSnoc([acts[0]], acts[1], false);
    assert acts == [acts[0]] + [acts[1]] && [] + [acts[0]] == [acts[0]];
    var a := Run([acts[0]], false);
    assert a == Adapter([Entry(1, o)], [], Some(o));
    assert Lookup(a.timeBased, 1) == Some(o);
    assert Run(acts, false).engine == None;
    assert Run(acts, false).timeBased != [];
  }

  /** Every run is served if and only if distance-based tracking is supported. */
  lemma ServedIffSupported(supported: bool)
    ensures (forall acts :: Serves(Run(acts, supported))) <==> supported
  {
    if supported {
      forall acts
        ensures Serves(Run(acts, supported))
      {
        EngineServesEverySession(acts);
      }
    } else {
      var acts := [StartAct(1, Options(1, 1000, 0, 1, 0), true), UpdateAct(1, Options(1, 1000, 5, 1, 0))];
      UnsupportedUpdateStrands(acts);
      assert !Serves(Run(acts, supported));
    }
  }

  // A time-based session is given a distance: its engine share is dropped as if it became
  // distance-based, yet it is saved as time-based.  That strands it when it is alone, or wants fixes more
  // often than the best of the others, if it led them in interval or power, or than the engine as it is
  predicate Strands(a: Adapter, act: Action) {
    && act.UpdateAct? && act.opts.size > 0 && act.opts.minDistance > 0 && Lookup(a.timeBased, act.key).Some?
    && var was := Lookup(a.timeBased, act.key).value;
       var best := Smallest(a.timeBased, Some(act.key), UNSET).minInterval;
       var led := was.minInterval < best || was.powerMode < LowestPower(a.timeBased, Some(act.key), POWER_INVALID);
       || |a.timeBased| == 1 || a.engine.None?
       || Clamped(act.opts).minInterval < (if led then best else a.engine.value.minInterval)
  }

  lemma UnsupportedUpdateIff(a: Adapter, k: int, o: Options)
    requires Wf(a) && Serves(a) && Lookup(a.timeBased, k).Some? && o.size > 0 && o.minInterval >= MIN_TRACKING_INTERVAL
    ensures var left := StopMux(a, k).0;
            var b := Adapter(Saved(Removed(a.timeBased, k), k, o), a.distBased, left);
            Wf(b) && (Serves(b) <==> left.Some? && left.value.minInterval <= o.minInterval)
  {
    StopMuxServes(a, k);
    SavedMeaning(Removed(a.timeBased, k), k, o);
    assert Entry(k, o) in Saved(Removed(a.timeBased, k), k, o);
  }

  /** Without support for distance-based tracking, a step keeps every session served if and only if it
      is not such an update. */
  lemma UnsupportedStepIff(a: Adapter, act: Action)
    requires Wf(a) && Serves(a) && a.distBased == []
    ensures var b := Do(a, act, false); Wf(b) && b.distBased == [] && (Serves(b) <==> !Strands(a, act))
  {
    match act
    case StartAct(k, opts, cb) =>
      if cb && opts.size > 0 { StartMuxServes(a, k, PowerChecked(Clamped(opts))); }
    case UpdateAct(k, opts) =>
      if opts.size > 0 && Lookup(a.timeBased, k).Some? {
        if opts.minDistance > 0 {
          UnsupportedUpdateIff(a, k, Clamped(PowerChecked(opts)));
        } else {
          UpdateMuxServes(a, k, Clamped(PowerChecked(opts)));
        }
      }
    case StopAct(k) =>
      if Lookup(a.timeBased, k).Some? { StopMuxServes(a, k); }
    case EngineUpAct =>
      if a.timeBased != [] { SmallestIsMin(a.timeBased, None, a.timeBased[0]); }
  }

  predicate NeverStrands(acts: seq<Action>) {
    acts == [] ||
    (NeverStrands(acts[..|acts| - 1]) && !Strands(Run(acts[..|acts| - 1], false), acts[|acts| - 1]))
  }

  lemma {:induction false} UnsupportedRunsServe(acts: seq<Action>)
    requires NeverStrands(acts)
    ensures var a := Run(acts, false); Wf(a) && Serves(a) && a.distBased == []
  {
    if acts != [] {
      UnsupportedRunsServe(acts[..|acts| - 1]);
      UnsupportedStepIff(Run(acts[..|acts| - 1], false), acts[|acts| - 1]);
    }
  }

  // ----- When the interval is exactly the minimum -----

  // Every started session has a new key, as generateSessionId gives it, and none is updated
  predicate FreshWithoutUpdates(acts: seq<Action>) {
    acts == [] ||
    var init, last := acts[..|acts| - 1], acts[|acts| - 1];
    FreshWithoutUpdates(init) && !last.UpdateAct? &&
    (last.StartAct? ==> Lookup(Run(init, true).timeBased, last.key) == None)
  }

  /** In runs of starts, stops and engine restarts the engine's interval is exactly the minimum. */
  lemma {:induction false} IntervalIsMinimal(acts: seq<Action>)
    requires FreshWithoutUpdates(acts)
    ensures Exact(Run(acts, true))
  {
    if acts != [] {
      var init := acts[..|acts| - 1];
      IntervalIsMinimal(init);
      EngineServesEverySession(init);
      StepServes(Run(init, true), acts[|acts| - 1]);
    }
  }

  // The session did not change, is alone, takes the lead in interval or power, or was not the
  // only one keeping the engine fast
  predicate UpdateFollowed(a: Adapter, k: int, o: Options)
    requires Lookup(a.timeBased, k).Some?
  {
    var was := Lookup(a.timeBased, k).value;
    var best := Smallest(a.timeBased, Some(k), UNSET);
    || (was.minInterval == o.minInterval && was.powerMode == o.powerMode)
    || |a.timeBased| == 1
    || o.minInterval < best.minInterval
    || o.powerMode < LowestPower(a.timeBased, Some(k), POWER_INVALID)
    || was.minInterval >= best.minInterval
  }

  function MinOf(a: nat, b: nat): nat {
    if a < b then a else b
  }

  // With other sessions around, the minimum is the session's interval or the best of the others
  lemma MinOfSaved(ss: seq<Entry<Options>>, k: int, o: Options, v: nat)
    requires Sorted(ss) && |ss| > 1 && forall x :: x in ss ==> x.value.size > 0
    ensures IsMinInterval(Saved(ss, k, o), None, v) <==>
            v == MinOf(o.minInterval, Smallest(ss, Some(k), UNSET).minInterval)
  {
    SavedMeaning(ss, k, o);
    var r := Saved(ss, k, o);
    var e := OthersExist(ss, k);
    SmallestIsMin(ss, Some(k), e);
    var best := Smallest(ss, Some(k), UNSET).minInterval;
    var least :| least in ss && Some(least.key) != Some(k) && least.value.minInterval == best;
    assert Entry(k, o) in r && least in r;
  }

  lemma MinOfCurrent(ss: seq<Entry<Options>>, k: int, v: nat)
    requires Sorted(ss) && |ss| > 1 && (forall x :: x in ss ==> x.value.size > 0) && Lookup(ss, k).Some?
    ensures IsMinInterval(ss, None, v) <==>
            v == MinOf(Lookup(ss, k).value.minInterval, Smallest(ss, Some(k), UNSET).minInterval)
  {
    var was := Lookup(ss, k).value;
    LookupMeaning(ss, k);
    SavedMeaning(ss, k, was);
    assert forall x :: x in Saved(ss, k, was) <==> x in ss;
    MinOfSaved(ss, k, was, v);
  }

  lemma TimeBasedUpdateIff(a: Adapter, k: int, opts: Options)
    requires Wf(a) && Serves(a) && Exact(a) && Lookup(a.timeBased, k).Some?
    requires opts.size > 0 && opts.minDistance == 0 && Lookup(a.distBased, k) == None
    ensures Exact(Update(a, k, opts, true)) <==> UpdateFollowed(a, k, Clamped(PowerChecked(opts)))
  {
    var o := Clamped(PowerChecked(opts));
    var b := Update(a, k, opts, true);
    assert b.timeBased == Saved(a.timeBased, k, o) && b.engine == UpdateMux(a, k, o).0;
    LookupMeaning(a.timeBased, k);
    if |a.timeBased| == 1 {
      SavedMeaning(a.timeBased, k, o);
      assert a.timeBased == [a.timeBased[0]];
      assert Entry(k, o) in b.timeBased;
    } else {
      MinOfCurrent(a.timeBased, k, a.engine.value.minInterval);
      MinOfSaved(a.timeBased, k, o, b.engine.value.minInterval);
    }
  }

  /** An update keeps the engine at exactly the minimum if and only if it is not a time-based update
      that slows down the lone fastest session without being followed by the engine. */
  lemma UpdateStaysMinimalIff(a: Adapter, k: int, opts: Options)
    requires Wf(a) && Serves(a) && Exact(a)
    requires Lookup(a.timeBased, k) == None || Lookup(a.distBased, k) == None
    ensures Exact(Update(a, k, opts, true)) <==>
            (Lookup(a.timeBased, k).Some? && opts.size > 0 && opts.minDistance == 0 ==>
               UpdateFollowed(a, k, Clamped(PowerChecked(opts))))
  {
    if opts.size > 0 {
      if Lookup(a.timeBased, k).Some? {
        if opts.minDistance == 0 { TimeBasedUpdateIff(a, k, opts); } else { StopMuxServes(a, k); }
      } else if Lookup(a.distBased, k).Some? && opts.minDistance == 0 {
        StartMuxServes(EraseSession(a, k), k, Clamped(PowerChecked(opts)));
      }
    }
  }

  // ----- An update that is not followed -----

  const EVERY_1000 := Options(1, 1000, 0, 1, 0)
  const EVERY_2000 := Options(1, 2000, 0, 1, 0)
  const EVERY_3000 := Options(1, 3000, 0, 1, 0)

  // Sessions 1 and 2, served at the first one's interval
  const TWO_SESSIONS := Adapter([Entry(1, EVERY_1000), Entry(2, EVERY_2000)], [], Some(EVERY_1000))

  lemma TwoSessionsAreReached()
    ensures Run([StartAct(1, EVERY_1000, true), StartAct(2, EVERY_2000, true)], true) == TWO_SESSIONS
  {
    var first, second := StartAct(1, EVERY_1000, true), StartAct(2, EVERY_2000, true);
    RunSnoc([], first, true);
    RunSnoc([first], second, true);
    assert [] + [first] == [first] && [first] + [second] == [first, second];
    var a := Run([first], true);
    assert a == Adapter([Entry(1, EVERY_1000)], [], Some(EVERY_1000)) && a.timeBased[1..] == [];
    assert Saved(a.timeBased, 2, EVERY_2000) == [Entry(1, EVERY_1000), Entry(2, EVERY_2000)];
  }

  /** Session 1 slows down to 3000, and the engine goes on at 1000 although nobody asks for it. */
  lemma SlowedUnnoticed()
    ensures Exact(TWO_SESSIONS)
    ensures var a := Update(TWO_SESSIONS, 1, EVERY_3000, true);
            a.engine == Some(EVERY_1000) && !Exact(a) && IsMinInterval(a.timeBased, None, 2000)
  {
    var ss := TWO_SESSIONS.timeBased;
    assert ss[0] == Entry(1, EVERY_1000) && ss[1..] == [Entry(2, EVERY_2000)] && ss[1..][1..] == [];
    assert Entry(1, EVERY_1000) in ss;
    var a := Update(TWO_SESSIONS, 1, EVERY_3000, true);
    assert Smallest([], Some(1), EVERY_2000) == EVERY_2000 && LowestPower([], Some(1), 1) == 1;
    assert Smallest(ss[1..], Some(1), UNSET) == EVERY_2000 && LowestPower(ss[1..], Some(1), POWER_INVALID) == 1;
    assert Smallest(ss, Some(1), UNSET) == EVERY_2000 && LowestPower(ss, Some(1), POWER_INVALID) == 1;
    assert Lookup(ss, 1) == Some(EVERY_1000) && Clamped(PowerChecked(EVERY_3000)) == EVERY_3000;
    assert a == TWO_SESSIONS.(timeBased := Saved(ss, 1, EVERY_3000));
    assert a.timeBased == [Entry(1, EVERY_3000)] + ss[1..];
    assert a.timeBased[1] == Entry(2, EVERY_2000);
  }
}
