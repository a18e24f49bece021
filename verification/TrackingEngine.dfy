// What the multiplexer asks of the engine for the sessions it serves, and when it answers at once instead.
// Power modes are valid ones; 0 stands for an unset one.
module TrackingEngine {
  import opened Wrappers
  import opened SortedMaps
  import opened TrackingModel
  import opened TrackingRuns

  ghost predicate ValidPower(ss: seq<Entry<Options>>) {
    forall e :: e in ss ==> e.value.powerMode > 0
  }

  predicate IsOther(e: Entry<Options>, skip: Option<int>) {
    Some(e.key) != skip
  }

  // v is the smallest power mode among the sessions other than skip
  ghost predicate IsLowestPower(ss: seq<Entry<Options>>, skip: Option<int>, v: nat) {
    && (exists e :: e in ss && IsOther(e, skip) && e.value.powerMode == v)
    && (forall e :: e in ss && IsOther(e, skip) ==> v <= e.value.powerMode)
  }

  // Entry i is the first of those other than skip with the smallest interval
  ghost predicate LeadsAt(ss: seq<Entry<Options>>, skip: Option<int>, i: nat) {
    && i < |ss| && IsOther(ss[i], skip)
    && (forall j :: 0 <= j < i && IsOther(ss[j], skip) ==> ss[i].value.minInterval < ss[j].value.minInterval)
    && (forall j :: i <= j < |ss| && IsOther(ss[j], skip) ==> ss[i].value.minInterval <= ss[j].value.minInterval)
  }

  ghost predicate IsLead(ss: seq<Entry<Options>>, skip: Option<int>, o: Options) {
    exists i: nat :: LeadsAt(ss, skip, i) && ss[i].value == o
  }

  lemma LeadIsLater(ss: seq<Entry<Options>>, skip: Option<int>, i: nat)
    requires ss != [] && LeadsAt(ss[1..], skip, i)
    requires IsOther(ss[0], skip) ==> ss[1..][i].value.minInterval < ss[0].value.minInterval
    ensures LeadsAt(ss, skip, i + 1) && ss[i + 1] == ss[1..][i]
  {
    forall j | 0 <= j < |ss| && IsOther(ss[j], skip)
      ensures if j < i + 1 then ss[i + 1].value.minInterval < ss[j].value.minInterval
              else ss[i + 1].value.minInterval <= ss[j].value.minInterval
    {
      if j > 0 { assert ss[j] == ss[1..][j - 1]; }
    }
  }

  lemma {:induction false} LeadFrom(ss: seq<Entry<Options>>, skip: Option<int>, best: Options)
    requires forall e :: e in ss ==> e.value.size > 0
    ensures var r := Smallest(ss, skip, best);
            || (&& r == best
                && forall e :: e in ss && IsOther(e, skip) ==> best.size > 0 && best.minInterval <= e.value.minInterval)
            || (IsLead(ss, skip, r) && (best.size > 0 ==> r.minInterval < best.minInterval))
  {
    if ss != [] {
      assert ss == [ss[0]] + ss[1..];
      var next := if TakesInterval(ss[0], skip, best) then ss[0].value else best;
      var r := Smallest(ss, skip, best);
      LeadFrom(ss[1..], skip, next);
      if i: nat :| && LeadsAt(ss[1..], skip, i) && ss[1..][i].value == r
                   && (next.size > 0 ==> r.minInterval < next.minInterval) {
        LeadIsLater(ss, skip, i);
      } else if TakesInterval(ss[0], skip, best) {
        assert forall j :: 0 < j < |ss| ==> ss[j] == ss[1..][j - 1] && ss[j] in ss[1..];
        assert LeadsAt(ss, skip, 0);
      }
    }
  }

  ghost predicate AllSet(ss: seq<Entry<Options>>, skip: Option<int>) {
    forall e :: e in ss && IsOther(e, skip) ==> e.value.powerMode > 0
  }

  lemma {:induction false} LowestFrom(ss: seq<Entry<Options>>, skip: Option<int>, best: nat)
    ensures var r := LowestPower(ss, skip, best);
            && (AllSet(ss, skip) ==>
                  && (forall e :: e in ss && IsOther(e, skip) ==> 0 < r <= e.value.powerMode)
                  && (best > 0 ==> 0 < r <= best))
            && (r == best || exists e :: e in ss && IsOther(e, skip) && e.value.powerMode == r)
  {
    if ss != [] {
      assert ss == [ss[0]] + ss[1..];
      LowestFrom(ss[1..], skip, if TakesPower(ss[0], skip, best) then ss[0].value.powerMode else best);
    }
  }

  /** The two scans find the first of the fastest sessions and the smallest power mode. */
  lemma ScansFind(ss: seq<Entry<Options>>, skip: Option<int>, other: Entry<Options>)
    requires (forall e :: e in ss ==> e.value.size > 0) && ValidPower(ss) && other in ss && IsOther(other, skip)
    ensures IsLead(ss, skip, Smallest(ss, skip, UNSET))
    ensures IsMinInterval(ss, skip, Smallest(ss, skip, UNSET).minInterval)
    ensures IsLowestPower(ss, skip, LowestPower(ss, skip, POWER_INVALID))
  {
    LeadFrom(ss, skip, UNSET);
    LowestFrom(ss, skip, POWER_INVALID);
    SmallestIsMin(ss, skip, other);
  }

  // The last session other than skip is unset
  predicate EndsUnset(ss: seq<Entry<Options>>, skip: Option<int>) {
    ss != [] &&
    var last := ss[|ss| - 1];
    if IsOther(last, skip) then last.value.powerMode == 0 else EndsUnset(ss[..|ss| - 1], skip)
  }

  lemma {:induction false} LowestSnoc(ss: seq<Entry<Options>>, skip: Option<int>, best: nat)
    requires ss != []
    ensures var (init, last) := (ss[..|ss| - 1], ss[|ss| - 1]);
            var b := LowestPower(init, skip, best);
            LowestPower(ss, skip, best) == if TakesPower(last, skip, b) then last.value.powerMode else b
  {
    if |ss| > 1 {
      assert ss[1..][..|ss| - 2] == ss[..|ss| - 1][1..];
      LowestSnoc(ss[1..], skip, if TakesPower(ss[0], skip, best) then ss[0].value.powerMode else best);
    } else {
      assert ss[1..] == [] && ss[..0] == [];
    }
  }

  lemma {:induction false} ZeroIffEndsUnset(ss: seq<Entry<Options>>, skip: Option<int>)
    requires exists e :: e in ss && IsOther(e, skip)
    ensures LowestPower(ss, skip, POWER_INVALID) == 0 <==> EndsUnset(ss, skip)
  {
    var init, last := ss[..|ss| - 1], ss[|ss| - 1];
    LowestSnoc(ss, skip, POWER_INVALID);
    if !IsOther(last, skip) {
      assert forall e :: e in ss && IsOther(e, skip) ==> e in init;
      ZeroIffEndsUnset(init, skip);
    }
  }

  /** The scan takes an unset power mode for "none yet": it finds the smallest one if and only if none of the
      others is unset or the last of them is. */
  lemma PowerScanIff(ss: seq<Entry<Options>>, skip: Option<int>, other: Entry<Options>)
    requires other in ss && IsOther(other, skip)
    ensures IsLowestPower(ss, skip, LowestPower(ss, skip, POWER_INVALID)) <==> AllSet(ss, skip) || EndsUnset(ss, skip)
  {
    ZeroIffEndsUnset(ss, skip);
    LowestFrom(ss, skip, POWER_INVALID);
  }

  // ----- What a start, an update or a stop asks for -----

  // Some other session is served at least as fast, and some at as small a power mode
  ghost predicate IsCovered(ss: seq<Entry<Options>>, skip: Option<int>, o: Options) {
    && (exists e :: e in ss && IsOther(e, skip) && e.value.minInterval <= o.minInterval)
    && (exists e :: e in ss && IsOther(e, skip) && e.value.powerMode <= o.powerMode)
  }

  // The first of the fastest, sped up to the newcomer; its power mode only lowered for the newcomer's sake
  ghost predicate AsksFor(ss: seq<Entry<Options>>, skip: Option<int>, o: Options, asked: Options) {
    exists lead, lowest :: IsLead(ss, skip, lead) && IsLowestPower(ss, skip, lowest) && asked == Merged(lead, lowest, o)
  }

  function Merged(lead: Options, lowest: nat, o: Options): Options {
    Options(lead.size, if o.minInterval < lead.minInterval then o.minInterval else lead.minInterval, lead.minDistance,
            if o.powerMode < lowest then o.powerMode else lead.powerMode, lead.tbm)
  }

  /** A start beside other sessions is answered at once exactly when the others cover it, and asks the engine
      for the lead session's options adjusted to it otherwise. */
  lemma StartAsks(a: Adapter, o: Options)
    requires Wf(a) && ValidPower(a.timeBased) && a.timeBased != []
    ensures var (engine, atOnce) := StartMux(a, o);
            && (atOnce <==> IsCovered(a.timeBased, None, o))
            && if atOnce then engine == a.engine else engine.Some? && AsksFor(a.timeBased, None, o, engine.value)
  {
    ScansFind(a.timeBased, None, a.timeBased[0]);
    var lead, lowest := Smallest(a.timeBased, None, UNSET), LowestPower(a.timeBased, None, POWER_INVALID);
    var e :| e in a.timeBased && IsOther(e, None) && e.value.minInterval == lead.minInterval;
    var f :| f in a.timeBased && IsOther(f, None) && f.value.powerMode == lowest;
    assert !StartMux(a, o).1 ==> StartMux(a, o).0 == Some(Merged(lead, lowest, o));
  }

  /** An update of one session among others likewise; when nothing changes it is answered at once. */
  lemma UpdateAsks(a: Adapter, k: int, o: Options)
    requires Wf(a) && ValidPower(a.timeBased) && Lookup(a.timeBased, k).Some? && |a.timeBased| > 1
    ensures var was, (engine, atOnce) := Lookup(a.timeBased, k).value, UpdateMux(a, k, o);
            && (atOnce <==> (was.minInterval == o.minInterval && was.powerMode == o.powerMode)
                            || IsCovered(a.timeBased, Some(k), o))
            && if atOnce then engine == a.engine else engine.Some? && AsksFor(a.timeBased, Some(k), o, engine.value)
  {
    var other := OthersExist(a.timeBased, k);
    ScansFind(a.timeBased, Some(k), other);
    var lead, lowest := Smallest(a.timeBased, Some(k), UNSET), LowestPower(a.timeBased, Some(k), POWER_INVALID);
    var e :| e in a.timeBased && IsOther(e, Some(k)) && e.value.minInterval == lead.minInterval;
    var f :| f in a.timeBased && IsOther(f, Some(k)) && f.value.powerMode == lowest;
    assert !UpdateMux(a, k, o).1 ==> UpdateMux(a, k, o).0 == Some(Merged(lead, lowest, o));
  }

  /** A stop among others is answered at once exactly when the others cover the session, and asks the engine
      for the lead of the others at their smallest power mode otherwise. */
  lemma StopAsks(a: Adapter, k: int)
    requires Wf(a) && ValidPower(a.timeBased) && Lookup(a.timeBased, k).Some? && |a.timeBased| > 1
    ensures var was, (engine, atOnce) := Lookup(a.timeBased, k).value, StopMux(a, k);
            && (atOnce <==> IsCovered(a.timeBased, Some(k), was))
            && if atOnce then engine == a.engine
               else && engine.Some? && IsLowestPower(a.timeBased, Some(k), engine.value.powerMode)
                    && exists lead :: IsLead(a.timeBased, Some(k), lead)
                                      && engine.value == lead.(powerMode := engine.value.powerMode)
  {
    var other := OthersExist(a.timeBased, k);
    ScansFind(a.timeBased, Some(k), other);
    var lead, lowest := Smallest(a.timeBased, Some(k), UNSET), LowestPower(a.timeBased, Some(k), POWER_INVALID);
    var e :| e in a.timeBased && IsOther(e, Some(k)) && e.value.minInterval == lead.minInterval;
    var f :| f in a.timeBased && IsOther(f, Some(k)) && f.value.powerMode == lowest;
    assert !StopMux(a, k).1 ==> StopMux(a, k).0 == Some(lead.(powerMode := lowest));
  }

  /** A lone session has the engine to itself. */
  lemma LoneAsks(a: Adapter, k: int, o: Options)
    ensures a.timeBased == [] ==> StartMux(a, o) == (Some(o), false)
    ensures Lookup(a.timeBased, k).Some? && |a.timeBased| == 1 ==>
              && StopMux(a, k) == (None, false)
              && var was := Lookup(a.timeBased, k).value;
                 UpdateMux(a, k, o) == if was.minInterval == o.minInterval && was.powerMode == o.powerMode
                                       then (a.engine, true) else (Some(o), false)
  {
  }

  // ----- Power -----

  /** A start or an update that asks the engine for other options leaves it at the smallest power mode of all
      sessions, the newcomer included, if and only if the newcomer is lower than the others or the lead
      session has their lowest: the scan takes its options from the fastest session. */
  lemma PowerIff(ss: seq<Entry<Options>>, skip: Option<int>, lead: Options, lowest: nat, o: Options)
    requires IsLead(ss, skip, lead) && IsLowestPower(ss, skip, lowest)
    ensures (&& Merged(lead, lowest, o).powerMode <= o.powerMode
             && forall e :: e in ss && IsOther(e, skip) ==> Merged(lead, lowest, o).powerMode <= e.value.powerMode)
              <==> o.powerMode < lowest || lead.powerMode == lowest
  {
    var e :| e in ss && IsOther(e, skip) && e.value.powerMode == lowest;
    var i: nat :| LeadsAt(ss, skip, i) && ss[i].value == lead;
    assert ss[i] in ss;
  }

  lemma {:induction false} HighestFrom(ss: seq<Entry<Options>>, best: Options)
    requires ValidPower(ss) && forall e :: e in ss ==> e.value.size > 0
    ensures var r := HighestPower(ss, best);
            && (forall e :: e in ss ==> r.size > 0 && r.powerMode <= e.value.powerMode)
            && (best.size > 0 ==> r.size > 0 && r.powerMode <= best.powerMode)
            && (r == best || exists e :: e in ss && e.value == r)
  {
    if ss != [] {
      assert ss == [ss[0]] + ss[1..];
      HighestFrom(ss[1..], if TakesOptions(ss[0], best) then ss[0].value else best);
    }
  }

  // The location options are those of the lead session, the rest those of one with the power mode
  ghost predicate IsRestartOf(ss: seq<Entry<Options>>, o: Options) {
    && (exists lead :: IsLead(ss, None, lead) && o.size == lead.size
                       && o.minInterval == lead.minInterval && o.minDistance == lead.minDistance)
    && (exists e :: e in ss && e.value.powerMode == o.powerMode && e.value.tbm == o.tbm)
  }

  /** After an engine restart the interval and the power mode are both the smallest of all sessions. */
  lemma RestartAsks(a: Adapter)
    requires Wf(a) && ValidPower(a.timeBased)
    ensures a.timeBased == [] ==> EngineUp(a).engine == None
    ensures a.timeBased != [] ==>
              && EngineUp(a).engine.Some?
              && IsMinInterval(a.timeBased, None, EngineUp(a).engine.value.minInterval)
              && IsLowestPower(a.timeBased, None, EngineUp(a).engine.value.powerMode)
              && IsRestartOf(a.timeBased, EngineUp(a).engine.value)
    ensures EngineUp(a).timeBased == a.timeBased && EngineUp(a).distBased == a.distBased
  {
    if a.timeBased != [] {
      ScansFind(a.timeBased, None, a.timeBased[0]);
      HighestFrom(a.timeBased, UNSET);
      var lead := Smallest(a.timeBased, None, UNSET);
      assert IsLead(a.timeBased, None, lead) && EngineUp(a).engine.value.minDistance == lead.minDistance;
    }
  }

  // Session 1 is fast and at power mode 3, session 2 slow and at power mode 1
  const FAST := Options(1, 1000, 0, 3, 0)
  const THRIFTY := Options(1, 5000, 0, 1, 0)
  const FASTER := Options(1, 500, 0, 2, 0)

  /** A still faster session leaves the engine at power mode 3, although session 2 asked for 1. */
  lemma PowerIsMissed(a: Adapter)
    requires a.timeBased == [Entry(1, FAST), Entry(2, THRIFTY)]
    ensures StartMux(a, FASTER).0 == Some(Options(1, 500, 0, 3, 0))
  {
    var rest := a.timeBased[1..];
    assert rest == [Entry(2, THRIFTY)] && rest[1..] == [];
    assert Smallest([], None, FAST) == FAST && LowestPower([], None, 1) == 1;
    assert Smallest(rest, None, FAST) == Smallest(rest[1..], None, FAST);
    assert LowestPower(rest, None, 3) == LowestPower(rest[1..], None, 1);
    assert Smallest(rest, None, FAST) == FAST && LowestPower(rest, None, 3) == 1;
    assert Smallest(a.timeBased, None, UNSET) == Smallest(rest, None, FAST);
    assert LowestPower(a.timeBased, None, POWER_INVALID) == LowestPower(rest, None, 3);
    assert Smallest(a.timeBased, None, UNSET) == FAST && LowestPower(a.timeBased, None, POWER_INVALID) == 1;
  }
}
