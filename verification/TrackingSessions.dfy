// Which sessions the tracking adapter holds, with which options, and what the multiplexer asks of the engine
// for them beyond the interval.
module TrackingSessions {
  import opened Wrappers
  import opened SortedMaps
  import opened TrackingModel
  import opened TrackingRuns

  // ----- The history of one session -----

  function AtLeast100(o: Options): Options {
    Options(o.size, if o.minInterval < 100 then 100 else o.minInterval, o.minDistance, o.powerMode, o.tbm)
  }

  // M4 needs a time between measurements of at most 480 seconds, and becomes M2 otherwise
  function Affordable(o: Options): Options {
    Options(o.size, o.minInterval, o.minDistance, if o.powerMode == 4 && o.tbm > 480000 then 2 else o.powerMode, o.tbm)
  }

  predicate ByDistance(o: Options, supported: bool) {
    o.minDistance > 0 && supported
  }

  // What one step makes of what a session was held with
  function HeldAfter(held: Option<Options>, act: Action, k: int, supported: bool): Option<Options> {
    match act
    case StartAct(j, o, hasCallback) =>
      if j != k || !hasCallback || o.size == 0 then held
      else Some(if ByDistance(o, supported) then AtLeast100(o) else Affordable(AtLeast100(o)))
    case UpdateAct(j, o) =>
      if j != k || held.None? || o.size == 0 then held else Some(Affordable(AtLeast100(o)))
    case StopAct(j) => if j == k then None else held
    case EngineUpAct => held
  }

  function Held(acts: seq<Action>, k: int, supported: bool): Option<Options> {
    if acts == [] then None
    else HeldAfter(Held(acts[..|acts| - 1], k, supported), acts[|acts| - 1], k, supported)
  }

  // The session is listed as held, by distance or by time
  predicate HoldsFor(a: Adapter, held: Option<Options>, k: int, supported: bool) {
    && Lookup(a.distBased, k) == (if held.Some? && ByDistance(held.value, supported) then held else None)
    && Lookup(a.timeBased, k) == (if held.Some? && !ByDistance(held.value, supported) then held else None)
  }

  predicate StartsNew(a: Adapter, act: Action) {
    act.StartAct? ==> Lookup(a.timeBased, act.key) == None && Lookup(a.distBased, act.key) == None
  }

  ghost predicate BothSorted(a: Adapter) {
    Sorted(a.timeBased) && Sorted(a.distBased)
  }

  lemma StepSorted(a: Adapter, act: Action, supported: bool)
    requires BothSorted(a)
    ensures BothSorted(Do(a, act, supported))
  {
    if !act.EngineUpAct? {
      var k := act.key;
      RemovedMeaning(a.timeBased, k);
      RemovedMeaning(a.distBased, k);
      forall o: Options
        ensures Sorted(Saved(a.timeBased, k, o)) && Sorted(Saved(a.distBased, k, o))
        ensures Sorted(Saved(Removed(a.timeBased, k), k, o)) && Sorted(Saved(Removed(a.distBased, k), k, o))
      {
        SavedMeaning(a.timeBased, k, o);
        SavedMeaning(a.distBased, k, o);
        SavedMeaning(Removed(a.timeBased, k), k, o);
        SavedMeaning(Removed(a.distBased, k), k, o);
      }
    }
  }

  lemma SaveHolds(a: Adapter, k: int, o: Options, supported: bool, j: int)
    ensures var b := SaveSession(a, k, o, supported);
            var byDistance := ByDistance(o, supported);
            && Lookup(b.distBased, j) == (if j == k && byDistance then Some(o) else Lookup(a.distBased, j))
            && Lookup(b.timeBased, j) == (if j == k && !byDistance then Some(o) else Lookup(a.timeBased, j))
  {
    LookupSaved(a.distBased, k, o, j);
    LookupSaved(a.timeBased, k, o, j);
  }

  lemma EraseHolds(a: Adapter, k: int, j: int)
    requires BothSorted(a) && (Lookup(a.timeBased, k) == None || Lookup(a.distBased, k) == None)
    ensures var b := EraseSession(a, k);
            && Lookup(b.distBased, j) == (if j == k then None else Lookup(a.distBased, j))
            && Lookup(b.timeBased, j) == (if j == k then None else Lookup(a.timeBased, j))
  {
    LookupRemoved(a.distBased, k, j);
    LookupRemoved(a.timeBased, k, j);
  }

  lemma StartHolds(a: Adapter, held: Option<Options>, act: Action, supported: bool, k: int)
    requires act.StartAct? && HoldsFor(a, held, k, supported) && StartsNew(a, act)
    ensures HoldsFor(Do(a, act, supported), HeldAfter(held, act, k, supported), k, supported)
  {
    if act.hasCallback && act.opts.size > 0 {
      var o := Clamped(act.opts);
      var p := if ByDistance(o, supported) then o else PowerChecked(o);
      var b := if ByDistance(o, supported) then a else a.(engine := StartMux(a, p).0);
      SaveHolds(b, act.key, p, supported, k);
    }
  }

  lemma UpdateHolds(a: Adapter, held: Option<Options>, own: Option<Options>, act: Action, supported: bool, k: int)
    requires act.UpdateAct? && BothSorted(a)
    requires HoldsFor(a, held, k, supported) && HoldsFor(a, own, act.key, supported)
    ensures HoldsFor(Do(a, act, supported), HeldAfter(held, act, k, supported), k, supported)
  {
    var j, o := act.key, Clamped(PowerChecked(act.opts));
    if own.Some? && act.opts.size > 0 {
      if ByDistance(own.value, supported) {
        var b := EraseSession(a, j);
        EraseHolds(a, j, k);
        if o.minDistance == 0 {
          SaveHolds(b.(engine := StartMux(b, o).0), j, o, supported, k);
        } else {
          SaveHolds(a, j, o, supported, k);
        }
      } else if o.minDistance > 0 {
        var b := a.(engine := StopMux(a, j).0);
        EraseHolds(b, j, k);
        SaveHolds(EraseSession(b, j), j, o, supported, k);
      } else {
        SaveHolds(a.(engine := UpdateMux(a, j, o).0), j, o, supported, k);
      }
    }
  }

  lemma StopHolds(a: Adapter, held: Option<Options>, own: Option<Options>, act: Action, supported: bool, k: int)
    requires act.StopAct? && BothSorted(a)
    requires HoldsFor(a, held, k, supported) && HoldsFor(a, own, act.key, supported)
    ensures HoldsFor(Do(a, act, supported), HeldAfter(held, act, k, supported), k, supported)
  {
    var j := act.key;
    if own.Some? {
      if ByDistance(own.value, supported) {
        EraseHolds(a, j, k);
      } else {
        EraseHolds(a.(engine := StopMux(a, j).0), j, k);
      }
    }
  }

  /** A stop takes the session out of both maps and no other. */
  lemma StopErases(a: Adapter, k: int, j: int)
    requires BothSorted(a) && (Lookup(a.timeBased, k) == None || Lookup(a.distBased, k) == None)
    ensures Lookup(Stop(a, k).timeBased, j) == if j == k then None else Lookup(a.timeBased, j)
    ensures Lookup(Stop(a, k).distBased, j) == if j == k then None else Lookup(a.distBased, j)
  {
    if Lookup(a.timeBased, k).Some? {
      EraseHolds(a.(engine := StopMux(a, k).0), k, j);
    } else {
      EraseHolds(a, k, j);
    }
  }

  lemma StepHolds(a: Adapter, held: Option<Options>, own: Option<Options>, act: Action, supported: bool, k: int)
    requires BothSorted(a) && HoldsFor(a, held, k, supported) && StartsNew(a, act)
    requires !act.EngineUpAct? ==> HoldsFor(a, own, act.key, supported)
    ensures HoldsFor(Do(a, act, supported), HeldAfter(held, act, k, supported), k, supported)
  {
    match act
    case StartAct(_, _, _) => StartHolds(a, held, act, supported, k);
    case UpdateAct(_, _) => UpdateHolds(a, held, own, act, supported, k);
    case StopAct(_) => StopHolds(a, held, own, act, supported, k);
    case EngineUpAct =>
  }

  // Every started session has a new key, as generateSessionId gives it
  predicate FreshStarts(acts: seq<Action>, supported: bool) {
    acts == [] ||
    (FreshStarts(acts[..|acts| - 1], supported) && StartsNew(Run(acts[..|acts| - 1], supported), acts[|acts| - 1]))
  }

  /** In every run the adapter holds exactly the sessions whose start was accepted and which have not been
      stopped since, each in the map of its kind, with the adjusted options of its last start or update. */
  lemma {:induction false} SessionsAreHeld(acts: seq<Action>, supported: bool, k: int)
    requires FreshStarts(acts, supported)
    ensures HoldsFor(Run(acts, supported), Held(acts, k, supported), k, supported)
    ensures BothSorted(Run(acts, supported))
  {
    if acts != [] {
      var init, last := acts[..|acts| - 1], acts[|acts| - 1];
      var own := if last.EngineUpAct? then k else last.key;
      SessionsAreHeld(init, supported, k);
      SessionsAreHeld(init, supported, own);
      StepHolds(Run(init, supported), Held(init, k, supported), Held(init, own, supported), last, supported, k);
      StepSorted(Run(init, supported), last, supported);
    }
  }
}
