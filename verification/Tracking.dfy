// Many time-based tracking sessions served by one engine (gps/gnss/GnssAdapter.cpp).
//
// TrackingModel is the multiplexer as a value; Tracking is the adapter the source updates in
// place, proved to do exactly that; TrackingRuns proves what every run keeps.  Engine calls
// succeed, and messages run one at a time.
module TrackingModel {
  import opened Wrappers
  import opened SortedMaps

  const MIN_TRACKING_INTERVAL := 100
  const TRACKING_TBM_THRESHOLD_MILLIS := 480000
  const POWER_INVALID := 0
  const POWER_M2 := 2
  const POWER_M4 := 4

  // size 0 marks options never set
  datatype Options = Options(size: nat, minInterval: nat, minDistance: nat, powerMode: nat, tbm: nat)

  const UNSET := Options(0, 0, 0, POWER_INVALID, 0)

  // engine holds what the last engine call started it with, None when it was stopped
  datatype Adapter = Adapter(timeBased: seq<Entry<Options>>, distBased: seq<Entry<Options>>, engine: Option<Options>)

  const INITIAL := Adapter([], [], None)

  // ----- The scans over the sessions, skipping one -----

  // The options with the smallest interval, starting from best
  function Smallest(ss: seq<Entry<Options>>, skip: Option<int>, best: Options): Options {
    if ss == [] then best
    else Smallest(ss[1..], skip, if TakesInterval(ss[0], skip, best) then ss[0].value else best)
  }

  predicate TakesInterval(e: Entry<Options>, skip: Option<int>, best: Options) {
    Some(e.key) != skip && (best.size == 0 || e.value.minInterval < best.minInterval)
  }

  function LowestPower(ss: seq<Entry<Options>>, skip: Option<int>, best: nat): nat {
    if ss == [] then best
    else LowestPower(ss[1..], skip, if TakesPower(ss[0], skip, best) then ss[0].value.powerMode else best)
  }

  predicate TakesPower(e: Entry<Options>, skip: Option<int>, best: nat) {
    Some(e.key) != skip && (best == POWER_INVALID || e.value.powerMode < best)
  }

  // The options with the highest power, as the restart after an engine failure scans for it
  function HighestPower(ss: seq<Entry<Options>>, best: Options): Options {
    if ss == [] then best else HighestPower(ss[1..], if TakesOptions(ss[0], best) then ss[0].value else best)
  }

  predicate TakesOptions(e: Entry<Options>, best: Options) {
    best.size == 0 || (e.value.powerMode != POWER_INVALID && e.value.powerMode < best.powerMode)
  }

  // ----- Clamping -----

  function Clamped(o: Options): Options {
    if o.minInterval < MIN_TRACKING_INTERVAL then o.(minInterval := MIN_TRACKING_INTERVAL) else o
  }

  function PowerChecked(o: Options): Options {
    if o.powerMode == POWER_M4 && o.tbm > TRACKING_TBM_THRESHOLD_MILLIS then o.(powerMode := POWER_M2) else o
  }

  // ----- The multiplexer -----

  // Each returns the engine's new options and whether the client is told at once
  function StartMux(a: Adapter, o: Options): (Option<Options>, bool) {
    if a.timeBased == [] then (Some(o), false)
    else
      var best := Smallest(a.timeBased, None, UNSET);
      var power := LowestPower(a.timeBased, None, POWER_INVALID);
      var m := if o.minInterval < best.minInterval then best.(minInterval := o.minInterval) else best;
      var m' := if o.powerMode < power then m.(powerMode := o.powerMode) else m;
      if o.minInterval < best.minInterval || o.powerMode < power then (Some(m'), false) else (a.engine, true)
  }

  function UpdateMux(a: Adapter, k: int, o: Options): (Option<Options>, bool)
    requires Lookup(a.timeBased, k).Some?
  {
    var was := Lookup(a.timeBased, k).value;
    if was.minInterval == o.minInterval && was.powerMode == o.powerMode then (a.engine, true)
    else
      var best := Smallest(a.timeBased, Some(k), UNSET);
      var power := LowestPower(a.timeBased, Some(k), POWER_INVALID);
      var m := if o.minInterval < best.minInterval then best.(minInterval := o.minInterval) else best;
      var m' := if o.powerMode < power then m.(powerMode := o.powerMode) else m;
      if |a.timeBased| == 1 then (Some(o), false)
      else if o.minInterval < best.minInterval || o.powerMode < power then (Some(m'), false)
      else (a.engine, true)
  }

  function StopMux(a: Adapter, k: int): (Option<Options>, bool)
    requires Lookup(a.timeBased, k).Some?
  {
    if |a.timeBased| == 1 then (None, false)
    else
      var was := Lookup(a.timeBased, k).value;
      var best := Smallest(a.timeBased, Some(k), UNSET);
      var power := LowestPower(a.timeBased, Some(k), POWER_INVALID);
      if was.minInterval < best.minInterval || was.powerMode < power
      then (Some(best.(powerMode := power)), false)
      else (a.engine, true)
  }

  // ----- The commands -----

  // supported: the modem can do distance-based tracking
  function SaveSession(a: Adapter, k: int, o: Options, supported: bool): Adapter {
    if o.minDistance > 0 && supported then a.(distBased := Saved(a.distBased, k, o))
    else a.(timeBased := Saved(a.timeBased, k, o))
  }

  function EraseSession(a: Adapter, k: int): Adapter {
    if Lookup(a.timeBased, k).Some? then a.(timeBased := Removed(a.timeBased, k))
    else a.(distBased := Removed(a.distBased, k))
  }

  function Start(a: Adapter, k: int, opts: Options, hasCallback: bool, supported: bool): Adapter {
    if !hasCallback || opts.size == 0 then a
    else
      var o := Clamped(opts);
      if o.minDistance > 0 && supported then SaveSession(a, k, o, supported)
      else
        var p := PowerChecked(o);
        SaveSession(a.(engine := StartMux(a, p).0), k, p, supported)
  }

  function Update(a: Adapter, k: int, opts: Options, supported: bool): Adapter {
    var isTimeBased, isDistBased := Lookup(a.timeBased, k).Some?, Lookup(a.distBased, k).Some?;
    if (!isTimeBased && !isDistBased) || opts.size == 0 then a
    else
      var o := Clamped(PowerChecked(opts));
      if isTimeBased && o.minDistance > 0 then
        SaveSession(EraseSession(a.(engine := StopMux(a, k).0), k), k, o, supported)
      else if isDistBased && o.minDistance == 0 then
        var b := EraseSession(a, k);
        SaveSession(b.(engine := StartMux(b, o).0), k, o, supported)
      else if isTimeBased then
        SaveSession(a.(engine := UpdateMux(a, k, o).0), k, o, supported)
      else SaveSession(a, k, o, supported)
  }

  function Stop(a: Adapter, k: int): Adapter {
    if Lookup(a.timeBased, k).Some? then EraseSession(a.(engine := StopMux(a, k).0), k)
    else if Lookup(a.distBased, k).Some? then EraseSession(a, k)
    else a
  }

  // The engine comes back up stopped and restartSessions starts it again
  function EngineUp(a: Adapter): Adapter {
    if a.timeBased == [] then a.(engine := None)
    else
      var s := Smallest(a.timeBased, None, UNSET);
      a.(engine := Some(HighestPower(a.timeBased, UNSET).(
                          size := s.size, minInterval := s.minInterval, minDistance := s.minDistance)))
  }
}

module Tracking {
  import opened Wrappers
  import opened SortedMaps
  import opened TrackingModel

  class GnssAdapter {
    var mTimeBasedTrackingSessions: seq<Entry<Options>>
    var mDistanceBasedTrackingSessions: seq<Entry<Options>>
    var mEngine: Option<Options>
    const supported: bool

    ghost function View(): Adapter
      reads this
    {
      Adapter(mTimeBasedTrackingSessions, mDistanceBasedTrackingSessions, mEngine)
    }

    constructor (supported: bool)
      ensures View() == INITIAL && this.supported == supported
    {
      mTimeBasedTrackingSessions, mDistanceBasedTrackingSessions, mEngine := [], [], None;
      this.supported := supported;
    }

    method ScanSessions(skip: Option<int>) returns (best: Options, power: nat)
      ensures best == Smallest(mTimeBasedTrackingSessions, skip, UNSET)
      ensures power == LowestPower(mTimeBasedTrackingSessions, skip, POWER_INVALID)
    {
      best, power := UNSET, POWER_INVALID;
      ghost var rest := mTimeBasedTrackingSessions;
      for it := 0 to |mTimeBasedTrackingSessions|
        invariant rest == mTimeBasedTrackingSessions[it..]
        invariant Smallest(rest, skip, best) == Smallest(mTimeBasedTrackingSessions, skip, UNSET)
        invariant LowestPower(rest, skip, power) == LowestPower(mTimeBasedTrackingSessions, skip, POWER_INVALID)
      {
        var e := mTimeBasedTrackingSessions[it];
        if TakesInterval(e, skip, best) {
          best := e.value;
        }
        if TakesPower(e, skip, power) {
          power := e.value.powerMode;
        }
        rest := rest[1..];
      }
    }

    method Find(k: int) returns (o: Option<Options>)
      ensures o == Lookup(mTimeBasedTrackingSessions, k)
    {
      ghost var rest := mTimeBasedTrackingSessions;
      for it := 0 to |mTimeBasedTrackingSessions|
        invariant rest == mTimeBasedTrackingSessions[it..] && Lookup(rest, k) == Lookup(mTimeBasedTrackingSessions, k)
      {
        if mTimeBasedTrackingSessions[it].key == k {
          return Some(mTimeBasedTrackingSessions[it].value);
        }
        rest := rest[1..];
      }
      return None;
    }

    method StartTimeBasedTracking(o: Options)
      modifies this`mEngine
      ensures mEngine == Some(o)
    {
      mEngine := Some(o);
    }

    method StartTimeBasedTrackingMultiplex(o: Options) returns (noWait: bool)
      modifies this`mEngine
      ensures (mEngine, noWait) == StartMux(old(View()), o)
    {
      noWait := true;
      if mTimeBasedTrackingSessions == [] {
        StartTimeBasedTracking(o);
        noWait := false;
      } else {
        var multiplexed, power := ScanSessions(None);
        var updateOptions := false;
        if o.minInterval < multiplexed.minInterval {
          multiplexed := multiplexed.(minInterval := o.minInterval);
          updateOptions := true;
        }
        if o.powerMode < power {
          multiplexed := multiplexed.(powerMode := o.powerMode);
          updateOptions := true;
        }
        if updateOptions {
          StartTimeBasedTracking(multiplexed);
          noWait := false;
        }
      }
    }

    method UpdateTrackingMultiplex(k: int, o: Options) returns (noWait: bool)
      requires Lookup(mTimeBasedTrackingSessions, k).Some?
      modifies this`mEngine
      ensures (mEngine, noWait) == UpdateMux(old(View()), k, o)
    {
      noWait := true;
      var it := Find(k);
      if it.value.minInterval != o.minInterval || it.value.powerMode != o.powerMode {
        var multiplexed, power := ScanSessions(Some(k));
        var updateOptions := false;
        if o.minInterval < multiplexed.minInterval {
          multiplexed := multiplexed.(minInterval := o.minInterval);
          updateOptions := true;
        }
        if o.powerMode < power {
          multiplexed := multiplexed.(powerMode := o.powerMode);
          updateOptions := true;
        }
        if |mTimeBasedTrackingSessions| == 1 {
          multiplexed := o;
          updateOptions := true;
        }
        if updateOptions {
          StartTimeBasedTracking(multiplexed);
          noWait := false;
        }
      }
    }

    method StopTimeBasedTrackingMultiplex(k: int) returns (noWait: bool)
      requires Lookup(mTimeBasedTrackingSessions, k).Some?
      modifies this`mEngine
      ensures (mEngine, noWait) == StopMux(old(View()), k)
    {
      noWait := true;
      if |mTimeBasedTrackingSessions| == 1 {
        mEngine := None;
        noWait := false;
      } else {
        var it := Find(k);
        var multiplexed, power := ScanSessions(Some(k));
        if it.value.minInterval < multiplexed.minInterval || it.value.powerMode < power {
          StartTimeBasedTracking(multiplexed.(powerMode := power));
          noWait := false;
        }
      }
    }

    method SaveTrackingSession(k: int, o: Options)
      modifies this
      ensures View() == SaveSession(old(View()), k, o, supported)
    {
      if o.minDistance > 0 && supported {
        mDistanceBasedTrackingSessions := Saved(mDistanceBasedTrackingSessions, k, o);
      } else {
        mTimeBasedTrackingSessions := Saved(mTimeBasedTrackingSessions, k, o);
      }
    }

    method EraseTrackingSession(k: int)
      modifies this
      ensures View() == EraseSession(old(View()), k)
    {
      var it := Find(k);
      if it.Some? {
        mTimeBasedTrackingSessions := Removed(mTimeBasedTrackingSessions, k);
      } else {
        mDistanceBasedTrackingSessions := Removed(mDistanceBasedTrackingSessions, k);
      }
    }

    method StartTracking(k: int, opts: Options, hasCallback: bool)
      modifies this
      ensures View() == Start(old(View()), k, opts, hasCallback, supported)
    {
      if !hasCallback || opts.size == 0 {
        return;
      }
      var o := Clamped(opts);
      if o.minDistance > 0 && supported {
        SaveTrackingSession(k, o);
      } else {
        o := PowerChecked(o);
        var noWait := StartTimeBasedTrackingMultiplex(o);
        SaveTrackingSession(k, o);
      }
    }

    method UpdateTracking(k: int, opts: Options)
      modifies this
      ensures View() == Update(old(View()), k, opts, supported)
    {
      var found := Find(k);
      var isTimeBased, isDistBased := found.Some?, Lookup(mDistanceBasedTrackingSessions, k).Some?;
      if (!isTimeBased && !isDistBased) || opts.size == 0 {
        return;
      }
      var noWait;
      var o := Clamped(PowerChecked(opts));
      if isTimeBased && o.minDistance > 0 {
        noWait := StopTimeBasedTrackingMultiplex(k);
        EraseTrackingSession(k);
        SaveTrackingSession(k, o);
      } else if isDistBased && o.minDistance == 0 {
        EraseTrackingSession(k);
        noWait := StartTimeBasedTrackingMultiplex(o);
        SaveTrackingSession(k, o);
      } else if isTimeBased {
        noWait := UpdateTrackingMultiplex(k, o);
        SaveTrackingSession(k, o);
      } else {
        SaveTrackingSession(k, o);
      }
    }

    method StopTracking(k: int)
      modifies this
      ensures View() == Stop(old(View()), k)
    {
      var found := Find(k);
      if found.Some? {
        var noWait := StopTimeBasedTrackingMultiplex(k);
        EraseTrackingSession(k);
      } else if Lookup(mDistanceBasedTrackingSessions, k).Some? {
        EraseTrackingSession(k);
      }
    }

    /** The sessions with a distance are requested again in key order; the time-based ones share the
        engine. */
    method RestartSessions() returns (requested: seq<Entry<Options>>)
      modifies this`mEngine
      ensures View() == EngineUp(old(View())) && requested == mDistanceBasedTrackingSessions
    {
      mEngine := None;
      if mTimeBasedTrackingSessions != [] {
        RestartTimeBased();
      }
      requested := [];
      for it := 0 to |mDistanceBasedTrackingSessions|
        invariant requested == mDistanceBasedTrackingSessions[..it]
      {
        requested := requested + [mDistanceBasedTrackingSessions[it]];
      }
    }

    method RestartTimeBased()
      requires mTimeBasedTrackingSessions != []
      modifies this`mEngine
      ensures View() == EngineUp(old(View()))
    {
      var smallest, highest := UNSET, UNSET;
      ghost var rest := mTimeBasedTrackingSessions;
      for it := 0 to |mTimeBasedTrackingSessions|
        invariant rest == mTimeBasedTrackingSessions[it..]
        invariant Smallest(rest, None, smallest) == Smallest(mTimeBasedTrackingSessions, None, UNSET)
        invariant HighestPower(rest, highest) == HighestPower(mTimeBasedTrackingSessions, UNSET)
      {
        var e := mTimeBasedTrackingSessions[it];
        if TakesInterval(e, None, smallest) {
          smallest := e.value;
        }
        if TakesOptions(e, highest) {
          highest := e.value;
        }
        rest := rest[1..];
      }
      StartTimeBasedTracking(highest.(size := smallest.size, minInterval := smallest.minInterval,
                                      minDistance := smallest.minDistance));
    }
  }
}
