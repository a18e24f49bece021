// Trip distances in the batching adapter (gps/batching/BatchingAdapter.cpp): several trips share one
// engine batch, whose distance counter starts over at every restart.
//
// Distances are 32-bit unsigned and wrap around.
module TripModel {
  import opened Wrappers
  import opened SortedMaps

  const MOD := 0x1_0000_0000

  type Word = w: int | 0 <= w < 0x1_0000_0000

  function Wrap(n: int): Word {
    n % MOD
  }

  // onRestart is the trip's distance when the current batch started, ongoingBatch where in that
  // batch the trip joined, thisTrip its distance when it was last computed
  datatype Trip = Trip(ongoingBatch: Word, thisTrip: Word, onRestart: Word, tripDistance: Word, tbf: Word)

  datatype Adapter = Adapter(trips: seq<Entry<Trip>>, ongoingDistance: Word, ongoingTbf: Word,
                             tbfDropped: bool, distanceDropped: bool)

  const INITIAL := Adapter([], 0, 0, false, false)

  // The trip's distance when the batch counter reads dist
  function DistanceAt(t: Trip, dist: Word): Word {
    Wrap(t.onRestart + Wrap(dist - t.ongoingBatch))
  }

  function Measured(t: Trip, dist: Word): Trip {
    t.(thisTrip := DistanceAt(t, dist))
  }

  predicate IsComplete(t: Trip, dist: Word) {
    t.tripDistance <= DistanceAt(t, dist)
  }

  // ----- A distance report -----

  function StillOpen(ts: seq<Entry<Trip>>, dist: Word): seq<Entry<Trip>> {
    if ts == [] then []
    else if IsComplete(ts[0].value, dist) then StillOpen(ts[1..], dist)
    else [Entry(ts[0].key, Measured(ts[0].value, dist))] + StillOpen(ts[1..], dist)
  }

  function Completed(ts: seq<Entry<Trip>>, dist: Word): seq<int> {
    if ts == [] then []
    else if IsComplete(ts[0].value, dist) then [ts[0].key] + Completed(ts[1..], dist)
    else Completed(ts[1..], dist)
  }

  // A completed trip had the running interval, or the running distance
  predicate DropsTbf(ts: seq<Entry<Trip>>, dist: Word, tbf: Word) {
    ts != [] && ((IsComplete(ts[0].value, dist) && ts[0].value.tbf == tbf) || DropsTbf(ts[1..], dist, tbf))
  }

  predicate DropsDistance(ts: seq<Entry<Trip>>, dist: Word, distance: Word) {
    ts != [] &&
    ((IsComplete(ts[0].value, dist) && ts[0].value.tripDistance == distance) || DropsDistance(ts[1..], dist, distance))
  }

  // The adapter once the completed trips have left it
  function Swept(a: Adapter, acc: Word): Adapter {
    Adapter(StillOpen(a.trips, acc), a.ongoingDistance, a.ongoingTbf,
            a.tbfDropped || DropsTbf(a.trips, acc, a.ongoingTbf),
            a.distanceDropped || DropsDistance(a.trips, acc, a.ongoingDistance))
  }

  // ----- Restarting the batch -----

  // What the trip had left when its distance was last computed
  function Remaining(t: Trip): Word {
    Wrap(t.tripDistance - t.thisTrip)
  }

  function MinRemaining(ts: seq<Entry<Trip>>, best: Word): Word {
    if ts == [] then best
    else
      var left := Remaining(ts[0].value);
      MinRemaining(ts[1..], if best == 0 || best > left then left else best)
  }

  function MinTbf(ts: seq<Entry<Trip>>, best: Word): Word {
    if ts == [] then best else MinTbf(ts[1..], if best == 0 || best > ts[0].value.tbf then ts[0].value.tbf else best)
  }

  predicate NewDistance(a: Adapter, acc: Word) {
    var remaining, toGo := MinRemaining(a.trips, 0), Wrap(a.ongoingDistance - acc);
    if !a.distanceDropped && toGo != 0 then remaining < toGo else remaining != 0
  }

  predicate NewInterval(a: Adapter) {
    var tbf := MinTbf(a.trips, 0);
    tbf < a.ongoingTbf || (tbf != a.ongoingTbf && a.tbfDropped)
  }

  // The batch's new trip distance and interval, or None when it goes on as it is
  function NewBatch(a: Adapter, acc: Word): Option<(Word, Word)> {
    if NewDistance(a, acc) || NewInterval(a)
    then Some((if NewDistance(a, acc) then MinRemaining(a.trips, 0) else a.ongoingDistance,
               if NewInterval(a) then MinTbf(a.trips, 0) else a.ongoingTbf))
    else None
  }

  // Every trip's distance so far, counted from a batch that starts over at acc
  function Rebased(ts: seq<Entry<Trip>>, acc: Word): seq<Entry<Trip>> {
    if ts == [] then []
    else
      var d := DistanceAt(ts[0].value, acc);
      [Entry(ts[0].key, ts[0].value.(thisTrip := d, ongoingBatch := 0, onRestart := d))] + Rebased(ts[1..], acc)
  }

  // The new adapter, and whether the engine's batch was restarted
  function Restart(a: Adapter, acc: Word): (Adapter, bool) {
    if a.trips == [] then (a.(ongoingDistance := 0, ongoingTbf := 0), false)
    else
      match NewBatch(a, acc)
      case Some((dist, tbf)) => (a.(trips := Rebased(a.trips, acc), ongoingDistance := dist, ongoingTbf := tbf), true)
      case None => (a, false)
  }

  function Report(a: Adapter, acc: Word): (Adapter, seq<int>, bool) {
    var b, ids := Swept(a, acc), Completed(a.trips, acc);
    if ids == [] then (b, ids, false) else (Restart(b, acc).0, ids, Restart(b, acc).1)
  }

  // The adapter once the trip has left it
  function Departed(a: Adapter, id: int): Adapter
    requires Lookup(a.trips, id).Some?
  {
    var t := Lookup(a.trips, id).value;
    a.(trips := Removed(a.trips, id),
       tbfDropped := a.tbfDropped || t.tbf == a.ongoingTbf,
       distanceDropped := a.distanceDropped || t.tripDistance == a.ongoingDistance)
  }

  // acc is what the engine answers to the distance query
  function StopTrip(a: Adapter, id: int, acc: Word): (Adapter, bool)
    requires Lookup(a.trips, id).Some?
  {
    Restart(Departed(a, id), acc)
  }

  // Joining does not need a restart when the running batch is fast and short enough
  predicate JoinsQuietly(a: Adapter, distance: Word, tbf: Word, acc: Word) {
    a.ongoingTbf <= tbf && Wrap(a.ongoingDistance - acc) <= distance
  }

  // A restart for a joining trip starts every trip from its last computed distance
  function RebasedStale(ts: seq<Entry<Trip>>): seq<Entry<Trip>> {
    if ts == [] then []
    else
      [Entry(ts[0].key, ts[0].value.(ongoingBatch := 0, onRestart := ts[0].value.thisTrip))] + RebasedStale(ts[1..])
  }

  function StartTrip(a: Adapter, id: int, distance: Word, tbf: Word, acc: Word): (Adapter, bool) {
    if a.trips == [] then
      (a.(trips := [Entry(id, Trip(0, 0, 0, distance, tbf))], ongoingDistance := distance, ongoingTbf := tbf), true)
    else
      var b := a.(trips := Saved(a.trips, id, Trip(acc, 0, 0, distance, tbf)));
      if JoinsQuietly(a, distance, tbf, acc) then (b, false)
      else
        var left := Wrap(a.ongoingDistance - acc);
        (b.(trips := RebasedStale(b.trips),
            ongoingDistance := if distance < left then distance else left,
            ongoingTbf := if a.ongoingTbf > tbf then tbf else a.ongoingTbf), true)
  }

  // When the distance query of a joining trip fails, the trip is not saved, but a batch that is slower or
  // longer than it asked for starts over all the same
  function StartUnmeasured(a: Adapter, distance: Word, tbf: Word): (Adapter, bool) {
    if a.ongoingTbf <= tbf && a.ongoingDistance <= distance then (a, false)
    else
      (a.(trips := RebasedStale(a.trips),
          ongoingDistance := if distance < a.ongoingDistance then distance else a.ongoingDistance,
          ongoingTbf := if a.ongoingTbf > tbf then tbf else a.ongoingTbf), true)
  }
}

module Trips {
  import opened Wrappers
  import opened SortedMaps
  import opened Sequences
  import opened TripModel

  class BatchingAdapter {
    var mTripSessions: seq<Entry<Trip>>
    var mOngoingTripDistance: Word
    var mOngoingTripTBFInterval: Word
    var mTripWithOngoingTBFDropped: bool
    var mTripWithOngoingTripDistanceDropped: bool

    ghost function View(): Adapter
      reads this
    {
      Adapter(mTripSessions, mOngoingTripDistance, mOngoingTripTBFInterval,
              mTripWithOngoingTBFDropped, mTripWithOngoingTripDistanceDropped)
    }

    constructor ()
      ensures View() == INITIAL
    {
      mTripSessions, mOngoingTripDistance, mOngoingTripTBFInterval := [], 0, 0;
      mTripWithOngoingTBFDropped, mTripWithOngoingTripDistanceDropped := false, false;
    }

    /** A distance report: trips that have reached their distance leave the map and are reported;
        if there are any, the batch is restarted for the rest as need be. */
    method ReportCompletedTrips(acc: Word) returns (completed: seq<int>, restarted: bool)
      modifies this
      ensures (View(), completed, restarted) == Report(old(View()), acc)
    {
      completed := SweepCompleted(acc);
      restarted := false;
      if |completed| > 0 {
        restarted := RestartTripBatching(acc);
      }
    }

    method SweepCompleted(acc: Word) returns (completed: seq<int>)
      modifies this
      ensures completed == Completed(old(mTripSessions), acc) && View() == Swept(old(View()), acc)
    {
      completed := [];
      var itt := 0;
      ghost var rest := mTripSessions;
      while itt < |mTripSessions|
        invariant 0 <= itt <= |mTripSessions| && rest == mTripSessions[itt..]
        invariant mTripSessions[..itt] + StillOpen(rest, acc) == StillOpen(old(mTripSessions), acc)
        invariant completed + Completed(rest, acc) == Completed(old(mTripSessions), acc)
        invariant mOngoingTripDistance == old(mOngoingTripDistance)
        invariant mOngoingTripTBFInterval == old(mOngoingTripTBFInterval)
        invariant mTripWithOngoingTBFDropped || DropsTbf(rest, acc, mOngoingTripTBFInterval) <==>
                  old(mTripWithOngoingTBFDropped) || DropsTbf(old(mTripSessions), acc, mOngoingTripTBFInterval)
        invariant mTripWithOngoingTripDistanceDropped || DropsDistance(rest, acc, mOngoingTripDistance) <==>
                  || old(mTripWithOngoingTripDistanceDropped)
                  || DropsDistance(old(mTripSessions), acc, mOngoingTripDistance)
        decreases |rest|
      {
        SweepStep(mTripSessions, itt, completed, acc);
        var e := mTripSessions[itt];
        var trip := Measured(e.value, acc);
        if trip.tripDistance <= trip.thisTrip {
          completed := completed + [e.key];
          mTripSessions := mTripSessions[..itt] + mTripSessions[itt + 1..];
          if trip.tbf == mOngoingTripTBFInterval {
            mTripWithOngoingTBFDropped := true;
          }
          if trip.tripDistance == mOngoingTripDistance {
            mTripWithOngoingTripDistanceDropped := true;
          }
        } else {
          mTripSessions := mTripSessions[itt := Entry(e.key, trip)];
          itt := itt + 1;
        }
        rest := rest[1..];
      }
    }

    static lemma SweepStep(ts: seq<Entry<Trip>>, k: nat, completed: seq<int>, acc: Word)
      requires k < |ts|
      ensures var e, later := ts[k], ts[k + 1..];
              if IsComplete(e.value, acc) then
                && ts[..k] + later == (ts[..k] + later)[..k] + (ts[..k] + later)[k..]
                && (ts[..k] + later)[..k] == ts[..k] && (ts[..k] + later)[k..] == later
                && StillOpen(ts[k..], acc) == StillOpen(later, acc)
                && completed + Completed(ts[k..], acc) == (completed + [e.key]) + Completed(later, acc)
              else
                var kept := Entry(e.key, Measured(e.value, acc));
                && ts[k := kept][..k + 1] == ts[..k] + [kept] && ts[k := kept][k + 1..] == later
                && ts[..k] + StillOpen(ts[k..], acc) == (ts[..k] + [kept]) + StillOpen(later, acc)
                && Completed(ts[k..], acc) == Completed(later, acc)
    {
      var e, later := ts[k], ts[k + 1..];
      assert ts[k..][1..] == later;
      Associate(completed, [e.key], Completed(later, acc));
      Associate(ts[..k], [Entry(e.key, Measured(e.value, acc))], StillOpen(later, acc));
    }

    /** restartTripBatching and the handler of its restart: acc is the batch distance at the time. */
    method RestartTripBatching(acc: Word) returns (restarted: bool)
      modifies this
      ensures (View(), restarted) == Restart(old(View()), acc)
    {
      restarted := false;
      if mTripSessions == [] {
        mOngoingTripDistance, mOngoingTripTBFInterval := 0, 0;
        return;
      }
      var minRemaining: Word, minTbf: Word := 0, 0;
      ghost var rest := mTripSessions;
      for itt := 0 to |mTripSessions|
        invariant rest == mTripSessions[itt..]
        invariant MinRemaining(rest, minRemaining) == MinRemaining(mTripSessions, 0)
        invariant MinTbf(rest, minTbf) == MinTbf(mTripSessions, 0)
      {
        var trip := mTripSessions[itt].value;
        var left := Remaining(trip);
        if minRemaining == 0 || minRemaining > left {
          minRemaining := left;
        }
        if minTbf == 0 || minTbf > trip.tbf {
          minTbf := trip.tbf;
        }
        rest := rest[1..];
      }
      var needsRestart := false;
      var distance, interval := mOngoingTripDistance, mOngoingTripTBFInterval;
      if !mTripWithOngoingTripDistanceDropped && Wrap(distance - acc) != 0 {
        if minRemaining < Wrap(distance - acc) {
          distance, needsRestart := minRemaining, true;
        }
      } else if minRemaining != 0 {
        distance, needsRestart := minRemaining, true;
      }
      if minTbf < interval || (minTbf != interval && mTripWithOngoingTBFDropped) {
        interval, needsRestart := minTbf, true;
      }
      if needsRestart {
        RebaseTrips(acc);
        mOngoingTripDistance, mOngoingTripTBFInterval := distance, interval;
        restarted := true;
      }
    }

    method RebaseTrips(acc: Word)
      modifies this`mTripSessions
      ensures mTripSessions == Rebased(old(mTripSessions), acc)
    {
      ghost var rest := mTripSessions;
      for itt := 0 to |mTripSessions|
        invariant |mTripSessions| == |old(mTripSessions)| && rest == mTripSessions[itt..]
        invariant mTripSessions[..itt] + Rebased(rest, acc) == Rebased(old(mTripSessions), acc)
      {
        var e := mTripSessions[itt];
        var d := DistanceAt(e.value, acc);
        var moved := Entry(e.key, e.value.(thisTrip := d, ongoingBatch := 0, onRestart := d));
        ReplaceStep(mTripSessions, itt, moved, Rebased(rest[1..], acc));
        mTripSessions := mTripSessions[itt := moved];
        rest := rest[1..];
      }
    }

    static lemma ReplaceStep(ts: seq<Entry<Trip>>, k: nat, e: Entry<Trip>, later: seq<Entry<Trip>>)
      requires k < |ts|
      ensures ts[k := e][..k + 1] == ts[..k] + [e] && ts[k := e][k + 1..] == ts[k..][1..]
      ensures ts[..k] + ([e] + later) == (ts[..k] + [e]) + later
    {
    }

    /** stopTripBatchingMultiplexCommon for a known session; acc is the engine's answer to the query. */
    method StopTrip(id: int, acc: Word) returns (restarted: bool)
      requires Lookup(mTripSessions, id).Some?
      modifies this
      ensures (View(), restarted) == TripModel.StopTrip(old(View()), id, acc)
    {
      var trip := Lookup(mTripSessions, id).value;
      if trip.tbf == mOngoingTripTBFInterval {
        mTripWithOngoingTBFDropped := true;
      }
      if trip.tripDistance == mOngoingTripDistance {
        mTripWithOngoingTripDistanceDropped := true;
      }
      mTripSessions := Removed(mTripSessions, id);
      restarted := false;
      if |mTripSessions| == 0 {
        mOngoingTripDistance, mOngoingTripTBFInterval := 0, 0;
      } else {
        restarted := RestartTripBatching(acc);
      }
    }

    /** startTripBatchingMultiplex; acc is the answer to the query, None when it fails, and starts and
        restarts succeed. */
    method StartTrip(id: int, distance: Word, tbf: Word, acc: Option<Word>) returns (restarted: bool)
      modifies this
      ensures old(mTripSessions) == [] || acc.Some? ==>
                (View(), restarted) == TripModel.StartTrip(old(View()), id, distance, tbf, acc.GetOr(0))
      ensures old(mTripSessions) != [] && acc.None? ==>
                (View(), restarted) == StartUnmeasured(old(View()), distance, tbf)
    {
      restarted := false;
      if mTripSessions == [] {
        mTripSessions := [Entry(id, Trip(0, 0, 0, distance, tbf))];
        mOngoingTripDistance, mOngoingTripTBFInterval := distance, tbf;
        restarted := true;
      } else {
        var ongoingDistance, ongoingTbf := mOngoingTripDistance, mOngoingTripTBFInterval;
        if ongoingTbf > tbf {
          ongoingTbf := tbf;
          restarted := true;
        }
        if acc.None? {
          if distance < ongoingDistance {
            ongoingDistance := distance;
            restarted := true;
          }
        } else {
          var remaining := Wrap(ongoingDistance - acc.value);
          if distance < remaining {
            ongoingDistance := distance;
            restarted := true;
          } else if restarted {
            ongoingDistance := remaining;
          }
          mTripSessions := Saved(mTripSessions, id, Trip(acc.value, 0, 0, distance, tbf));
        }
        if restarted {
          mOngoingTripDistance, mOngoingTripTBFInterval := ongoingDistance, ongoingTbf;
          RebaseTripsStale();
        }
      }
    }

    method RebaseTripsStale()
      modifies this`mTripSessions
      ensures mTripSessions == RebasedStale(old(mTripSessions))
    {
      ghost var rest := mTripSessions;
      for itt := 0 to |mTripSessions|
        invariant |mTripSessions| == |old(mTripSessions)| && rest == mTripSessions[itt..]
        invariant mTripSessions[..itt] + RebasedStale(rest) == RebasedStale(old(mTripSessions))
      {
        var e := mTripSessions[itt];
        var moved := Entry(e.key, e.value.(ongoingBatch := 0, onRestart := e.value.thisTrip));
        ReplaceStep(mTripSessions, itt, moved, RebasedStale(rest[1..]));
        mTripSessions := mTripSessions[itt := moved];
        rest := rest[1..];
      }
    }
  }
}
