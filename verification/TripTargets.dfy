// What a restart of the batch is for: the batch should end no later than any trip does, and fix no less
// often than any trip asked for.
module TripTargets {
  import opened Wrappers
  import opened SortedMaps
  import opened TripModel
  import opened TripRuns

  // What the trip has left when the batch counter reads dist
  function ToGo(t: Trip, dist: Word): Word {
    Wrap(t.tripDistance - DistanceAt(t, dist))
  }

  // Every trip has at least the distance left
  predicate AllHave(ts: seq<Entry<Trip>>, dist: Word, distance: Word) {
    ts == [] || (distance <= ToGo(ts[0].value, dist) && AllHave(ts[1..], dist, distance))
  }

  lemma {:induction false} AllHaveMeaning(ts: seq<Entry<Trip>>, dist: Word, distance: Word)
    ensures AllHave(ts, dist, distance) <==> forall e :: e in ts ==> distance <= ToGo(e.value, dist)
  {
    if ts != [] {
      assert ts == [ts[0]] + ts[1..];
      AllHaveMeaning(ts[1..], dist, distance);
    }
  }

  // The batch ends no later than any trip
  predicate InTime(a: Adapter, dist: Word) {
    AllHave(a.trips, dist, Wrap(a.ongoingDistance - dist))
  }

  // Not past its end, and short of it when it was last computed, which was no farther on than now
  predicate Ahead(t: Trip, dist: Word) {
    t.thisTrip <= DistanceAt(t, dist) <= t.tripDistance && t.thisTrip < t.tripDistance
  }

  ghost predicate AllAhead(ts: seq<Entry<Trip>>, dist: Word) {
    forall e :: e in ts ==> Ahead(e.value, dist)
  }

  lemma AheadLeft(t: Trip, dist: Word)
    requires Ahead(t, dist)
    ensures Remaining(t) == t.tripDistance - t.thisTrip > 0
    ensures ToGo(t, dist) == t.tripDistance - DistanceAt(t, dist)
  {
  }

  // ----- The two scans -----

  lemma {:induction false} RemainingFrom(ts: seq<Entry<Trip>>, best: Word)
    requires forall e :: e in ts ==> Remaining(e.value) > 0
    ensures var r := MinRemaining(ts, best);
            && (forall e :: e in ts ==> r <= Remaining(e.value)) && (best > 0 ==> r <= best)
            && (r == best || exists e :: e in ts && r == Remaining(e.value))
            && (ts != [] ==> r > 0)
  {
    if ts != [] {
      assert ts == [ts[0]] + ts[1..];
      var left := Remaining(ts[0].value);
      assert ts[0] in ts;
      RemainingFrom(ts[1..], if best == 0 || best > left then left else best);
    }
  }

  // Some trip with the least left has a current distance
  ghost predicate LeastIsCurrent(ts: seq<Entry<Trip>>, dist: Word) {
    exists e :: e in ts && e.value.thisTrip == DistanceAt(e.value, dist) && AllHave(ts, dist, ToGo(e.value, dist))
  }

  /** The scan for the least remaining distance works on distances that may be out of date: what it finds
      is no more than any trip has left if and only if a trip with the least left has a current one. */
  lemma ScanInTimeIff(ts: seq<Entry<Trip>>, dist: Word)
    requires ts != [] && AllAhead(ts, dist)
    ensures AllHave(ts, dist, MinRemaining(ts, 0)) <==> LeastIsCurrent(ts, dist)
    ensures MinRemaining(ts, 0) > 0
  {
    forall e | e in ts
      ensures Remaining(e.value) > 0
    {
      AheadLeft(e.value, dist);
    }
    RemainingFrom(ts, 0);
    var least := MinRemaining(ts, 0);
    AllHaveMeaning(ts, dist, least);
    var found :| found in ts && least == Remaining(found.value);
    AheadLeft(found.value, dist);
    if LeastIsCurrent(ts, dist) {
      var e :| e in ts && e.value.thisTrip == DistanceAt(e.value, dist) && AllHave(ts, dist, ToGo(e.value, dist));
      AheadLeft(e.value, dist);
      AllHaveMeaning(ts, dist, ToGo(e.value, dist));
    }
  }

  lemma {:induction false} TbfFrom(ts: seq<Entry<Trip>>, best: Word)
    ensures var r := MinTbf(ts, best);
            && (ts == [] ==> r == best)
            && (ts != [] ==> (r == 0 <==> ts[|ts| - 1].value.tbf == 0))
            && ((forall e :: e in ts ==> e.value.tbf > 0) ==>
                  (forall e :: e in ts ==> r <= e.value.tbf) && (best > 0 ==> r <= best))
  {
    if ts != [] {
      assert ts == [ts[0]] + ts[1..];
      assert ts[0] in ts;
      TbfFrom(ts[1..], if best == 0 || best > ts[0].value.tbf then ts[0].value.tbf else best);
    }
  }

  /** The interval scan takes 0 for a minimum not yet found: it finds a lower bound of the trips'
      intervals if and only if none of them is 0 or the last one is. */
  lemma IntervalScanIff(ts: seq<Entry<Trip>>)
    requires ts != []
    ensures (forall e :: e in ts ==> MinTbf(ts, 0) <= e.value.tbf)
              <==> (forall e :: e in ts ==> e.value.tbf > 0) || ts[|ts| - 1].value.tbf == 0
  {
    TbfFrom(ts, 0);
    if e :| e in ts && e.value.tbf == 0 {
      assert MinTbf(ts, 0) == 0 <==> ts[|ts| - 1].value.tbf == 0;
    }
  }

  // ----- After a restart -----

  lemma RebasedToGo(t: Trip, acc: Word)
    ensures var d := DistanceAt(t, acc);
            ToGo(t.(thisTrip := d, ongoingBatch := 0, onRestart := d), 0) == ToGo(t, acc)
  {
  }

  // A restart takes nothing off what a trip has left
  lemma {:induction false} RebasedHave(ts: seq<Entry<Trip>>, acc: Word, distance: Word)
    ensures AllHave(Rebased(ts, acc), 0, distance) <==> AllHave(ts, acc, distance)
  {
    if ts != [] {
      RebasedToGo(ts[0].value, acc);
      RebasedHave(ts[1..], acc, distance);
      assert Rebased(ts, acc)[1..] == Rebased(ts[1..], acc);
    }
  }

  lemma RestartDoes(a: Adapter, acc: Word)
    requires a.trips != []
    ensures var (b, restarted) := Restart(a, acc);
            && (restarted <==> NewDistance(a, acc) || NewInterval(a))
            && b.ongoingDistance == (if NewDistance(a, acc) then MinRemaining(a.trips, 0) else a.ongoingDistance)
            && b.trips == if restarted then Rebased(a.trips, acc) else a.trips
  {
  }

  // Whether the batch is in time after a restart, or without one
  predicate RestartInTime(a: Adapter, acc: Word) {
    var (b, restarted) := Restart(a, acc);
    InTime(b, if restarted then 0 else acc)
  }

  lemma WrapWord(w: Word)
    ensures Wrap(w - 0) == w
  {
  }

  lemma RestartedInTime(a: Adapter, acc: Word, b: Adapter)
    requires b.trips == Rebased(a.trips, acc)
    ensures InTime(b, 0) <==> AllHave(a.trips, acc, b.ongoingDistance)
  {
    RebasedHave(a.trips, acc, b.ongoingDistance);
    WrapWord(b.ongoingDistance);
  }

  // The batch starts over for its interval alone, with the whole old distance, though some trip ends sooner
  predicate Overruns(a: Adapter, acc: Word) {
    !NewDistance(a, acc) && NewInterval(a) && !AllHave(a.trips, acc, a.ongoingDistance)
  }

  // The batch takes a new distance, from distances that are out of date for every trip with the least left
  ghost predicate Outdated(a: Adapter, acc: Word) {
    NewDistance(a, acc) && !LeastIsCurrent(a.trips, acc)
  }

  /** With no trip past its end, restartTripBatching leaves a batch that ends no later than any trip if and
      only if it does not start over for the interval alone while a trip has less left than the whole old
      distance, it does not take a new distance while the trips with the least left are all out of date,
      and, where it leaves the batch as it is, that was in time. */
  lemma RestartInTimeIff(a: Adapter, acc: Word)
    requires a.trips != [] && AllAhead(a.trips, acc)
    ensures RestartInTime(a, acc) <==>
            && !Overruns(a, acc) && !Outdated(a, acc)
            && (NewDistance(a, acc) || NewInterval(a) || InTime(a, acc))
  {
    RestartDoes(a, acc);
    ScanInTimeIff(a.trips, acc);
    var b := Restart(a, acc).0;
    if NewDistance(a, acc) || NewInterval(a) {
      RestartedInTime(a, acc, b);
    }
  }

  // ----- What the batch then runs for -----

  // m is the least that any of the trips had left
  ghost predicate IsLeastRemaining(ts: seq<Entry<Trip>>, m: Word) {
    (exists e :: e in ts && Remaining(e.value) == m) && forall e :: e in ts ==> 0 < m <= Remaining(e.value)
  }

  // Whether the batch is to run for m from now on, given whether the trip it ran for has gone
  predicate Retargets(a: Adapter, acc: Word, gone: bool, m: Word) {
    gone || Wrap(a.ongoingDistance - acc) == 0 || m < Wrap(a.ongoingDistance - acc)
  }

  lemma RestartTarget(a: Adapter, acc: Word, m: Word)
    requires IsLeastRemaining(a.trips, m)
    ensures var (b, restarted) := Restart(a, acc);
            && b.ongoingDistance == (if Retargets(a, acc, a.distanceDropped, m) then m else a.ongoingDistance)
            && (restarted <==> Retargets(a, acc, a.distanceDropped, m) || b.ongoingTbf != a.ongoingTbf)
  {
    RemainingFrom(a.trips, 0);
    var e :| e in a.trips && Remaining(e.value) == m;
  }

  /** After a departure the batch runs for the least the others had left, if the trip that left, or one
      before it, is what it ran for, or it has ended, or that is less than it has to go; otherwise it keeps
      its distance.  It starts over for that, or for another interval. */
  lemma DepartureTarget(a: Adapter, id: int, acc: Word, m: Word)
    requires Lookup(a.trips, id).Some? && IsLeastRemaining(Removed(a.trips, id), m)
    ensures var (b, restarted) := StopTrip(a, id, acc);
            var gone := a.distanceDropped || Lookup(a.trips, id).value.tripDistance == a.ongoingDistance;
            && b.ongoingDistance == (if Retargets(a, acc, gone, m) then m else a.ongoingDistance)
            && (restarted <==> Retargets(a, acc, gone, m) || b.ongoingTbf != a.ongoingTbf)
  {
    RestartTarget(Departed(a, id), acc, m);
  }

  // The trip is complete, and its distance is the batch's
  predicate RanFor(a: Adapter, acc: Word, t: Trip) {
    IsComplete(t, acc) && t.tripDistance == a.ongoingDistance
  }

  /** After a report that completes trips, likewise of the trips that are complete. */
  lemma ReportTarget(a: Adapter, acc: Word, m: Word)
    requires Completed(a.trips, acc) != [] && IsLeastRemaining(StillOpen(a.trips, acc), m)
    ensures var (b, _, restarted) := Report(a, acc);
            var gone := a.distanceDropped || exists e :: e in a.trips && RanFor(a, acc, e.value);
            && b.ongoingDistance == (if Retargets(a, acc, gone, m) then m else a.ongoingDistance)
            && (restarted <==> Retargets(a, acc, gone, m) || b.ongoingTbf != a.ongoingTbf)
  {
    DropsMeaning(a.trips, acc, a.ongoingTbf, a.ongoingDistance);
    RestartTarget(Swept(a, acc), acc, m);
  }

  /** What a report remembers: the running interval, or distance, belonged to a trip that is now complete. */
  lemma {:induction false} DropsMeaning(ts: seq<Entry<Trip>>, acc: Word, tbf: Word, distance: Word)
    ensures DropsTbf(ts, acc, tbf) <==> exists e :: e in ts && IsComplete(e.value, acc) && e.value.tbf == tbf
    ensures DropsDistance(ts, acc, distance) <==>
            exists e :: e in ts && IsComplete(e.value, acc) && e.value.tripDistance == distance
  {
    if ts != [] {
      assert ts == [ts[0]] + ts[1..];
      DropsMeaning(ts[1..], acc, tbf, distance);
    }
  }

  // ----- Departures -----

  lemma DepartedInTime(a: Adapter, id: int, acc: Word)
    requires Sorted(a.trips) && Lookup(a.trips, id).Some? && AllAhead(a.trips, acc) && InTime(a, acc)
    ensures InTime(Departed(a, id), acc) && AllAhead(Departed(a, id).trips, acc)
  {
    RemovedMeaning(a.trips, id);
    AllHaveMeaning(a.trips, acc, Wrap(a.ongoingDistance - acc));
    AllHaveMeaning(Departed(a, id).trips, acc, Wrap(a.ongoingDistance - acc));
  }

  /** When a trip leaves a batch that is in time, with no trip past its end, the batch stays in time for the
      others if and only if it is not left overrunning them, or restarted on outdated distances. */
  lemma DepartureInTimeIff(a: Adapter, id: int, acc: Word)
    requires Sorted(a.trips) && Lookup(a.trips, id).Some? && Departed(a, id).trips != []
    requires AllAhead(a.trips, acc) && InTime(a, acc)
    ensures var (b, restarted) := StopTrip(a, id, acc);
            InTime(b, if restarted then 0 else acc) <==>
            !Overruns(Departed(a, id), acc) && !Outdated(Departed(a, id), acc)
  {
    DepartedInTime(a, id, acc);
    RestartInTimeIff(Departed(a, id), acc);
    assert RestartInTime(Departed(a, id), acc) <==>
           InTime(StopTrip(a, id, acc).0, if StopTrip(a, id, acc).1 then 0 else acc);
  }

  // ----- Reports -----

  lemma {:induction false} SweptAhead(ts: seq<Entry<Trip>>, acc: Word, e: Entry<Trip>)
    requires e in StillOpen(ts, acc)
    ensures e.value.thisTrip == DistanceAt(e.value, acc) && Ahead(e.value, acc)
  {
    if e !in StillOpen(ts[1..], acc) {
      assert e == Entry(ts[0].key, Measured(ts[0].value, acc));
      assert DistanceAt(e.value, acc) == DistanceAt(ts[0].value, acc);
    } else {
      SweptAhead(ts[1..], acc, e);
    }
  }

  // Measured trips have what the scan takes them to have
  lemma MeasuredScan(ts: seq<Entry<Trip>>, acc: Word)
    requires ts != [] && forall e :: e in ts ==> e.value.thisTrip == DistanceAt(e.value, acc) && Ahead(e.value, acc)
    ensures AllAhead(ts, acc) && LeastIsCurrent(ts, acc) && AllHave(ts, acc, MinRemaining(ts, 0))
  {
    forall e | e in ts
      ensures Remaining(e.value) == ToGo(e.value, acc) > 0
    {
      AheadLeft(e.value, acc);
    }
    RemainingFrom(ts, 0);
    AllHaveMeaning(ts, acc, MinRemaining(ts, 0));
    ScanInTimeIff(ts, acc);
  }

  lemma AllHaveLess(ts: seq<Entry<Trip>>, acc: Word, more: Word, less: Word)
    requires AllHave(ts, acc, more) && less <= more
    ensures AllHave(ts, acc, less)
  {
    AllHaveMeaning(ts, acc, more);
    AllHaveMeaning(ts, acc, less);
  }

  lemma OldDistanceIsShort(a: Adapter, acc: Word)
    requires !NewDistance(a, acc) && MinRemaining(a.trips, 0) > 0
    ensures Wrap(a.ongoingDistance - acc) <= MinRemaining(a.trips, 0)
  {
  }

  /** A report that completes trips leaves the batch in time for the others exactly when it does not
      overrun them, whatever they were like before it. */
  lemma ReportInTimeIff(a: Adapter, acc: Word)
    requires Completed(a.trips, acc) != [] && StillOpen(a.trips, acc) != []
    ensures var (b, completed, restarted) := Report(a, acc);
            InTime(b, if restarted then 0 else acc) <==> !Overruns(Swept(a, acc), acc)
  {
    var s := Swept(a, acc);
    forall e | e in s.trips
      ensures e.value.thisTrip == DistanceAt(e.value, acc) && Ahead(e.value, acc)
    {
      SweptAhead(a.trips, acc, e);
    }
    MeasuredScan(s.trips, acc);
    RestartInTimeIff(s, acc);
    if !NewDistance(s, acc) {
      ScanInTimeIff(s.trips, acc);
      OldDistanceIsShort(s, acc);
      AllHaveLess(s.trips, acc, MinRemaining(s.trips, 0), Wrap(s.ongoingDistance - acc));
    }
    assert RestartInTime(s, acc) <==> InTime(Report(a, acc).0, if Report(a, acc).2 then 0 else acc);
  }

  // ----- Intervals -----

  /** After a restart decision the batch fixes no less often than any trip asked for, if and only if no
      trip's interval is 0, or the last one's is, or the batch's own was and stays so. */
  lemma RestartIntervalIff(a: Adapter, acc: Word)
    requires a.trips != []
    ensures (forall e :: e in a.trips ==> Restart(a, acc).0.ongoingTbf <= e.value.tbf) <==>
            || (forall e :: e in a.trips ==> e.value.tbf > 0) || a.trips[|a.trips| - 1].value.tbf == 0
            || (a.ongoingTbf == 0 && !a.tbfDropped)
  {
    TbfFrom(a.trips, 0);
  }
}

// Runs in which a restart fails its purpose.
module TripLapses {
  import opened Wrappers
  import opened SortedMaps
  import opened TripModel
  import opened TripRuns
  import opened TripTargets

  function First(id: int, distance: Word, tbf: Word): System {
    System(Adapter([Entry(id, Trip(0, 0, 0, distance, tbf))], distance, tbf, false, false), 0, 0, map[id := 0])
  }

  lemma FirstJoins(id: int, distance: Word, tbf: Word)
    ensures Next(START, Joins(id, distance, tbf)) == First(id, distance, tbf)
  {
  }

  // ----- The interval alone -----

  // Trip 1, of distance 1000, has 600 left; trip 2, which wanted fixes more often, is about to leave
  const SHARED := System(Adapter([Entry(1, Trip(0, 400, 0, 1000, 10)), Entry(2, Trip(0, 400, 0, 2000, 5))],
                                 1000, 5, false, false), 400, 0, map[1 := 0, 2 := 0])

  lemma FasterJoins()
    ensures Next(First(1, 1000, 10), Joins(2, 2000, 5)) ==
            System(Adapter([Entry(1, Trip(0, 0, 0, 1000, 10)), Entry(2, Trip(0, 0, 0, 2000, 5))],
                           1000, 5, false, false), 0, 0, map[1 := 0, 2 := 0])
  {
    var ts := First(1, 1000, 10).adapter.trips;
    assert ts[1..] == [];
    var saved := Saved(ts, 2, Trip(0, 0, 0, 2000, 5));
    assert saved == [Entry(1, Trip(0, 0, 0, 1000, 10)), Entry(2, Trip(0, 0, 0, 2000, 5))];
    assert saved[1..] == [Entry(2, Trip(0, 0, 0, 2000, 5))] && saved[1..][1..] == [];
    assert RebasedStale(saved[1..]) == saved[1..];
    assert RebasedStale(saved) == saved;
  }

  lemma ReportAt400(s: System)
    requires s == System(Adapter([Entry(1, Trip(0, 0, 0, 1000, 10)), Entry(2, Trip(0, 0, 0, 2000, 5))],
                                 1000, 5, false, false), 400, 0, map[1 := 0, 2 := 0])
    ensures Next(s, Reports) == SHARED
  {
    var ts := s.adapter.trips;
    assert Counter(s) == 400;
    assert ts[1..] == [Entry(2, Trip(0, 0, 0, 2000, 5))] && ts[1..][1..] == [];
    assert StillOpen(ts, 400) == SHARED.adapter.trips && Completed(ts, 400) == [];
  }

  lemma SharedIsReached()
    ensures Next(Next(Next(Next(START, Joins(1, 1000, 10)), Joins(2, 2000, 5)), Travels(400)), Reports) == SHARED
  {
    FirstJoins(1, 1000, 10);
    FasterJoins();
    ReportAt400(Next(Next(First(1, 1000, 10), Joins(2, 2000, 5)), Travels(400)));
  }

  /** When trip 2 leaves, the batch starts over for another 1000 while trip 1 has 600 left. */
  lemma OverrunHappens()
    ensures var s := Next(SHARED, Leaves(2));
            && Live(s, 1).Some? && ToGo(Live(s, 1).value, Counter(s)) == 600
            && Wrap(s.adapter.ongoingDistance - Counter(s)) == 1000
  {
    var trips := SHARED.adapter.trips;
    assert trips[1..] == [Entry(2, Trip(0, 400, 0, 2000, 5))] && trips[1..][1..] == [];
    assert Removed(trips, 2) == [Entry(1, Trip(0, 400, 0, 1000, 10))];
    var b := LeftSystem(SHARED, 2).adapter;
    assert b.trips == [Entry(1, Trip(0, 400, 0, 1000, 10))] && b.trips[1..] == [];
    assert Rebased(b.trips, 400) == [Entry(1, Trip(0, 400, 400, 1000, 10))];
  }

  // ----- An unanswered query -----

  lemma At400(t: Trip)
    requires t.ongoingBatch == 0 && t.onRestart == 0
    ensures DistanceAt(t, 400) == 400
  {
  }

  lemma SharedIsCurrent(k: int)
    ensures IsCurrent(SHARED, k)
  {
    LookupMeaning(SHARED.adapter.trips, k);
    assert Counter(SHARED) == 400;
    match Live(SHARED, k)
    case None =>
    case Some(t) =>
      assert Entry(k, t) in SHARED.adapter.trips;
      assert t.thisTrip == 400;
      At400(t);
  }

  lemma SharedStartsOver()
    ensures var s := Next(SHARED, JoinFails(3000, 4));
            && s.adapter.ongoingDistance == 1000 && Counter(s) == 0
            && Live(s, 1) == Some(Trip(0, 400, 400, 1000, 10))
  {
    AfterStaleRebase(SHARED.adapter.trips, 1);
    assert Lookup(SHARED.adapter.trips, 1) == Some(Trip(0, 400, 0, 1000, 10));
  }

  /** When a trip that wants more fixes joins and its query fails, the batch likewise starts over for another
      1000 while trip 1 has 600 left. */
  lemma UnansweredOverruns()
    ensures var s := Next(SHARED, JoinFails(3000, 4));
            && !LosesDistance(SHARED, JoinFails(3000, 4))
            && Live(s, 1).Some? && ToGo(Live(s, 1).value, Counter(s)) == 600
            && Wrap(s.adapter.ongoingDistance - Counter(s)) == 1000
  {
    SharedStartsOver();
    forall k
      ensures IsCurrent(SHARED, k)
    {
      SharedIsCurrent(k);
    }
  }

  // ----- Outdated distances -----

  // Two trips after 300, with no report since they joined
  const UNREPORTED := System(Adapter([Entry(1, Trip(0, 0, 0, 1000, 10)), Entry(2, Trip(0, 0, 0, 1500, 10))],
                                     1000, 10, false, false), 300, 0, map[1 := 0, 2 := 0])

  lemma UnreportedIsReached()
    ensures Next(Next(Next(START, Joins(1, 1000, 10)), Joins(2, 1500, 10)), Travels(300)) == UNREPORTED
  {
    FirstJoins(1, 1000, 10);
    var ts := First(1, 1000, 10).adapter.trips;
    assert ts[1..] == [];
    assert Saved(ts, 2, Trip(0, 0, 0, 1500, 10)) == UNREPORTED.adapter.trips;
  }

  /** When trip 1 leaves, the batch starts over for 1500, as trip 2 had left when it joined, while trip 2
      has 1200 left. */
  lemma OutdatedHappens()
    ensures var s := Next(UNREPORTED, Leaves(1));
            && Outdated(Departed(UNREPORTED.adapter, 1), 300) && !Overruns(Departed(UNREPORTED.adapter, 1), 300)
            && Live(s, 2).Some? && ToGo(Live(s, 2).value, Counter(s)) == 1200
            && Wrap(s.adapter.ongoingDistance - Counter(s)) == 1500
  {
    var second := Entry(2, Trip(0, 0, 0, 1500, 10));
    assert UNREPORTED.adapter.trips[1..] == [second];
    var b := LeftSystem(UNREPORTED, 1).adapter;
    assert b.trips == [second] && b.trips[1..] == [];
    assert DistanceAt(second.value, 300) == 300 && Remaining(second.value) == 1500;
    assert Rebased(b.trips, 300) == [Entry(2, Trip(0, 300, 300, 1500, 10))];
  }

  // ----- An interval of 0 -----

  // Trips 1 and 2 want every fix there is, trip 3 one every 5
  const EAGER := System(Adapter([Entry(1, Trip(0, 0, 0, 1000, 0)), Entry(2, Trip(0, 0, 0, 1000, 0)),
                                 Entry(3, Trip(0, 0, 0, 1000, 5))],
                                1000, 0, false, false), 0, 0, map[1 := 0, 2 := 0, 3 := 0])

  lemma SecondEagerJoins()
    ensures Next(First(1, 1000, 0), Joins(2, 1000, 0)) ==
            System(Adapter([Entry(1, Trip(0, 0, 0, 1000, 0)), Entry(2, Trip(0, 0, 0, 1000, 0))], 1000, 0, false, false),
                   0, 0, map[1 := 0, 2 := 0])
  {
    var ts := First(1, 1000, 0).adapter.trips;
    assert ts[1..] == [];
    assert Saved(ts, 2, Trip(0, 0, 0, 1000, 0)) == [ts[0], Entry(2, Trip(0, 0, 0, 1000, 0))];
  }

  lemma EagerIsReached()
    ensures Next(Next(Next(START, Joins(1, 1000, 0)), Joins(2, 1000, 0)), Joins(3, 1000, 5)) == EAGER
  {
    FirstJoins(1, 1000, 0);
    SecondEagerJoins();
    var s := Next(First(1, 1000, 0), Joins(2, 1000, 0));
    var ts, third := s.adapter.trips, Trip(0, 0, 0, 1000, 5);
    assert ts[1..] == [ts[1]] && ts[1..][1..] == [];
    assert Saved(ts[1..], 3, third) == [ts[1], Entry(3, third)];
    assert Saved(ts, 3, third) == [ts[0]] + [ts[1], Entry(3, third)];
  }

  /** When trip 2 leaves, the batch goes to one fix every 5 although trip 1 still wants every one. */
  lemma ZeroIsMissed()
    ensures var s := Next(EAGER, Leaves(2));
            s.adapter.ongoingTbf == 5 && Live(s, 1).Some? && Live(s, 1).value.tbf == 0
  {
    var ts := EAGER.adapter.trips;
    assert ts[1..] == [ts[1], ts[2]] && ts[1..][1..] == [ts[2]] && Lookup(ts[1..], 2) == Some(ts[1].value);
    assert Removed(ts[1..], 2) == [ts[2]];
    var b := LeftSystem(EAGER, 2).adapter;
    assert b.trips == [ts[0], ts[2]] && b.trips[1..] == [ts[2]] && b.trips[1..][1..] == [];
    assert MinTbf([ts[2]], 0) == 5;
    AfterRebase(b.trips, 0, 1);
  }
}
