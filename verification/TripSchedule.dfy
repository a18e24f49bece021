// Runs in which the batch keeps its promise: on the odometer, it ends no later than any trip.
module TripSchedule {
  import opened Wrappers
  import opened SortedMaps
  import opened TripModel
  import opened TripRuns
  import opened TripTargets

  // The trip's computed distance is the one travelled, and the trip is not past its end
  ghost predicate TrackedFor(s: System, id: int) {
    match Live(s, id)
    case None => true
    case Some(t) =>
      && id in s.joined && DistanceAt(t, Counter(s)) == s.odometer - s.joined[id]
      && Ahead(t, Counter(s))
  }

  // The batch is under way and every trip tracked
  ghost predicate Tracked(s: System) {
    && Sorted(s.adapter.trips)
    && (s.adapter.trips != [] ==> s.batchStart <= s.odometer <= s.batchStart + s.adapter.ongoingDistance)
    && forall id :: TrackedFor(s, id)
  }

  // Where on the odometer the batch ends, and where the trip does
  ghost predicate EndsInTime(s: System, id: int)
    requires TrackedFor(s, id)
  {
    Live(s, id).Some? ==> s.batchStart + s.adapter.ongoingDistance <= s.joined[id] + Live(s, id).value.tripDistance
  }

  ghost predicate OnTimeFor(s: System, id: int) {
    TrackedFor(s, id) && EndsInTime(s, id)
  }

  ghost predicate OnTime(s: System) {
    Tracked(s) && forall id :: OnTimeFor(s, id)
  }

  // ----- The odometer and the batch counter -----

  lemma {:induction false} InMapIsLive(ts: seq<Entry<Trip>>, e: Entry<Trip>)
    requires Sorted(ts) && e in ts
    ensures Lookup(ts, e.key) == Some(e.value)
  {
    LookupMeaning(ts, e.key);
  }

  lemma TrackedIsAhead(s: System)
    requires Tracked(s)
    ensures AllAhead(s.adapter.trips, Counter(s))
  {
    forall e | e in s.adapter.trips
      ensures Ahead(e.value, Counter(s))
    {
      InMapIsLive(s.adapter.trips, e);
      assert TrackedFor(s, e.key);
    }
  }

  lemma BatchLeft(s: System)
    requires Tracked(s) && s.adapter.trips != []
    ensures Wrap(s.adapter.ongoingDistance - Counter(s)) == s.batchStart + s.adapter.ongoingDistance - s.odometer
  {
    assert Counter(s) == s.odometer - s.batchStart;
  }

  lemma TripLeft(s: System, id: int)
    requires TrackedFor(s, id) && Live(s, id).Some?
    ensures ToGo(Live(s, id).value, Counter(s)) == s.joined[id] + Live(s, id).value.tripDistance - s.odometer
  {
    AheadLeft(Live(s, id).value, Counter(s));
  }

  /** In time by the batch counter, modulo 2^32, is in time on the odometer. */
  lemma InTimeOnOdometer(s: System)
    requires Tracked(s) && s.adapter.trips != []
    ensures InTime(s.adapter, Counter(s)) <==> forall id :: OnTimeFor(s, id)
  {
    var ts, left := s.adapter.trips, Wrap(s.adapter.ongoingDistance - Counter(s));
    BatchLeft(s);
    AllHaveMeaning(ts, Counter(s), left);
    forall id
      ensures TrackedFor(s, id)
      ensures EndsInTime(s, id) <==> (Live(s, id).Some? ==> left <= ToGo(Live(s, id).value, Counter(s)))
    {
      assert TrackedFor(s, id);
      if Live(s, id).Some? { TripLeft(s, id); }
    }
    if InTime(s.adapter, Counter(s)) {
      forall id
        ensures OnTimeFor(s, id)
      {
        LookupMeaning(ts, id);
      }
    } else {
      var e :| e in ts && ToGo(e.value, Counter(s)) < left;
      InMapIsLive(ts, e);
      assert !OnTimeFor(s, e.key);
    }
  }

  // ----- Steps -----

  // The engine reports at the end of the batch, and the report is handled before a client leaves; a trip
  // has a distance
  ghost predicate Paced(s: System, e: Event) {
    match e
    case Travels(d) => s.adapter.trips == [] || s.odometer + d <= s.batchStart + s.adapter.ongoingDistance
    case Joins(_, distance, _) => distance > 0
    case JoinFails(_, _) => true
    case Leaves(_) => forall id :: IsShort(s, id)
    case Reports => true
  }

  ghost predicate IsShort(s: System, id: int) {
    Live(s, id).Some? ==> DistanceAt(Live(s, id).value, Counter(s)) < Live(s, id).value.tripDistance
  }

  // A departure or a report after which the batch overruns or was restarted on outdated distances, a join that
  // loses distance, or a failed one that starts the batch over for more than some trip has left
  ghost predicate Slips(s: System, e: Event) {
    match e
    case Travels(_) => false
    case Joins(_, _, _) => LosesDistance(s, e)
    case JoinFails(distance, tbf) =>
      && s.adapter.trips != [] && StartsOver(s.adapter, distance, tbf)
      && (LosesDistance(s, e)
          || !AllHave(s.adapter.trips, Counter(s), Least(distance, s.adapter.ongoingDistance)))
    case Leaves(id) =>
      && Live(s, id).Some? && Departed(s.adapter, id).trips != []
      && (Overruns(Departed(s.adapter, id), Counter(s)) || Outdated(Departed(s.adapter, id), Counter(s)))
    case Reports =>
      && Completed(s.adapter.trips, Counter(s)) != [] && StillOpen(s.adapter.trips, Counter(s)) != []
      && Overruns(Swept(s.adapter, Counter(s)), Counter(s))
  }

  lemma WrapAdd(x: int, d: nat)
    requires Wrap(x) + d < MOD
    ensures Wrap(x + d) == Wrap(x) + d
  {
    WrapShift(Wrap(x), x, d);
  }

  function Least(a: Word, b: Word): Word {
    if a < b then a else b
  }

  lemma TravelAdds(t: Trip, n: int, d: nat)
    requires DistanceAt(t, Wrap(n)) + d < MOD
    ensures DistanceAt(t, Wrap(n + d)) == DistanceAt(t, Wrap(n)) + d
  {
    var flat: int := t.onRestart + n - t.ongoingBatch;
    DistanceFlat(t, n);
    DistanceFlat(t, n + d);
    assert t.onRestart + (n + d) - t.ongoingBatch == flat + d;
    WrapAdd(flat, d);
  }

  lemma TravelFor(s: System, d: nat, id: int)
    requires OnTimeFor(s, id) && s.odometer + d <= s.batchStart + s.adapter.ongoingDistance
    ensures OnTimeFor(Next(s, Travels(d)), id)
  {
    if Live(s, id).Some? {
      TravelAdds(Live(s, id).value, s.odometer - s.batchStart, d);
    }
  }

  lemma TravelOnTime(s: System, d: nat)
    requires OnTime(s) && Paced(s, Travels(d))
    ensures OnTime(Next(s, Travels(d)))
  {
    forall id
      ensures TrackedFor(Next(s, Travels(d)), id) && OnTimeFor(Next(s, Travels(d)), id)
    {
      assert OnTimeFor(s, id);
      if s.adapter.trips != [] { TravelFor(s, d, id); }
    }
  }

  lemma RestartTracks(s: System, id: int)
    requires TrackedFor(s, id) && IsShort(s, id)
    ensures TrackedFor(Restarted(s), id)
  {
    RestartCases(s);
    if Restarted(s).adapter.trips != s.adapter.trips || Counter(Restarted(s)) != Counter(s) {
      AfterRebase(s.adapter.trips, Counter(s), id);
    }
  }

  lemma RestartTracked(s: System)
    requires Tracked(s) && s.adapter.trips != [] && forall id :: IsShort(s, id)
    ensures Tracked(Restarted(s)) && Restarted(s).adapter.trips != []
  {
    RestartKeepsOrder(s);
    RestartDoes(s.adapter, Counter(s));
    forall id
      ensures TrackedFor(Restarted(s), id)
    {
      assert TrackedFor(s, id) && IsShort(s, id);
      RestartTracks(s, id);
    }
  }

  lemma RestartOnTimeIff(s: System)
    requires Tracked(s) && s.adapter.trips != [] && forall id :: IsShort(s, id)
    ensures OnTime(Restarted(s)) <==> RestartInTime(s.adapter, Counter(s))
  {
    RestartTracked(s);
    InTimeOnOdometer(Restarted(s));
    RestartClock(s);
  }

  lemma RestartClock(s: System)
    ensures var restarted := Restart(s.adapter, Counter(s)).1;
            Counter(Restarted(s)) == if restarted then 0 else Counter(s)
  {
  }

  lemma LeftTracked(s: System, id: int)
    requires Tracked(s) && Live(s, id).Some? && forall k :: IsShort(s, k)
    ensures Tracked(LeftSystem(s, id)) && forall k :: IsShort(LeftSystem(s, id), k)
  {
    RemovedMeaning(s.adapter.trips, id);
    forall k
      ensures TrackedFor(LeftSystem(s, id), k) && IsShort(LeftSystem(s, id), k)
    {
      LookupRemoved(s.adapter.trips, id, k);
      assert TrackedFor(s, k) && IsShort(s, k);
    }
  }

  lemma LeaveOnTimeIff(s: System, id: int)
    requires OnTime(s) && Paced(s, Leaves(id))
    ensures OnTime(Next(s, Leaves(id))) <==> !Slips(s, Leaves(id))
  {
    if Live(s, id).Some? {
      LeftTracked(s, id);
      if Departed(s.adapter, id).trips != [] {
        assert s.adapter.trips != [];
        TrackedIsAhead(s);
        InTimeOnOdometer(s);
        DepartureInTimeIff(s.adapter, id, Counter(s));
        RestartOnTimeIff(LeftSystem(s, id));
      }
    }
  }

  lemma SweptTracked(s: System)
    requires Tracked(s)
    ensures Tracked(SweptSystem(s)) && forall id :: IsShort(SweptSystem(s), id)
    ensures (forall id :: OnTimeFor(s, id)) ==> forall id :: OnTimeFor(SweptSystem(s), id)
  {
    SweepKeepsOrder(s.adapter.trips, Counter(s));
    forall id
      ensures TrackedFor(SweptSystem(s), id) && IsShort(SweptSystem(s), id)
      ensures OnTimeFor(s, id) ==> OnTimeFor(SweptSystem(s), id)
    {
      assert TrackedFor(s, id);
      AfterSweep(s.adapter.trips, Counter(s), id);
    }
  }

  lemma ReportOnTimeIff(s: System)
    requires OnTime(s)
    ensures OnTime(Next(s, Reports)) <==> !Slips(s, Reports)
  {
    SweptTracked(s);
    if Completed(s.adapter.trips, Counter(s)) != [] && StillOpen(s.adapter.trips, Counter(s)) != [] {
      ReportInTimeIff(s.adapter, Counter(s));
      RestartOnTimeIff(SweptSystem(s));
    }
  }

  lemma JoinOnTimeFor(s: System, e: Event, k: int)
    requires e.Joins? && e.distance > 0 && OnTime(s)
    ensures OnTimeFor(Next(s, e), k) <==>
            || s.adapter.trips == [] || JoinsQuietly(s.adapter, e.distance, e.tbf, Counter(s))
            || k == e.id || IsCurrent(s, k)
  {
    assert OnTimeFor(s, k);
    JoinLookup(s, e, k);
    if s.adapter.trips != [] { BatchLeft(s); }
  }

  lemma JoinOnTimeIff(s: System, e: Event)
    requires OnTime(s) && e.Joins? && Paced(s, e)
    ensures OnTime(Next(s, e)) <==> !Slips(s, e)
  {
    JoinKeepsOrder(s, e);
    if s.adapter.trips != [] { BatchLeft(s); }
    forall k
      ensures OnTimeFor(Next(s, e), k) <==>
              || s.adapter.trips == [] || JoinsQuietly(s.adapter, e.distance, e.tbf, Counter(s))
              || k == e.id || IsCurrent(s, k)
      ensures OnTimeFor(Next(s, e), k) ==> TrackedFor(Next(s, e), k)
    {
      JoinOnTimeFor(s, e, k);
    }
    if !Slips(s, e) {
      forall k
        ensures TrackedFor(Next(s, e), k)
      {
        assert OnTimeFor(Next(s, e), k);
      }
    }
  }

  lemma FailedJoinTracks(s: System, e: Event, k: int)
    requires TrackedFor(s, k) && e.JoinFails? && s.adapter.trips != [] && StartsOver(s.adapter, e.distance, e.tbf)
    ensures TrackedFor(Next(s, e), k) <==> IsCurrent(s, k)
  {
    FailedJoinFor(s, e, k);
  }

  lemma FailedJoinOnTimeFor(s: System, e: Event, k: int)
    requires TrackedFor(s, k) && IsCurrent(s, k)
    requires e.JoinFails? && s.adapter.trips != [] && StartsOver(s.adapter, e.distance, e.tbf)
    ensures OnTimeFor(Next(s, e), k) <==>
            (Live(s, k).Some? ==> Least(e.distance, s.adapter.ongoingDistance) <= ToGo(Live(s, k).value, Counter(s)))
  {
    FailedJoinFor(s, e, k);
    FailedJoinTracks(s, e, k);
    if Live(s, k).Some? { TripLeft(s, k); }
  }

  lemma FailedJoinOnTimeIff(s: System, e: Event)
    requires OnTime(s) && e.JoinFails?
    ensures OnTime(Next(s, e)) <==> !Slips(s, e)
  {
    if s.adapter.trips != [] && StartsOver(s.adapter, e.distance, e.tbf) {
      RebaseKeepsOrder(s.adapter.trips, Counter(s));
      forall k
        ensures TrackedFor(Next(s, e), k) <==> IsCurrent(s, k)
        ensures OnTimeFor(Next(s, e), k) ==> TrackedFor(Next(s, e), k)
      {
        assert TrackedFor(s, k);
        FailedJoinTracks(s, e, k);
      }
      if !LosesDistance(s, e) { FailedJoinEnds(s, e); }
    } else if s.adapter.trips != [] {
      assert Next(s, e) == s;
    }
  }

  lemma FailedJoinEnds(s: System, e: Event)
    requires OnTime(s) && e.JoinFails? && s.adapter.trips != [] && StartsOver(s.adapter, e.distance, e.tbf)
    requires forall k :: IsCurrent(s, k)
    ensures (forall k :: OnTimeFor(Next(s, e), k)) <==>
            AllHave(s.adapter.trips, Counter(s), Least(e.distance, s.adapter.ongoingDistance))
  {
    var ts, target := s.adapter.trips, Least(e.distance, s.adapter.ongoingDistance);
    AllHaveMeaning(ts, Counter(s), target);
    forall k
      ensures OnTimeFor(Next(s, e), k) <==> (Live(s, k).Some? ==> target <= ToGo(Live(s, k).value, Counter(s)))
      ensures Live(s, k).Some? ==> Entry(k, Live(s, k).value) in ts
    {
      assert TrackedFor(s, k) && IsCurrent(s, k);
      FailedJoinOnTimeFor(s, e, k);
      LookupMeaning(ts, k);
    }
    if !AllHave(ts, Counter(s), target) {
      var f :| f in ts && ToGo(f.value, Counter(s)) < target;
      InMapIsLive(ts, f);
      assert !OnTimeFor(Next(s, e), f.key);
    }
  }

  /** A step leaves every trip's distance right and the batch ending no later than any trip, if and only if
      it does not slip. */
  lemma StepOnTimeIff(s: System, e: Event)
    requires OnTime(s) && Paced(s, e)
    ensures OnTime(Next(s, e)) <==> !Slips(s, e)
  {
    match e
    case Travels(d) => TravelOnTime(s, d);
    case Joins(_, _, _) => JoinOnTimeIff(s, e);
    case JoinFails(_, _) => FailedJoinOnTimeIff(s, e);
    case Leaves(id) => LeaveOnTimeIff(s, id);
    case Reports => ReportOnTimeIff(s);
  }

  // ----- Where the batch ends after a join -----

  function BatchEnd(s: System): int {
    s.batchStart + s.adapter.ongoingDistance
  }

  /** A join leaves the batch to end where it did or where the joiner does, whichever comes first; one whose
      query fails makes it run from here for the shorter of the two distances, if either of its demands
      is not met. */
  lemma JoinEnds(s: System, e: Event)
    requires Tracked(s) && (e.Joins? || e.JoinFails?)
    ensures var joinerEnds := s.odometer + e.distance;
            BatchEnd(Next(s, e)) ==
            if s.adapter.trips == [] then (if e.Joins? then joinerEnds else BatchEnd(s))
            else if e.Joins? then (if BatchEnd(s) < joinerEnds then BatchEnd(s) else joinerEnds)
            else if e.tbf < s.adapter.ongoingTbf || e.distance < s.adapter.ongoingDistance
            then s.odometer + Least(e.distance, s.adapter.ongoingDistance)
            else BatchEnd(s)
  {
    if s.adapter.trips != [] { BatchLeft(s); }
  }

  // ----- Runs -----

  // Every step is paced
  ghost predicate PacedRun(s: System, es: seq<Event>)
    decreases |es|
  {
    es == [] || (Paced(s, es[0]) && PacedRun(Next(s, es[0]), es[1..]))
  }

  ghost predicate NeverSlips(s: System, es: seq<Event>)
    decreases |es|
  {
    es == [] || (!Slips(s, es[0]) && NeverSlips(Next(s, es[0]), es[1..]))
  }

  ghost predicate AlwaysOnTime(s: System, es: seq<Event>)
    decreases |es|
  {
    OnTime(s) && (es == [] || AlwaysOnTime(Next(s, es[0]), es[1..]))
  }

  /** Throughout a paced run every trip's distance is the one travelled and the batch ends no later than any
      trip, if and only if no step slips. */
  lemma {:induction false} RunOnTimeIff(s: System, es: seq<Event>)
    requires OnTime(s) && PacedRun(s, es)
    ensures AlwaysOnTime(s, es) <==> NeverSlips(s, es)
    decreases |es|
  {
    if es != [] {
      StepOnTimeIff(s, es[0]);
      if !Slips(s, es[0]) {
        RunOnTimeIff(Next(s, es[0]), es[1..]);
      }
    }
  }

  lemma StartIsOnTime()
    ensures OnTime(START)
  {
    forall id
      ensures OnTimeFor(START, id)
    {
    }
  }
}
