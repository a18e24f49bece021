// The batch fixes exactly as often as the most demanding trip asked for, in every run of trips that ask for
// fixes; and what the adapter remembers of trips that have gone.
module TripIntervals {
  import opened Wrappers
  import opened SortedMaps
  import opened TripModel
  import opened TripRuns
  import opened TripTargets

  // v is the smallest interval of the trips
  ghost predicate IsLeastTbf(ts: seq<Entry<Trip>>, v: Word) {
    (exists e :: e in ts && e.value.tbf == v) && forall e :: e in ts ==> v <= e.value.tbf
  }

  ghost predicate AskForFixes(ts: seq<Entry<Trip>>) {
    forall e :: e in ts ==> e.value.tbf > 0
  }

  // The batch fixes often enough for every trip
  ghost predicate Serves(a: Adapter) {
    forall e :: e in a.trips ==> a.ongoingTbf <= e.value.tbf
  }

  // ... and no more often than some trip asks for
  ghost predicate Fits(a: Adapter) {
    a.trips != [] ==> IsLeastTbf(a.trips, a.ongoingTbf)
  }

  lemma {:induction false} TbfIsLeast(ts: seq<Entry<Trip>>, best: Word)
    requires AskForFixes(ts)
    ensures var r := MinTbf(ts, best);
            && (forall e :: e in ts ==> 0 < r <= e.value.tbf) && (best > 0 ==> 0 < r <= best)
            && (r == best || exists e :: e in ts && e.value.tbf == r)
  {
    if ts != [] {
      assert ts == [ts[0]] + ts[1..];
      TbfIsLeast(ts[1..], if best == 0 || best > ts[0].value.tbf then ts[0].value.tbf else best);
    }
  }

  // ----- Restarts -----

  /** After a restart decision the interval is the least of the trips', unless the old one is smaller still
      and nobody who had it has gone. */
  lemma RestartInterval(a: Adapter, acc: Word, least: Word)
    requires a.trips != [] && AskForFixes(a.trips) && IsLeastTbf(a.trips, least)
    ensures Restart(a, acc).0.ongoingTbf == if a.tbfDropped || least < a.ongoingTbf then least else a.ongoingTbf
  {
    TbfIsLeast(a.trips, 0);
    assert a.trips[0] in a.trips;
  }

  // The trips' intervals are what they were
  ghost predicate SameIntervals(ts: seq<Entry<Trip>>, us: seq<Entry<Trip>>) {
    |ts| == |us| && forall i :: 0 <= i < |ts| ==> ts[i].key == us[i].key && ts[i].value.tbf == us[i].value.tbf
  }

  lemma {:induction false} RebasedIntervals(ts: seq<Entry<Trip>>, acc: Word)
    ensures SameIntervals(ts, Rebased(ts, acc)) && SameIntervals(ts, RebasedStale(ts))
  {
    if ts != [] {
      RebasedIntervals(ts[1..], acc);
    }
  }

  lemma SameLeast(ts: seq<Entry<Trip>>, us: seq<Entry<Trip>>)
    requires SameIntervals(ts, us)
    ensures AskForFixes(ts) ==> AskForFixes(us)
    ensures forall v :: IsLeastTbf(ts, v) ==> IsLeastTbf(us, v)
  {
    forall e | e in us
      ensures exists f :: f in ts && f.value.tbf == e.value.tbf
    {
      var i :| 0 <= i < |us| && us[i] == e;
      assert ts[i] in ts;
    }
    forall f | f in ts
      ensures exists e :: e in us && f.value.tbf == e.value.tbf
    {
      var i :| 0 <= i < |ts| && ts[i] == f;
      assert us[i] in us;
    }
  }

  // Some trip still has the interval, or one that had it is remembered as gone
  ghost predicate Remembers(a: Adapter) {
    (a.tbfDropped || exists e :: e in a.trips && e.value.tbf == a.ongoingTbf) && Serves(a)
  }

  lemma RestartFits(a: Adapter, acc: Word)
    requires a.trips != [] && AskForFixes(a.trips) && Remembers(a)
    ensures var b := Restart(a, acc).0; AskForFixes(b.trips) && Fits(b) && b.trips != []
  {
    TbfIsLeast(a.trips, 0);
    assert a.trips[0] in a.trips;
    var least := MinTbf(a.trips, 0);
    RestartInterval(a, acc, least);
    RestartDoes(a, acc);
    RebasedIntervals(a.trips, acc);
    SameLeast(a.trips, Rebased(a.trips, acc));
    assert IsLeastTbf(a.trips, Restart(a, acc).0.ongoingTbf);
  }

  // ----- What is remembered of the trips that have gone -----

  lemma {:induction false} SweptEntry(ts: seq<Entry<Trip>>, acc: Word, e: Entry<Trip>)
    ensures e in ts && !IsComplete(e.value, acc) ==> Entry(e.key, Measured(e.value, acc)) in StillOpen(ts, acc)
    ensures e in StillOpen(ts, acc) ==>
              exists f :: f in ts && !IsComplete(f.value, acc) && e == Entry(f.key, Measured(f.value, acc))
  {
    if ts != [] {
      assert ts == [ts[0]] + ts[1..];
      SweptEntry(ts[1..], acc, e);
    }
  }

  lemma SweepRemembers(a: Adapter, acc: Word)
    requires AskForFixes(a.trips) && Fits(a)
    ensures AskForFixes(StillOpen(a.trips, acc)) && (StillOpen(a.trips, acc) != [] ==> Remembers(Swept(a, acc)))
    ensures Completed(a.trips, acc) == [] ==> Fits(Swept(a, acc))
  {
    var b := Swept(a, acc);
    forall e | e in b.trips
      ensures e.value.tbf > 0 && a.ongoingTbf <= e.value.tbf
    {
      SweptEntry(a.trips, acc, e);
    }
    DropsMeaning(a.trips, acc, a.ongoingTbf, a.ongoingDistance);
    if a.trips != [] {
      var e :| e in a.trips && e.value.tbf == a.ongoingTbf;
      SweptEntry(a.trips, acc, e);
      if IsComplete(e.value, acc) { CompletedEntry(a.trips, acc, e); }
    }
  }

  lemma {:induction false} CompletedEntry(ts: seq<Entry<Trip>>, acc: Word, e: Entry<Trip>)
    requires e in ts && IsComplete(e.value, acc)
    ensures e.key in Completed(ts, acc)
  {
    if ts[0] != e {
      assert ts == [ts[0]] + ts[1..];
      CompletedEntry(ts[1..], acc, e);
    }
  }

  // ----- Steps -----

  ghost predicate Sound(a: Adapter) {
    Sorted(a.trips) && AskForFixes(a.trips)
  }

  function Smaller(a: Word, b: Word): Word {
    if a < b then a else b
  }

  lemma JoinedEntries(a: Adapter, id: int, trip: Trip)
    requires Sound(a) && trip.tbf > 0
    ensures var ts := Saved(a.trips, id, trip);
            && AskForFixes(ts) && ts != []
            && (forall v: Word :: IsLeastTbf(a.trips, v) && Lookup(a.trips, id) == None ==>
                  IsLeastTbf(ts, Smaller(v, trip.tbf)))
            && (Serves(a) ==> forall e :: e in ts ==> Smaller(a.ongoingTbf, trip.tbf) <= e.value.tbf)
  {
    SavedMeaning(a.trips, id, trip);
    var ts := Saved(a.trips, id, trip);
    assert Entry(id, trip) in ts;
    LookupMeaning(a.trips, id);
    forall v: Word | IsLeastTbf(a.trips, v) && Lookup(a.trips, id) == None
      ensures IsLeastTbf(ts, Smaller(v, trip.tbf))
    {
      var e :| e in a.trips && e.value.tbf == v;
      assert e in ts;
    }
  }

  /** A join leaves the batch at the smaller of its interval and the joiner's, restarted or not. */
  lemma JoinInterval(a: Adapter, id: int, distance: Word, tbf: Word, acc: Word)
    ensures StartTrip(a, id, distance, tbf, acc).0.ongoingTbf ==
            if a.trips == [] then tbf else Smaller(a.ongoingTbf, tbf)
  {
  }

  lemma JoinFits(a: Adapter, id: int, distance: Word, tbf: Word, acc: Word)
    requires Sound(a) && Serves(a) && tbf > 0
    ensures var b := StartTrip(a, id, distance, tbf, acc).0;
            AskForFixes(b.trips) && Serves(b) && (Fits(a) && Lookup(a.trips, id) == None ==> Fits(b))
  {
    JoinInterval(a, id, distance, tbf, acc);
    var b := StartTrip(a, id, distance, tbf, acc).0;
    if a.trips == [] {
      assert b.trips == [Entry(id, Trip(0, 0, 0, distance, tbf))];
      assert b.trips[0] in b.trips;
    } else {
      var trip := Trip(acc, 0, 0, distance, tbf);
      JoinedEntries(a, id, trip);
      var ts := Saved(a.trips, id, trip);
      RebasedIntervals(ts, acc);
      SameLeast(ts, RebasedStale(ts));
      SameServes(ts, RebasedStale(ts), b.ongoingTbf);
    }
  }

  lemma SameServes(ts: seq<Entry<Trip>>, us: seq<Entry<Trip>>, v: Word)
    requires SameIntervals(ts, us) && forall e :: e in ts ==> v <= e.value.tbf
    ensures forall e :: e in us ==> v <= e.value.tbf
  {
    forall e | e in us
      ensures v <= e.value.tbf
    {
      var i :| 0 <= i < |us| && us[i] == e;
      assert ts[i] in ts;
    }
  }

  /** A join whose query fails leaves the batch at the smaller interval too. */
  lemma FailedJoinServes(a: Adapter, distance: Word, tbf: Word)
    requires Sound(a) && Serves(a)
    ensures var b := StartUnmeasured(a, distance, tbf).0;
            AskForFixes(b.trips) && Serves(b) && b.ongoingTbf == Smaller(a.ongoingTbf, tbf)
  {
    RebasedIntervals(a.trips, 0);
    SameLeast(a.trips, RebasedStale(a.trips));
    SameServes(a.trips, RebasedStale(a.trips), Smaller(a.ongoingTbf, tbf));
  }

  lemma RestartServes(a: Adapter, acc: Word)
    requires a.trips != [] && AskForFixes(a.trips)
    ensures AskForFixes(Restart(a, acc).0.trips) && Serves(Restart(a, acc).0)
  {
    TbfIsLeast(a.trips, 0);
    assert a.trips[0] in a.trips;
    RestartInterval(a, acc, MinTbf(a.trips, 0));
    RestartDoes(a, acc);
    RebasedIntervals(a.trips, acc);
    SameLeast(a.trips, Rebased(a.trips, acc));
    SameServes(a.trips, Rebased(a.trips, acc), Restart(a, acc).0.ongoingTbf);
  }

  lemma DepartedRemembers(a: Adapter, id: int)
    requires Sound(a) && Serves(a) && Lookup(a.trips, id).Some?
    ensures var b := Departed(a, id); AskForFixes(b.trips) && Serves(b) && (Fits(a) ==> Remembers(b))
  {
    RemovedMeaning(a.trips, id);
    LookupMeaning(a.trips, id);
    var b := Departed(a, id);
    if Fits(a) {
      var e :| e in a.trips && e.value.tbf == a.ongoingTbf;
      assert e.key != id ==> e in b.trips;
    }
  }

  lemma SweepServes(a: Adapter, acc: Word)
    requires Sound(a) && Serves(a)
    ensures AskForFixes(StillOpen(a.trips, acc)) && Serves(Swept(a, acc))
  {
    forall e | e in StillOpen(a.trips, acc)
      ensures e.value.tbf > 0 && a.ongoingTbf <= e.value.tbf
    {
      SweptEntry(a.trips, acc, e);
    }
  }

  // Trips ask for fixes, and have a session id of their own
  predicate AsksForFixes(e: Event) {
    (e.Joins? || e.JoinFails?) ==> e.tbf > 0
  }

  lemma StepOrder(s: System, e: Event)
    requires Sorted(s.adapter.trips)
    ensures Sorted(Next(s, e).adapter.trips)
  {
    match e
    case Travels(_) =>
    case Joins(_, _, _) => JoinKeepsOrder(s, e);
    case JoinFails(_, _) => RebaseKeepsOrder(s.adapter.trips, Counter(s));
    case Leaves(id) => LeaveKeepsOrder(s, id);
    case Reports => ReportKeepsOrder(s);
  }

  lemma ReportServes(a: Adapter, acc: Word)
    requires Sound(a) && Serves(a)
    ensures var b := Report(a, acc).0; AskForFixes(b.trips) && Serves(b) && (Fits(a) ==> Fits(b))
  {
    var b := Swept(a, acc);
    SweepServes(a, acc);
    if Fits(a) { SweepRemembers(a, acc); }
    if b.trips != [] {
      RestartServes(b, acc);
      if Fits(a) { RestartFits(b, acc); }
    }
  }

  lemma LeaveServes(a: Adapter, id: int, acc: Word)
    requires Sound(a) && Serves(a) && Lookup(a.trips, id).Some?
    ensures var b := StopTrip(a, id, acc).0; AskForFixes(b.trips) && Serves(b) && (Fits(a) ==> Fits(b))
  {
    DepartedRemembers(a, id);
    if Departed(a, id).trips != [] {
      RestartServes(Departed(a, id), acc);
      if Fits(a) { RestartFits(Departed(a, id), acc); }
    }
  }

  lemma StepServes(s: System, e: Event)
    requires Sound(s.adapter) && Serves(s.adapter) && AsksForFixes(e)
    ensures Sound(Next(s, e).adapter) && Serves(Next(s, e).adapter)
    ensures Fits(s.adapter) && !e.JoinFails? && (e.Joins? ==> Live(s, e.id) == None) ==> Fits(Next(s, e).adapter)
  {
    StepOrder(s, e);
    match e
    case Travels(_) =>
    case Joins(id, distance, tbf) => JoinFits(s.adapter, id, distance, tbf, Counter(s));
    case JoinFails(distance, tbf) => FailedJoinServes(s.adapter, distance, tbf);
    case Leaves(id) => if Live(s, id).Some? { LeaveServes(s.adapter, id, Counter(s)); }
    case Reports => ReportServes(s.adapter, Counter(s));
  }

  // ----- Runs -----

  /** In every run of trips that ask for fixes, the batch fixes often enough for every trip. */
  lemma {:induction false} RunServes(s: System, es: seq<Event>)
    requires Sound(s.adapter) && Serves(s.adapter) && forall e :: e in es ==> AsksForFixes(e)
    ensures Sound(Run(s, es).adapter) && Serves(Run(s, es).adapter)
    decreases |es|
  {
    if es != [] {
      assert es[0] in es;
      StepServes(s, es[0]);
      RunServes(Next(s, es[0]), es[1..]);
    }
  }

  // Every trip joins under a new session id, and every distance query is answered
  predicate JoinsCleanly(s: System, es: seq<Event>)
    decreases |es|
  {
    es == [] ||
    (!es[0].JoinFails? && (es[0].Joins? ==> Live(s, es[0].id) == None) && JoinsCleanly(Next(s, es[0]), es[1..]))
  }

  /** ... and, if every distance query is answered, no more often than the most demanding trip asks for. */
  lemma {:induction false} RunFits(s: System, es: seq<Event>)
    requires Sound(s.adapter) && Serves(s.adapter) && Fits(s.adapter)
    requires (forall e :: e in es ==> AsksForFixes(e)) && JoinsCleanly(s, es)
    ensures Fits(Run(s, es).adapter)
    decreases |es|
  {
    if es != [] {
      assert es[0] in es;
      StepServes(s, es[0]);
      RunFits(Next(s, es[0]), es[1..]);
    }
  }

  // ----- Without trips -----

  predicate IdleIfEmpty(a: Adapter) {
    a.trips == [] ==> a.ongoingDistance == 0 && a.ongoingTbf == 0
  }

  lemma RestartIdles(a: Adapter, acc: Word)
    ensures IdleIfEmpty(Restart(a, acc).0)
  {
    RebasedIntervals(a.trips, acc);
  }

  lemma StepIdles(s: System, e: Event)
    requires IdleIfEmpty(s.adapter)
    ensures IdleIfEmpty(Next(s, e).adapter)
  {
    var acc := Counter(s);
    match e
    case Travels(_) =>
    case Joins(id, distance, tbf) =>
      LookupSaved(s.adapter.trips, id, Trip(acc, 0, 0, distance, tbf), id);
      RebasedIntervals(Saved(s.adapter.trips, id, Trip(acc, 0, 0, distance, tbf)), acc);
    case JoinFails(_, _) => RebasedIntervals(s.adapter.trips, acc);
    case Leaves(id) => if Live(s, id).Some? { RestartIdles(Departed(s.adapter, id), acc); }
    case Reports => RestartIdles(Swept(s.adapter, acc), acc);
  }

  /** In every run, without trips the batch is set to no distance and no interval. */
  lemma {:induction false} RunIdles(s: System, es: seq<Event>)
    requires IdleIfEmpty(s.adapter)
    ensures IdleIfEmpty(Run(s, es).adapter)
    decreases |es|
  {
    if es != [] {
      StepIdles(s, es[0]);
      RunIdles(Next(s, es[0]), es[1..]);
    }
  }
}
