// Runs of the trip accounting: whatever mixture of joins, departures, reports and restarts happens,
// what the adapter computes for a trip is the distance really travelled since it joined.
module TripRuns {
  import opened Wrappers
  import opened SortedMaps
  import opened TripModel

  // A join fails when the engine does not answer its distance query.
  //
  // odometer is the distance travelled since the beginning, batchStart what it read when the engine's
  // batch last started over, and joined what it read when each session joined
  datatype System = System(adapter: Adapter, odometer: nat, batchStart: int, joined: map<int, nat>)

  datatype Event =
    | Travels(step: nat)
    | Joins(id: int, distance: Word, tbf: Word)
    | JoinFails(distance: Word, tbf: Word)
    | Leaves(id: int)
    | Reports

  const START := System(INITIAL, 0, 0, map[])

  // What the engine's batch counter reads
  function Counter(s: System): Word {
    Wrap(s.odometer - s.batchStart)
  }

  function Outcome(s: System, e: Event): (System, seq<int>) {
    match e
    case Travels(d) => (s.(odometer := s.odometer + d), [])
    case Joins(id, distance, tbf) =>
      var (a, restarted) := StartTrip(s.adapter, id, distance, tbf, Counter(s));
      (Moved(s, a, restarted).(joined := s.joined[id := s.odometer]), [])
    case JoinFails(distance, tbf) =>
      if s.adapter.trips == [] then (s, [])
      else
        var (a, restarted) := StartUnmeasured(s.adapter, distance, tbf);
        (Moved(s, a, restarted), [])
    case Leaves(id) =>
      if Lookup(s.adapter.trips, id).None? then (s, [])
      else
        var (a, restarted) := StopTrip(s.adapter, id, Counter(s));
        (Moved(s, a, restarted), [])
    case Reports =>
      var (a, completed, restarted) := Report(s.adapter, Counter(s));
      (Moved(s, a, restarted), completed)
  }

  function Moved(s: System, a: Adapter, restarted: bool): System {
    s.(adapter := a, batchStart := if restarted then s.odometer else s.batchStart)
  }

  function Next(s: System, e: Event): System {
    Outcome(s, e).0
  }

  function Run(s: System, es: seq<Event>): System
    decreases |es|
  {
    if es == [] then s else Run(Next(s, es[0]), es[1..])
  }

  function Live(s: System, id: int): Option<Trip> {
    Lookup(s.adapter.trips, id)
  }

  // ----- The accounting -----

  ghost predicate AccountsFor(s: System, id: int) {
    match Live(s, id)
    case None => true
    case Some(t) =>
      && id in s.joined && s.joined[id] <= s.odometer
      && DistanceAt(t, Counter(s)) == Wrap(s.odometer - s.joined[id])
  }

  ghost predicate Accounts(s: System) {
    Sorted(s.adapter.trips) && forall id :: AccountsFor(s, id)
  }

  // The distances of the trips other than id were last computed where the system now is
  ghost predicate CurrentBut(s: System, id: int) {
    forall k :: k != id ==> IsCurrent(s, k)
  }

  ghost predicate IsCurrent(s: System, id: int) {
    Live(s, id).Some? ==> Live(s, id).value.thisTrip == DistanceAt(Live(s, id).value, Counter(s))
  }

  // A join that restarts the batch while some trip's distance is out of date loses what that trip
  // travelled since its distance was last computed
  ghost predicate LosesDistance(s: System, e: Event) {
    && s.adapter.trips != []
    && match e
       case Joins(id, distance, tbf) => !JoinsQuietly(s.adapter, distance, tbf, Counter(s)) && !CurrentBut(s, id)
       case JoinFails(distance, tbf) => StartsOver(s.adapter, distance, tbf) && exists k :: !IsCurrent(s, k)
       case _ => false
  }

  // The batch is slower, or longer from its start, than the failing trip asked for
  predicate StartsOver(a: Adapter, distance: Word, tbf: Word) {
    tbf < a.ongoingTbf || distance < a.ongoingDistance
  }

  ghost predicate Orderly(s: System, es: seq<Event>)
    decreases |es|
  {
    es == [] || (!LosesDistance(s, es[0]) && Orderly(Next(s, es[0]), es[1..]))
  }

  // ----- Arithmetic modulo 2^32 -----

  lemma WrapShift(a: int, b: int, d: int)
    requires Wrap(a) == Wrap(b)
    ensures Wrap(a + d) == Wrap(b + d)
  {
    assert a - b == MOD * (a / MOD - b / MOD);
    var q := a / MOD - b / MOD;
    assert a + d == (b + d) + MOD * q;
    assert (b + d + MOD * q) % MOD == (b + d) % MOD;
  }

  lemma DistanceFlat(t: Trip, n: int)
    ensures DistanceAt(t, Wrap(n)) == Wrap(t.onRestart + n - t.ongoingBatch)
  {
    var joinedAt: int := t.ongoingBatch;
    WrapShift(Wrap(n), n, -joinedAt);
    WrapShift(Wrap(Wrap(n) - t.ongoingBatch), n - t.ongoingBatch, t.onRestart);
  }

  // ----- The adapter's passes over the map, one session at a time -----

  lemma {:induction false} AfterSweep(ts: seq<Entry<Trip>>, acc: Word, id: int)
    requires Sorted(ts)
    ensures Lookup(StillOpen(ts, acc), id) ==
            match Lookup(ts, id)
            case None => None
            case Some(t) => if IsComplete(t, acc) then None else Some(Measured(t, acc))
    ensures id in Completed(ts, acc) <==> Lookup(ts, id).Some? && IsComplete(Lookup(ts, id).value, acc)
  {
    if ts != [] {
      AfterSweep(ts[1..], acc, id);
      LookupMeaning(ts[1..], ts[0].key);
    }
  }

  lemma {:induction false} AfterRebase(ts: seq<Entry<Trip>>, acc: Word, id: int)
    ensures Lookup(Rebased(ts, acc), id) ==
            match Lookup(ts, id)
            case None => None
            case Some(t) => Some(t.(thisTrip := DistanceAt(t, acc), ongoingBatch := 0, onRestart := DistanceAt(t, acc)))
  {
    if ts != [] {
      AfterRebase(ts[1..], acc, id);
    }
  }

  lemma {:induction false} AfterStaleRebase(ts: seq<Entry<Trip>>, id: int)
    ensures Lookup(RebasedStale(ts), id) ==
            match Lookup(ts, id)
            case None => None
            case Some(t) => Some(t.(ongoingBatch := 0, onRestart := t.thisTrip))
  {
    if ts != [] {
      AfterStaleRebase(ts[1..], id);
    }
  }

  ghost predicate Above(ts: seq<Entry<Trip>>, n: int) {
    forall e :: e in ts ==> n < e.key
  }

  lemma {:induction false} SweepKeepsOrder(ts: seq<Entry<Trip>>, acc: Word)
    requires Sorted(ts)
    ensures Sorted(StillOpen(ts, acc)) && forall n :: Above(ts, n) ==> Above(StillOpen(ts, acc), n)
  {
    if ts != [] {
      SweepKeepsOrder(ts[1..], acc);
      assert ts == [ts[0]] + ts[1..] && Above(ts[1..], ts[0].key);
      forall n | Above(ts, n)
        ensures Above(StillOpen(ts, acc), n)
      {
        assert Above(ts[1..], n);
      }
    }
  }

  lemma {:induction false} RebaseKeepsOrder(ts: seq<Entry<Trip>>, acc: Word)
    requires Sorted(ts)
    ensures Sorted(Rebased(ts, acc)) && forall n :: Above(ts, n) ==> Above(Rebased(ts, acc), n)
    ensures Sorted(RebasedStale(ts)) && forall n :: Above(ts, n) ==> Above(RebasedStale(ts), n)
  {
    if ts != [] {
      RebaseKeepsOrder(ts[1..], acc);
      assert ts == [ts[0]] + ts[1..] && Above(ts[1..], ts[0].key);
      forall n | Above(ts, n)
        ensures Above(Rebased(ts, acc), n) && Above(RebasedStale(ts), n)
      {
        assert Above(ts[1..], n);
      }
    }
  }

  // ----- Every step keeps the accounting -----

  lemma TravelKeeps(s: System, d: nat, id: int)
    requires AccountsFor(s, id)
    ensures AccountsFor(Next(s, Travels(d)), id)
  {
    if Live(s, id).Some? {
      var t := Live(s, id).value;
      var n := s.odometer - s.batchStart;
      DistanceFlat(t, n);
      DistanceFlat(t, n + d);
      WrapShift(t.onRestart + n - t.ongoingBatch, s.odometer - s.joined[id], d);
    }
  }

  function Restarted(s: System): System {
    var (a, restarted) := Restart(s.adapter, Counter(s));
    Moved(s, a, restarted)
  }

  // Either nothing but the adapter's other fields changed, or every trip and the batch started over
  lemma RestartCases(s: System)
    ensures Restarted(s).odometer == s.odometer && Restarted(s).joined == s.joined
    ensures || (Restarted(s).adapter.trips == s.adapter.trips && Counter(Restarted(s)) == Counter(s))
            || (Restarted(s).adapter.trips == Rebased(s.adapter.trips, Counter(s)) && Counter(Restarted(s)) == 0)
  {
  }

  /** A restart of the batch neither gains nor loses distance for any trip. */
  lemma RestartKeepsFor(s: System, id: int)
    requires AccountsFor(s, id)
    ensures AccountsFor(Restarted(s), id)
    ensures Live(Restarted(s), id).Some? <==> Live(s, id).Some?
    ensures IsCurrent(s, id) ==> IsCurrent(Restarted(s), id)
    ensures Live(s, id).Some? ==> Live(Restarted(s), id).value.tripDistance == Live(s, id).value.tripDistance
  {
    RestartCases(s);
    if Restarted(s).adapter.trips != s.adapter.trips || Counter(Restarted(s)) != Counter(s) {
      AfterRebase(s.adapter.trips, Counter(s), id);
    }
  }

  lemma RestartKeepsOrder(s: System)
    requires Sorted(s.adapter.trips)
    ensures Sorted(Restarted(s).adapter.trips)
  {
    RestartCases(s);
    RebaseKeepsOrder(s.adapter.trips, Counter(s));
  }

  // A report before its restart
  function SweptSystem(s: System): System {
    s.(adapter := Swept(s.adapter, Counter(s)))
  }

  /** A report keeps the accounting and leaves every trip's distance current; a trip stays exactly when
      its distance is still short, and is reported exactly when it goes. */
  lemma ReportKeepsFor(s: System, id: int)
    requires Sorted(s.adapter.trips) && AccountsFor(s, id)
    ensures AccountsFor(Next(s, Reports), id) && IsCurrent(Next(s, Reports), id)
    ensures id in Outcome(s, Reports).1 <==> Live(s, id).Some? && IsComplete(Live(s, id).value, Counter(s))
    ensures match Live(Next(s, Reports), id)
            case None => Live(s, id).None? || IsComplete(Live(s, id).value, Counter(s))
            case Some(t) => && Live(s, id).Some? && !IsComplete(Live(s, id).value, Counter(s))
                            && t.tripDistance == Live(s, id).value.tripDistance
  {
    AfterSweep(s.adapter.trips, Counter(s), id);
    RestartKeepsFor(SweptSystem(s), id);
  }

  lemma ReportKeepsOrder(s: System)
    requires Sorted(s.adapter.trips)
    ensures Sorted(Next(s, Reports).adapter.trips)
  {
    SweepKeepsOrder(s.adapter.trips, Counter(s));
    RestartKeepsOrder(SweptSystem(s));
  }

  // A departure before its restart
  function LeftSystem(s: System, id: int): System
    requires Live(s, id).Some?
  {
    s.(adapter := Departed(s.adapter, id))
  }

  lemma LeaveKeepsFor(s: System, id: int, k: int)
    requires Sorted(s.adapter.trips) && AccountsFor(s, k)
    ensures AccountsFor(Next(s, Leaves(id)), k)
    ensures match Live(Next(s, Leaves(id)), k)
            case None => Live(s, k).None? || k == id
            case Some(t) => k != id && Live(s, k).Some? && t.tripDistance == Live(s, k).value.tripDistance
  {
    if Live(s, id).Some? {
      LookupRemoved(s.adapter.trips, id, k);
      RestartKeepsFor(LeftSystem(s, id), k);
    }
  }

  lemma LeaveKeepsOrder(s: System, id: int)
    requires Sorted(s.adapter.trips)
    ensures Sorted(Next(s, Leaves(id)).adapter.trips)
  {
    if Live(s, id).Some? {
      RemovedMeaning(s.adapter.trips, id);
      RestartKeepsOrder(LeftSystem(s, id));
    }
  }

  lemma JoinLookup(s: System, e: Event, k: int)
    requires e.Joins?
    ensures var quiet := JoinsQuietly(s.adapter, e.distance, e.tbf, Counter(s));
            var was := if k == e.id then Some(Trip(Counter(s), 0, 0, e.distance, e.tbf)) else Live(s, k);
            && Live(Next(s, e), k) ==
               (if s.adapter.trips == [] then (if k == e.id then Some(Trip(0, 0, 0, e.distance, e.tbf)) else None)
                else if quiet || was.None? then was
                else Some(was.value.(ongoingBatch := 0, onRestart := was.value.thisTrip)))
            && Counter(Next(s, e)) == if s.adapter.trips == [] || !quiet then 0 else Counter(s)
  {
    var trip := Trip(Counter(s), 0, 0, e.distance, e.tbf);
    LookupSaved(s.adapter.trips, e.id, trip, k);
    AfterStaleRebase(Saved(s.adapter.trips, e.id, trip), k);
    if s.adapter.trips == [] {
      assert Next(s, e).adapter.trips == [Entry(e.id, Trip(0, 0, 0, e.distance, e.tbf))];
      assert Next(s, e).adapter.trips[1..] == [];
    }
  }

  lemma JoinKeepsOrder(s: System, e: Event)
    requires e.Joins? && Sorted(s.adapter.trips)
    ensures Sorted(Next(s, e).adapter.trips)
  {
    if s.adapter.trips != [] {
      var trip := Trip(Counter(s), 0, 0, e.distance, e.tbf);
      SavedMeaning(s.adapter.trips, e.id, trip);
      RebaseKeepsOrder(Saved(s.adapter.trips, e.id, trip), Counter(s));
    }
  }

  lemma JoinKeepsFor(s: System, e: Event, k: int)
    requires e.Joins? && AccountsFor(s, k)
    ensures s.adapter.trips == [] || JoinsQuietly(s.adapter, e.distance, e.tbf, Counter(s)) ==>
              AccountsFor(Next(s, e), k)
    ensures AccountsFor(Next(s, e), k) <==>
            || s.adapter.trips == [] || JoinsQuietly(s.adapter, e.distance, e.tbf, Counter(s))
            || k == e.id || IsCurrent(s, k)
  {
    JoinLookup(s, e, k);
  }

  /** A joining trip keeps the accounting exactly when it does not restart the batch with some other
      trip's distance out of date: the restart counts every trip on from its last computed distance. */
  lemma JoinKeepsIff(s: System, e: Event)
    requires Accounts(s) && e.Joins?
    ensures Accounts(Next(s, e)) <==> !LosesDistance(s, e)
  {
    JoinKeepsOrder(s, e);
    forall k
      ensures AccountsFor(Next(s, e), k) <==>
              || s.adapter.trips == [] || JoinsQuietly(s.adapter, e.distance, e.tbf, Counter(s))
              || k == e.id || IsCurrent(s, k)
    {
      assert AccountsFor(s, k);
      JoinKeepsFor(s, e, k);
    }
  }

  // Trip 1, of distance 1000, after 300
  const UNDERWAY := System(Adapter([Entry(1, Trip(0, 0, 0, 1000, 10))], 1000, 10, false, false), 300, 0, map[1 := 0])

  lemma UnderwayIsReached()
    ensures Run(START, [Joins(1, 1000, 10), Travels(300)]) == UNDERWAY
  {
    assert [Joins(1, 1000, 10), Travels(300)][1..] == [Travels(300)];
    assert [Travels(300)][1..] == [];
    assert Next(Next(START, Joins(1, 1000, 10)), Travels(300)) == UNDERWAY;
    assert Run(UNDERWAY, []) == UNDERWAY;
  }

  /** When a shorter trip joins, the 300 that trip 1 has behind it are forgotten. */
  lemma StaleJoinLoses()
    ensures var t := Next(UNDERWAY, Joins(2, 100, 10));
            && LosesDistance(UNDERWAY, Joins(2, 100, 10))
            && t.odometer - t.joined[1] == 300
            && Live(t, 1).Some? && DistanceAt(Live(t, 1).value, Counter(t)) == 0
  {
    assert Live(UNDERWAY, 1) == Some(Trip(0, 0, 0, 1000, 10)) && Counter(UNDERWAY) == 300;
    assert !IsCurrent(UNDERWAY, 1);
    JoinLookup(UNDERWAY, Joins(2, 100, 10), 1);
  }

  lemma FailedJoinFor(s: System, e: Event, k: int)
    requires e.JoinFails? && s.adapter.trips != []
    ensures Live(Next(s, e), k) ==
            if !StartsOver(s.adapter, e.distance, e.tbf) || Live(s, k).None? then Live(s, k)
            else Some(Live(s, k).value.(ongoingBatch := 0, onRestart := Live(s, k).value.thisTrip))
    ensures Counter(Next(s, e)) == if StartsOver(s.adapter, e.distance, e.tbf) then 0 else Counter(s)
    ensures AccountsFor(s, k) ==>
              (AccountsFor(Next(s, e), k) <==> !StartsOver(s.adapter, e.distance, e.tbf) || IsCurrent(s, k))
  {
    AfterStaleRebase(s.adapter.trips, k);
  }

  lemma FailedJoinKeepsIff(s: System, e: Event)
    requires Accounts(s) && e.JoinFails?
    ensures Accounts(Next(s, e)) <==> !LosesDistance(s, e)
  {
    if s.adapter.trips != [] {
      RebaseKeepsOrder(s.adapter.trips, Counter(s));
      forall k
        ensures AccountsFor(Next(s, e), k) <==> !StartsOver(s.adapter, e.distance, e.tbf) || IsCurrent(s, k)
      {
        assert AccountsFor(s, k);
        FailedJoinFor(s, e, k);
      }
    }
  }

  /** So are they when the shorter trip's query fails. */
  lemma FailedJoinLoses()
    ensures var t := Next(UNDERWAY, JoinFails(100, 10));
            && LosesDistance(UNDERWAY, JoinFails(100, 10))
            && t.odometer - t.joined[1] == 300
            && Live(t, 1).Some? && DistanceAt(Live(t, 1).value, Counter(t)) == 0
  {
    assert Live(UNDERWAY, 1) == Some(Trip(0, 0, 0, 1000, 10)) && Counter(UNDERWAY) == 300;
    assert !IsCurrent(UNDERWAY, 1);
    AfterStaleRebase(UNDERWAY.adapter.trips, 1);
  }

  lemma StepKeeps(s: System, e: Event)
    requires Accounts(s)
    ensures Accounts(Next(s, e)) <==> !LosesDistance(s, e)
  {
    match e
    case Travels(d) =>
      forall id
        ensures AccountsFor(Next(s, e), id)
      {
        assert AccountsFor(s, id);
        TravelKeeps(s, d, id);
      }
    case Joins(_, _, _) => JoinKeepsIff(s, e);
    case JoinFails(_, _) => FailedJoinKeepsIff(s, e);
    case Leaves(id) =>
      LeaveKeepsOrder(s, id);
      forall k
        ensures AccountsFor(Next(s, e), k)
      {
        assert AccountsFor(s, k);
        LeaveKeepsFor(s, id, k);
      }
    case Reports =>
      ReportKeepsOrder(s);
      forall id
        ensures AccountsFor(Next(s, e), id)
      {
        assert AccountsFor(s, id);
        ReportKeepsFor(s, id);
      }
  }

  /** In every run whose joins lose nothing, each trip's computed distance is the distance travelled
      since it joined, modulo 2^32. */
  lemma {:induction false} OrderlyKeeps(s: System, es: seq<Event>)
    requires Accounts(s) && Orderly(s, es)
    ensures Accounts(Run(s, es))
    decreases |es|
  {
    if es != [] {
      StepKeeps(s, es[0]);
      OrderlyKeeps(Next(s, es[0]), es[1..]);
    }
  }

  // ----- Completion -----

  /** A report names each completed trip once, in the order of their session ids. */
  lemma {:induction false} CompletedInOrder(ts: seq<Entry<Trip>>, acc: Word)
    requires Sorted(ts)
    ensures forall i, j :: 0 <= i < j < |Completed(ts, acc)| ==> Completed(ts, acc)[i] < Completed(ts, acc)[j]
    ensures forall id :: id in Completed(ts, acc) ==> exists e :: e in ts && e.key == id
  {
    if ts != [] {
      assert ts == [ts[0]] + ts[1..];
      CompletedInOrder(ts[1..], acc);
      var later := Completed(ts[1..], acc);
      assert forall j :: 0 <= j < |later| ==> later[j] in later;
    }
  }

  // When the first report comes at which the odometer has reached the target
  function FirstReach(es: seq<Event>, odometer: nat, target: int): Option<nat> {
    if es == [] then None
    else if es[0].Reports? && target <= odometer then Some(0)
    else Later(FirstReach(es[1..], odometer + (if es[0].Travels? then es[0].step else 0), target))
  }

  // When the first report comes that names the trip as completed
  function FirstNamed(s: System, es: seq<Event>, id: int): Option<nat>
    decreases |es|
  {
    if es == [] then None
    else if id in Outcome(s, es[0]).1 then Some(0)
    else Later(FirstNamed(Next(s, es[0]), es[1..], id))
  }

  function Later(n: Option<nat>): Option<nat> {
    match n case None => None case Some(k) => Some(k + 1)
  }

  predicate LeavesAlone(e: Event, id: int) {
    !(e.Joins? && e.id == id) && !(e.Leaves? && e.id == id)
  }

  lemma StepKeepsTrip(s: System, e: Event, id: int)
    requires Accounts(s) && Live(s, id).Some? && LeavesAlone(e, id)
    requires id !in Outcome(s, e).1
    ensures Live(Next(s, e), id).Some? && Live(Next(s, e), id).value.tripDistance == Live(s, id).value.tripDistance
    ensures Next(s, e).odometer == s.odometer + (if e.Travels? then e.step else 0)
    ensures id in s.joined && id in Next(s, e).joined && Next(s, e).joined[id] == s.joined[id]
  {
    assert AccountsFor(s, id);
    match e
    case Travels(_) =>
    case Joins(_, _, _) => JoinLookup(s, e, id);
    case JoinFails(_, _) => if s.adapter.trips != [] { FailedJoinFor(s, e, id); }
    case Leaves(k) => LeaveKeepsFor(s, k, id);
    case Reports => ReportKeepsFor(s, id);
  }

  function Travelled(es: seq<Event>): nat {
    if es == [] then 0 else (if es[0].Travels? then es[0].step else 0) + Travelled(es[1..])
  }

  lemma OnlyReportsName(s: System, e: Event)
    requires !e.Reports?
    ensures Outcome(s, e).1 == []
  {
  }

  /** A report names a trip exactly when the distance since it joined, below 2^32, has reached its own. */
  lemma ReportNames(s: System, e: Event, id: int)
    requires Sorted(s.adapter.trips) && Live(s, id).Some?
    requires AccountsFor(s, id) && s.odometer - s.joined[id] < MOD
    ensures id in Outcome(s, e).1 <==> e.Reports? && s.joined[id] + Live(s, id).value.tripDistance <= s.odometer
  {
    if e.Reports? {
      ReportKeepsFor(s, id);
    } else {
      OnlyReportsName(s, e);
    }
  }

  /** A trip is reported complete at the first report at which the distance since it joined has reached
      its own distance, and at no earlier one, while that distance stays below 2^32. */
  lemma {:induction false} CompletesAtFirstReach(s: System, es: seq<Event>, id: int)
    requires Accounts(s) && Orderly(s, es) && Live(s, id).Some? && id in s.joined
    requires forall e :: e in es ==> LeavesAlone(e, id)
    requires s.odometer - s.joined[id] + Travelled(es) < MOD
    ensures FirstNamed(s, es, id) == FirstReach(es, s.odometer, s.joined[id] + Live(s, id).value.tripDistance)
    decreases |es|
  {
    if es != [] {
      assert AccountsFor(s, id);
      assert es[0] in es;
      ReportNames(s, es[0], id);
      if id !in Outcome(s, es[0]).1 {
        StepKeepsTrip(s, es[0], id);
        StepKeeps(s, es[0]);
        CompletesAtFirstReach(Next(s, es[0]), es[1..], id);
      }
    }
  }
}
