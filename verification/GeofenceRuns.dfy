// What the geofence index keeps over every run with an engine that answers later.
module GeofenceRuns {
  import opened GeofenceModel

  // live: the ids the engine holds; pending: unanswered requests, oldest first; used: every client
  // key a geofence was ever requested for
  datatype System = System(index: Index, live: set<HwId>, pending: seq<Request>, used: set<Key>)

  const INITIAL := System(Index(map[], map[]), {}, [], {})

  datatype Event =
    | ClientAdds(key: Key, options: int)
    | ClientRemoves(key: Key)
    | ClientPauses(key: Key)
    | ClientResumes(key: Key)
    | ClientModifies(key: Key, options: int)
    | ClientStops(client: int, keys: seq<Key>)
    | EngineAnswers(ok: bool, hwId: HwId)
    | EngineRestarts(ids: seq<HwId>)

  function RequestFor(e: Event, h: HwId): Request
    requires e.ClientRemoves? || e.ClientPauses? || e.ClientResumes? || e.ClientModifies?
  {
    match e
    case ClientRemoves(_) => RemoveFence(h)
    case ClientPauses(_) => PauseFence(h)
    case ClientResumes(_) => ResumeFence(h)
    case ClientModifies(_, options) => ModifyFence(h, options)
  }

  // ----- What the engine and the client ids promise -----

  // An id given out is not live; strict engines also wait until no removal of it is unanswered
  predicate FreshId(s: System, h: HwId, strict: bool) {
    h !in s.live && (strict ==> DropFence(h) !in s.pending)
  }

  // The id a request other than an addition is about
  function Target(r: Request): HwId
    requires !r.AddFence?
  {
    match r
    case RemoveFence(h) => h
    case DropFence(h) => h
    case PauseFence(h) => h
    case ResumeFence(h) => h
    case ModifyFence(h, _) => h
    case KeepPaused(h) => h
  }

  ghost predicate Allowed(s: System, e: Event, strict: bool) {
    match e
    case ClientAdds(key, _) => key !in s.used
    case ClientStops(client, order) => Enumerates(order, KeysOf(s.index, client))
    case EngineAnswers(ok, h) =>
      s.pending != [] &&
      (ok ==> if s.pending[0].AddFence? then FreshId(s, h, strict) else Target(s.pending[0]) in s.live)
    case EngineRestarts(order) => Enumerates(order, s.index.objects.Keys)
    case _ => true
  }

  // What success changes but the pending requests
  function Settled(s: System, r: Request, h: HwId): System {
    var live := if r.AddFence? then s.live + {h}
                else if r.RemoveFence? || r.DropFence? then s.live - {Target(r)}
                else s.live;
    s.(index := Answered(s.index, r, h), live := live)
  }

  ghost function Step(s: System, e: Event, strict: bool): System
    requires Allowed(s, e, strict)
  {
    match e
    case ClientAdds(key, options) => s.(pending := s.pending + [AddFence(key, options, false)], used := s.used + {key})
    case ClientStops(client, order) =>
      s.(pending := s.pending + Drops(s.index, order), index := Stopped(s.index, client))
    case EngineAnswers(ok, h) =>
      var r := s.pending[0];
      if !ok then s.(pending := s.pending[1..])
      else Settled(s, r, h).(pending := s.pending[1..] + FollowUp(r, h))
    case EngineRestarts(order) =>
      if s.index.objects == map[] then s.(live := {}, pending := [])
      else s.(live := {}, pending := ReAdds(s.index, order), index := Restarted(s.index))
    case _ =>
      if e.key in s.index.ids then s.(pending := s.pending + [RequestFor(e, s.index.ids[e.key])]) else s
  }

  // ----- The index invariant -----

  // Every key leads to an object with that key, and no two objects share a key
  ghost predicate Consistent(x: Index) {
    && (forall k :: k in x.ids ==> x.ids[k] in x.objects && x.objects[x.ids[k]].key == k)
    && (forall g, h :: g in x.objects && h in x.objects && x.objects[g].key == x.objects[h].key ==> g == h)
  }

  ghost predicate Inv(s: System) {
    && Consistent(s.index)
    && (forall k :: k in s.index.ids ==> s.index.ids[k] in s.live)
    && (forall k :: k in s.index.ids ==> DropFence(s.index.ids[k]) !in s.pending)
    && (forall h :: h in s.index.objects ==> s.index.objects[h].key in s.used)
    && (forall i :: 0 <= i < |s.pending| && s.pending[i].AddFence? ==>
          s.pending[i].key in s.used && forall h :: h in s.index.objects ==> s.index.objects[h].key != s.pending[i].key)
    && (forall i, j :: 0 <= i < j < |s.pending| && s.pending[i].AddFence? && s.pending[j].AddFence? ==>
          s.pending[i].key != s.pending[j].key)
  }

  lemma AddsKeeps(s: System, e: Event)
    requires Inv(s) && e.ClientAdds? && Allowed(s, e, true)
    ensures Inv(Step(s, e, true))
  {
  }

  lemma AsksKeeps(s: System, e: Event)
    requires Inv(s) && (e.ClientRemoves? || e.ClientPauses? || e.ClientResumes? || e.ClientModifies?)
    ensures Inv(Step(s, e, true))
  {
  }

  lemma StopsKeeps(s: System, e: Event)
    requires Inv(s) && e.ClientStops? && Allowed(s, e, true)
    ensures Inv(Step(s, e, true))
  {
    var s' := Step(s, e, true);
    var drops := Drops(s.index, e.keys);
    forall k | k in s'.index.ids
      ensures DropFence(s'.index.ids[k]) !in s'.pending
    {
      assert DropFence(s.index.ids[k]) !in drops;
    }
    assert forall i :: |s.pending| <= i < |s'.pending| ==> s'.pending[i] == drops[i - |s.pending|];
  }

  lemma PopKeeps(s: System)
    requires Inv(s) && s.pending != []
    ensures Inv(s.(pending := s.pending[1..]))
    ensures s.pending[0].AddFence? ==>
              && s.pending[0].key in s.used && s.pending[0].key !in s.index.ids
              && (forall h :: h in s.index.objects ==> s.index.objects[h].key != s.pending[0].key)
              && (forall i :: 1 <= i < |s.pending| && s.pending[i].AddFence? ==> s.pending[i].key != s.pending[0].key)
    ensures s.pending[0].DropFence? ==> forall k :: k in s.index.ids ==> s.index.ids[k] != s.pending[0].hwId
  {
    var rest := s.pending[1..];
    forall k | k in s.index.ids
      ensures DropFence(s.index.ids[k]) !in rest && DropFence(s.index.ids[k]) != s.pending[0]
    {
      assert DropFence(s.index.ids[k]) !in s.pending;
    }
  }

  lemma AddedKeeps(s: System, h: HwId, key: Key, options: int)
    requires Inv(s) && h !in s.live && DropFence(h) !in s.pending && key in s.used
    requires key !in s.index.ids
    requires forall g :: g in s.index.objects ==> s.index.objects[g].key != key
    requires forall i :: 0 <= i < |s.pending| && s.pending[i].AddFence? ==> s.pending[i].key != key
    ensures Inv(s.(live := s.live + {h}, index := SaveItem(s.index, key, h, options)))
  {
  }

  lemma RemovedKeeps(s: System, h: HwId)
    requires Inv(s)
    ensures Inv(s.(live := s.live - {h}, index := RemoveItem(s.index, h)))
  {
  }

  lemma DroppedKeeps(s: System, h: HwId)
    requires Inv(s) && forall k :: k in s.index.ids ==> s.index.ids[k] != h
    ensures Inv(s.(live := s.live - {h}, index := DropItem(s.index, h)))
  {
  }

  lemma ChangedKeeps(s: System, h: HwId, paused: bool, options: int)
    requires Inv(s)
    ensures Inv(s.(index := PauseItem(s.index, h, paused))) && Inv(s.(index := ModifyItem(s.index, h, options)))
  {
  }

  lemma FollowUpKeeps(s: System, s': System, h: HwId)
    requires s.pending != [] && Inv(s'.(pending := s.pending[1..]))
    requires s'.pending == s.pending[1..] + FollowUp(s.pending[0], h)
    ensures Inv(s')
  {
    var rest := s.pending[1..];
    forall k | k in s'.index.ids
      ensures DropFence(s'.index.ids[k]) !in s'.pending
    {
      assert DropFence(s'.index.ids[k]) !in rest;
    }
    assert forall i :: 0 <= i < |s'.pending| && s'.pending[i].AddFence? ==> i < |rest| && s'.pending[i] == rest[i];
  }

  lemma SettledKeeps(s: System, r: Request, h: HwId)
    requires Inv(s)
    requires r.AddFence? ==>
               && h !in s.live && DropFence(h) !in s.pending && r.key in s.used && r.key !in s.index.ids
               && (forall g :: g in s.index.objects ==> s.index.objects[g].key != r.key)
               && (forall i :: 0 <= i < |s.pending| && s.pending[i].AddFence? ==> s.pending[i].key != r.key)
    requires r.DropFence? ==> forall k :: k in s.index.ids ==> s.index.ids[k] != r.hwId
    ensures Inv(Settled(s, r, h))
  {
    match r
    case AddFence(key, options, _) => AddedKeeps(s, h, key, options);
    case RemoveFence(g) => RemovedKeeps(s, g);
    case DropFence(g) => DroppedKeeps(s, g);
    case PauseFence(g) => ChangedKeeps(s, g, true, 0);
    case ResumeFence(g) => ChangedKeeps(s, g, false, 0);
    case ModifyFence(g, options) => ChangedKeeps(s, g, false, options);
    case KeepPaused(_) =>
  }

  lemma AnswersKeeps(s: System, e: Event)
    requires Inv(s) && e.EngineAnswers? && Allowed(s, e, true)
    ensures Inv(Step(s, e, true))
  {
    PopKeeps(s);
    if e.ok {
      var popped, r := s.(pending := s.pending[1..]), s.pending[0];
      SettledKeeps(popped, r, e.hwId);
      assert Step(s, e, true).(pending := s.pending[1..]) == Settled(popped, r, e.hwId);
      FollowUpKeeps(s, Step(s, e, true), e.hwId);
    }
  }

  lemma RestartsKeeps(s: System, e: Event)
    requires Inv(s) && e.EngineRestarts? && Allowed(s, e, true)
    ensures Inv(Step(s, e, true))
  {
    var s' := Step(s, e, true);
    if s.index.objects == map[] {
      assert forall k :: k !in s.index.ids;
    } else {
      var adds := ReAdds(s.index, e.ids);
      forall i | 0 <= i < |adds|
        ensures adds[i].key in s.used && e.ids[i] in s.index.objects
      {
        assert e.ids[i] in e.ids;
      }
    }
  }

  lemma StepKeeps(s: System, e: Event)
    requires Inv(s) && Allowed(s, e, true)
    ensures Inv(Step(s, e, true))
  {
    match e
    case ClientAdds(_, _) => AddsKeeps(s, e);
    case ClientStops(_, _) => StopsKeeps(s, e);
    case EngineAnswers(_, _) => AnswersKeeps(s, e);
    case EngineRestarts(_) => RestartsKeeps(s, e);
    case _ => AsksKeeps(s, e);
  }

  // ----- Runs -----

  // The events can happen in this order from s on
  ghost predicate IsRun(s: System, events: seq<Event>, strict: bool)
    decreases |events|
  {
    events == [] || (Allowed(s, events[0], strict) && IsRun(Step(s, events[0], strict), events[1..], strict))
  }

  ghost function Run(s: System, events: seq<Event>, strict: bool): System
    requires IsRun(s, events, strict)
    decreases |events|
  {
    if events == [] then s else Run(Step(s, events[0], strict), events[1..], strict)
  }

  lemma {:induction false} RunKeeps(s: System, events: seq<Event>)
    requires Inv(s) && IsRun(s, events, true)
    ensures Inv(Run(s, events, true))
    decreases |events|
  {
    if events != [] {
      StepKeeps(s, events[0]);
      RunKeeps(Step(s, events[0], true), events[1..]);
    }
  }

  /** With an engine that never gives out an id whose removal is still unanswered, every run keeps
      each key pointing at an object with that key, and the objects' keys distinct. */
  lemma IndexStaysConsistent(events: seq<Event>)
    requires IsRun(INITIAL, events, true)
    ensures Inv(Run(INITIAL, events, true)) && Consistent(Run(INITIAL, events, true).index)
  {
    RunKeeps(INITIAL, events);
  }

  // ----- What happens with an engine that reuses ids at once -----

  lemma RunCons(s: System, e: Event, rest: seq<Event>, strict: bool)
    requires Allowed(s, e, strict) && IsRun(Step(s, e, strict), rest, strict)
    ensures IsRun(s, [e] + rest, strict) && Run(s, [e] + rest, strict) == Run(Step(s, e, strict), rest, strict)
  {
    assert ([e] + rest)[1..] == rest;
  }

  // The engine refuses everything up to the removal of h and then grants that
  lemma {:induction false} RemovalTakesOwner(s: System, h: HwId, k: Key, strict: bool) returns (events: seq<Event>)
    requires DropFence(h) in s.pending && h in s.live && k in s.index.ids && s.index.ids[k] == h
    ensures IsRun(s, events, strict) && !Consistent(Run(s, events, strict).index)
    decreases |s.pending|
  {
    var answer := EngineAnswers(s.pending[0] == DropFence(h), h);
    var s' := Step(s, answer, strict);
    var later := [];
    if s.pending[0] == DropFence(h) {
      assert h !in s'.index.objects;
    } else {
      assert DropFence(h) in s.pending[1..];
      later := RemovalTakesOwner(s', h, k, strict);
    }
    RunCons(s, answer, later, strict);
    events := [answer] + later;
  }

  /** From any state a run can reach, giving the id h to an addition is safe, whatever happens later
      with a careful engine, if and only if no removal of h is still unanswered. */
  lemma GrantIsSafeIff(s: System, h: HwId)
    requires Inv(s) && s.pending != [] && s.pending[0].AddFence? && h !in s.live
    ensures var s' := Step(s, EngineAnswers(true, h), false);
            (forall events :: IsRun(s', events, true) ==> Consistent(Run(s', events, true).index))
              <==> DropFence(h) !in s.pending
  {
    var s' := Step(s, EngineAnswers(true, h), false);
    if DropFence(h) !in s.pending {
      AnswersKeeps(s, EngineAnswers(true, h));
      assert s' == Step(s, EngineAnswers(true, h), true);
      forall events | IsRun(s', events, true)
        ensures Consistent(Run(s', events, true).index)
      {
        RunKeeps(s', events);
      }
    } else {
      assert DropFence(h) in s.pending[1..];
      var events := RemovalTakesOwner(s', h, s.pending[0].key, true);
      assert !Consistent(Run(s', events, true).index);
    }
  }

  // Client 1 owns fence 7
  const OWNED := System(Index(map[7 := Object(Key(1, 1), 0, false)], map[Key(1, 1) := 7]), {7}, [], {Key(1, 1)})

  lemma OwnedIsReached(tail: seq<Event>, strict: bool) returns (events: seq<Event>)
    requires IsRun(OWNED, tail, strict)
    ensures IsRun(INITIAL, events, strict) && Run(INITIAL, events, strict) == Run(OWNED, tail, strict)
  {
    var add, answer := ClientAdds(Key(1, 1), 0), EngineAnswers(true, 7);
    var s1 := Step(INITIAL, add, strict);
    assert s1.pending == [AddFence(Key(1, 1), 0, false)];
    assert Step(s1, answer, strict) == OWNED;
    RunCons(s1, answer, tail, strict);
    RunCons(INITIAL, add, [answer] + tail, strict);
    events := [add] + ([answer] + tail);
  }

  // Client 1 asks to remove it, client 2 for a fence
  const ASKED := System(OWNED.index, {7}, [RemoveFence(7), AddFence(Key(2, 2), 0, false)], {Key(1, 1), Key(2, 2)})

  lemma AskedIsReached(tail: seq<Event>, strict: bool) returns (events: seq<Event>)
    requires IsRun(ASKED, tail, strict)
    ensures IsRun(INITIAL, events, strict) && Run(INITIAL, events, strict) == Run(ASKED, tail, strict)
  {
    var remove, add := ClientRemoves(Key(1, 1)), ClientAdds(Key(2, 2), 0);
    var s := Step(OWNED, remove, strict);
    assert s.pending == [RemoveFence(7)];
    assert Step(s, add, strict) == ASKED;
    RunCons(s, add, tail, strict);
    RunCons(OWNED, remove, [add] + tail, strict);
    events := OwnedIsReached([remove] + ([add] + tail), strict);
  }

  // Client 1 leaves and the engine drops its fence: a second removal of it is still unanswered
  const TWICE_REMOVED := System(Index(map[7 := Object(Key(1, 1), 0, false)], map[]), {},
                                [AddFence(Key(2, 2), 0, false), DropFence(7)], {Key(1, 1), Key(2, 2)})

  // Any run, with a careful engine or not, can come to this
  lemma TwiceRemovedIsReached(tail: seq<Event>, strict: bool) returns (events: seq<Event>)
    requires IsRun(TWICE_REMOVED, tail, strict)
    ensures IsRun(INITIAL, events, strict) && Run(INITIAL, events, strict) == Run(TWICE_REMOVED, tail, strict)
  {
    var stop, answer := ClientStops(1, [Key(1, 1)]), EngineAnswers(true, 0);
    assert KeysOf(OWNED.index, 1) == {Key(1, 1)} && Drops(OWNED.index, [Key(1, 1)]) == [DropFence(7)];
    var s := Step(ASKED, stop, strict);
    assert s.pending == [RemoveFence(7), AddFence(Key(2, 2), 0, false), DropFence(7)];
    assert Step(s, answer, strict) == TWICE_REMOVED;
    RunCons(s, answer, tail, strict);
    RunCons(ASKED, stop, [answer] + tail, strict);
    events := AskedIsReached([stop] + ([answer] + tail), strict);
  }

  // Given 7 again, client 2 loses its fence to client 1's second removal
  lemma ReuseBreaksIndex() returns (events: seq<Event>)
    ensures IsRun(INITIAL, events, false) && !Consistent(Run(INITIAL, events, false).index)
  {
    var s, grant := TWICE_REMOVED, EngineAnswers(true, 7);
    assert DropFence(7) == s.pending[1];
    var later := RemovalTakesOwner(Step(s, grant, false), 7, Key(2, 2), false);
    RunCons(s, grant, later, false);
    events := TwiceRemovedIsReached([grant] + later, false);
  }

  /** Every run keeps the index consistent if and only if the engine keeps an id back while a
      removal of it is unanswered; ids that are merely not live are not fresh enough. */
  lemma ConsistentIffIdsKeptBack(strict: bool)
    ensures (forall events :: IsRun(INITIAL, events, strict) ==> Consistent(Run(INITIAL, events, strict).index))
              <==> strict
  {
    if strict {
      forall events | IsRun(INITIAL, events, strict)
        ensures Consistent(Run(INITIAL, events, strict).index)
      {
        IndexStaysConsistent(events);
      }
    } else {
      var events := ReuseBreaksIndex();
      assert IsRun(INITIAL, events, strict) && !Consistent(Run(INITIAL, events, strict).index);
    }
  }

  // ----- Breach reports -----

  lemma {:induction false} BreachConcat(x: Index, a: seq<HwId>, b: seq<HwId>, client: int)
    ensures BreachIds(x, a + b, client) == BreachIds(x, a, client) + BreachIds(x, b, client)
  {
    if a == [] {
      assert a + b == b;
    } else {
      assert (a + b)[1..] == a[1..] + b && (a + b)[0] == a[0];
      BreachConcat(x, a[1..], b, client);
    }
  }

  /** In a consistent index a report tells each known fence to its owner as often as it was
      reported; BreachConcat adds that the order is kept. */
  lemma {:induction false} BreachReachesOwner(x: Index, hwIds: seq<HwId>, h: HwId)
    requires Consistent(x) && h in x.objects
    ensures multiset(BreachIds(x, hwIds, x.objects[h].key.client))[x.objects[h].key.id] == multiset(hwIds)[h]
  {
    if hwIds != [] {
      var g, rest := hwIds[0], hwIds[1..];
      BreachReachesOwner(x, rest, h);
      assert hwIds == [g] + rest;
      var own := x.objects[h].key;
      assert g in x.objects && x.objects[g].key == own ==> g == h;
    }
  }

  /** A client is told nothing but its own reported fences. */
  lemma {:induction false} BreachTellsOwnOnly(x: Index, hwIds: seq<HwId>, client: int, id: int) returns (g: HwId)
    requires id in BreachIds(x, hwIds, client)
    ensures g in hwIds && g in x.objects && x.objects[g].key == Key(client, id)
  {
    g := hwIds[0];
    if g !in x.objects || x.objects[g].key != Key(client, id) {
      g := BreachTellsOwnOnly(x, hwIds[1..], client, id);
    }
  }

  // ----- Whole notifications -----

  ghost predicate Distinct(clients: seq<int>) {
    forall i, j :: 0 <= i < j < |clients| ==> clients[i] != clients[j]
  }

  // The id lists a client is notified of
  function SentTo(told: seq<Notification>, client: int): seq<seq<int>> {
    if told == [] then []
    else (if told[0].client == client then [told[0].ids] else []) + SentTo(told[1..], client)
  }

  lemma SentToCons(n: Notification, rest: seq<Notification>, client: int)
    ensures SentTo([n] + rest, client) == (if n.client == client then [n.ids] else []) + SentTo(rest, client)
  {
    assert ([n] + rest)[1..] == rest;
  }

  /** A report notifies each listening client of its own reported fences in one notification, or, when
      there are none, not at all; nobody else is notified. */
  lemma {:induction false} BreachSends(x: Index, hwIds: seq<HwId>, clients: seq<int>, client: int)
    requires Distinct(clients)
    ensures var ids := BreachIds(x, hwIds, client);
            SentTo(Breaches(x, hwIds, clients), client) == if client in clients && ids != [] then [ids] else []
  {
    if clients != [] {
      var ids, rest := BreachIds(x, hwIds, clients[0]), Breaches(x, hwIds, clients[1..]);
      assert clients == [clients[0]] + clients[1..];
      BreachSends(x, hwIds, clients[1..], client);
      if ids == [] {
        assert [] + rest == rest;
      } else {
        SentToCons(Notification(clients[0], ids), rest, client);
      }
    }
  }

  lemma {:induction false} KnownIsTold(x: Index, hwIds: seq<HwId>, h: HwId)
    requires h in hwIds && h in x.objects
    ensures x.objects[h].key.id in BreachIds(x, hwIds, x.objects[h].key.client)
  {
    if hwIds[0] != h {
      assert h in hwIds[1..];
      KnownIsTold(x, hwIds[1..], h);
    }
  }

  /** After every run, a reported fence the adapter knows reaches its listening owner: in the owner's one
      notification, under the owner's own id, as often as it was reported. */
  lemma EveryBreachArrives(events: seq<Event>, hwIds: seq<HwId>, clients: seq<int>, h: HwId)
    requires IsRun(INITIAL, events, true) && Distinct(clients)
    requires var x := Run(INITIAL, events, true).index;
             h in hwIds && h in x.objects && x.objects[h].key.client in clients
    ensures var x := Run(INITIAL, events, true).index;
            var owner := x.objects[h].key;
            var sent := SentTo(Breaches(x, hwIds, clients), owner.client);
            |sent| == 1 && multiset(sent[0])[owner.id] == multiset(hwIds)[h]
  {
    var x := Run(INITIAL, events, true).index;
    IndexStaysConsistent(events);
    BreachSends(x, hwIds, clients, x.objects[h].key.client);
    BreachReachesOwner(x, hwIds, h);
    KnownIsTold(x, hwIds, h);
  }

  /** ... and no notification names anything but a reported fence of the client it goes to. */
  lemma NoBreachStrays(x: Index, hwIds: seq<HwId>, clients: seq<int>, client: int, k: nat, id: int) returns (g: HwId)
    requires Distinct(clients)
    requires var sent := SentTo(Breaches(x, hwIds, clients), client); k < |sent| && id in sent[k]
    ensures g in hwIds && g in x.objects && x.objects[g].key == Key(client, id) && client in clients
  {
    BreachSends(x, hwIds, clients, client);
    g := BreachTellsOwnOnly(x, hwIds, client, id);
  }
}
