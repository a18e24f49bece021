// What each client command comes to once the engine has answered it, and that a removed geofence is
// forgotten for good.
module GeofenceEffects {
  import opened GeofenceModel
  import opened GeofenceRuns

  // Two indexes agree on everything but hardware id h and key k
  ghost predicate AgreeBut(x: Index, y: Index, h: HwId, k: Key) {
    && (forall g :: g != h ==> (g in x.objects <==> g in y.objects))
    && (forall g :: g != h && g in x.objects ==> x.objects[g] == y.objects[g])
    && (forall j :: j != k ==> (j in x.ids <==> j in y.ids))
    && (forall j :: j != k && j in x.ids ==> x.ids[j] == y.ids[j])
  }

  // The fence is known under both its names, with these options
  ghost predicate Knows(x: Index, h: HwId, o: Object) {
    h in x.objects && x.objects[h] == o && o.key in x.ids && x.ids[o.key] == h
  }

  // ----- From command to answer -----

  /** An addition that succeeds is known under the id the engine gave it, with its options and not paused. */
  lemma AddTakesEffect(s: System, k: Key, options: int, h: HwId)
    requires Inv(s) && s.pending == [] && k !in s.used && h !in s.live
    ensures var asked := Step(s, ClientAdds(k, options), true);
            && asked.index == s.index && Allowed(asked, EngineAnswers(true, h), true)
            && var done := Step(asked, EngineAnswers(true, h), true);
               && Knows(done.index, h, Object(k, options, false)) && AgreeBut(s.index, done.index, h, k)
               && done.pending == []
  {
    var asked := Step(s, ClientAdds(k, options), true);
    assert asked.pending == [AddFence(k, options, false)];
  }

  // The commands on a known fence, and what they make of it
  predicate IsCommand(e: Event) {
    e.ClientRemoves? || e.ClientPauses? || e.ClientResumes? || e.ClientModifies?
  }

  ghost predicate TookEffect(x: Index, e: Event, h: HwId, o: Object)
    requires IsCommand(e)
  {
    match e
    case ClientRemoves(k) => h !in x.objects && k !in x.ids
    case ClientPauses(_) => Knows(x, h, Object(o.key, o.options, true))
    case ClientResumes(_) => Knows(x, h, Object(o.key, o.options, false))
    case ClientModifies(_, options) => Knows(x, h, Object(o.key, options, o.paused))
  }

  /** A removal, pause, resumption or modification that succeeds does just that to its fence and nothing to
      any other. */
  lemma CommandTakesEffect(s: System, e: Event, g: HwId)
    requires Inv(s) && s.pending == [] && IsCommand(e) && e.key in s.index.ids
    ensures var asked, h := Step(s, e, true), s.index.ids[e.key];
            && asked.index == s.index && Allowed(asked, EngineAnswers(true, g), true)
            && var done := Step(asked, EngineAnswers(true, g), true);
               && TookEffect(done.index, e, h, s.index.objects[h]) && AgreeBut(s.index, done.index, h, e.key)
               && done.pending == []
  {
    var asked := Step(s, e, true);
    assert |asked.pending| == 1;
  }

  lemma RefusedHasNoEffect(s: System, e: Event, g: HwId)
    requires IsCommand(e) && s.pending == []
    ensures var asked := Step(s, e, true);
            if e.key in s.index.ids then
              Allowed(asked, EngineAnswers(false, g), true) && Step(asked, EngineAnswers(false, g), true) == s
            else asked == s
  {
  }

  // ----- A client that leaves -----

  /** A leaving client's keys go, everybody else's stay, and exactly its own fences are to be removed. */
  lemma StopsOwnOnly(s: System, client: int, order: seq<Key>)
    requires Inv(s) && Allowed(s, ClientStops(client, order), true)
    ensures var t := Step(s, ClientStops(client, order), true);
            && t.index.objects == s.index.objects
            && (forall k :: k in t.index.ids <==> k in s.index.ids && k.client != client)
            && (forall k :: k in t.index.ids ==> t.index.ids[k] == s.index.ids[k])
            && (forall h :: DropFence(h) in t.pending <==>
                  || DropFence(h) in s.pending
                  || exists k :: k in s.index.ids && k.client == client && s.index.ids[k] == h)
            && |t.pending| == |s.pending| + |order|
  {
    var t, drops := Step(s, ClientStops(client, order), true), Drops(s.index, order);
    assert t.pending == s.pending + drops;
    forall h
      ensures DropFence(h) in drops <==> exists k :: k in s.index.ids && k.client == client && s.index.ids[k] == h
    {
      if k :| k in s.index.ids && k.client == client && s.index.ids[k] == h {
        assert k in order;
        var i :| 0 <= i < |order| && order[i] == k;
        assert drops[i] == DropFence(h);
      }
      if DropFence(h) in drops {
        var i :| 0 <= i < |drops| && drops[i] == DropFence(h);
        assert order[i] in order;
      }
    }
  }

  // ----- An engine restart -----

  /** After an engine restart every known object is requested again, once, with its key, options and whether
      it was paused, and nothing else is. */
  lemma RestartAsksForAll(s: System, order: seq<HwId>)
    requires Inv(s) && Allowed(s, EngineRestarts(order), true)
    ensures var t := Step(s, EngineRestarts(order), true);
            && |t.pending| == |order| && t.index == Index(map[], map[])
            && (forall r :: r in t.pending ==> exists h :: h in s.index.objects && IsReAdd(r, s.index.objects[h]))
            && (forall h :: h in s.index.objects ==> exists r :: r in t.pending && IsReAdd(r, s.index.objects[h]))
  {
    var t := Step(s, EngineRestarts(order), true);
    if s.index.objects == map[] {
      assert forall h :: h !in order;
      HeadIsIn(order);
      assert forall k :: k !in s.index.ids;
      assert s.index.ids == map[];
    } else {
      forall h | h in s.index.objects
        ensures exists r :: r in t.pending && IsReAdd(r, s.index.objects[h])
      {
        assert h in order;
        var i :| 0 <= i < |order| && order[i] == h;
        assert t.pending[i] in t.pending && IsReAdd(t.pending[i], s.index.objects[h]);
      }
      forall r | r in t.pending
        ensures exists h :: h in s.index.objects && IsReAdd(r, s.index.objects[h])
      {
        var i :| 0 <= i < |order| && t.pending[i] == r;
        assert order[i] in order && IsReAdd(r, s.index.objects[order[i]]);
      }
    }
  }

  lemma HeadIsIn<T>(s: seq<T>)
    ensures s != [] ==> s[0] in s
  {
  }

  predicate IsReAdd(r: Request, o: Object) {
    r.AddFence? && r.key == o.key && r.options == o.options && r.paused == o.paused
  }

  /** The answer to the re-addition of a paused fence pauses it again; no other answer asks for anything. */
  lemma PausesAgain(s: System, h: HwId)
    requires s.pending != [] && Allowed(s, EngineAnswers(true, h), true)
    ensures Step(s, EngineAnswers(true, h), true).pending ==
            s.pending[1..] + if s.pending[0].AddFence? && s.pending[0].paused then [KeepPaused(h)] else []
  {
  }

  // ----- A removed fence -----

  // Nothing is known of the key, and nothing about it is to be added
  ghost predicate Forgotten(s: System, k: Key) {
    && k in s.used && k !in s.index.ids
    && (forall h :: h in s.index.objects ==> s.index.objects[h].key != k)
    && (forall i :: 0 <= i < |s.pending| && s.pending[i].AddFence? ==> s.pending[i].key != k)
  }

  lemma RemovalForgets(s: System, e: Event, h: HwId)
    requires Inv(s) && e.EngineAnswers? && e.ok && Allowed(s, e, true)
    requires s.pending[0] == RemoveFence(h) || s.pending[0] == DropFence(h)
    requires h in s.index.objects && (s.pending[0].RemoveFence? ==> s.index.objects[h].key in s.index.ids)
    ensures Forgotten(Step(s, e, true), s.index.objects[h].key)
  {
    if s.pending[0].DropFence? {
      assert DropFence(h) in s.pending;
      assert s.index.objects[h].key !in s.index.ids;
    }
    assert Step(s, e, true).pending == s.pending[1..];
  }

  lemma AnswerForgotten(s: System, e: Event, k: Key)
    requires Inv(s) && Forgotten(s, k) && e.EngineAnswers? && Allowed(s, e, true)
    ensures Forgotten(Step(s, e, true), k)
  {
    var t, rest := Step(s, e, true), s.pending[1..];
    assert forall i :: 0 <= i < |rest| ==> rest[i] == s.pending[i + 1];
    assert forall i :: 0 <= i < |t.pending| && t.pending[i].AddFence? ==> i < |rest| && t.pending[i] == rest[i];
  }

  lemma RestartForgotten(s: System, e: Event, k: Key)
    requires Inv(s) && Forgotten(s, k) && e.EngineRestarts? && Allowed(s, e, true)
    ensures Forgotten(Step(s, e, true), k)
  {
    assert forall i :: 0 <= i < |e.ids| ==> e.ids[i] in e.ids;
  }

  lemma StopForgotten(s: System, e: Event, k: Key)
    requires Inv(s) && Forgotten(s, k) && e.ClientStops? && Allowed(s, e, true)
    ensures Forgotten(Step(s, e, true), k)
  {
    var t := Step(s, e, true);
    assert forall i :: 0 <= i < |t.pending| && t.pending[i].AddFence? ==>
                         i < |s.pending| && t.pending[i] == s.pending[i];
  }

  lemma StepForgotten(s: System, e: Event, k: Key)
    requires Inv(s) && Forgotten(s, k) && Allowed(s, e, true)
    ensures Forgotten(Step(s, e, true), k)
  {
    match e
    case EngineAnswers(_, _) => AnswerForgotten(s, e, k);
    case EngineRestarts(_) => RestartForgotten(s, e, k);
    case ClientStops(_, _) => StopForgotten(s, e, k);
    case _ =>
  }

  lemma {:induction false} StaysForgotten(s: System, events: seq<Event>, k: Key)
    requires Inv(s) && Forgotten(s, k) && IsRun(s, events, true)
    ensures Forgotten(Run(s, events, true), k)
    decreases |events|
  {
    if events != [] {
      StepKeeps(s, events[0]);
      StepForgotten(s, events[0], k);
      StaysForgotten(Step(s, events[0], true), events[1..], k);
    }
  }

  /** Once the engine has removed a known fence, whatever happens later, no restart requests it and no breach
      names it. */
  lemma RemovedForGood(s: System, e: Event, h: HwId, events: seq<Event>, order: seq<HwId>, hwIds: seq<HwId>)
    requires Inv(s) && e.EngineAnswers? && e.ok && Allowed(s, e, true)
    requires s.pending[0] == RemoveFence(h) || s.pending[0] == DropFence(h)
    requires h in s.index.objects && (s.pending[0].RemoveFence? ==> s.index.objects[h].key in s.index.ids)
    requires IsRun(Step(s, e, true), events, true)
    ensures var k, later := s.index.objects[h].key, Run(Step(s, e, true), events, true);
            && (Enumerates(order, later.index.objects.Keys) ==>
                  forall r :: r in ReAdds(later.index, order) ==> r.key != k)
            && k.id !in BreachIds(later.index, hwIds, k.client)
  {
    var k := s.index.objects[h].key;
    AnswersKeeps(s, e);
    RemovalForgets(s, e, h);
    StaysForgotten(Step(s, e, true), events, k);
    var later := Run(Step(s, e, true), events, true);
    if Enumerates(order, later.index.objects.Keys) {
      assert forall i :: 0 <= i < |order| ==> order[i] in order;
    }
    if k.id in BreachIds(later.index, hwIds, k.client) {
      var g := BreachTellsOwnOnly(later.index, hwIds, k.client, k.id);
    }
  }
}
