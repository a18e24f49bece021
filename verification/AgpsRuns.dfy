// What every run of the AGPS state machine keeps, over requests with never-reused handles.
module AgpsRuns {
  import opened Wrappers
  import opened AgpsModel

  datatype Action =
    | Request(handle: int, waitForClose: bool)
    | Release(handle: int)
    | OnGranted
    | OnReleased
    | OnDenied
    | ModemRestart

  function Do(m: Machine, a: Action): (Machine, seq<Call>) {
    match a
    case Request(h, wait) => Subscribe(m, Subscriber(h, wait, false))
    case Release(h) =>
      (match Find(m.subs, h)
       case None => (m, [])
       case Some(s) => Unsubscribe(m, s))
    case OnGranted => Granted(m)
    case OnReleased => ConnReleased(m)
    case OnDenied => ConnDenied(m)
    case ModemRestart => (Machine(m.state, []), [])
  }

  // ----- The callbacks of one handle -----

  function Told(calls: seq<Call>, h: int): seq<Call> {
    if calls == [] then []
    else if IsAbout(calls[0], h) then [calls[0]] + Told(calls[1..], h)
    else Told(calls[1..], h)
  }

  predicate IsAbout(c: Call, h: int) {
    (c.OpenStatus? || c.CloseStatus?) && c.handle == h
  }

  lemma ToldOne(c: Call, h: int)
    ensures Told([c], h) == if IsAbout(c, h) then [c] else []
  {
    assert [c][1..] == [];
  }

  // Open-success then close, or a prefix of it; a lone open-failure; a lone close
  predicate WellTold(told: seq<Call>, h: int) {
    || told == []
    || told == [OpenStatus(h, true)]
    || told == [OpenStatus(h, true), CloseStatus(h)]
    || told == [OpenStatus(h, false)]
    || told == [CloseStatus(h)]
  }

  lemma {:induction false} ToldConcat(a: seq<Call>, b: seq<Call>, h: int)
    ensures Told(a + b, h) == Told(a, h) + Told(b, h)
  {
    if a == [] {
      assert a + b == b;
    } else {
      assert (a + b)[1..] == a[1..] + b && (a + b)[0] == a[0];
      ToldConcat(a[1..], b, h);
    }
  }

  // ----- List facts, one handle at a time -----

  predicate Distinct(subs: seq<Subscriber>) {
    subs == [] || (Find(subs[1..], subs[0].connHandle) == None && Distinct(subs[1..]))
  }

  lemma {:induction false} FindMeaning(subs: seq<Subscriber>, h: int)
    ensures match Find(subs, h)
            case Some(s) => s in subs && s.connHandle == h
            case None => forall s :: s in subs ==> s.connHandle != h
  {
    if subs != [] {
      FindMeaning(subs[1..], h);
      assert subs == [subs[0]] + subs[1..];
    }
  }

  /** The list invariant, spelled out: no two entries share a handle. */
  lemma {:induction false} DistinctMeaning(subs: seq<Subscriber>)
    requires Distinct(subs)
    ensures forall i, j :: 0 <= i < j < |subs| ==> subs[i].connHandle != subs[j].connHandle
  {
    if subs != [] {
      var rest := subs[1..];
      DistinctMeaning(rest);
      FindMeaning(rest, subs[0].connHandle);
      forall i, j | 0 <= i < j < |subs|
        ensures subs[i].connHandle != subs[j].connHandle
      {
        assert subs[j] == rest[j - 1] && rest[j - 1] in rest;
        if i > 0 { assert subs[i] == rest[i - 1]; }
      }
    }
  }

  lemma {:induction false} FindAdded(subs: seq<Subscriber>, sub: Subscriber, h: int)
    requires Find(subs, sub.connHandle) == None
    ensures Find(subs + [sub], h) == if h == sub.connHandle then Some(sub) else Find(subs, h)
    ensures Distinct(subs) ==> Distinct(subs + [sub])
  {
    if subs == [] {
      assert subs + [sub] == [sub];
    } else {
      assert (subs + [sub])[1..] == subs[1..] + [sub];
      FindAdded(subs[1..], sub, h);
      FindAdded(subs[1..], sub, subs[0].connHandle);
    }
  }

  lemma {:induction false} FindErased(subs: seq<Subscriber>, gone: int, h: int)
    ensures Find(Erased(subs, gone), h) == if h == gone then None else Find(subs, h)
    ensures Distinct(subs) ==> Distinct(Erased(subs, gone))
  {
    if subs != [] {
      FindErased(subs[1..], gone, h);
      FindErased(subs[1..], gone, subs[0].connHandle);
      assert subs[0].connHandle != gone ==> Erased(subs, gone)[1..] == Erased(subs[1..], gone);
    }
  }

  lemma {:induction false} FindMarked(subs: seq<Subscriber>, off: int, h: int)
    ensures Find(Marked(subs, off), h) ==
            match Find(subs, h)
            case Some(s) => Some(if h == off then s.(isInactive := true) else s)
            case None => None
    ensures Distinct(subs) ==> Distinct(Marked(subs, off))
    ensures |Marked(subs, off)| == |subs|
  {
    if subs != [] {
      FindMarked(subs[1..], off, h);
      FindMarked(subs[1..], off, subs[0].connHandle);
      assert Marked(subs, off)[1..] == Marked(subs[1..], off);
    }
  }

  lemma {:induction false} FindUnmatched(subs: seq<Subscriber>, kind: NotificationType, h: int)
    requires Distinct(subs)
    ensures Find(Unmatched(subs, kind), h) ==
            match Find(subs, h) case Some(s) => (if Matches(kind, s) then None else Some(s)) case None => None
    ensures Distinct(Unmatched(subs, kind))
  {
    if subs != [] {
      FindUnmatched(subs[1..], kind, h);
      FindUnmatched(subs[1..], kind, subs[0].connHandle);
      assert !Matches(kind, subs[0]) ==> Unmatched(subs, kind)[1..] == Unmatched(subs[1..], kind);
    }
  }

  // A notification reaches each matching subscriber exactly once and nobody else
  lemma {:induction false} NotifiedMeaning(subs: seq<Subscriber>, event: AgpsEvent, kind: NotificationType, h: int)
    requires Distinct(subs)
    ensures Told(Notified(subs, event, kind), h) ==
            match Find(subs, h) case Some(s) => (if Matches(kind, s) then Callback(event, h) else []) case None => []
  {
    if subs != [] {
      NotifiedMeaning(subs[1..], event, kind, h);
      var s := subs[0];
      var now := if Matches(kind, s) then Callback(event, s.connHandle) else [];
      ToldConcat(now, Notified(subs[1..], event, kind), h);
      if now != [] { assert now[1..] == []; }
    }
  }

  lemma {:induction false} FindInactive(subs: seq<Subscriber>, h: int)
    requires !AnyActive(subs)
    ensures Find(subs, h).Some? ==> Find(subs, h).value.isInactive
  {
    FindMeaning(subs, h);
  }

  // ----- The invariant -----

  // What a listed subscriber has been told, by state
  predicate ToldWhileListed(state: State, s: Subscriber, told: seq<Call>) {
    match state
    case Released => false
    case Pending => told == []
    case Acquired => told == [OpenStatus(s.connHandle, true)] || (s.isInactive && told == [])
    case Releasing => told == [] || (s.isInactive && told == [OpenStatus(s.connHandle, true)])
  }

  // hist is every callback so far, used every handle requested so far
  predicate InvAt(m: Machine, used: set<int>, hist: seq<Call>, h: int) {
    match Find(m.subs, h)
    case Some(s) =>
      && h in used && ToldWhileListed(m.state, s, Told(hist, h))
      && s.connHandle == h && (s.isInactive ==> s.waitForCloseComplete)
    case None => WellTold(Told(hist, h), h) && (h !in used ==> Told(hist, h) == [])
  }

  ghost predicate Inv(m: Machine, used: set<int>, hist: seq<Call>) {
    Distinct(m.subs) && forall h :: InvAt(m, used, hist, h)
  }

  predicate Fresh(used: set<int>, a: Action) {
    a.Request? ==> a.handle !in used
  }

  function Used(used: set<int>, a: Action): set<int> {
    if a.Request? then used + {a.handle} else used
  }

  lemma ReleasedFindsNone(m: Machine, used: set<int>, hist: seq<Call>, h: int)
    requires Inv(m, used, hist) && m.state == Released
    ensures Find(m.subs, h) == None
  {
    assert InvAt(m, used, hist, h);
  }

  /** RELEASED means nobody is listed. */
  lemma ReleasedIsEmpty(m: Machine, used: set<int>, hist: seq<Call>)
    requires Inv(m, used, hist) && m.state == Released
    ensures m.subs == []
  {
    if m.subs != [] { ReleasedFindsNone(m, used, hist, m.subs[0].connHandle); }
  }

  // ----- Each action keeps the invariant -----

  /** What a step tells each handle.  One it removes hears open-failure if a denial met PENDING, and close
      otherwise, or nothing at a modem restart; an active one it keeps hears open-success when a grant
      meets PENDING; one it does not list hears open-success when it requests in ACQUIRED. */
  predicate FairAt(m: Machine, a: Action, h: int) {
    var (m', calls) := Do(m, a);
    var told := Told(calls, h);
    match (Find(m.subs, h), Find(m'.subs, h))
    case (Some(_), None) =>
      told == if a.ModemRestart? then [] else [TerminalCall(m, a, h)]
    case (Some(s), Some(_)) =>
      told == if a.OnGranted? && m.state == Pending && !s.isInactive then [OpenStatus(h, true)] else []
    case (None, _) =>
      told == if a.Request? && a.handle == h && m.state == Acquired then [OpenStatus(h, true)] else []
  }

  function TerminalCall(m: Machine, a: Action, h: int): Call {
    if a.OnDenied? && m.state == Pending then OpenStatus(h, false) else CloseStatus(h)
  }

  lemma RequestAt(m: Machine, used: set<int>, hist: seq<Call>, a: Action, h: int)
    requires Inv(m, used, hist) && a.Request? && a.handle !in used
    ensures InvAt(Do(m, a).0, used + {a.handle}, hist + Do(m, a).1, h) && FairAt(m, a, h)
    ensures Distinct(Do(m, a).0.subs)
  {
    var sub := Subscriber(a.handle, a.waitForClose, false);
    assert InvAt(m, used, hist, h) && InvAt(m, used, hist, a.handle);
    assert Find(m.subs, a.handle) == None;
    FindAdded(m.subs, sub, h);
    ToldConcat(hist, Do(m, a).1, h);
    ToldOne(RequestConn, h);
    ToldOne(OpenStatus(a.handle, true), h);
    if m.state == Released { ReleasedFindsNone(m, used, hist, h); }
  }

  lemma ReleaseTold(m: Machine, cur: Subscriber, h: int)
    requires m.state != Released
    ensures Told(Unsubscribe(m, cur).1, h) ==
            if h == cur.connHandle && !cur.waitForCloseComplete then [CloseStatus(h)] else []
    ensures Find(Unsubscribe(m, cur).0.subs, h) ==
            if h != cur.connHandle then Find(m.subs, h)
            else if !cur.waitForCloseComplete then None
            else match Find(m.subs, h) case Some(s) => Some(s.(isInactive := true)) case None => None
    ensures Distinct(m.subs) ==> Distinct(Unsubscribe(m, cur).0.subs)
  {
    FindMarked(m.subs, cur.connHandle, h);
    FindErased(m.subs, cur.connHandle, h);
    ToldOne(CloseStatus(cur.connHandle), h);
    ToldOne(ReleaseConn, h);
    ToldConcat([CloseStatus(cur.connHandle)], [ReleaseConn], h);
    assert [] + [ReleaseConn] == [ReleaseConn];
  }

  lemma ReleaseAt(m: Machine, used: set<int>, hist: seq<Call>, a: Action, h: int)
    requires Inv(m, used, hist) && a.Release?
    ensures InvAt(Do(m, a).0, used, hist + Do(m, a).1, h) && FairAt(m, a, h)
    ensures Distinct(Do(m, a).0.subs)
  {
    assert InvAt(m, used, hist, h) && InvAt(m, used, hist, a.handle);
    ToldConcat(hist, Do(m, a).1, h);
    if Find(m.subs, a.handle).Some? {
      ReleaseTold(m, Find(m.subs, a.handle).value, h);
      var m' := Do(m, a).0;
      if m'.state == Releasing && m.state != Releasing { FindInactive(m'.subs, h); }
    }
  }

  lemma ConnectionGoneAt(m: Machine, used: set<int>, hist: seq<Call>, h: int)
    requires Inv(m, used, hist) && m.state == Releasing
    ensures InvAt(ConnectionGone(m).0, used, hist + ConnectionGone(m).1, h)
    ensures Told(ConnectionGone(m).1, h) == Told(Notified(m.subs, ReleasedEvent, ForInactive), h)
    ensures Find(ConnectionGone(m).0.subs, h) == Find(Unmatched(m.subs, ForInactive), h)
    ensures Distinct(ConnectionGone(m).0.subs)
  {
    assert InvAt(m, used, hist, h);
    var calls := ConnectionGone(m).1;
    var subs := Unmatched(m.subs, ForInactive);
    var told := Notified(m.subs, ReleasedEvent, ForInactive);
    FindUnmatched(m.subs, ForInactive, h);
    NotifiedMeaning(m.subs, ReleasedEvent, ForInactive, h);
    ToldConcat(hist, calls, h);
    ToldConcat(told, [RequestConn], h);
    ToldOne(RequestConn, h);
    if !AnyActive(subs) { FindInactive(subs, h); }
  }

  lemma EventAt(m: Machine, used: set<int>, hist: seq<Call>, a: Action, h: int)
    requires Inv(m, used, hist) && (a.OnGranted? || a.OnReleased? || a.OnDenied? || a.ModemRestart?)
    ensures InvAt(Do(m, a).0, used, hist + Do(m, a).1, h) && FairAt(m, a, h)
    ensures Distinct(Do(m, a).0.subs)
  {
    var (m', calls) := Do(m, a);
    assert InvAt(m, used, hist, h);
    ToldConcat(hist, calls, h);
    if m.state == Releasing && (a.OnReleased? || a.OnDenied?) {
      ConnectionGoneAt(m, used, hist, h);
      FindUnmatched(m.subs, ForInactive, h);
      NotifiedMeaning(m.subs, ReleasedEvent, ForInactive, h);
    } else {
      FindUnmatched(m.subs, ForAll, h);
      NotifiedMeaning(m.subs, GrantedEvent, ForActive, h);
      NotifiedMeaning(m.subs, ReleasedEvent, ForAll, h);
      NotifiedMeaning(m.subs, DeniedEvent, ForAll, h);
    }
  }

  lemma StepKeeps(m: Machine, used: set<int>, hist: seq<Call>, a: Action)
    requires Inv(m, used, hist) && Fresh(used, a)
    ensures Inv(Do(m, a).0, Used(used, a), hist + Do(m, a).1)
    ensures forall h :: FairAt(m, a, h)
  {
    forall h
      ensures InvAt(Do(m, a).0, Used(used, a), hist + Do(m, a).1, h)
      ensures FairAt(m, a, h) && Distinct(Do(m, a).0.subs)
    {
      match a
      case Request(_, _) => RequestAt(m, used, hist, a, h);
      case Release(_) => ReleaseAt(m, used, hist, a, h);
      case _ => EventAt(m, used, hist, a, h);
    }
    assert FairAt(m, a, 0);
  }

  // ----- Runs -----

  datatype Entry = Entry(before: Machine, action: Action, calls: seq<Call>, after: Machine)

  function Run(acts: seq<Action>): seq<Entry> {
    if acts == [] then []
    else
      var done := Run(acts[..|acts| - 1]);
      var m := Final(done);
      var (m', calls) := Do(m, acts[|acts| - 1]);
      done + [Entry(m, acts[|acts| - 1], calls, m')]
  }

  function Final(trace: seq<Entry>): Machine {
    if trace == [] then INITIAL else trace[|trace| - 1].after
  }

  function Calls(trace: seq<Entry>): seq<Call> {
    if trace == [] then [] else Calls(trace[..|trace| - 1]) + trace[|trace| - 1].calls
  }

  function Requested(acts: seq<Action>): set<int> {
    if acts == [] then {} else Used(Requested(acts[..|acts| - 1]), acts[|acts| - 1])
  }

  // No handle is requested twice
  predicate NeverReused(acts: seq<Action>) {
    acts == [] ||
    (NeverReused(acts[..|acts| - 1]) && Fresh(Requested(acts[..|acts| - 1]), acts[|acts| - 1]))
  }

  lemma {:induction false} RunKeeps(acts: seq<Action>)
    requires NeverReused(acts)
    ensures Inv(Final(Run(acts)), Requested(acts), Calls(Run(acts)))
  {
    if acts != [] {
      var init := acts[..|acts| - 1];
      RunKeeps(init);
      var done := Run(init);
      StepKeeps(Final(done), Requested(init), Calls(done), acts[|acts| - 1]);
      assert Run(acts)[..|Run(acts)| - 1] == done;
    }
  }

  /** In every run with never-reused handles, a subscriber receives a prefix of open-success then
      close, or a single open-failure, or a single close. */
  lemma CallbacksAreWellFormed(acts: seq<Action>, h: int)
    requires NeverReused(acts)
    ensures WellTold(Told(Calls(Run(acts)), h), h)
  {
    RunKeeps(acts);
    assert InvAt(Final(Run(acts)), Requested(acts), Calls(Run(acts)), h);
  }

  /** In every run the listed handles are distinct, RELEASED lists nobody, every active subscriber
      in ACQUIRED has been granted, and none in PENDING or RELEASING has. */
  lemma ListMatchesState(acts: seq<Action>)
    requires NeverReused(acts)
    ensures var m := Final(Run(acts));
            && (forall i, j :: 0 <= i < j < |m.subs| ==> m.subs[i].connHandle != m.subs[j].connHandle)
            && (m.state == Released ==> m.subs == [])
            && (forall s :: s in m.subs && !s.isInactive ==>
                  Told(Calls(Run(acts)), s.connHandle) ==
                  if m.state == Acquired then [OpenStatus(s.connHandle, true)] else [])
  {
    RunKeeps(acts);
    var m, hist := Final(Run(acts)), Calls(Run(acts));
    DistinctMeaning(m.subs);
    if m.state == Released { ReleasedIsEmpty(m, Requested(acts), hist); }
    forall s | s in m.subs && !s.isInactive
      ensures Told(hist, s.connHandle) == if m.state == Acquired then [OpenStatus(s.connHandle, true)] else []
    {
      assert InvAt(m, Requested(acts), hist, s.connHandle);
      FindListed(m.subs, s);
    }
  }

  lemma {:induction false} FindListed(subs: seq<Subscriber>, s: Subscriber)
    requires Distinct(subs) && s in subs
    ensures Find(subs, s.connHandle) == Some(s)
  {
    if subs[0] != s {
      assert s in subs[1..];
      FindListed(subs[1..], s);
    }
  }

  /** In every run, each removal from the list other than by a modem restart comes with exactly one
      callback to the removed subscriber: open-failure if a denial met PENDING, close otherwise. */
  lemma {:induction false} RemovalsAreTold(acts: seq<Action>, k: nat, h: int)
    requires NeverReused(acts) && k < |Run(acts)|
    ensures var e := Run(acts)[k];
            Find(e.before.subs, h).Some? && Find(e.after.subs, h).None? && !e.action.ModemRestart? ==>
              Told(e.calls, h) == [TerminalCall(e.before, e.action, h)]
  {
    if acts != [] {
      var init := acts[..|acts| - 1];
      if k < |Run(init)| {
        RemovalsAreTold(init, k, h);
      } else {
        RunKeeps(init);
        StepKeeps(Final(Run(init)), Requested(init), Calls(Run(init)), acts[|acts| - 1]);
        assert FairAt(Final(Run(init)), acts[|acts| - 1], h);
      }
    }
  }

  // ----- Runs without a modem restart -----

  predicate Populated(m: Machine) {
    match m.state
    case Released => true
    case Releasing => exists s :: s in m.subs && s.isInactive
    case _ => AnyActive(m.subs)
  }

  lemma {:induction false} KeptByErase(subs: seq<Subscriber>, gone: int, s: Subscriber)
    requires s in subs && s.connHandle != gone
    ensures s in Erased(subs, gone)
  {
    if subs[0] != s {
      assert s in subs[1..];
      KeptByErase(subs[1..], gone, s);
    }
  }

  lemma {:induction false} KeptByMark(subs: seq<Subscriber>, off: int, s: Subscriber)
    requires s in subs
    ensures (if s.connHandle == off then s.(isInactive := true) else s) in Marked(subs, off)
  {
    if subs[0] != s {
      assert s in subs[1..];
      KeptByMark(subs[1..], off, s);
    }
  }

  lemma PopulatedStep(m: Machine, used: set<int>, hist: seq<Call>, a: Action)
    requires Inv(m, used, hist) && Populated(m) && !a.ModemRestart?
    ensures Populated(Do(m, a).0)
  {
    match a
    case Request(h, wait) =>
      var sub := Subscriber(h, wait, false);
      assert sub in m.subs + [sub];
      if m.state == Released { ReleasedIsEmpty(m, used, hist); }
      if m.state == Releasing {
        var s :| s in m.subs && s.isInactive;
        assert s in Added(m.subs, sub);
      } else if m.state != Released {
        var s :| s in m.subs && !s.isInactive;
        assert s in Added(m.subs, sub);
      }
    case Release(h) =>
      if m.state == Releasing && Find(m.subs, h).Some? {
        var cur := Find(m.subs, h).value;
        var s :| s in m.subs && s.isInactive;
        assert InvAt(m, used, hist, h) && InvAt(m, used, hist, s.connHandle);
        FindListed(m.subs, s);
        KeptByMark(m.subs, h, s);
        if !cur.waitForCloseComplete { KeptByErase(m.subs, h, s); }
      } else {
        var m' := Do(m, a).0;
        if m'.state == Releasing { assert m'.subs[0] in m'.subs; }
      }
    case _ =>
  }

  /** A step takes away the subscriber a state needs if and only if it is a modem restart outside
      RELEASED. */
  lemma PopulatedStepIff(m: Machine, used: set<int>, hist: seq<Call>, a: Action)
    requires Inv(m, used, hist) && Populated(m)
    ensures Populated(Do(m, a).0) <==> !(a.ModemRestart? && m.state != Released)
  {
    if !a.ModemRestart? {
      PopulatedStep(m, used, hist, a);
    }
  }

  /** Without modem restarts, PENDING and ACQUIRED always have an active subscriber and RELEASING
      an inactive one. */
  lemma {:induction false} PopulatedWithoutRestart(acts: seq<Action>)
    requires NeverReused(acts) && ModemRestart !in acts
    ensures Populated(Final(Run(acts)))
  {
    if acts != [] {
      var init := acts[..|acts| - 1];
      PopulatedWithoutRestart(init);
      RunKeeps(init);
      PopulatedStep(Final(Run(init)), Requested(init), Calls(Run(init)), acts[|acts| - 1]);
    }
  }

  lemma FirstRequest()
    ensures Final(Run([Request(1, false)])) == Machine(Pending, [Subscriber(1, false, false)])
  {
    FinalSnoc([], Request(1, false));
    assert [] + [Request(1, false)] == [Request(1, false)];
  }

  /** A run in which a restart breaks it: it empties the list and keeps the state. */
  lemma RestartUnpopulates()
    ensures !Populated(Final(Run([Request(1, false), ModemRestart])))
  {
    FirstRequest();
    FinalSnoc([Request(1, false)], ModemRestart);
    assert [Request(1, false)] + [ModemRestart] == [Request(1, false), ModemRestart];
  }

  lemma FinalSnoc(acts: seq<Action>, a: Action)
    ensures Final(Run(acts + [a])) == Do(Final(Run(acts)), a).0
  {
    assert (acts + [a])[..|acts|] == acts;
  }

  // ----- The data connection, in every run, restarts and reused handles included -----

  predicate Starts(e: Entry) {
    RequestConn in e.calls
  }

  predicate Releases(e: Entry) {
    ReleaseConn in e.calls
  }

  // A release sent, a DENIED taken in PENDING, or a forced RELEASED taken in ACQUIRED
  predicate Ends(e: Entry) {
    || Releases(e)
    || (e.action.OnDenied? && e.before.state == Pending)
    || (e.action.OnReleased? && e.before.state == Acquired)
  }

  // A request was sent and has not ended
  predicate Outstanding(trace: seq<Entry>) {
    trace != [] &&
    var e := trace[|trace| - 1];
    Starts(e) || (!Ends(e) && Outstanding(trace[..|trace| - 1]))
  }

  lemma {:induction false} NotifiedIsNoConn(subs: seq<Subscriber>, event: AgpsEvent, kind: NotificationType)
    ensures RequestConn !in Notified(subs, event, kind) && ReleaseConn !in Notified(subs, event, kind)
  {
    if subs != [] { NotifiedIsNoConn(subs[1..], event, kind); }
  }

  predicate WantsConn(s: State) {
    s == Pending || s == Acquired
  }

  lemma ConnStep(m: Machine, a: Action)
    ensures var (m', calls) := Do(m, a);
            var e := Entry(m, a, calls, m');
            && (Starts(e) ==> !WantsConn(m.state) && !Ends(e) && m'.state == Pending)
            && (Releases(e) ==> WantsConn(m.state))
            && (WantsConn(m'.state) <==> Starts(e) || (!Ends(e) && WantsConn(m.state)))
  {
    NotifiedIsNoConn(m.subs, GrantedEvent, ForActive);
    NotifiedIsNoConn(m.subs, ReleasedEvent, ForAll);
    NotifiedIsNoConn(m.subs, ReleasedEvent, ForInactive);
    NotifiedIsNoConn(m.subs, DeniedEvent, ForAll);
  }

  /** A data-connection request is outstanding exactly in PENDING and ACQUIRED. */
  lemma {:induction false} OutstandingIffWanted(acts: seq<Action>)
    ensures Outstanding(Run(acts)) <==> WantsConn(Final(Run(acts)).state)
  {
    if acts != [] {
      var init := acts[..|acts| - 1];
      OutstandingIffWanted(init);
      ConnStep(Final(Run(init)), acts[|acts| - 1]);
      assert Run(acts)[..|Run(acts)| - 1] == Run(init);
    }
  }

  lemma {:induction false} RunPrefix(acts: seq<Action>, k: nat)
    requires k <= |acts|
    ensures |Run(acts)| == |acts| && Run(acts)[..k] == Run(acts[..k])
  {
    if acts == [] {
      assert acts[..k] == [];
    } else if k == |acts| {
      RunPrefix(acts[..|acts| - 1], k - 1);
      assert acts[..k] == acts;
    } else {
      RunPrefix(acts[..|acts| - 1], k);
      assert acts[..|acts| - 1][..k] == acts[..k];
    }
  }

  /** A request is sent only while none is outstanding, a release only while one is. */
  lemma ConnCallsAlternate(acts: seq<Action>, k: nat)
    requires k < |Run(acts)|
    ensures Starts(Run(acts)[k]) ==> !Outstanding(Run(acts)[..k])
    ensures Releases(Run(acts)[k]) ==> Outstanding(Run(acts)[..k])
  {
    RunPrefix(acts, 0);
    RunPrefix(acts, k);
    RunPrefix(acts, k + 1);
    OutstandingIffWanted(acts[..k]);
    assert acts[..k + 1][..k] == acts[..k];
    assert Run(acts)[k] == Run(acts)[..k + 1][k] == Run(acts[..k + 1])[k];
    ConnStep(Final(Run(acts[..k])), acts[k]);
  }

  lemma {:induction false} EndedBetween(trace: seq<Entry>, i: nat, k: nat)
    requires i < k <= |trace| && Starts(trace[i]) && !Outstanding(trace[..k])
    ensures exists j :: i < j < k && Ends(trace[j])
    decreases k
  {
    var p := trace[..k];
    assert p[k - 1] == trace[k - 1] && p[..k - 1] == trace[..k - 1];
    if !Ends(trace[k - 1]) || i == k - 1 {
      EndedBetween(trace, i, k - 1);
    }
  }

  /** Between two requests there is always a release, a DENIED taken in PENDING or a forced
      RELEASED taken in ACQUIRED. */
  lemma RequestsAreSeparated(acts: seq<Action>, i: nat, k: nat)
    requires i < k < |Run(acts)| && Starts(Run(acts)[i]) && Starts(Run(acts)[k])
    ensures exists j :: i < j < k && Ends(Run(acts)[j])
  {
    ConnCallsAlternate(acts, k);
    EndedBetween(Run(acts), i, k);
  }
}
