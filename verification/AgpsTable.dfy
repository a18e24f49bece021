// The AGPS transition table: what each event does to each subscriber, to the state and to the data
// connection, handle by handle and without regard to how the list is walked.
module AgpsTable {
  import opened Wrappers
  import opened AgpsModel
  import opened AgpsRuns

  // What a handle hears
  function Heard(m: Machine, a: Action, h: int): seq<Call> {
    var s := Find(m.subs, h);
    match a
    case Request(k, _) => if k == h && m.state == Acquired then [OpenStatus(h, true)] else []
    case Release(k) => if k == h && s.Some? && !s.value.waitForCloseComplete then [CloseStatus(h)] else []
    case OnGranted => if s.Some? && m.state == Pending && !s.value.isInactive then [OpenStatus(h, true)] else []
    case OnReleased => if s.Some? && EndsFor(m, s.value) then [CloseStatus(h)] else []
    case OnDenied =>
      if s.Some? && m.state == Pending then [OpenStatus(h, false)]
      else if s.Some? && m.state == Releasing && s.value.isInactive then [CloseStatus(h)]
      else []
    case ModemRestart => []
  }

  // A lost connection ends every subscription in ACQUIRED, and those that waited for it in RELEASING
  predicate EndsFor(m: Machine, s: Subscriber) {
    m.state == Acquired || (m.state == Releasing && s.isInactive)
  }

  // How a handle is listed afterwards
  function ListedAs(m: Machine, a: Action, h: int): Option<Subscriber> {
    var s := Find(m.subs, h);
    match a
    case Request(k, wait) => if k == h then Some(Subscriber(h, wait, false)) else s
    case Release(k) =>
      if k != h || s.None? then s
      else if s.value.waitForCloseComplete then Some(Subscriber(h, true, true))
      else None
    case OnGranted => s
    case OnReleased => if s.Some? && EndsFor(m, s.value) then None else s
    case OnDenied =>
      if s.Some? && (m.state == Pending || (m.state == Releasing && s.value.isInactive)) then None else s
    case ModemRestart => None
  }

  // The state, once the list has become subs
  predicate GoesTo(m: Machine, a: Action, m': Machine) {
    var emptied, idle := m'.subs == [], !AnyActive(m'.subs);
    match a
    case Request(_, _) => m'.state == if m.state == Released then Pending else m.state
    case Release(h) =>
      if Find(m.subs, h).None? then m'.state == m.state
      else if emptied then m'.state == Released
      else m'.state == if idle then Releasing else m.state
    case OnGranted => m'.state == if m.state == Pending then Acquired else m.state
    case OnReleased =>
      m'.state == if m.state == Acquired then Released
                  else if m.state == Releasing then (if idle then Released else Pending)
                  else m.state
    case OnDenied =>
      m'.state == if m.state == Pending then Released
                  else if m.state == Releasing then (if idle then Released else Pending)
                  else m.state
    case ModemRestart => m'.state == m.state
  }

  // Reachable machines are like this, and a request has a new handle
  predicate Proper(m: Machine, a: Action) {
    && Distinct(m.subs) && (m.state == Released ==> m.subs == [])
    && (a.Request? ==> Find(m.subs, a.handle) == None)
  }

  lemma RequestTable(m: Machine, a: Action, h: int)
    requires Proper(m, a) && a.Request?
    ensures Told(Do(m, a).1, h) == Heard(m, a, h) && Find(Do(m, a).0.subs, h) == ListedAs(m, a, h)
    ensures GoesTo(m, a, Do(m, a).0)
  {
    FindAdded(m.subs, Subscriber(a.handle, a.waitForClose, false), h);
    ToldOne(RequestConn, h);
    ToldOne(OpenStatus(a.handle, true), h);
  }

  lemma ReleaseTable(m: Machine, a: Action, h: int)
    requires Proper(m, a) && a.Release?
    ensures Told(Do(m, a).1, h) == Heard(m, a, h) && Find(Do(m, a).0.subs, h) == ListedAs(m, a, h)
  {
    if Find(m.subs, a.handle).Some? {
      FindMeaning(m.subs, a.handle);
      ReleaseTold(m, Find(m.subs, a.handle).value, h);
    }
  }

  lemma ReleaseState(m: Machine, a: Action)
    requires Proper(m, a) && a.Release?
    ensures GoesTo(m, a, Do(m, a).0)
  {
    if Find(m.subs, a.handle).Some? {
      FindMeaning(m.subs, a.handle);
    }
  }

  lemma GrantedTable(m: Machine, h: int)
    requires Distinct(m.subs)
    ensures Told(Granted(m).1, h) == Heard(m, OnGranted, h) && Granted(m).0.subs == m.subs
  {
    NotifiedMeaning(m.subs, GrantedEvent, ForActive, h);
  }

  // ACQUIRED and PENDING lose everybody, RELEASING those that waited
  lemma LostTable(m: Machine, a: Action, h: int)
    requires Distinct(m.subs) && m.state != Releasing && (a.OnReleased? || a.OnDenied?)
    ensures Told(Do(m, a).1, h) == Heard(m, a, h) && Find(Do(m, a).0.subs, h) == ListedAs(m, a, h)
  {
    FindUnmatched(m.subs, ForAll, h);
    NotifiedMeaning(m.subs, if a.OnDenied? then DeniedEvent else ReleasedEvent, ForAll, h);
  }

  lemma GoneTable(m: Machine, h: int)
    requires Distinct(m.subs) && m.state == Releasing
    ensures Told(ConnectionGone(m).1, h) == Heard(m, OnReleased, h) == Heard(m, OnDenied, h)
    ensures Find(ConnectionGone(m).0.subs, h) == ListedAs(m, OnReleased, h) == ListedAs(m, OnDenied, h)
  {
    var told := Notified(m.subs, ReleasedEvent, ForInactive);
    FindUnmatched(m.subs, ForInactive, h);
    NotifiedMeaning(m.subs, ReleasedEvent, ForInactive, h);
    ToldConcat(told, [RequestConn], h);
    ToldOne(RequestConn, h);
  }

  lemma EventTable(m: Machine, a: Action, h: int)
    requires Proper(m, a) && (a.OnGranted? || a.OnReleased? || a.OnDenied? || a.ModemRestart?)
    ensures Told(Do(m, a).1, h) == Heard(m, a, h) && Find(Do(m, a).0.subs, h) == ListedAs(m, a, h)
  {
    if a.OnGranted? {
      GrantedTable(m, h);
    } else if a.OnReleased? || a.OnDenied? {
      if m.state == Releasing { GoneTable(m, h); } else { LostTable(m, a, h); }
    }
  }

  lemma EventState(m: Machine, a: Action)
    requires Proper(m, a) && (a.OnGranted? || a.OnReleased? || a.OnDenied? || a.ModemRestart?)
    ensures GoesTo(m, a, Do(m, a).0)
  {
  }

  /** In every state, what each event tells every handle, how it leaves it listed, and the state it goes
      to. */
  lemma TransitionTable(m: Machine, a: Action, h: int)
    requires Proper(m, a)
    ensures Told(Do(m, a).1, h) == Heard(m, a, h)
    ensures Find(Do(m, a).0.subs, h) == ListedAs(m, a, h)
    ensures GoesTo(m, a, Do(m, a).0)
  {
    match a
    case Request(_, _) => RequestTable(m, a, h);
    case Release(_) =>
      ReleaseTable(m, a, h);
      ReleaseState(m, a);
    case _ =>
      EventTable(m, a, h);
      EventState(m, a);
  }

  // ----- The data connection -----

  function ConnCalls(calls: seq<Call>): seq<Call> {
    if calls == [] then []
    else if calls[0].RequestConn? || calls[0].ReleaseConn? then [calls[0]] + ConnCalls(calls[1..])
    else ConnCalls(calls[1..])
  }

  lemma {:induction false} ConnConcat(a: seq<Call>, b: seq<Call>)
    ensures ConnCalls(a + b) == ConnCalls(a) + ConnCalls(b)
  {
    if a == [] {
      assert a + b == b;
    } else {
      assert (a + b)[0] == a[0] && (a + b)[1..] == a[1..] + b;
      ConnConcat(a[1..], b);
    }
  }

  lemma {:induction false} ConnOfNotified(subs: seq<Subscriber>, event: AgpsEvent, kind: NotificationType)
    ensures ConnCalls(Notified(subs, event, kind)) == []
  {
    if subs != [] {
      ConnOfNotified(subs[1..], event, kind);
      var now := CallsTo(subs[0], event, kind);
      ConnConcat(now, Notified(subs[1..], event, kind));
      if now != [] { assert now[1..] == []; }
    }
  }

  lemma ConnOne(c: Call)
    ensures ConnCalls([c]) == if c.RequestConn? || c.ReleaseConn? then [c] else []
  {
    assert [c][1..] == [];
  }

  lemma ConnOfLeaving(h: int)
    ensures ConnCalls([CloseStatus(h)]) == [] && ConnCalls([] + [ReleaseConn]) == [ReleaseConn]
    ensures ConnCalls([CloseStatus(h)] + [ReleaseConn]) == [ReleaseConn]
  {
    ConnOne(CloseStatus(h));
    ConnOne(ReleaseConn);
    ConnConcat([CloseStatus(h)], [ReleaseConn]);
    assert [] + [ReleaseConn] == [ReleaseConn];
  }

  lemma ConnOfGone(m: Machine)
    ensures ConnCalls(ConnectionGone(m).1) == if ConnectionGone(m).0.state == Pending then [RequestConn] else []
  {
    var told := Notified(m.subs, ReleasedEvent, ForInactive);
    ConnOfNotified(m.subs, ReleasedEvent, ForInactive);
    ConnConcat(told, [RequestConn]);
    ConnOne(RequestConn);
  }

  // What a step may ask of the framework
  function Wanted(m: Machine, a: Action, m': Machine): seq<Call> {
    if !WantsConn(m.state) && WantsConn(m'.state) then [RequestConn]
    else if a.Release? && WantsConn(m.state) && !WantsConn(m'.state) then [ReleaseConn]
    else []
  }

  lemma ConnOfEvent(m: Machine, a: Action)
    requires a.OnGranted? || a.OnReleased? || a.OnDenied? || a.ModemRestart?
    ensures ConnCalls(Do(m, a).1) == Wanted(m, a, Do(m, a).0)
  {
    ConnOfGone(m);
    ConnOfNotified(m.subs, GrantedEvent, ForActive);
    ConnOfNotified(m.subs, DeniedEvent, ForAll);
    ConnOfNotified(m.subs, ReleasedEvent, ForAll);
  }

  lemma ConnOfClient(m: Machine, a: Action)
    requires Proper(m, a) && (a.Request? || a.Release?)
    ensures ConnCalls(Do(m, a).1) == Wanted(m, a, Do(m, a).0)
  {
    if a.Request? {
      ConnOne(RequestConn);
      ConnOne(OpenStatus(a.handle, true));
    } else {
      FindMeaning(m.subs, a.handle);
      ConnOfLeaving(a.handle);
    }
  }

  /** The connection is requested once when the machine comes to want it, and released once when a client's
      release makes it stop wanting it; nothing else is asked of the framework. */
  lemma ConnExactly(m: Machine, a: Action)
    requires Proper(m, a)
    ensures ConnCalls(Do(m, a).1) == Wanted(m, a, Do(m, a).0)
  {
    if a.Request? || a.Release? { ConnOfClient(m, a); } else { ConnOfEvent(m, a); }
  }

  /** Every machine a run reaches is of the kind the table speaks of. */
  lemma RunsAreProper(acts: seq<Action>, a: Action)
    requires NeverReused(acts) && Fresh(Requested(acts), a)
    ensures Proper(Final(Run(acts)), a)
  {
    RunKeeps(acts);
    var m, used, hist := Final(Run(acts)), Requested(acts), Calls(Run(acts));
    if m.state == Released { ReleasedIsEmpty(m, used, hist); }
    if a.Request? { assert InvAt(m, used, hist, a.handle); }
  }
}

// Subscribers are listed, and told, in the order in which they asked.
module AgpsOrder {
  import opened Wrappers
  import opened AgpsModel
  import opened AgpsRuns

  // a is b with some entries left out
  predicate IsPartOf(a: seq<int>, b: seq<int>) {
    a == [] || (b != [] && ((a[0] == b[0] && IsPartOf(a[1..], b[1..])) || IsPartOf(a, b[1..])))
  }

  lemma {:induction false} PartOfPart(a: seq<int>, b: seq<int>, c: seq<int>)
    requires IsPartOf(a, b) && IsPartOf(b, c)
    ensures IsPartOf(a, c)
    decreases |c|
  {
    if a != [] {
      if b[0] == c[0] && IsPartOf(b[1..], c[1..]) {
        if a[0] == b[0] && IsPartOf(a[1..], b[1..]) {
          PartOfPart(a[1..], b[1..], c[1..]);
        } else {
          PartOfPart(a, b[1..], c[1..]);
        }
      } else {
        PartOfPart(a, b, c[1..]);
      }
    }
  }

  lemma {:induction false} PartGrows(a: seq<int>, b: seq<int>, h: int)
    requires IsPartOf(a, b)
    ensures IsPartOf(a, b + [h]) && IsPartOf(a + [h], b + [h])
  {
    if b == [] {
      assert a + [h] == [h] == b + [h] && [h][1..] == [];
    } else {
      var more := b + [h];
      assert more[0] == b[0] && more[1..] == b[1..] + [h];
      if a != [] && a[0] == b[0] && IsPartOf(a[1..], b[1..]) {
        assert (a + [h])[1..] == a[1..] + [h];
        PartGrows(a[1..], b[1..], h);
      } else {
        PartGrows(a, b[1..], h);
      }
    }
  }

  lemma {:induction false} OneOf(h: int, b: seq<int>)
    requires h in b
    ensures IsPartOf([h], b)
  {
    assert [h][1..] == [];
    if b[0] != h { OneOf(h, b[1..]); }
  }

  // ----- The handles listed and told -----

  function Handles(subs: seq<Subscriber>): seq<int> {
    if subs == [] then [] else [subs[0].connHandle] + Handles(subs[1..])
  }

  function HandlesTold(calls: seq<Call>): seq<int> {
    if calls == [] then []
    else if calls[0].OpenStatus? || calls[0].CloseStatus? then [calls[0].handle] + HandlesTold(calls[1..])
    else HandlesTold(calls[1..])
  }

  // The handles requested, in order
  function Asked(acts: seq<Action>): seq<int> {
    if acts == [] then []
    else
      var before, last := Asked(acts[..|acts| - 1]), acts[|acts| - 1];
      if last.Request? then before + [last.handle] else before
  }

  lemma {:induction false} HandlesAppend(subs: seq<Subscriber>, s: Subscriber)
    ensures Handles(subs + [s]) == Handles(subs) + [s.connHandle]
  {
    if subs == [] {
      assert subs + [s] == [s];
    } else {
      assert (subs + [s])[1..] == subs[1..] + [s];
      HandlesAppend(subs[1..], s);
    }
  }

  lemma {:induction false} ErasedIsPart(subs: seq<Subscriber>, h: int)
    ensures IsPartOf(Handles(Erased(subs, h)), Handles(subs)) && Handles(Marked(subs, h)) == Handles(subs)
  {
    if subs != [] { ErasedIsPart(subs[1..], h); }
  }

  lemma {:induction false} UnmatchedIsPart(subs: seq<Subscriber>, kind: NotificationType)
    ensures IsPartOf(Handles(Unmatched(subs, kind)), Handles(subs))
  {
    if subs != [] { UnmatchedIsPart(subs[1..], kind); }
  }

  lemma {:induction false} ToldAppend(a: seq<Call>, b: seq<Call>)
    ensures HandlesTold(a + b) == HandlesTold(a) + HandlesTold(b)
  {
    if a == [] {
      assert a + b == b;
    } else {
      assert (a + b)[0] == a[0] && (a + b)[1..] == a[1..] + b;
      ToldAppend(a[1..], b);
    }
  }

  lemma ToldHandle(c: Call)
    ensures HandlesTold([c]) == if c.OpenStatus? || c.CloseStatus? then [c.handle] else []
  {
    assert [c][1..] == [];
  }

  lemma {:induction false} NotifiedIsPart(subs: seq<Subscriber>, event: AgpsEvent, kind: NotificationType)
    ensures IsPartOf(HandlesTold(Notified(subs, event, kind)), Handles(subs))
  {
    if subs != [] {
      NotifiedIsPart(subs[1..], event, kind);
      var now, later := CallsTo(subs[0], event, kind), Notified(subs[1..], event, kind);
      ToldAppend(now, later);
      if now == [] {
        assert now + later == later;
      } else {
        ToldHandle(now[0]);
        assert now == [now[0]];
      }
    }
  }

  // ----- Steps and runs -----

  lemma ListStep(m: Machine, a: Action, asked: seq<int>)
    requires IsPartOf(Handles(m.subs), asked)
    ensures IsPartOf(Handles(Do(m, a).0.subs), if a.Request? then asked + [a.handle] else asked)
  {
    match a
    case Request(h, wait) =>
      HandlesAppend(m.subs, Subscriber(h, wait, false));
      PartGrows(Handles(m.subs), asked, h);
    case Release(h) =>
      FindMeaning(m.subs, h);
      ErasedIsPart(m.subs, h);
      PartOfPart(Handles(Erased(m.subs, h)), Handles(m.subs), asked);
    case _ =>
      UnmatchedIsPart(m.subs, ForAll);
      UnmatchedIsPart(m.subs, ForInactive);
      PartOfPart(Handles(Unmatched(m.subs, ForAll)), Handles(m.subs), asked);
      PartOfPart(Handles(Unmatched(m.subs, ForInactive)), Handles(m.subs), asked);
  }

  lemma {:induction false} ListedHandle(subs: seq<Subscriber>, s: Subscriber)
    requires s in subs
    ensures s.connHandle in Handles(subs)
  {
    if subs[0] != s {
      assert s in subs[1..];
      ListedHandle(subs[1..], s);
    }
  }

  lemma LeavingTold(m: Machine, h: int)
    ensures IsPartOf(HandlesTold(Do(m, Release(h)).1), Handles(m.subs))
  {
    FindMeaning(m.subs, h);
    if Find(m.subs, h).Some? {
      ListedHandle(m.subs, Find(m.subs, h).value);
      OneOf(h, Handles(m.subs));
    }
    ToldHandle(CloseStatus(h));
    ToldHandle(ReleaseConn);
    ToldAppend([CloseStatus(h)], [ReleaseConn]);
    assert [] + [ReleaseConn] == [ReleaseConn];
  }

  lemma EventTold(m: Machine, a: Action)
    requires !a.Request? && !a.Release?
    ensures IsPartOf(HandlesTold(Do(m, a).1), Handles(m.subs))
  {
    NotifiedIsPart(m.subs, GrantedEvent, ForActive);
    NotifiedIsPart(m.subs, DeniedEvent, ForAll);
    NotifiedIsPart(m.subs, ReleasedEvent, ForAll);
    NotifiedIsPart(m.subs, ReleasedEvent, ForInactive);
    var told := Notified(m.subs, ReleasedEvent, ForInactive);
    ToldAppend(told, [RequestConn]);
    ToldHandle(RequestConn);
    assert HandlesTold(told) + [] == HandlesTold(told);
  }

  lemma CallStep(m: Machine, a: Action, asked: seq<int>)
    requires IsPartOf(Handles(m.subs), asked)
    ensures IsPartOf(HandlesTold(Do(m, a).1), if a.Request? then asked + [a.handle] else asked)
  {
    if a.Request? {
      ToldHandle(RequestConn);
      ToldHandle(OpenStatus(a.handle, true));
      OneOf(a.handle, asked + [a.handle]);
    } else {
      if a.Release? { LeavingTold(m, a.handle); } else { EventTold(m, a); }
      PartOfPart(HandlesTold(Do(m, a).1), Handles(m.subs), asked);
    }
  }

  /** In every run the subscribers are listed in the order in which they asked. */
  lemma {:induction false} ListedInOrder(acts: seq<Action>)
    ensures IsPartOf(Handles(Final(Run(acts)).subs), Asked(acts))
  {
    if acts != [] {
      var init := acts[..|acts| - 1];
      ListedInOrder(init);
      ListStep(Final(Run(init)), acts[|acts| - 1], Asked(init));
    }
  }

  /** In every run each event tells its clients in the order in which they asked. */
  lemma {:induction false} ToldInOrder(acts: seq<Action>, k: nat)
    requires k < |Run(acts)|
    ensures k < |acts| && IsPartOf(HandlesTold(Run(acts)[k].calls), Asked(acts[..k + 1]))
  {
    if acts != [] {
      var init := acts[..|acts| - 1];
      if k < |Run(init)| {
        ToldInOrder(init, k);
        assert init[..k + 1] == acts[..k + 1];
      } else {
        RunLength(init);
        ListedInOrder(init);
        CallStep(Final(Run(init)), acts[|acts| - 1], Asked(init));
        assert acts[..k + 1] == acts;
      }
    }
  }

  lemma {:induction false} RunLength(acts: seq<Action>)
    ensures |Run(acts)| == |acts|
  {
    if acts != [] { RunLength(acts[..|acts| - 1]); }
  }
}

// What the manager's clients hear, by kind of connection: SUPL, emergency SUPL and unknown kinds share the
// AGNSS machine, every other kind the internet machine.
module ManagerTable {
  import opened Wrappers
  import opened AgpsModel
  import opened AgpsRuns
  import opened AgpsTable
  import opened AgpsManagerModel

  predicate ProperMachine(m: Option<Machine>) {
    m.Some? ==> Distinct(m.value.subs) && (m.value.state == Released ==> m.value.subs == [])
  }

  predicate ProperManager(g: Manager, a: ManagerAction) {
    && ProperMachine(g.agnss) && ProperMachine(g.internet) && Enabled(g, a)
    && (a.RequestATL? ==> !Lists(g.agnss, a.handle) && !Lists(g.internet, a.handle))
  }

  predicate OnAgnss(t: AgpsType) {
    match t
    case Supl => true
    case SuplEs => true
    case InvalidType => true
    case WwanAny => false
    case AnyType => false
  }

  function Serving(g: Manager, t: AgpsType): Option<Machine> {
    if OnAgnss(t) then g.agnss else g.internet
  }

  function HeardFrom(m: Option<Machine>, a: Action, h: int): seq<Call> {
    if m.None? then [] else Heard(m.value, a, h)
  }

  function ClientHears(g: Manager, a: ManagerAction, h: int): seq<Call> {
    match a
    case RequestATL(k, t) =>
      if Serving(g, t).None? then (if k == h then [OpenStatus(h, false)] else [])
      else HeardFrom(Serving(g, t), Request(k, false), h)
    case ReleaseATL(k) => HeardFrom(if Lists(g.agnss, k) then g.agnss else g.internet, Release(k), h)
    case OpenSuccess(t) => HeardFrom(Serving(g, t), OnGranted, h)
    case OpenFailed(t) => HeardFrom(Serving(g, t), OnDenied, h)
    case Closed(t) => HeardFrom(Serving(g, t), OnReleased, h)
    case _ => []
  }

  lemma StepTable(g: Manager, onAgnss: bool, a: Action, h: int)
    requires var m := if onAgnss then g.agnss else g.internet; m.Some? && Proper(m.value, a)
    ensures Told(Stepped(g, onAgnss, a).1, h) == HeardFrom(if onAgnss then g.agnss else g.internet, a, h)
    ensures var g' := Stepped(g, onAgnss, a).0;
            if onAgnss then g'.internet == g.internet && g'.agnss.Some? && GoesTo(g.agnss.value, a, g'.agnss.value)
            else g'.agnss == g.agnss && g'.internet.Some? && GoesTo(g.internet.value, a, g'.internet.value)
  {
    TransitionTable(if onAgnss then g.agnss.value else g.internet.value, a, h);
  }

  /** What each manager step tells each client: requests and reports reach the machine of their kind, a
      release the machine that lists the handle, and a request no machine serves is refused. */
  lemma ClientTable(g: Manager, a: ManagerAction, useEmergencyPdn: bool, h: int)
    requires ProperManager(g, a)
    ensures Told(MDo(g, a, useEmergencyPdn).1, h) == ClientHears(g, a, h)
  {
    match a
    case RequestATL(k, t) =>
      if Serving(g, t).None? {
        ToldOne(OpenStatus(k, false), h);
      } else {
        StepTable(g, OnAgnss(t), Request(k, false), h);
      }
    case ReleaseATL(k) =>
      if Lists(g.agnss, k) {
        StepTable(g, true, Release(k), h);
      } else if Lists(g.internet, k) {
        StepTable(g, false, Release(k), h);
      }
    case OpenSuccess(t) => StepTable(g, OnAgnss(t), OnGranted, h);
    case OpenFailed(t) => StepTable(g, OnAgnss(t), OnDenied, h);
    case Closed(t) => StepTable(g, OnAgnss(t), OnReleased, h);
    case _ =>
  }

  // What a manager step means for one of the two machines
  function Meant(g: Manager, a: ManagerAction, agnss: bool): Option<Action> {
    match a
    case RequestATL(h, t) => if OnAgnss(t) == agnss then Some(Request(h, false)) else None
    case ReleaseATL(h) =>
      if Lists(g.agnss, h) then (if agnss then Some(Release(h)) else None)
      else if Lists(g.internet, h) && !agnss then Some(Release(h)) else None
    case OpenSuccess(t) => if OnAgnss(t) == agnss then Some(OnGranted) else None
    case OpenFailed(t) => if OnAgnss(t) == agnss then Some(OnDenied) else None
    case Closed(t) => if OnAgnss(t) == agnss then Some(OnReleased) else None
    case ModemSSR => Some(ModemRestart)
    case Creates(_, _) => None
  }

  // A machine follows its transition table, and comes into being, released and empty, when it is wanted
  predicate FollowsTable(m: Option<Machine>, a: Option<Action>, wanted: bool, m': Option<Machine>, h: int) {
    match m
    case None => m' == if wanted then Some(Machine(Released, [])) else None
    case Some(v) =>
      if a.None? then m' == m
      else m'.Some? && Find(m'.value.subs, h) == ListedAs(v, a.value, h) && GoesTo(v, a.value, m'.value)
  }

  /** What each manager step does to the two machines: how every handle is listed and the state they go to. */
  lemma MachinesGo(g: Manager, a: ManagerAction, useEmergencyPdn: bool, h: int)
    requires ProperManager(g, a)
    ensures var g' := MDo(g, a, useEmergencyPdn).0;
            && FollowsTable(g.agnss, Meant(g, a, true), a.Creates? && a.agnss, g'.agnss, h)
            && FollowsTable(g.internet, Meant(g, a, false), a.Creates? && a.internet, g'.internet, h)
  {
    if g.agnss.Some? && Meant(g, a, true).Some? {
      TransitionTable(g.agnss.value, Meant(g, a, true).value, h);
    }
    if g.internet.Some? && Meant(g, a, false).Some? {
      TransitionTable(g.internet.value, Meant(g, a, false).value, h);
    }
  }

  /** Which kinds are served once the machines are created. */
  lemma WhoIsServed(agnss: bool, internet: bool, h: int, t: AgpsType, useEmergencyPdn: bool)
    ensures var g := MDo(Manager(None, None), Creates(agnss, internet), useEmergencyPdn).0;
            MDo(g, RequestATL(h, t), useEmergencyPdn).1 ==
            if (if OnAgnss(t) then agnss else internet) then [RequestConn] else [OpenStatus(h, false)]
  {
  }

  lemma ManagersAreProper(g: Manager, used: set<int>, hist: seq<Call>, a: ManagerAction)
    requires MInv(g, used, hist) && MFresh(used, a) && Enabled(g, a)
    ensures ProperManager(g, a)
  {
    if g.agnss.Some? {
      if g.agnss.value.state == Released { ReleasedIsEmpty(g.agnss.value, used, hist); }
      if a.RequestATL? { assert InvAt(g.agnss.value, used, hist, a.handle); }
    }
    if g.internet.Some? {
      if g.internet.value.state == Released { ReleasedIsEmpty(g.internet.value, used, hist); }
      if a.RequestATL? { assert InvAt(g.internet.value, used, hist, a.handle); }
    }
  }
}
