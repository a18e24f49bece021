// The AGPS connection state machine (gps/gnss/Agps.cpp, gps/gnss/Agps.h).
//
// AgpsModel is the machine as a value: what each event makes of the state and the subscriber
// list, and which callbacks it fires.  AgpsStateMachine is the object the source updates in
// place, proved to do exactly that.  AgpsRuns proves what every run keeps.
//
// Subscribers are values identified by their connection handle, as AgpsSubscriber::equals does.
module AgpsModel {
  import opened Wrappers
  import opened Sequences

  datatype State = Released | Pending | Acquired | Releasing

  datatype Subscriber = Subscriber(connHandle: int, waitForCloseComplete: bool, isInactive: bool)

  datatype AgpsEvent = SubscribeEvent | UnsubscribeEvent | GrantedEvent | ReleasedEvent | DeniedEvent

  datatype NotificationType = ForAll | ForInactive | ForActive

  // The calls the machine makes: to the ATL client of a handle, and to the framework
  datatype Call =
    | OpenStatus(handle: int, success: bool)
    | CloseStatus(handle: int)
    | RequestConn
    | ReleaseConn

  datatype Machine = Machine(state: State, subs: seq<Subscriber>)

  const INITIAL := Machine(Released, [])

  // ----- The subscriber list -----

  function Find(subs: seq<Subscriber>, h: int): Option<Subscriber> {
    if subs == [] then None
    else if subs[0].connHandle == h then Some(subs[0])
    else Find(subs[1..], h)
  }

  function Added(subs: seq<Subscriber>, sub: Subscriber): seq<Subscriber> {
    if Find(subs, sub.connHandle).Some? then subs else subs + [sub]
  }

  function Erased(subs: seq<Subscriber>, h: int): seq<Subscriber> {
    if subs == [] then []
    else if subs[0].connHandle == h then Erased(subs[1..], h)
    else [subs[0]] + Erased(subs[1..], h)
  }

  function Marked(subs: seq<Subscriber>, h: int): seq<Subscriber> {
    if subs == [] then []
    else [if subs[0].connHandle == h then subs[0].(isInactive := true) else subs[0]] + Marked(subs[1..], h)
  }

  predicate AnyActive(subs: seq<Subscriber>) {
    exists s :: s in subs && !s.isInactive
  }

  // ----- Notifications -----

  predicate Matches(kind: NotificationType, sub: Subscriber) {
    kind == ForAll || (kind == ForInactive && sub.isInactive) || (kind == ForActive && !sub.isInactive)
  }

  function Callback(event: AgpsEvent, h: int): seq<Call> {
    match event
    case GrantedEvent => [OpenStatus(h, true)]
    case DeniedEvent => [OpenStatus(h, false)]
    case UnsubscribeEvent => [CloseStatus(h)]
    case ReleasedEvent => [CloseStatus(h)]
    case SubscribeEvent => []
  }

  function Notified(subs: seq<Subscriber>, event: AgpsEvent, kind: NotificationType): seq<Call> {
    if subs == [] then []
    else if Matches(kind, subs[0]) then Callback(event, subs[0].connHandle) + Notified(subs[1..], event, kind)
    else Notified(subs[1..], event, kind)
  }

  function Unmatched(subs: seq<Subscriber>, kind: NotificationType): seq<Subscriber> {
    if subs == [] then []
    else if Matches(kind, subs[0]) then Unmatched(subs[1..], kind)
    else [subs[0]] + Unmatched(subs[1..], kind)
  }

  // What a notification leaves in the list
  function Left(subs: seq<Subscriber>, deletePostNotify: bool, kind: NotificationType): seq<Subscriber> {
    if deletePostNotify then Unmatched(subs, kind) else subs
  }

  // What a notification says to one subscriber, and whether it keeps it listed
  function CallsTo(s: Subscriber, event: AgpsEvent, kind: NotificationType): seq<Call> {
    if Matches(kind, s) then Callback(event, s.connHandle) else []
  }

  function KeptOf(s: Subscriber, deletePostNotify: bool, kind: NotificationType): seq<Subscriber> {
    if Matches(kind, s) && deletePostNotify then [] else [s]
  }

  // One turn of the notification loop: the list before and after the iterator, and the calls made
  lemma IteratorStep(list: seq<Subscriber>, it: nat, kept: seq<Subscriber>, next: seq<Subscriber>)
    requires it < |list| && (kept == [] || kept == [list[it]])
    requires next == if kept == [] then list[..it] + list[it + 1..] else list
    ensures next[..it + |kept|] == list[..it] + kept && next[it + |kept|..] == list[it + 1..]
  {
  }

  lemma NotifyHead(rest: seq<Subscriber>, before: seq<Subscriber>, calls: seq<Call>,
                   event: AgpsEvent, deletePostNotify: bool, kind: NotificationType)
    requires rest != []
    ensures before + Left(rest, deletePostNotify, kind) ==
            (before + KeptOf(rest[0], deletePostNotify, kind)) + Left(rest[1..], deletePostNotify, kind)
    ensures calls + Notified(rest, event, kind) ==
            (calls + CallsTo(rest[0], event, kind)) + Notified(rest[1..], event, kind)
  {
    Associate(before, KeptOf(rest[0], deletePostNotify, kind), Left(rest[1..], deletePostNotify, kind));
    Associate(calls, CallsTo(rest[0], event, kind), Notified(rest[1..], event, kind));
    assert Left(rest, deletePostNotify, kind) ==
           KeptOf(rest[0], deletePostNotify, kind) + Left(rest[1..], deletePostNotify, kind);
    assert Notified(rest, event, kind) == CallsTo(rest[0], event, kind) + Notified(rest[1..], event, kind);
  }

  // ----- The five events -----

  function Subscribe(m: Machine, sub: Subscriber): (Machine, seq<Call>) {
    var subs := Added(m.subs, sub);
    match m.state
    case Released => (Machine(Pending, subs), [RequestConn])
    case Acquired => (Machine(Acquired, subs), Callback(GrantedEvent, sub.connHandle))
    case _ => (Machine(m.state, subs), [])
  }

  // cur is the subscriber the event is about
  function Unsubscribe(m: Machine, cur: Subscriber): (Machine, seq<Call>) {
    if m.state == Released then (m, Callback(UnsubscribeEvent, cur.connHandle))
    else
      var subs := if cur.waitForCloseComplete then Marked(m.subs, cur.connHandle) else Erased(m.subs, cur.connHandle);
      var told := if cur.waitForCloseComplete then [] else Callback(UnsubscribeEvent, cur.connHandle);
      if m.state == Releasing then (Machine(if subs == [] then Released else Releasing, subs), told)
      else if subs == [] then (Machine(Released, subs), told + [ReleaseConn])
      else if !AnyActive(subs) then (Machine(Releasing, subs), told + [ReleaseConn])
      else (Machine(m.state, subs), told)
  }

  function Granted(m: Machine): (Machine, seq<Call>) {
    if m.state == Pending then (Machine(Acquired, m.subs), Notified(m.subs, GrantedEvent, ForActive))
    else (m, [])
  }

  // RELEASED and DENIED share this in RELEASING
  function ConnectionGone(m: Machine): (Machine, seq<Call>) {
    var subs := Unmatched(m.subs, ForInactive);
    var told := Notified(m.subs, ReleasedEvent, ForInactive);
    if AnyActive(subs) then (Machine(Pending, subs), told + [RequestConn]) else (Machine(Released, subs), told)
  }

  function ConnReleased(m: Machine): (Machine, seq<Call>) {
    match m.state
    case Acquired => (Machine(Released, Unmatched(m.subs, ForAll)), Notified(m.subs, ReleasedEvent, ForAll))
    case Releasing => ConnectionGone(m)
    case _ => (m, [])
  }

  function ConnDenied(m: Machine): (Machine, seq<Call>) {
    match m.state
    case Pending => (Machine(Released, Unmatched(m.subs, ForAll)), Notified(m.subs, DeniedEvent, ForAll))
    case Releasing => ConnectionGone(m)
    case _ => (m, [])
  }
}

module AgpsMachine {
  import opened Wrappers
  import opened AgpsModel

  // The callbacks fired so far, in order
  class CallLog {
    var calls: seq<Call>

    constructor ()
      ensures calls == []
    {
      calls := [];
    }
  }

  class AgpsStateMachine {
    var mState: State
    var mSubscriberList: seq<Subscriber>
    var mCurrentSubscriber: Subscriber
    // Where the callbacks registered with the manager and the framework go
    const log: CallLog

    ghost function View(): Machine
      reads this
    {
      Machine(mState, mSubscriberList)
    }

    constructor (log: CallLog)
      ensures View() == INITIAL && this.log == log
    {
      this.log := log;
      mState, mSubscriberList := Released, [];
      mCurrentSubscriber := Subscriber(0, false, false);
    }

    method ProcessAgpsEvent(event: AgpsEvent)
      modifies this, log
      ensures mCurrentSubscriber == old(mCurrentSubscriber)
      ensures var (m, calls) :=
                match event
                case SubscribeEvent => Subscribe(old(View()), mCurrentSubscriber)
                case UnsubscribeEvent => Unsubscribe(old(View()), mCurrentSubscriber)
                case GrantedEvent => Granted(old(View()))
                case ReleasedEvent => ConnReleased(old(View()))
                case DeniedEvent => ConnDenied(old(View()));
              View() == m && log.calls == old(log.calls) + calls
    {
      match event
      case SubscribeEvent => ProcessSubscribe();
      case UnsubscribeEvent => ProcessUnsubscribe();
      case GrantedEvent => ProcessGranted();
      case ReleasedEvent => ProcessReleased();
      case DeniedEvent => ProcessDenied();
    }

    method ProcessSubscribe()
      modifies this, log
      ensures mCurrentSubscriber == old(mCurrentSubscriber)
      ensures var (m, calls) := Subscribe(old(View()), mCurrentSubscriber);
              View() == m && log.calls == old(log.calls) + calls
    {
      match mState {
        case Released =>
          AddSubscriber(mCurrentSubscriber);
          RequestOrReleaseDataConn(true);
          mState := Pending;
        case Pending =>
          AddSubscriber(mCurrentSubscriber);
        case Acquired =>
          NotifyEventToSubscriber(GrantedEvent, mCurrentSubscriber, false);
          AddSubscriber(mCurrentSubscriber);
        case Releasing =>
          AddSubscriber(mCurrentSubscriber);
      }
    }

    method ProcessUnsubscribe()
      modifies this, log
      ensures mCurrentSubscriber == old(mCurrentSubscriber)
      ensures var (m, calls) := Unsubscribe(old(View()), mCurrentSubscriber);
              View() == m && log.calls == old(log.calls) + calls
    {
      if mState == Released {
        NotifyEventToSubscriber(UnsubscribeEvent, mCurrentSubscriber, false);
        return;
      }
      if mCurrentSubscriber.waitForCloseComplete {
        mSubscriberList := Marked(mSubscriberList, mCurrentSubscriber.connHandle);
      } else {
        NotifyEventToSubscriber(UnsubscribeEvent, mCurrentSubscriber, true);
      }
      if mState == Releasing {
        if mSubscriberList == [] {
          mState := Released;
        }
        return;
      }
      if mSubscriberList == [] {
        mState := Released;
        RequestOrReleaseDataConn(false);
      } else {
        var active := AnyActiveSubscribers();
        if !active {
          mState := Releasing;
          RequestOrReleaseDataConn(false);
        }
      }
    }

    method ProcessGranted()
      modifies this, log
      ensures mCurrentSubscriber == old(mCurrentSubscriber)
      ensures var (m, calls) := Granted(old(View())); View() == m && log.calls == old(log.calls) + calls
    {
      if mState == Pending {
        mState := Acquired;
        NotifyAllSubscribers(GrantedEvent, false, ForActive);
      }
    }

    method ProcessReleased()
      modifies this, log
      ensures mCurrentSubscriber == old(mCurrentSubscriber)
      ensures var (m, calls) := ConnReleased(old(View())); View() == m && log.calls == old(log.calls) + calls
    {
      match mState {
        case Released =>
        case Acquired =>
          mState := Released;
          NotifyAllSubscribers(ReleasedEvent, true, ForAll);
        case Releasing =>
          FinishReleasing();
        case Pending =>
      }
    }

    method ProcessDenied()
      modifies this, log
      ensures mCurrentSubscriber == old(mCurrentSubscriber)
      ensures var (m, calls) := ConnDenied(old(View())); View() == m && log.calls == old(log.calls) + calls
    {
      match mState {
        case Released =>
        case Acquired =>
        case Releasing =>
          FinishReleasing();
        case Pending =>
          mState := Released;
          NotifyAllSubscribers(DeniedEvent, true, ForAll);
      }
    }

    method FinishReleasing()
      modifies this, log
      ensures mCurrentSubscriber == old(mCurrentSubscriber)
      ensures var (m, calls) := ConnectionGone(old(View())); View() == m && log.calls == old(log.calls) + calls
    {
      NotifyAllSubscribers(ReleasedEvent, true, ForInactive);
      var active := AnyActiveSubscribers();
      if active {
        mState := Pending;
        RequestOrReleaseDataConn(true);
      } else {
        mState := Released;
      }
    }

    method RequestOrReleaseDataConn(request: bool)
      modifies log
      ensures log.calls == old(log.calls) + [if request then RequestConn else ReleaseConn]
    {
      log.calls := log.calls + [if request then RequestConn else ReleaseConn];
    }

    method NotifyAllSubscribers(event: AgpsEvent, deletePostNotify: bool, kind: NotificationType)
      modifies log, this`mSubscriberList
      ensures mSubscriberList == Left(old(mSubscriberList), deletePostNotify, kind)
      ensures log.calls == old(log.calls) + Notified(old(mSubscriberList), event, kind)
    {
      // it is the position of the list iterator, rest the part of the list from there on
      var it := 0;
      ghost var all, rest := mSubscriberList, mSubscriberList;
      while it < |mSubscriberList|
        invariant 0 <= it <= |mSubscriberList| && rest == mSubscriberList[it..]
        invariant mSubscriberList[..it] + Left(rest, deletePostNotify, kind) == Left(all, deletePostNotify, kind)
        invariant log.calls + Notified(rest, event, kind) == old(log.calls) + Notified(all, event, kind)
        decreases |rest|
      {
        ghost var list := mSubscriberList;
        NotifyHead(rest, list[..it], log.calls, event, deletePostNotify, kind);
        ghost var kept := KeptOf(list[it], deletePostNotify, kind);
        var next := NotifyAtIterator(it, event, deletePostNotify, kind);
        IteratorStep(list, it, kept, mSubscriberList);
        it, rest := next, rest[1..];
      }
    }

    // One turn of the loop: it is the iterator's position, next where it moves to
    method NotifyAtIterator(it: nat, event: AgpsEvent, deletePostNotify: bool, kind: NotificationType)
      returns (next: nat)
      requires it < |mSubscriberList|
      modifies log, this`mSubscriberList
      ensures var list := old(mSubscriberList);
              && log.calls == old(log.calls) + CallsTo(list[it], event, kind)
              && next == it + |KeptOf(list[it], deletePostNotify, kind)|
              && mSubscriberList ==
                 if KeptOf(list[it], deletePostNotify, kind) == [] then list[..it] + list[it + 1..] else list
    {
      var subscriber := mSubscriberList[it];
      next := it;
      if Matches(kind, subscriber) {
        NotifyEventToSubscriber(event, subscriber, false);
        if deletePostNotify {
          mSubscriberList := mSubscriberList[..it] + mSubscriberList[it + 1..];
        } else {
          next := it + 1;
        }
      } else {
        next := it + 1;
      }
    }

    method NotifyEventToSubscriber(event: AgpsEvent, subscriber: Subscriber, deletePostNotify: bool)
      modifies log, this`mSubscriberList
      ensures log.calls == old(log.calls) + Callback(event, subscriber.connHandle)
      ensures mSubscriberList ==
              if deletePostNotify then Erased(old(mSubscriberList), subscriber.connHandle) else old(mSubscriberList)
    {
      log.calls := log.calls + Callback(event, subscriber.connHandle);
      if deletePostNotify {
        DeleteSubscriber(subscriber);
      }
    }

    method AddSubscriber(sub: Subscriber)
      modifies this`mSubscriberList
      ensures mSubscriberList == Added(old(mSubscriberList), sub)
    {
      ghost var rest := mSubscriberList;
      for it := 0 to |mSubscriberList|
        invariant mSubscriberList == old(mSubscriberList) && rest == mSubscriberList[it..]
        invariant Find(rest, sub.connHandle) == Find(mSubscriberList, sub.connHandle)
      {
        if mSubscriberList[it].connHandle == sub.connHandle {
          return;
        }
        rest := rest[1..];
      }
      mSubscriberList := mSubscriberList + [sub];
    }

    method DeleteSubscriber(sub: Subscriber)
      modifies this`mSubscriberList
      ensures mSubscriberList == Erased(old(mSubscriberList), sub.connHandle)
    {
      var it := 0;
      ghost var rest := mSubscriberList;
      while it < |mSubscriberList|
        invariant 0 <= it <= |mSubscriberList| && rest == mSubscriberList[it..]
        invariant mSubscriberList[..it] + Erased(rest, sub.connHandle) == Erased(old(mSubscriberList), sub.connHandle)
        decreases |rest|
      {
        var list := mSubscriberList;
        if mSubscriberList[it].connHandle == sub.connHandle {
          mSubscriberList := mSubscriberList[..it] + mSubscriberList[it + 1..];
          assert mSubscriberList[..it] == list[..it];
        } else {
          it := it + 1;
          assert mSubscriberList[..it] == list[..it - 1] + [list[it - 1]];
        }
        rest := rest[1..];
      }
    }

    method AnyActiveSubscribers() returns (active: bool)
      ensures active == AnyActive(mSubscriberList)
    {
      for it := 0 to |mSubscriberList|
        invariant forall k :: 0 <= k < it ==> mSubscriberList[k].isInactive
      {
        if !mSubscriberList[it].isInactive {
          return true;
        }
      }
      return false;
    }

    method GetSubscriber(h: int) returns (sub: Option<Subscriber>)
      ensures sub == Find(mSubscriberList, h)
    {
      ghost var rest := mSubscriberList;
      for it := 0 to |mSubscriberList|
        invariant rest == mSubscriberList[it..] && Find(rest, h) == Find(mSubscriberList, h)
      {
        if mSubscriberList[it].connHandle == h {
          return Some(mSubscriberList[it]);
        }
        rest := rest[1..];
      }
      return None;
    }

    method DropAllSubscribers()
      modifies this`mSubscriberList
      ensures View() == Machine(old(mState), [])
    {
      while mSubscriberList != []
        decreases |mSubscriberList|
      {
        mSubscriberList := mSubscriberList[1..];
      }
    }
  }
}
