// The AGPS manager (gps/gnss/Agps.cpp): it routes ATL requests and framework events to one of two
// state machines.  Handles never reused across the two machines keep the callback guarantee.
module AgpsManagerModel {
  import opened Wrappers
  import opened AgpsModel
  import opened AgpsRuns

  datatype AgpsType = InvalidType | AnyType | Supl | WwanAny | SuplEs

  // A machine is absent when it was never created
  datatype Manager = Manager(agnss: Option<Machine>, internet: Option<Machine>)

  datatype ManagerAction =
    | Creates(agnss: bool, internet: bool)
    | RequestATL(handle: int, agpsType: AgpsType)
    | ReleaseATL(handle: int)
    | OpenSuccess(agpsType: AgpsType)
    | OpenFailed(agpsType: AgpsType)
    | Closed(agpsType: AgpsType)
    | ModemSSR

  predicate UsesAgnss(t: AgpsType) {
    t == InvalidType || t == Supl || t == SuplEs
  }

  function MachineFor(g: Manager, t: AgpsType): Option<Machine> {
    if UsesAgnss(t) then g.agnss else g.internet
  }

  function Stepped(g: Manager, onAgnss: bool, a: Action): (Manager, seq<Call>)
    requires (if onAgnss then g.agnss else g.internet).Some?
  {
    if onAgnss then
      var (m, calls) := Do(g.agnss.value, a);
      (Manager(Some(m), g.internet), calls)
    else
      var (m, calls) := Do(g.internet.value, a);
      (Manager(g.agnss, Some(m)), calls)
  }

  // With USE_EMERGENCY_PDN_FOR_EMERGENCY_SUPL off, emergency requests count as plain SUPL
  function EffectiveType(t: AgpsType, useEmergencyPdn: bool): AgpsType {
    if !useEmergencyPdn && t == SuplEs then Supl else t
  }

  predicate Lists(m: Option<Machine>, h: int) {
    m.Some? && Find(m.value.subs, h).Some?
  }

  // The framework reports only on a machine that exists
  predicate Enabled(g: Manager, a: ManagerAction) {
    (a.OpenSuccess? || a.OpenFailed? || a.Closed?) ==> MachineFor(g, a.agpsType).Some?
  }

  function MDo(g: Manager, a: ManagerAction, useEmergencyPdn: bool): (Manager, seq<Call>)
    requires Enabled(g, a)
  {
    match a
    case Creates(agnss, internet) => (Manager(Created(g.agnss, agnss), Created(g.internet, internet)), [])
    case RequestATL(h, t) =>
      var e := EffectiveType(t, useEmergencyPdn);
      if MachineFor(g, e).None? then (g, [OpenStatus(h, false)])
      else Stepped(g, UsesAgnss(e), Request(h, false))
    case ReleaseATL(h) =>
      if Lists(g.agnss, h) then Stepped(g, true, Release(h))
      else if Lists(g.internet, h) then Stepped(g, false, Release(h))
      else (g, [])
    case OpenSuccess(t) => Stepped(g, UsesAgnss(t), OnGranted)
    case OpenFailed(t) => Stepped(g, UsesAgnss(t), OnDenied)
    case Closed(t) => Stepped(g, UsesAgnss(t), OnReleased)
    case ModemSSR =>
      (Manager(Dropped(g.agnss), Dropped(g.internet)), [])
  }

  // A machine that exists is not created again
  function Created(m: Option<Machine>, wanted: bool): Option<Machine> {
    if m.None? && wanted then Some(INITIAL) else m
  }

  function Dropped(m: Option<Machine>): Option<Machine> {
    match m case Some(v) => Some(Do(v, AgpsRuns.ModemRestart).0) case None => None
  }

  // ----- Both machines keep their invariant over the one shared history -----

  ghost predicate MInv(g: Manager, used: set<int>, hist: seq<Call>) {
    && (g.agnss.Some? ==> Inv(g.agnss.value, used, hist))
    && (g.internet.Some? ==> Inv(g.internet.value, used, hist))
    && forall h :: MInvAt(g, used, hist, h)
  }

  // A handle is listed by at most one machine and has been told a well-formed sequence
  predicate MInvAt(g: Manager, used: set<int>, hist: seq<Call>, h: int) {
    && !(Lists(g.agnss, h) && Lists(g.internet, h))
    && WellTold(Told(hist, h), h) && (h !in used ==> Told(hist, h) == [])
  }

  predicate MFresh(used: set<int>, a: ManagerAction) {
    a.RequestATL? ==> a.handle !in used
  }

  function MUsed(used: set<int>, a: ManagerAction): set<int> {
    if a.RequestATL? then used + {a.handle} else used
  }

  // A step of machine m leaves the invariant of the other machine as it was
  lemma OtherKeeps(m: Machine, other: Machine, used: set<int>, hist: seq<Call>, a: Action, h: int)
    requires Inv(m, used, hist) && Inv(other, used, hist) && Fresh(used, a)
    requires Find(m.subs, h) == None || Find(other.subs, h) == None
    ensures InvAt(other, Used(used, a), hist + Do(m, a).1, h)
    ensures Find(Do(m, a).0.subs, h) == None || Find(other.subs, h) == None
  {
    StepKeeps(m, used, hist, a);
    ToldConcat(hist, Do(m, a).1, h);
    assert InvAt(m, used, hist, h) && InvAt(other, used, hist, h) && FairAt(m, a, h);
    assert InvAt(Do(m, a).0, Used(used, a), hist + Do(m, a).1, h);
    if Find(m.subs, h) == None && Find(Do(m, a).0.subs, h).Some? {
      OnlyRequestLists(m, a, h);
    }
  }

  lemma OnlyRequestLists(m: Machine, a: Action, h: int)
    requires Distinct(m.subs) && Find(m.subs, h) == None && Find(Do(m, a).0.subs, h).Some?
    ensures a.Request? && a.handle == h
  {
    match a
    case Request(k, wait) =>
      if Find(m.subs, k) == None { FindAdded(m.subs, Subscriber(k, wait, false), h); }
    case Release(k) =>
      FindMeaning(m.subs, k);
      FindMarked(m.subs, k, h);
      FindErased(m.subs, k, h);
    case _ =>
      FindUnmatched(m.subs, ForAll, h);
      FindUnmatched(m.subs, ForInactive, h);
  }

  lemma WellToldFromInv(m: Machine, used: set<int>, hist: seq<Call>, h: int)
    requires InvAt(m, used, hist, h)
    ensures WellTold(Told(hist, h), h) && (h !in used ==> Told(hist, h) == [])
  {
  }

  lemma SteppedKeeps(g: Manager, onAgnss: bool, a: Action, used: set<int>, hist: seq<Call>)
    requires MInv(g, used, hist) && Fresh(used, a) && (if onAgnss then g.agnss else g.internet).Some?
    ensures MInv(Stepped(g, onAgnss, a).0, Used(used, a), hist + Stepped(g, onAgnss, a).1)
  {
    var m := if onAgnss then g.agnss.value else g.internet.value;
    var other := if onAgnss then g.internet else g.agnss;
    var (g', calls) := Stepped(g, onAgnss, a);
    var m' := Do(m, a).0;
    StepKeeps(m, used, hist, a);
    forall h
      ensures other.Some? ==> InvAt(other.value, Used(used, a), hist + calls, h)
      ensures MInvAt(g', Used(used, a), hist + calls, h)
    {
      assert MInvAt(g, used, hist, h);
      if other.Some? { OtherKeeps(m, other.value, used, hist, a, h); }
      assert InvAt(m', Used(used, a), hist + calls, h);
      WellToldFromInv(m', Used(used, a), hist + calls, h);
    }
  }

  lemma RefusedKeeps(g: Manager, used: set<int>, hist: seq<Call>, h: int)
    requires MInv(g, used, hist) && h !in used
    ensures MInv(g, used + {h}, hist + [OpenStatus(h, false)])
  {
    var calls := [OpenStatus(h, false)];
    forall k
      ensures MInvAt(g, used + {h}, hist + calls, k)
      ensures g.agnss.Some? ==> InvAt(g.agnss.value, used + {h}, hist + calls, k)
      ensures g.internet.Some? ==> InvAt(g.internet.value, used + {h}, hist + calls, k)
    {
      assert MInvAt(g, used, hist, k);
      assert g.agnss.Some? ==> InvAt(g.agnss.value, used, hist, k);
      assert g.internet.Some? ==> InvAt(g.internet.value, used, hist, k);
      ToldConcat(hist, calls, k);
      ToldOne(calls[0], k);
    }
  }

  lemma DroppedKeeps(g: Manager, used: set<int>, hist: seq<Call>)
    requires MInv(g, used, hist)
    ensures MInv(Manager(Dropped(g.agnss), Dropped(g.internet)), used, hist)
  {
    var g' := Manager(Dropped(g.agnss), Dropped(g.internet));
    forall h
      ensures MInvAt(g', used, hist, h)
      ensures g'.agnss.Some? ==> InvAt(g'.agnss.value, used, hist, h)
      ensures g'.internet.Some? ==> InvAt(g'.internet.value, used, hist, h)
    {
      assert MInvAt(g, used, hist, h);
    }
  }

  lemma CreatedKeeps(g: Manager, used: set<int>, hist: seq<Call>, agnss: bool, internet: bool)
    requires MInv(g, used, hist)
    ensures MInv(Manager(Created(g.agnss, agnss), Created(g.internet, internet)), used, hist)
  {
    var g' := Manager(Created(g.agnss, agnss), Created(g.internet, internet));
    forall h
      ensures MInvAt(g', used, hist, h)
      ensures InvAt(INITIAL, used, hist, h)
    {
      assert MInvAt(g, used, hist, h);
    }
  }

  lemma MStepKeeps(g: Manager, used: set<int>, hist: seq<Call>, a: ManagerAction, useEmergencyPdn: bool)
    requires MInv(g, used, hist) && MFresh(used, a) && Enabled(g, a)
    ensures var (g', calls) := MDo(g, a, useEmergencyPdn); MInv(g', MUsed(used, a), hist + calls)
  {
    match a
    case Creates(agnss, internet) =>
      CreatedKeeps(g, used, hist, agnss, internet);
      assert hist + [] == hist;
    case RequestATL(h, t) =>
      var e := EffectiveType(t, useEmergencyPdn);
      if MachineFor(g, e).None? {
        RefusedKeeps(g, used, hist, h);
      } else {
        SteppedKeeps(g, UsesAgnss(e), Request(h, false), used, hist);
      }
    case ReleaseATL(h) =>
      if Lists(g.agnss, h) {
        SteppedKeeps(g, true, Release(h), used, hist);
      } else if Lists(g.internet, h) {
        SteppedKeeps(g, false, Release(h), used, hist);
      } else {
        assert hist + [] == hist;
      }
    case OpenSuccess(t) => SteppedKeeps(g, UsesAgnss(t), OnGranted, used, hist);
    case OpenFailed(t) => SteppedKeeps(g, UsesAgnss(t), OnDenied, used, hist);
    case Closed(t) => SteppedKeeps(g, UsesAgnss(t), OnReleased, used, hist);
    case ModemSSR =>
      DroppedKeeps(g, used, hist);
      assert hist + [] == hist;
  }

  // ----- Runs of the manager -----

  // The manager, its call history and the handles requested after the actions, all of them enabled
  ghost predicate MRun(start: Manager, acts: seq<ManagerAction>, useEmergencyPdn: bool,
                       g: Manager, hist: seq<Call>, used: set<int>)
    decreases |acts|
  {
    if acts == [] then g == start && hist == [] && used == {}
    else
      var last := acts[|acts| - 1];
      exists g0: Manager, hist0: seq<Call>, used0: set<int> ::
        && MRun(start, acts[..|acts| - 1], useEmergencyPdn, g0, hist0, used0)
        && Enabled(g0, last) && MFresh(used0, last)
        && g == MDo(g0, last, useEmergencyPdn).0 && hist == hist0 + MDo(g0, last, useEmergencyPdn).1
        && used == MUsed(used0, last)
  }

  /** Across both machines and every manager run that never reuses a handle, each client is told
      open-success then close or a prefix of it, a single open-failure, or a single close. */
  lemma {:induction false} ManagerCallbacksAreWellFormed(
      start: Manager, acts: seq<ManagerAction>, useEmergencyPdn: bool, g: Manager, hist: seq<Call>, used: set<int>)
    requires start.agnss in {None, Some(INITIAL)} && start.internet in {None, Some(INITIAL)}
    requires MRun(start, acts, useEmergencyPdn, g, hist, used)
    ensures MInv(g, used, hist) && forall h :: WellTold(Told(hist, h), h)
    decreases |acts|
  {
    if acts != [] {
      var last := acts[|acts| - 1];
      var g0: Manager, hist0: seq<Call>, used0: set<int> :|
        && MRun(start, acts[..|acts| - 1], useEmergencyPdn, g0, hist0, used0)
        && Enabled(g0, last) && MFresh(used0, last)
        && g == MDo(g0, last, useEmergencyPdn).0 && hist == hist0 + MDo(g0, last, useEmergencyPdn).1
        && used == MUsed(used0, last);
      ManagerCallbacksAreWellFormed(start, acts[..|acts| - 1], useEmergencyPdn, g0, hist0, used0);
      MStepKeeps(g0, used0, hist0, last, useEmergencyPdn);
    }
    forall h
      ensures WellTold(Told(hist, h), h)
    {
      assert MInvAt(g, used, hist, h);
    }
  }
}

module AgpsManager {
  import opened Wrappers
  import opened AgpsModel
  import opened AgpsRuns
  import opened AgpsManagerModel
  import opened AgpsMachine

  class AgpsManager {
    var mAgnssNif: AgpsStateMachine?
    var mInternetNif: AgpsStateMachine?
    const log: CallLog

    ghost predicate Valid()
      reads this
    {
      && (mAgnssNif != null ==> mAgnssNif.log == log)
      && (mInternetNif != null ==> mInternetNif.log == log)
      && (mAgnssNif != null ==> mAgnssNif != mInternetNif)
    }

    ghost function View(): Manager
      reads this, mAgnssNif, mInternetNif
    {
      Manager(if mAgnssNif == null then None else Some(mAgnssNif.View()),
              if mInternetNif == null then None else Some(mInternetNif.View()))
    }

    constructor ()
      ensures Valid() && log.calls == [] && View() == Manager(None, None)
    {
      log := new CallLog();
      mAgnssNif, mInternetNif := null, null;
    }

    /** The machines the registered types and the configured capabilities ask for, unless they exist. */
    method CreateAgpsStateMachines(agpsCapable: bool, wwan: bool, supl: bool, suplEs: bool)
      requires Valid()
      modifies this`mAgnssNif, this`mInternetNif
      ensures Valid() && log.calls == old(log.calls)
      ensures View() == MDo(old(View()), Creates(agpsCapable && supl && suplEs, wwan), false).0
    {
      if mInternetNif == null && wwan {
        mInternetNif := new AgpsStateMachine(log);
      }
      if agpsCapable {
        if mAgnssNif == null && supl && suplEs {
          mAgnssNif := new AgpsStateMachine(log);
        }
      }
    }

    function GetAgpsStateMachine(t: AgpsType): (sm: AgpsStateMachine?)
      reads this
      ensures sm == if UsesAgnss(t) then mAgnssNif else mInternetNif
    {
      match t
      case InvalidType => mAgnssNif
      case Supl => mAgnssNif
      case SuplEs => mAgnssNif
      case WwanAny => mInternetNif
      case AnyType => mInternetNif
    }

    method RequestATL(connHandle: int, agpsType: AgpsType, useEmergencyPdn: bool)
      requires Valid()
      modifies mAgnssNif, mInternetNif, log
      ensures var (g, calls) := MDo(old(View()), ManagerAction.RequestATL(connHandle, agpsType), useEmergencyPdn);
              View() == g && log.calls == old(log.calls) + calls
    {
      var t := agpsType;
      if !useEmergencyPdn && t == SuplEs {
        t := Supl;
      }
      var sm := GetAgpsStateMachine(t);
      if sm == null {
        log.calls := log.calls + [OpenStatus(connHandle, false)];
        return;
      }
      sm.mCurrentSubscriber := Subscriber(connHandle, false, false);
      sm.ProcessAgpsEvent(SubscribeEvent);
    }

    method ReleaseATL(connHandle: int)
      requires Valid()
      modifies mAgnssNif, mInternetNif, log
      ensures var (g, calls) := MDo(old(View()), ManagerAction.ReleaseATL(connHandle), false);
              View() == g && log.calls == old(log.calls) + calls
    {
      var sm: AgpsStateMachine? := null;
      var subscriber: Option<Subscriber> := None;
      if mAgnssNif != null {
        subscriber := mAgnssNif.GetSubscriber(connHandle);
        if subscriber.Some? {
          sm := mAgnssNif;
        }
      }
      if sm == null && mInternetNif != null {
        subscriber := mInternetNif.GetSubscriber(connHandle);
        if subscriber.Some? {
          sm := mInternetNif;
        }
      }
      if sm == null {
        return;
      }
      FindMeaning(sm.mSubscriberList, connHandle);
      sm.mCurrentSubscriber := subscriber.value;
      sm.ProcessAgpsEvent(UnsubscribeEvent);
    }

    // reportAtlOpenSuccess, reportAtlOpenFailed and reportAtlClosed
    method Report(a: ManagerAction)
      requires Valid() && (a.OpenSuccess? || a.OpenFailed? || a.Closed?) && Enabled(View(), a)
      modifies mAgnssNif, mInternetNif, log
      ensures var (g, calls) := MDo(old(View()), a, false);
              View() == g && log.calls == old(log.calls) + calls
    {
      var sm := GetAgpsStateMachine(a.agpsType);
      sm.ProcessAgpsEvent(
        if a.OpenSuccess? then GrantedEvent else if a.OpenFailed? then DeniedEvent else ReleasedEvent);
    }

    method HandleModemSSR()
      requires Valid()
      modifies mAgnssNif, mInternetNif
      ensures View() == MDo(old(View()), ModemSSR, false).0
    {
      if mAgnssNif != null {
        mAgnssNif.DropAllSubscribers();
      }
      if mInternetNif != null {
        mInternetNif.DropAllSubscribers();
      }
    }
  }
}
