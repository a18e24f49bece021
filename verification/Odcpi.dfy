// On-demand coarse-position requests (gps/gnss/GnssAdapter.cpp, gps/gnss/GnssAdapter.h): a timer
// keeps the modem's requests from flooding the framework.
//
// A timer expiry is a message like the others and may be handled at any moment.
module OdcpiModel {
  import opened Wrappers

  // isStart is false for a stop request
  datatype Request = Request(isStart: bool, isEmergency: bool, tbfMillis: nat)

  datatype State = State(active: bool, timerActive: bool, stored: Request)

  datatype Event = ModemRequest(request: Request) | TimerExpires | EngineRestarts

  const INITIAL := State(false, false, Request(false, false, 0))

  // An emergency start that replaces a stored non-emergency request
  predicate Replaces(s: State, r: Request) {
    r.isStart && (s.active || s.timerActive) && !s.stored.isEmergency && r.isEmergency
  }

  // The new state, and the request passed to the framework if there is one
  function Handle(s: State, r: Request): (State, Option<Request>) {
    if !r.isStart then (s.(active := false), None)
    else if !s.active && !s.timerActive then (State(true, true, r), Some(r))
    else if Replaces(s, r) then (State(true, true, r), Some(r))
    else (State(s.active || s.timerActive, s.timerActive, r), None)
  }

  function Expire(s: State): (State, Option<Request>) {
    if s.active then (s.(timerActive := true), Some(s.stored)) else (s.(timerActive := false), None)
  }

  function Do(s: State, e: Event): (State, Option<Request>) {
    match e
    case ModemRequest(r) => Handle(s, r)
    case TimerExpires => Expire(s)
    case EngineRestarts => (s.(active := false), None)
  }
}

module Odcpi {
  import opened Wrappers
  import opened OdcpiModel

  class OdcpiTimer {
    var mActive: bool

    constructor ()
      ensures !mActive
    {
      mActive := false;
    }

    method Start()
      modifies this
      ensures mActive
    {
      mActive := true;
    }

    method Stop()
      modifies this
      ensures !mActive
    {
      mActive := false;
    }

    method Restart()
      modifies this
      ensures mActive
    {
      Stop();
      Start();
    }
  }

  class GnssAdapter {
    var mOdcpiRequestActive: bool
    const mOdcpiTimer: OdcpiTimer
    var mOdcpiRequest: Request
    // The requests passed to the framework so far
    var mFramework: seq<Request>

    ghost function View(): State
      reads this, mOdcpiTimer
    {
      State(mOdcpiRequestActive, mOdcpiTimer.mActive, mOdcpiRequest)
    }

    static ghost function Passed(r: Option<Request>): seq<Request> {
      match r case Some(v) => [v] case None => []
    }

    constructor ()
      ensures View() == INITIAL && mFramework == []
    {
      mOdcpiRequestActive, mOdcpiRequest, mFramework := false, Request(false, false, 0), [];
      mOdcpiTimer := new OdcpiTimer();
    }

    method RequestOdcpi(request: Request)
      modifies this, mOdcpiTimer
      ensures var (s, out) := Handle(old(View()), request);
              View() == s && mFramework == old(mFramework) + Passed(out)
    {
      if request.isStart {
        if !mOdcpiRequestActive && !mOdcpiTimer.mActive {
          mFramework := mFramework + [request];
          mOdcpiRequestActive := true;
          mOdcpiTimer.Start();
        } else if !mOdcpiRequest.isEmergency && request.isEmergency {
          mFramework := mFramework + [request];
          mOdcpiRequestActive := true;
          if mOdcpiTimer.mActive {
            mOdcpiTimer.Restart();
          } else {
            mOdcpiTimer.Start();
          }
        } else if !mOdcpiRequestActive && mOdcpiTimer.mActive {
          mOdcpiRequestActive := true;
        }
        mOdcpiRequest := request;
      } else {
        mOdcpiRequestActive := false;
      }
    }

    method OdcpiTimerExpire()
      modifies this, mOdcpiTimer
      ensures var (s, out) := Expire(old(View())); View() == s && mFramework == old(mFramework) + Passed(out)
    {
      if mOdcpiRequestActive {
        mFramework := mFramework + [mOdcpiRequest];
        mOdcpiTimer.Restart();
      } else {
        mOdcpiTimer.Stop();
      }
    }

    method RestartSessions()
      modifies this`mOdcpiRequestActive
      ensures (View(), None) == Do(old(View()), EngineRestarts)
    {
      mOdcpiRequestActive := false;
    }
  }
}

module OdcpiRuns {
  import opened Wrappers
  import opened OdcpiModel

  datatype Entry = Entry(before: State, event: Event, out: Option<Request>, after: State)

  function Final(trace: seq<Entry>): State {
    if trace == [] then INITIAL else trace[|trace| - 1].after
  }

  function Run(events: seq<Event>): (trace: seq<Entry>)
    ensures |trace| == |events|
  {
    if events == [] then []
    else
      var done := Run(events[..|events| - 1]);
      var (s, out) := Do(Final(done), events[|events| - 1]);
      done + [Entry(Final(done), events[|events| - 1], out, s)]
  }

  /** In every run an active request has an active timer behind it, so it will be repeated. */
  lemma {:induction false} ActiveHasTimer(events: seq<Event>)
    ensures Final(Run(events)).active ==> Final(Run(events)).timerActive
  {
    if events != [] { ActiveHasTimer(events[..|events| - 1]); }
  }

  // Entry k follows from the state the entries before it left
  lemma {:induction false} EntryIsStep(events: seq<Event>, k: nat)
    requires k < |events|
    ensures var e := Run(events)[k];
            && e.event == events[k] && (e.after, e.out) == Do(e.before, e.event)
            && e.before == Final(Run(events)[..k])
            && (e.before.active ==> e.before.timerActive)
  {
    var init := events[..|events| - 1];
    assert Run(events)[..|init|] == Run(init);
    if k < |init| {
      EntryIsStep(init, k);
      assert Run(events)[..k] == Run(init)[..k];
    } else {
      ActiveHasTimer(init);
    }
  }

  predicate IsReplacement(e: Entry) {
    e.event.ModemRequest? && Replaces(e.before, e.event.request)
  }

  // When the timer is inactive at entry k, it has expired since entry i passed a request on
  lemma {:induction false} TimerRanOut(events: seq<Event>, i: nat, k: nat) returns (j: nat)
    requires i < k < |events| && Run(events)[i].out.Some? && !Run(events)[k].before.timerActive
    ensures i < j < k && events[j].TimerExpires?
    decreases k
  {
    EntryIsStep(events, k - 1);
    EntryIsStep(events, k);
    assert Run(events)[..k][k - 1] == Run(events)[k - 1];
    j := k - 1;
    if !events[k - 1].TimerExpires? { j := TimerRanOut(events, i, k - 1); }
  }

  lemma WhyPassedOn(events: seq<Event>, k: nat)
    requires k < |events| && Run(events)[k].out.Some?
    ensures events[k].TimerExpires? || !Run(events)[k].before.timerActive || IsReplacement(Run(events)[k])
  {
    EntryIsStep(events, k);
  }

  /** Between two requests to the framework a timer expiry is handled, or an expiry causes the
      second one, unless the second is an emergency request replacing a stored non-emergency one. */
  lemma RequestsAreSpaced(events: seq<Event>, i: nat, k: nat) returns (j: nat)
    requires i < k < |events| && Run(events)[i].out.Some? && Run(events)[k].out.Some?
    ensures IsReplacement(Run(events)[k]) || (i < j <= k && events[j].TimerExpires?)
  {
    WhyPassedOn(events, k);
    j := k;
    if !events[k].TimerExpires? && !IsReplacement(Run(events)[k]) {
      j := TimerRanOut(events, i, k);
    }
  }

  // ----- How many requests reach the framework -----

  function Requests(trace: seq<Entry>): nat {
    if trace == [] then 0
    else Requests(trace[..|trace| - 1]) + if trace[|trace| - 1].out.Some? then 1 else 0
  }

  function Expiries(trace: seq<Entry>): nat {
    if trace == [] then 0
    else Expiries(trace[..|trace| - 1]) + if trace[|trace| - 1].event.TimerExpires? then 1 else 0
  }

  function Replacements(trace: seq<Entry>): nat {
    if trace == [] then 0
    else Replacements(trace[..|trace| - 1]) + if IsReplacement(trace[|trace| - 1]) then 1 else 0
  }

  /** However many requests the modem makes, the framework sees at most one more than the timer
      expiries and emergency replacements together. */
  lemma {:induction false} RequestsAreBounded(events: seq<Event>)
    ensures var t := Run(events);
            Requests(t) <= Expiries(t) + Replacements(t) + if Final(t).timerActive then 1 else 0
  {
    if events != [] {
      var init := events[..|events| - 1];
      RequestsAreBounded(init);
      ActiveHasTimer(init);
      assert Run(events)[..|init|] == Run(init);
    }
  }

  // ----- Which requests reach the framework, from the history alone -----

  // The latest start request
  function LastAsked(events: seq<Event>): Request {
    if events == [] then INITIAL.stored
    else
      var init, last := events[..|events| - 1], events[|events| - 1];
      if last.ModemRequest? && last.request.isStart then last.request else LastAsked(init)
  }

  // The modem has asked since it last stopped asking or the engine restarted
  predicate Asking(events: seq<Event>) {
    if events == [] then false
    else
      var init, last := events[..|events| - 1], events[|events| - 1];
      match last
      case ModemRequest(r) => r.isStart
      case TimerExpires => Asking(init)
      case EngineRestarts => false
  }

  // The modem has asked, and the timer has not run out since with nobody asking
  predicate Timing(events: seq<Event>) {
    if events == [] then false
    else
      var init, last := events[..|events| - 1], events[|events| - 1];
      match last
      case ModemRequest(r) => r.isStart || Timing(init)
      case TimerExpires => Asking(init)
      case EngineRestarts => Timing(init)
  }

  /** The flags and the stored request are what the history says. */
  lemma {:induction false} StateIsHistory(events: seq<Event>)
    ensures Final(Run(events)) == State(Asking(events), Timing(events), LastAsked(events))
    ensures Asking(events) ==> Timing(events)
  {
    if events != [] { StateIsHistory(events[..|events| - 1]); }
  }

  // What the framework should see of one event
  function Due(before: seq<Event>, e: Event): Option<Request> {
    match e
    case ModemRequest(r) =>
      if r.isStart && (!Timing(before) || (r.isEmergency && !LastAsked(before).isEmergency)) then Some(r) else None
    case TimerExpires => if Asking(before) then Some(LastAsked(before)) else None
    case EngineRestarts => None
  }

  /** In every run a start request reaches the framework as itself when no timer runs, or when it is an
      emergency and the latest one was not; an expiry repeats the latest start request while the modem is
      asking; and nothing else reaches the framework. */
  lemma PassedOnExactly(events: seq<Event>, k: nat)
    requires k < |events|
    ensures Run(events)[k].out == Due(events[..k], events[k])
  {
    EntryIsStep(events, k);
    StateIsHistory(events[..k]);
    RunPrefix(events, k);
  }

  lemma {:induction false} RunPrefix(events: seq<Event>, k: nat)
    requires k <= |events|
    ensures Run(events)[..k] == Run(events[..k])
  {
    if k < |events| {
      var init := events[..|events| - 1];
      RunPrefix(init, k);
      assert Run(events)[..|init|] == Run(init) && init[..k] == events[..k];
      assert Run(events)[..k] == Run(events)[..|init|][..k];
    } else {
      assert events[..k] == events;
    }
  }
}
