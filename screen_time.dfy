/** The screen-time session slice: five fields of state, six case reducers that
    update them in place, and the slice's reducer as a pure function of the old
    state and a dispatched action. `Date.now()` is the parameter `now`. */
module ScreenTime {
  import opened JsValues

  /** The slice's state; timestamps are milliseconds, None is `null`. */
  datatype SessionState = SessionState(
    screenTimeStarted: Option<int>,
    totalScreenTime: int,
    lastBreakTime: Option<int>,
    breakAlertShown: bool,
    sessionActive: bool)

  /** The six actions the slice exports, with their payloads. */
  datatype Action =
    | StartScreenTimeTracking(now: int)
    | UpdateScreenTime(elapsed: int)
    | ResetScreenTime(now: int)
    | SetBreakAlertShown(shown: bool)
    | TakeBreak(now: int)
    | EndSession

  /** What every state reachable from the initial state satisfies: an active
      session has a window start, an inactive one has no accumulated time, and a
      recorded break implies a window start. The converse of the first clause
      does not hold (see UnguardedTakeBreakLeavesStartedWhileInactive). */
  predicate Consistent(s: SessionState) {
    && (s.sessionActive ==> s.screenTimeStarted.Some?)
    && (!s.sessionActive ==> s.totalScreenTime == 0)
    && (s.lastBreakTime.Some? ==> s.screenTimeStarted.Some?)
  }

  predicate IsInitial(s: SessionState) {
    && s.screenTimeStarted == None
    && s.totalScreenTime == 0
    && s.lastBreakTime == None
    && !s.breakAlertShown
    && !s.sessionActive
  }

  /** `initialState`: no session, no timestamps, nothing accumulated, no alert. */
  function InitialState(): (s: SessionState)
    ensures IsInitial(s) && Consistent(s)
  {
    SessionState(None, 0, None, false, false)
  }

  /** `updateScreenTime` applies only while the session is active and the window
      start is truthy (a start of 0 is falsy in JavaScript). */
  predicate AcceptsUpdate(s: SessionState) {
    s.sessionActive && TruthyNumber(s.screenTimeStarted)
  }

  /** The slice's reducer: the next state after one dispatched action. */
  function Reduce(s: SessionState, a: Action): (r: SessionState)
    ensures Consistent(s) ==> Consistent(r)
  {
    match a
    case StartScreenTimeTracking(now) =>
      if !s.sessionActive then
        s.(screenTimeStarted := Some(now), sessionActive := true,
           totalScreenTime := 0, breakAlertShown := false)
      else s
    case UpdateScreenTime(payload) =>
      if AcceptsUpdate(s) then s.(totalScreenTime := payload) else s
    case ResetScreenTime(now) =>
      s.(screenTimeStarted := Some(now), totalScreenTime := 0,
         lastBreakTime := Some(now), breakAlertShown := false)
    case SetBreakAlertShown(payload) =>
      s.(breakAlertShown := payload)
    case TakeBreak(now) =>
      s.(lastBreakTime := Some(now), screenTimeStarted := Some(now), breakAlertShown := false)
    case EndSession =>
      s.(sessionActive := false, screenTimeStarted := None, totalScreenTime := 0,
         breakAlertShown := false, lastBreakTime := None)
  }

  /** The state after dispatching `actions` in order. */
  function DispatchAll(s: SessionState, actions: seq<Action>): SessionState
    decreases |actions|
  {
    if actions == [] then s else DispatchAll(Reduce(s, actions[0]), actions[1..])
  }

  predicate NoStart(actions: seq<Action>) {
    forall i :: 0 <= i < |actions| ==> !actions[i].StartScreenTimeTracking?
  }

  /** Starting from an inactive session: active, window starts now, nothing
      accumulated, no alert, and the last break time is left as it was. */
  lemma StartFromInactive(s: SessionState, now: int)
    requires !s.sessionActive
    ensures var r := Reduce(s, StartScreenTimeTracking(now));
      && r.sessionActive && r.screenTimeStarted == Some(now)
      && r.totalScreenTime == 0 && !r.breakAlertShown
      && r.lastBreakTime == s.lastBreakTime
  {
  }

  /** Starting an active session changes nothing, so a second start is absorbed. */
  lemma StartIdempotent(s: SessionState, now1: int, now2: int)
    ensures s.sessionActive ==> Reduce(s, StartScreenTimeTracking(now1)) == s
    ensures var once := Reduce(s, StartScreenTimeTracking(now1));
      Reduce(once, StartScreenTimeTracking(now2)) == once
  {
  }

  /** `updateScreenTime(p)` sets the total to `p` exactly when the guard holds,
      leaves the state alone otherwise, and never touches another field. */
  lemma UpdateOnlyTouchesTotal(s: SessionState, p: int)
    ensures var r := Reduce(s, UpdateScreenTime(p));
      && (AcceptsUpdate(s) ==> r.totalScreenTime == p)
      && (!AcceptsUpdate(s) ==> r == s)
      && r.(totalScreenTime := s.totalScreenTime) == s
  {
  }

  /** `resetScreenTime` zeroes the total, moves both timestamps to now, clears the
      alert and keeps the activity flag, with no guard on it. */
  lemma ResetSetsWindow(s: SessionState, now: int)
    ensures var r := Reduce(s, ResetScreenTime(now));
      && r.totalScreenTime == 0
      && r.screenTimeStarted == Some(now) && r.lastBreakTime == Some(now)
      && !r.breakAlertShown && r.sessionActive == s.sessionActive
  {
  }

  /** `setBreakAlertShown(b)` sets the alert flag to `b` and nothing else. */
  lemma SetAlertOnlyTouchesAlert(s: SessionState, b: bool)
    ensures var r := Reduce(s, SetBreakAlertShown(b));
      r.breakAlertShown == b && r.(breakAlertShown := s.breakAlertShown) == s
  {
  }

  /** `takeBreak` restarts the window and records the break now, clears the
      alert, and keeps the total and the activity flag. */
  lemma TakeBreakRestartsWindow(s: SessionState, now: int)
    ensures var r := Reduce(s, TakeBreak(now));
      && r.lastBreakTime == Some(now) && r.screenTimeStarted == Some(now)
      && !r.breakAlertShown
      && r.totalScreenTime == s.totalScreenTime && r.sessionActive == s.sessionActive
  {
  }

  /** `endSession` from any state gives exactly the initial state, so it is idempotent. */
  lemma EndSessionRestoresInitial(s: SessionState)
    ensures Reduce(s, EndSession) == InitialState()
    ensures Reduce(Reduce(s, EndSession), EndSession) == Reduce(s, EndSession)
  {
  }

  /** A tick that arrives after `endSession` has no effect. */
  lemma LateUpdateAfterEndIgnored(s: SessionState, p: int)
    ensures DispatchAll(s, [EndSession, UpdateScreenTime(p)]) == InitialState()
  {
    var ended := Reduce(s, EndSession);
    assert [EndSession, UpdateScreenTime(p)][1..] == [UpdateScreenTime(p)];
    assert DispatchAll(ended, [UpdateScreenTime(p)]) == DispatchAll(Reduce(ended, UpdateScreenTime(p)), []);
  }

  /** Every sequence of dispatches keeps the state consistent. */
  lemma {:induction false} DispatchAllKeepsConsistent(s: SessionState, actions: seq<Action>)
    requires Consistent(s)
    ensures Consistent(DispatchAll(s, actions))
    decreases |actions|
  {
    if actions != [] {
      DispatchAllKeepsConsistent(Reduce(s, actions[0]), actions[1..]);
    }
  }

  /** Only `startScreenTimeTracking` activates a session: without it, an inactive
      session stays inactive however the other actions are interleaved. */
  lemma {:induction false} OnlyStartActivates(s: SessionState, actions: seq<Action>)
    requires !s.sessionActive && NoStart(actions)
    ensures !DispatchAll(s, actions).sessionActive
    decreases |actions|
  {
    if actions != [] {
      assert !actions[0].StartScreenTimeTracking?;
      assert NoStart(actions[1..]) by {
        forall i | 0 <= i < |actions[1..]|
          ensures !actions[1..][i].StartScreenTimeTracking?
        {
          assert actions[1..][i] == actions[i + 1];
        }
      }
      OnlyStartActivates(Reduce(s, actions[0]), actions[1..]);
    }
  }

  /** `takeBreak` has no activity guard: on the initial state it yields a window
      start with no active session, so "started is set only while active" is not
      an invariant of the slice. */
  lemma UnguardedTakeBreakLeavesStartedWhileInactive(now: int)
    ensures var r := Reduce(InitialState(), TakeBreak(now));
      r.screenTimeStarted == Some(now) && !r.sessionActive
  {
  }

  /** `setBreakAlertShown` has no activity guard: an alert can be pending with no session. */
  lemma UnguardedAlertWhileInactive()
    ensures var r := Reduce(InitialState(), SetBreakAlertShown(true));
      r.breakAlertShown && !r.sessionActive
  {
  }

  /** Nothing keeps the total monotonic: a later, smaller payload lowers it. */
  lemma UpdateCanLowerTotal(now: int)
    requires now != 0
    ensures var s := Reduce(InitialState(), StartScreenTimeTracking(now));
      Reduce(Reduce(s, UpdateScreenTime(300000)), UpdateScreenTime(1000)).totalScreenTime == 1000
  {
  }

  /** A session started at time 0 has a falsy window start, so it ignores every update. */
  lemma SessionStartedAtZeroIgnoresUpdates(p: int)
    ensures var s := Reduce(InitialState(), StartScreenTimeTracking(0));
      s.sessionActive && Reduce(s, UpdateScreenTime(p)) == s
  {
  }

  /** The store's state object; each case reducer assigns its fields in place. */
  class ScreenTimeSlice {
    var screenTimeStarted: Option<int>
    var totalScreenTime: int
    var lastBreakTime: Option<int>
    var breakAlertShown: bool
    var sessionActive: bool

    function State(): SessionState
      reads this
    {
      SessionState(screenTimeStarted, totalScreenTime, lastBreakTime, breakAlertShown, sessionActive)
    }

    /** The reachable invariant. The case reducers have no precondition, as in the
        source, so each method carries it conditionally: it ensures
        `old(Valid()) ==> Valid()`, and the constructor establishes it. */
    ghost predicate Valid()
      reads this
    {
      Consistent(State())
    }

    /** The store is created with `initialState`. */
    constructor ()
      ensures State() == InitialState() && Valid()
    {
      screenTimeStarted := None;
      totalScreenTime := 0;
      lastBreakTime := None;
      breakAlertShown := false;
      sessionActive := false;
    }

    method StartScreenTimeTracking(now: int)
      modifies this
      ensures State() == Reduce(old(State()), Action.StartScreenTimeTracking(now))
      ensures old(Valid()) ==> Valid()
    {
      if !sessionActive {
        screenTimeStarted := Some(now);
        sessionActive := true;
        totalScreenTime := 0;
        breakAlertShown := false;
      }
    }

    method UpdateScreenTime(payload: int)
      modifies this
      ensures State() == Reduce(old(State()), Action.UpdateScreenTime(payload))
      ensures old(Valid()) ==> Valid()
    {
      if sessionActive && TruthyNumber(screenTimeStarted) {
        totalScreenTime := payload;
      }
    }

    method ResetScreenTime(now: int)
      modifies this
      ensures State() == Reduce(old(State()), Action.ResetScreenTime(now))
      ensures old(Valid()) ==> Valid()
    {
      screenTimeStarted := Some(now);
      totalScreenTime := 0;
      lastBreakTime := Some(now);
      breakAlertShown := false;
    }

    method SetBreakAlertShown(payload: bool)
      modifies this
      ensures State() == Reduce(old(State()), Action.SetBreakAlertShown(payload))
      ensures old(Valid()) ==> Valid()
    {
      breakAlertShown := payload;
    }

    method TakeBreak(now: int)
      modifies this
      ensures State() == Reduce(old(State()), Action.TakeBreak(now))
      ensures old(Valid()) ==> Valid()
    {
      lastBreakTime := Some(now);
      screenTimeStarted := Some(now);
      breakAlertShown := false;
    }

    method EndSession()
      modifies this
      ensures State() == Reduce(old(State()), Action.EndSession)
      ensures State() == InitialState()
    {
      sessionActive := false;
      screenTimeStarted := None;
      totalScreenTime := 0;
      breakAlertShown := false;
      lastBreakTime := None;
    }

    /** The slice's reducer: routes an action to its case reducer by type. */
    method Dispatch(a: Action)
      modifies this
      ensures State() == Reduce(old(State()), a)
      ensures old(Valid()) ==> Valid()
    {
      match a
      case StartScreenTimeTracking(now) => StartScreenTimeTracking(now);
      case UpdateScreenTime(payload) => UpdateScreenTime(payload);
      case ResetScreenTime(now) => ResetScreenTime(now);
      case SetBreakAlertShown(payload) => SetBreakAlertShown(payload);
      case TakeBreak(now) => TakeBreak(now);
      case EndSession => EndSession();
    }
  }
}
