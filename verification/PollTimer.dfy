/** The poll of `app/ui/usage.js`: one re-armed timer, refreshes in flight, and everything that can
    happen between them. */
module PollTimer {
  import opened Wrappers

  const REFRESH_MS := 10000
  const LOADING_REFRESH_MS := 1000

  /** Who awaits a refresh: the boot, a timer's tick, or the refresh registered for when Settings
      closes. All three re-arm when it settles, the boot only inside the app. */
  datatype Waiter = Boot | Tick | Registered

  /** `timers` are the armed timers by handle with their delay, `refreshTimer` the one handle the
      code remembers, `inFlight` the refreshes that have not settled. */
  datatype State = State(inApp: bool, timers: map<nat, nat>, refreshTimer: Option<nat>, nextHandle: nat,
                         inFlight: seq<Waiter>, settingsOpen: bool)

  /** A refresh that fails, or that was not wanted, settles as not loading. */
  datatype Event = TimerFires(handle: nat) | Settles(flight: nat, loading: bool) | PanelsRefreshed | SettingsToggled

  function Booted(inApp: bool): State {
    State(inApp, map[], None, 1, [Boot], false)
  }

  /** `scheduleRefresh`: clears the remembered timer, which may have fired already, and arms one. */
  function Scheduled(s: State, loading: bool): State {
    var cleared := if s.refreshTimer.Some? then s.timers - {s.refreshTimer.value} else s.timers;
    s.(timers := cleared[s.nextHandle := if loading then LOADING_REFRESH_MS else REFRESH_MS],
       refreshTimer := Some(s.nextHandle), nextHandle := s.nextHandle + 1)
  }

  predicate IsPossible(s: State, e: Event) {
    match e
    case TimerFires(handle) => handle in s.timers
    case Settles(flight, _) => flight < |s.inFlight|
    case PanelsRefreshed => true
    case SettingsToggled => true
  }

  function Step(s: State, e: Event): State
    requires IsPossible(s, e)
  {
    match e
    case TimerFires(handle) =>
      var fired := s.(timers := s.timers - {handle});
      if s.settingsOpen then Scheduled(fired, false) else fired.(inFlight := fired.inFlight + [Tick])
    case Settles(flight, loading) =>
      var landed := s.(inFlight := s.inFlight[..flight] + s.inFlight[flight + 1..]);
      if s.inFlight[flight] == Boot && !s.inApp then landed else Scheduled(landed, loading)
    case PanelsRefreshed => s.(inFlight := s.inFlight + [Registered])
    case SettingsToggled => s.(settingsOpen := !s.settingsOpen)
  }

  predicate IsRun(s: State, events: seq<Event>)
    decreases |events|
  {
    events == [] || (IsPossible(s, events[0]) && IsRun(Step(s, events[0]), events[1..]))
  }

  function Run(s: State, events: seq<Event>): State
    requires IsRun(s, events)
    decreases |events|
  {
    if events == [] then s else Run(Step(s, events[0]), events[1..])
  }

  /** Only the remembered timer can be armed, handles are not reused, and inside the app something
      is always left that will poll again. */
  predicate IsAlive(s: State) {
    && (forall h :: h in s.timers ==> s.refreshTimer == Some(h) && s.timers[h] in {REFRESH_MS, LOADING_REFRESH_MS})
    && (s.refreshTimer.Some? ==> s.refreshTimer.value < s.nextHandle)
    && (s.inApp ==> s.timers != map[] || s.inFlight != [])
  }

  lemma ScheduledIsArmed(s: State, loading: bool)
    requires forall h :: h in s.timers ==> s.refreshTimer == Some(h)
    ensures var t := Scheduled(s, loading);
      t.timers == map[s.nextHandle := if loading then LOADING_REFRESH_MS else REFRESH_MS]
      && t.refreshTimer == Some(s.nextHandle)
  {
    var t := Scheduled(s, loading);
    assert t.timers.Keys == {s.nextHandle};
  }

  lemma StepIsAlive(s: State, e: Event)
    requires IsAlive(s) && IsPossible(s, e)
    ensures IsAlive(Step(s, e))
  {
    match e {
      case TimerFires(handle) =>
        if s.settingsOpen {
          ScheduledIsAlive(s.(timers := s.timers - {handle}), false);
        }
      case Settles(flight, loading) =>
        if s.inFlight[flight] != Boot || s.inApp {
          ScheduledIsAlive(s.(inFlight := s.inFlight[..flight] + s.inFlight[flight + 1..]), loading);
        }
      case PanelsRefreshed =>
      case SettingsToggled =>
    }
  }

  lemma ScheduledIsAlive(s: State, loading: bool)
    requires forall h :: h in s.timers ==> s.refreshTimer == Some(h)
    ensures IsAlive(Scheduled(s, loading))
  {
    ScheduledIsArmed(s, loading);
  }

  lemma AtMostOneTimer(s: State)
    requires IsAlive(s)
    ensures |s.timers| <= 1
  {
    if s.refreshTimer.Some? {
      assert s.timers.Keys <= {s.refreshTimer.value};
      assert |s.timers| == |s.timers.Keys|;
      assert {s.refreshTimer.value} == s.timers.Keys + ({s.refreshTimer.value} - s.timers.Keys);
    } else {
      assert s.timers == map[];
    }
  }

  /** The poll never dies and never doubles: after any interleaving of timers firing, refreshes
      settling, panels being refreshed and Settings opening and closing, at most one timer is
      armed, and inside the app one is armed or a refresh that will arm one is in flight. */
  lemma {:induction false} PollSurvives(s: State, events: seq<Event>)
    requires IsAlive(s) && IsRun(s, events)
    ensures var t := Run(s, events);
      IsAlive(t) && |t.timers| <= 1 && (s.inApp ==> t.timers != map[] || t.inFlight != [])
    ensures Run(s, events).inApp == s.inApp
    decreases |events|
  {
    if events == [] {
      AtMostOneTimer(s);
    } else {
      StepIsAlive(s, events[0]);
      PollSurvives(Step(s, events[0]), events[1..]);
    }
  }

  lemma PollSurvivesFromBoot(inApp: bool, events: seq<Event>)
    requires IsRun(Booted(inApp), events)
    ensures |Run(Booted(inApp), events).timers| <= 1
    ensures inApp ==> Run(Booted(inApp), events).timers != map[] || Run(Booted(inApp), events).inFlight != []
  {
    PollSurvives(Booted(inApp), events);
  }

  /** A registered refresh and the opening or closing of Settings touch no timer: the one starts a refresh
      beside whatever is in flight, whether or not Settings is open, the other only changes what the next
      tick does. */
  lemma OthersTouchNoTimer(inApp: bool, events: seq<Event>)
    requires IsRun(Booted(inApp), events)
    ensures var s := Run(Booted(inApp), events);
      var t, u := Step(s, PanelsRefreshed), Step(s, SettingsToggled);
      && t.timers == s.timers && t.refreshTimer == s.refreshTimer && t.settingsOpen == s.settingsOpen
      && |t.inFlight| == |s.inFlight| + 1 && t.inFlight[|s.inFlight|] == Registered && s.inFlight <= t.inFlight
      && u.timers == s.timers && u.refreshTimer == s.refreshTimer && u.inFlight == s.inFlight
      && u.settingsOpen != s.settingsOpen
  {}

  /** A refresh that settles leaves flight, and every one arms the timer but the boot's outside the app. */
  lemma SettlingArms(inApp: bool, events: seq<Event>, flight: nat, loading: bool)
    requires IsRun(Booted(inApp), events) && flight < |Run(Booted(inApp), events).inFlight|
    ensures var s := Run(Booted(inApp), events);
      var t := Step(s, Settles(flight, loading));
      && t.inFlight == s.inFlight[..flight] + s.inFlight[flight + 1..] && t.settingsOpen == s.settingsOpen
      && (inApp || s.inFlight[flight] != Boot ==>
            |t.timers| == 1 && forall h :: h in t.timers ==> t.timers[h] == if loading then 1000 else 10000)
      && (!inApp && s.inFlight[flight] == Boot ==> t.timers == s.timers)
  {
    PollSurvives(Booted(inApp), events);
    var s := Run(Booted(inApp), events);
    if inApp || s.inFlight[flight] != Boot {
      LastAnswerSetsTheCadence(inApp, events, flight, loading);
    }
  }

  /** In every run from boot the cadence is that of the refresh that settled last: fast exactly while it
      was loading. */
  lemma LastAnswerSetsTheCadence(inApp: bool, events: seq<Event>, flight: nat, loading: bool)
    requires IsRun(Booted(inApp), events)
    requires var s := Run(Booted(inApp), events);
      flight < |s.inFlight| && (inApp || s.inFlight[flight] != Boot)
    ensures var s := Run(Booted(inApp), events);
      Step(s, Settles(flight, loading)).timers
        == map[s.nextHandle := if loading then 1000 else 10000]
  {
    PollSurvives(Booted(inApp), events);
    var s := Run(Booted(inApp), events);
    ScheduledIsArmed(s.(inFlight := s.inFlight[..flight] + s.inFlight[flight + 1..]), loading);
  }

  /** In every run from boot a timer that fires under Settings reads nothing and is armed again at the
      slow cadence; one that fires otherwise starts a refresh. */
  lemma SettingsOnlyPauses(inApp: bool, events: seq<Event>, handle: nat)
    requires IsRun(Booted(inApp), events) && handle in Run(Booted(inApp), events).timers
    ensures var s := Run(Booted(inApp), events);
      var t := Step(s, TimerFires(handle));
      if s.settingsOpen then t.inFlight == s.inFlight && t.timers == map[s.nextHandle := 10000]
      else t.inFlight == s.inFlight + [Tick] && t.timers == map[]
  {
    PollSurvives(Booted(inApp), events);
    var s := Run(Booted(inApp), events);
    assert (s.timers - {handle}).Keys == {};
    ScheduledIsArmed(s.(timers := s.timers - {handle}), false);
  }

  // ------------------------------------------------------------------ the code

  /** The panel's variables, and the browser's timers and pending promises around them. */
  class UsagePanel {
    const inApp: bool
    var timers: map<nat, nat>
    var refreshTimer: Option<nat>
    var nextHandle: nat
    var inFlight: seq<Waiter>
    var settingsOpen: bool

    function Contents(): State
      reads this
    {
      State(inApp, timers, refreshTimer, nextHandle, inFlight, settingsOpen)
    }

    constructor (inApp: bool)
      ensures Contents() == Booted(inApp)
    {
      this.inApp, timers, refreshTimer, nextHandle, inFlight, settingsOpen := inApp, map[], None, 1, [Boot], false;
    }

    method ClearTimeout(handle: Option<nat>)
      modifies this`timers
      ensures timers == if handle.Some? then old(timers) - {handle.value} else old(timers)
    {
      if handle.Some? {
        timers := timers - {handle.value};
      }
    }

    method SetTimeout(delay: nat) returns (handle: nat)
      modifies this`timers, this`nextHandle
      ensures handle == old(nextHandle) && nextHandle == handle + 1 && timers == old(timers)[handle := delay]
    {
      handle := nextHandle;
      timers, nextHandle := timers[handle := delay], nextHandle + 1;
    }

    method ScheduleRefresh(loading: bool)
      modifies this`timers, this`nextHandle, this`refreshTimer
      ensures Contents() == Scheduled(old(Contents()), loading)
    {
      ClearTimeout(refreshTimer);
      var handle := SetTimeout(if loading then LOADING_REFRESH_MS else REFRESH_MS);
      refreshTimer := Some(handle);
    }

    /** A callback's synchronous part, up to the next await. */
    method Handle(e: Event)
      requires IsPossible(Contents(), e)
      modifies this
      ensures Contents() == Step(old(Contents()), e)
    {
      match e {
        case TimerFires(handle) =>
          timers := timers - {handle};
          if settingsOpen {
            ScheduleRefresh(false);
          } else {
            inFlight := inFlight + [Tick];
          }
        case Settles(flight, loading) =>
          var waiter := inFlight[flight];
          inFlight := inFlight[..flight] + inFlight[flight + 1..];
          if waiter != Boot || inApp {
            ScheduleRefresh(loading);
          }
        case PanelsRefreshed =>
          inFlight := inFlight + [Registered];
        case SettingsToggled =>
          settingsOpen := !settingsOpen;
      }
    }
  }
}
