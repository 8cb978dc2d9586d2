/**
 The countdown/alarm state machine of the KClock window, as a value.

 The window keeps its remaining time and its current time as `QTime`
 values; both are modelled here as a number of seconds since midnight.
 The Qt objects the state machine drives (the one-second tick timer, the
 500 ms blink timer and the media player) are modelled by whether they are
 active. Each operation of the window is a function from the old state to
 the new one; the class in module Window is proved against them.
 */
module Countdown {

  /** Seconds in one day: `QTime` arithmetic wraps around at this value. */
  const DaySeconds: int := 86400

  /** A time of day (or a duration below one day) in whole seconds. */
  type SecondOfDay = x: int | 0 <= x < DaySeconds

  /** `QTime.addSecs`: adds a signed number of seconds and wraps around midnight. */
  function AddSecs(t: SecondOfDay, secs: int): (r: SecondOfDay)
    ensures 0 <= t + secs < DaySeconds ==> r == t + secs
    ensures (t + secs - r) % DaySeconds == 0
  {
    (t + secs) % DaySeconds
  }

  /** The fields of the window that take part in the countdown. */
  datatype State = State(
    leftTime: SecondOfDay,   // remaining seconds of the countdown
    curTime: SecondOfDay,    // the current time shown by the window
    clock: bool,             // whether the countdown is switched on
    timerActive: bool,       // the one-second tick timer is running
    blinkActive: bool,       // the blink timer is running
    playing: bool,           // the player is playing the ringtone
    iconVisible: bool)       // the blink phase of the tray icon

  /** The state right after the window is built; `now` is the time read at that moment. */
  function Init(now: SecondOfDay): State
  {
    State(0, now, false, false, false, false, true)
  }

  /**
   The remaining time after an adjustment by `seconds`: the sum is clamped
   at zero and then put through `QTime(0, 0, 0).addSecs`, which wraps it
   modulo one day.
   */
  function AdjustedLeft(left: SecondOfDay, seconds: int): (r: SecondOfDay)
    ensures left + seconds <= 0 ==> r == 0
    ensures 0 <= left + seconds < DaySeconds ==> r == left + seconds
    ensures DaySeconds <= left + seconds < 2 * DaySeconds ==> r == left + seconds - DaySeconds
    ensures ((if left + seconds < 0 then 0 else left + seconds) - r) % DaySeconds == 0
  {
    var total := if left + seconds < 0 then 0 else left + seconds;
    AddSecs(0, total)
  }

  /**
   A press of one of the adjustment buttons: the remaining time moves by
   `seconds`, the ringtone and the blinking stop, the current time is
   re-read, and the countdown is switched on only if the tick timer was not
   already running.
   */
  function AdjustTime(s: State, seconds: int, now: SecondOfDay): State
  {
    var s1 := s.(leftTime := AdjustedLeft(s.leftTime, seconds),
                 playing := false, blinkActive := false, curTime := now);
    if s.timerActive then s1 else s1.(clock := true, timerActive := true)
  }

  /**
   One timeout of the tick timer: the shown time moves on by one second,
   a positive remaining time goes down by one, and if the countdown is on
   and nothing remains the ringtone is played and the blinking is started.
   */
  function UpdateTime(s: State): State
    requires s.timerActive
  {
    var total := if s.leftTime > 0 then s.leftTime - 1 else s.leftTime;
    var s1 := s.(curTime := AddSecs(s.curTime, 1),
                 leftTime := if s.leftTime > 0 then AddSecs(s.leftTime, -1) else s.leftTime);
    if s.clock && total <= 0 then s1.(playing := true, blinkActive := true) else s1
  }

  /**
   The start/stop button: switching on starts both timers and re-reads the
   current time; switching off clears the remaining time and stops the
   player and both timers.
   */
  function ToggleClock(s: State, now: SecondOfDay): State
  {
    if !s.clock then
      s.(clock := true, timerActive := true, blinkActive := true, curTime := now)
    else
      s.(clock := false, leftTime := 0, playing := false, timerActive := false, blinkActive := false)
  }

  /** One timeout of the blink timer: the tray icon changes phase. */
  function ToggleIcon(s: State): State
    requires s.blinkActive
  {
    s.(iconVisible := !s.iconVisible)
  }

  /** The next tick will play the ringtone: the countdown is on and at most one second remains. */
  predicate RingsOnNextTick(s: State)
  {
    s.clock && s.leftTime <= 1
  }

  /** The state after `n` consecutive ticks and nothing else. */
  function Ticks(s: State, n: nat): (r: State)
    requires s.timerActive
    ensures r.timerActive && r.clock == s.clock && r.iconVisible == s.iconVisible
    ensures r.leftTime == if n <= s.leftTime then s.leftTime - n else 0
    ensures r.curTime == AddSecs(s.curTime, n)
    decreases n
  {
    if n == 0 then s else UpdateTime(Ticks(s, n - 1))
  }

  // ---------------------------------------------------------------------
  // adjust_time
  // ---------------------------------------------------------------------

  /** The remaining time after an adjustment is the clamped sum, never negative. */
  lemma AdjustClampsRemaining(s: State, seconds: int, now: SecondOfDay)
    ensures s.leftTime + seconds <= 0 ==> AdjustTime(s, seconds, now).leftTime == 0
    ensures 0 <= s.leftTime + seconds < DaySeconds ==>
              AdjustTime(s, seconds, now).leftTime == s.leftTime + seconds
    ensures 0 <= s.leftTime + seconds ==>
              (s.leftTime + seconds - AdjustTime(s, seconds, now).leftTime) % DaySeconds == 0
    ensures AdjustTime(s, seconds, now).curTime == now
  {
  }

  /** Adding past 24 hours wraps: the new remaining time is smaller than the sum asked for. */
  lemma AdjustPastOneDayWraps(s: State, seconds: int, now: SecondOfDay)
    requires DaySeconds <= s.leftTime + seconds < 2 * DaySeconds
    ensures AdjustTime(s, seconds, now).leftTime == s.leftTime + seconds - DaySeconds
    ensures AdjustTime(s, seconds, now).leftTime < s.leftTime + seconds
  {
  }

  /** Whatever the state before, an adjustment leaves the player and the blink timer stopped. */
  lemma AdjustSilences(s: State, seconds: int, now: SecondOfDay)
    ensures !AdjustTime(s, seconds, now).playing
    ensures !AdjustTime(s, seconds, now).blinkActive
    ensures AdjustTime(s, seconds, now).iconVisible == s.iconVisible
  {
  }

  /**
   An adjustment arms the countdown only when the tick timer is stopped;
   with the timer running the on/off flag is left as it was.
   */
  lemma AdjustArmsOnlyWhenStopped(s: State, seconds: int, now: SecondOfDay)
    ensures AdjustTime(s, seconds, now).timerActive
    ensures !s.timerActive ==> AdjustTime(s, seconds, now).clock
    ensures s.timerActive ==> AdjustTime(s, seconds, now).clock == s.clock
  {
  }

  /**
   A negative adjustment that clamps the remaining time to zero while the
   countdown runs does not switch it off: the very next tick rings.
   */
  lemma ClampToZeroStillRings(s: State, seconds: int, now: SecondOfDay)
    requires s.clock && s.timerActive && s.leftTime + seconds <= 0
    ensures AdjustTime(s, seconds, now).leftTime == 0
    ensures AdjustTime(s, seconds, now).clock && AdjustTime(s, seconds, now).timerActive
    ensures UpdateTime(AdjustTime(s, seconds, now)).playing
    ensures UpdateTime(AdjustTime(s, seconds, now)).blinkActive
  {
  }

  // ---------------------------------------------------------------------
  // update_time
  // ---------------------------------------------------------------------

  /** A tick moves the shown time on by one second and counts a positive remaining time down by one. */
  lemma TickCountsDown(s: State)
    requires s.timerActive
    ensures UpdateTime(s).curTime == AddSecs(s.curTime, 1)
    ensures s.leftTime > 0 ==> UpdateTime(s).leftTime == s.leftTime - 1
    ensures s.leftTime == 0 ==> UpdateTime(s).leftTime == 0
    ensures UpdateTime(s).clock == s.clock && UpdateTime(s).timerActive
    ensures UpdateTime(s).iconVisible == s.iconVisible
  {
  }

  /**
   A tick starts the ringtone and the blinking exactly when the countdown
   is on and the remaining time after the decrement is zero; otherwise it
   leaves the player and the blink timer alone.
   */
  lemma TickRingsExactlyAtZero(s: State)
    requires s.timerActive
    ensures RingsOnNextTick(s) <==> s.clock && UpdateTime(s).leftTime == 0
    ensures RingsOnNextTick(s) ==> UpdateTime(s).playing && UpdateTime(s).blinkActive
    ensures !RingsOnNextTick(s) ==>
              UpdateTime(s).playing == s.playing && UpdateTime(s).blinkActive == s.blinkActive
  {
  }

  /**
   Counting down from `n > 0` seconds with only ticks in between, the
   ringtone starts on the n-th tick and not before, and from the (n-1)-th
   tick on every further tick rings again.
   */
  lemma {:induction false} RingsFromNthTick(s: State, k: nat)
    requires s.timerActive && s.clock && s.leftTime > 0
    requires !s.playing && !s.blinkActive
    ensures Ticks(s, k).playing <==> k >= s.leftTime
    ensures Ticks(s, k).blinkActive <==> k >= s.leftTime
    ensures RingsOnNextTick(Ticks(s, k)) <==> k + 1 >= s.leftTime
  {
    if k > 0 {
      RingsFromNthTick(s, k - 1);
    }
  }

  // ---------------------------------------------------------------------
  // toggle_clock and toggle_icon
  // ---------------------------------------------------------------------

  /**
   Switching off clears the remaining time and stops the player and both
   timers; it leaves the blink phase of the icon as it was.
   */
  lemma ToggleOffCancels(s: State, now: SecondOfDay)
    requires s.clock
    ensures !ToggleClock(s, now).clock && ToggleClock(s, now).leftTime == 0
    ensures !ToggleClock(s, now).timerActive && !ToggleClock(s, now).blinkActive
    ensures !ToggleClock(s, now).playing
    ensures ToggleClock(s, now).iconVisible == s.iconVisible
    ensures ToggleClock(s, now).curTime == s.curTime
  {
  }

  /** Switching on starts both timers and re-reads the current time. */
  lemma ToggleOnStartsTimers(s: State, now: SecondOfDay)
    requires !s.clock
    ensures ToggleClock(s, now).clock
    ensures ToggleClock(s, now).timerActive && ToggleClock(s, now).blinkActive
    ensures ToggleClock(s, now).curTime == now
    ensures ToggleClock(s, now).leftTime == s.leftTime
    ensures ToggleClock(s, now).playing == s.playing
  {
  }

  /** Two blink timeouts in a row bring the icon back to its phase. */
  lemma ToggleIconInvolution(s: State)
    requires s.blinkActive
    ensures ToggleIcon(s).iconVisible == !s.iconVisible
    ensures ToggleIcon(ToggleIcon(s)) == s
  {
  }

  // ---------------------------------------------------------------------
  // Runs of the window
  // ---------------------------------------------------------------------

  /** What can happen to the window: a button press or a timer timeout. */
  datatype Event =
    | AdjustPressed(seconds: int, now: SecondOfDay)
    | TimerTimeout
    | StartStopPressed(now: SecondOfDay)
    | BlinkTimeout

  /** One event; a timer that is not running delivers no timeout. */
  function Step(s: State, e: Event): State
  {
    match e
    case AdjustPressed(seconds, now) => AdjustTime(s, seconds, now)
    case TimerTimeout => if s.timerActive then UpdateTime(s) else s
    case StartStopPressed(now) => ToggleClock(s, now)
    case BlinkTimeout => if s.blinkActive then ToggleIcon(s) else s
  }

  /** The state after the events `es`, in order. */
  function Run(s: State, es: seq<Event>): State
    decreases |es|
  {
    if es == [] then s else Run(Step(s, es[0]), es[1..])
  }

  /**
   The relations between the fields that every state the window can reach
   satisfies: the tick timer runs exactly while the countdown is on, a
   stopped countdown has nothing remaining, and the ringtone and the
   blinking only go on while the countdown is on and has reached zero.
   */
  predicate Consistent(s: State)
  {
    && s.timerActive == s.clock
    && (!s.clock ==> s.leftTime == 0)
    && (s.playing ==> s.clock && s.leftTime == 0)
    && (s.blinkActive ==> s.clock && s.leftTime == 0)
  }

  /** The window starts in a consistent state. */
  lemma InitConsistent(now: SecondOfDay)
    ensures Consistent(Init(now))
    ensures !Init(now).clock && Init(now).leftTime == 0 && Init(now).iconVisible
  {
  }

  /** Every event keeps the state consistent. */
  lemma StepPreservesConsistent(s: State, e: Event)
    requires Consistent(s)
    ensures Consistent(Step(s, e))
  {
  }

  /** Any run of events keeps the state consistent. */
  lemma {:induction false} RunPreservesConsistent(s: State, es: seq<Event>)
    requires Consistent(s)
    ensures Consistent(Run(s, es))
    decreases |es|
  {
    if es != [] {
      StepPreservesConsistent(s, es[0]);
      RunPreservesConsistent(Step(s, es[0]), es[1..]);
    }
  }

  /**
   Every state the window can reach is consistent: in particular the
   ringtone plays only while the countdown is on and at zero.
   */
  lemma ReachableIsConsistent(now: SecondOfDay, es: seq<Event>)
    ensures Consistent(Run(Init(now), es))
    ensures Run(Init(now), es).playing ==> Run(Init(now), es).clock && Run(Init(now), es).leftTime == 0
  {
    InitConsistent(now);
    RunPreservesConsistent(Init(now), es);
  }

  /** In a reachable state an adjustment always leaves the countdown switched on. */
  lemma AdjustLeavesClockOn(s: State, seconds: int, now: SecondOfDay)
    requires Consistent(s)
    ensures AdjustTime(s, seconds, now).clock && AdjustTime(s, seconds, now).timerActive
  {
  }

  /**
   In a reachable state switching on happens only with nothing remaining,
   so the blinking starts at once and the next tick rings.
   */
  lemma ToggleOnRingsAtNextTick(s: State, now: SecondOfDay)
    requires Consistent(s) && !s.clock
    ensures ToggleClock(s, now).leftTime == 0 && ToggleClock(s, now).blinkActive
    ensures UpdateTime(ToggleClock(s, now)).playing
  {
  }

  /**
   The +10s button pressed on an idle window: nine ticks later one second
   remains and nothing rings; the tenth tick rings.
   */
  lemma TenSecondCountdown(now: SecondOfDay)
    ensures Ticks(AdjustTime(Init(now), 10, now), 9).leftTime == 1
    ensures !Ticks(AdjustTime(Init(now), 10, now), 9).playing
    ensures Ticks(AdjustTime(Init(now), 10, now), 10).playing
  {
  }
}
