/**
 The KClock main window as an object whose methods update its fields in
 place. Each method is proved to move the window's state exactly as the
 matching function of module Countdown does, and to keep the window's
 fields consistent with each other.
 */
module Window {
  import Countdown

  class KClockWindow {
    var leftTime: Countdown.SecondOfDay
    var curTime: Countdown.SecondOfDay
    var clock: bool
    var timerActive: bool
    var blinkActive: bool
    var playing: bool
    var iconVisible: bool

    /** The countdown fields of the window, as a value. */
    function State(): Countdown.State
      reads this
    {
      Countdown.State(leftTime, curTime, clock, timerActive, blinkActive, playing, iconVisible)
    }

    /** The window's fields agree with each other as in every reachable state. */
    ghost predicate Valid()
      reads this
    {
      Countdown.Consistent(State())
    }

    /** Builds the window; `now` is the current time read while building it. */
    constructor (now: Countdown.SecondOfDay)
      ensures State() == Countdown.Init(now)
      ensures Valid()
    {
      curTime := now;
      leftTime := 0;
      clock := false;
      timerActive := false;
      blinkActive := false;
      iconVisible := true;
      playing := false;
    }

    /** Handler of the adjustment buttons; `now` is the current time read by the handler. */
    method AdjustTime(seconds: int, now: Countdown.SecondOfDay)
      modifies this
      ensures State() == Countdown.AdjustTime(old(State()), seconds, now)
      ensures old(Valid()) ==> Valid()
    {
      var totalSeconds := leftTime;
      totalSeconds := if totalSeconds + seconds < 0 then 0 else totalSeconds + seconds;
      leftTime := Countdown.AddSecs(0, totalSeconds);

      playing := false;
      blinkActive := false;

      curTime := now;
      if !timerActive {
        clock := true;
        timerActive := true;
      }
    }

    /** Handler of the blink timer. */
    method ToggleIcon()
      requires blinkActive
      modifies this
      ensures State() == Countdown.ToggleIcon(old(State()))
      ensures old(Valid()) ==> Valid()
    {
      iconVisible := !iconVisible;
    }

    /** Handler of the start/stop button; `now` is the current time read when switching on. */
    method ToggleClock(now: Countdown.SecondOfDay)
      modifies this
      ensures State() == Countdown.ToggleClock(old(State()), now)
      ensures old(Valid()) ==> Valid()
    {
      clock := !clock;
      if clock {
        timerActive := true;
        blinkActive := true;
        curTime := now;
      } else {
        leftTime := 0;
        playing := false;
        timerActive := false;
        blinkActive := false;
      }
    }

    /** Handler of the one-second tick timer. */
    method UpdateTime()
      requires timerActive
      modifies this
      ensures State() == Countdown.UpdateTime(old(State()))
      ensures old(Valid()) ==> Valid()
    {
      curTime := Countdown.AddSecs(curTime, 1);

      var totalSeconds := leftTime;
      if totalSeconds > 0 {
        totalSeconds := totalSeconds - 1;
        leftTime := Countdown.AddSecs(leftTime, -1);
      }

      if clock && totalSeconds <= 0 {
        playing := true;
        blinkActive := true;
      }
    }
  }
}
