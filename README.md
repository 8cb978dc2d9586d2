# KClock countdown/alarm state machine in Dafny

KClock is a small desktop countdown alarm. The user nudges the remaining
time with buttons (+1m, +5m, +30m, -1m, -5m, -30m, +10s, -10s). A
one-second timer counts down, and when the countdown reaches zero the window
plays a looped ringtone and makes its tray icon blink, until the user stops
the countdown.

This project models the state machine inside the `KClockWindow` class:
`adjust_time`, `update_time`, `toggle_clock` and `toggle_icon`, and the fields
that `__init__` sets up for them. Everything else is Qt widgets, labels and
file handling.

- `countdown.dfy` (module `Countdown`) holds the window's countdown fields as a
  value (`State`). Each handler is a function from the old state to the new
  one. The module also has the lemmas about those functions, a driver (`Event`,
  `Step`, `Run`) that feeds the window any sequence of button presses and timer
  timeouts, and the invariant `Consistent` that every reachable state keeps.
- `window.dfy` (module `Window`) holds the class `KClockWindow`. Its fields are
  updated in place by methods that follow the Python handlers statement by
  statement. Each method is proved to change the state exactly as the matching
  `Countdown` function does, and to keep `Valid()`.

How the source is represented:

- `leftTime` and `curTime` are `QTime` values. They are modelled as whole
  seconds since midnight, in `[0, 86400)`. `hour*3600 + minute*60 + second` of
  such a value is the value itself.
- `QTime.addSecs` is `AddSecs`, addition modulo 86400.
- The tick timer, the blink timer and the media player are modelled by whether
  each one is active: `timerActive`, `blinkActive` and `playing`.
- `QTime.currentTime()` becomes a `now` parameter.
- Timer timeouts are delivered only while that timer runs. So `UpdateTime`
  requires `timerActive`, and `ToggleIcon` requires `blinkActive`.

Behaviour of the code as written, which the model follows:

- The countdown decrements a counter once per tick. It does not recompute the
  remaining time from the wall clock.
- A negative adjustment that clamps the remaining time to zero leaves the
  countdown on. The next tick rings (`ClampToZeroStillRings`).
- Ringing is not once-only. Every tick with the countdown on and nothing
  remaining plays the ringtone and starts the blinking again.
- Only switching off through `toggle_clock` cancels the countdown. An
  adjustment stops the ringtone but keeps the countdown on.
- Adding past 24 hours wraps the remaining time around
  (`AdjustPastOneDayWraps`). For example, 23:45:00 plus 30 minutes leaves
  00:15:00.
- Switching off does not reset the icon's blink phase `icon_visible`. It
  resets only the tray image (`ToggleOffCancels`).
- In every reachable state the countdown is off exactly when the tick timer is
  stopped, and then nothing remains. Switching on through `toggle_clock` starts
  the blink timer at once, and the next tick rings (`ToggleOnRingsAtNextTick`).
  The window's buttons cannot reach this switch-on branch: the start/stop
  button is shown only while the countdown is on (kclock.py:129, 177-180,
  223). `ToggleOnStartsTimers` and `ToggleOnRingsAtNextTick` cover the branch
  only because `Step` accepts `StartStopPressed` in any state.

## Model

| member | source | states |
|---|---|---|
| Countdown.AddSecs | kclock.py:164 | `QTime.addSecs`: the result is a time of day congruent to the sum modulo one day, and equal to the sum when the sum is below one day |
| Countdown.AdjustedLeft | kclock.py:161-164 | the remaining time after an adjustment is 0 when the sum is at most 0, is the sum when the sum is within one day, wraps by one day when the sum is between one and two days, and for any sum is congruent modulo one day to the sum clamped at zero |
| Countdown.Ticks | kclock.py:256-268 | after n ticks the remaining time is `max(0, left - n)`, the shown time has moved on by n seconds modulo a day, and the on/off flag, the tick timer and the icon phase are unchanged |
| Countdown.AdjustClampsRemaining | kclock.py:161-176 | an adjustment clamps the remaining time at zero and never makes it negative; within a day it is the exact sum, and beyond a day it is congruent to the sum modulo one day; the current time is re-read |
| Countdown.AdjustPastOneDayWraps | kclock.py:162-164 | an adjustment whose sum reaches past 24 h wraps the remaining time around midnight, to less than the sum asked for |
| Countdown.AdjustSilences | kclock.py:171-173 | after any adjustment the player is stopped and the blink timer is inactive, whatever the state before |
| Countdown.AdjustArmsOnlyWhenStopped | kclock.py:175-182 | an adjustment always leaves the tick timer running; it switches the countdown on when the timer was stopped, and leaves the on/off flag as it was when the timer was running |
| Countdown.ClampToZeroStillRings | kclock.py:161-182 | a negative adjustment that clamps to zero while the countdown runs keeps it on and armed, and the next tick plays the ringtone and starts the blinking |
| Countdown.TickCountsDown | kclock.py:256-268 | a tick moves the shown time on by one second modulo a day, decreases a positive remaining time by exactly one and leaves zero at zero |
| Countdown.TickRingsExactlyAtZero | kclock.py:262-274 | a tick starts the ringtone and the blinking if and only if the countdown is on and the remaining time after the decrement is zero; otherwise the player and the blink timer are unchanged |
| Countdown.RingsFromNthTick | kclock.py:256-274 | counting down from n > 0 with only ticks in between, the ringtone is playing after k ticks exactly when k >= n, and every tick from the n-th on rings again |
| Countdown.ToggleOffCancels | kclock.py:221-230 | switching off clears the remaining time and stops the player, the tick timer and the blink timer, and keeps the icon phase and the shown time |
| Countdown.ToggleOnStartsTimers | kclock.py:212-220 | switching on starts the tick timer and the blink timer and re-reads the current time, and leaves the remaining time and the player alone |
| Countdown.ToggleIconInvolution | kclock.py:205-206 | a blink timeout negates the icon phase, so two in a row restore the state |
| Countdown.InitConsistent | kclock.py:17-30 | the window starts switched off, with nothing remaining, the icon visible and its fields consistent |
| Countdown.StepPreservesConsistent | kclock.py:161-274 | every button press and every timer timeout keeps the fields consistent: the tick timer runs exactly while the countdown is on, and the ringtone and the blinking are on only while it is on and at zero |
| Countdown.RunPreservesConsistent | kclock.py:23-29 | any sequence of presses and timeouts keeps the fields consistent |
| Countdown.ReachableIsConsistent | kclock.py:17-30 | every state reachable from a freshly built window is consistent; in particular, the ringtone plays only while the countdown is on and at zero |
| Countdown.AdjustLeavesClockOn | kclock.py:177-182 | in a reachable state every adjustment leaves the countdown switched on and the tick timer running |
| Countdown.ToggleOnRingsAtNextTick | kclock.py:212-220 | in a reachable state switching on happens only with nothing remaining, so the blinking starts at once and the next tick rings |
| Countdown.TenSecondCountdown | kclock.py:112-122 | the +10s button on an idle window leaves one second and no ringing after nine ticks, and ringing after the tenth |
| Window.KClockWindow.constructor | kclock.py:17-30 | the new window is switched off, with nothing remaining, all timers and the player stopped, the icon visible and the shown time `now` |
| Window.KClockWindow.AdjustTime | kclock.py:161-182 | updates the fields in place exactly as `Countdown.AdjustTime` and keeps them consistent |
| Window.KClockWindow.ToggleIcon | kclock.py:205-206 | updates the fields in place exactly as `Countdown.ToggleIcon` and keeps them consistent |
| Window.KClockWindow.ToggleClock | kclock.py:212-230 | updates the fields in place exactly as `Countdown.ToggleClock` and keeps them consistent |
| Window.KClockWindow.UpdateTime | kclock.py:256-274 | updates the fields in place exactly as `Countdown.UpdateTime` and keeps them consistent |

## Left out

- Widget construction, layouts, button wiring, label texts and `HH:mm:ss` formatting (kclock.py:60-159, 167-169, 179-181, 215-217, 222-227, 259, 269, 275-276): user interface only. The alarm time shown at kclock.py:168 is display only.
- The tray icon image chosen in `toggle_icon` and `toggle_clock` (kclock.py:207-210, 231): presentation only. The model keeps just the `icon_visible` flag.
- Ringtone selection, default-ringtone lookup and preview playback (kclock.py:32-49, 184-203, 233-254): file dialogs, filesystem checks and the media API.
- `alarm_duration` (kclock.py:21): set but never read.
- `closeEvent`, `cleanup_resources`, `get_resource_path` and program start-up (kclock.py:12-15, 51-56, 278-289): process lifecycle and path handling.
- Real timer cadence, the audio device and event-loop concurrency: timers and the player are flags, and time passes only through the events the driver feeds in.
- Milliseconds of `QTime`: `curTime` keeps whole seconds only, so the sub-second part read by `QTime.currentTime()` is dropped.
- Visibility of the start/stop button: the model lets `ToggleClock` be called in any state, although the window shows the button only after an adjustment switched the countdown on.
- Python integers passed to Qt's `addSecs` are not bounded by the C++ `int` range in this model; the buttons only pass values up to 1800 seconds.
