# Countdown timer, modelled in Dafny

The repository is a single React component, `CountdownTimer`. The user types
a duration in seconds, submits it with "Set", and then starts, pauses or
resets a countdown. The remaining time is shown as `MM:SS`. This project
models the two pieces of logic inside the component:

- `time_format.dfy`, module `TimeFormat`, covers `formatTime`. It is a pure
  function from whole seconds to the label. `Decimal` is `String(n)`,
  `PadStart` is `padStart` with a one-character fill, and `Field` is one
  padded field. `ParseTime` reads a label back into seconds, and
  `ParseFormatTime` proves that it inverts `FormatTime`.
- `countdown.dfy`, module `Countdown`, covers the state machine over the
  three state cells `duration`, `timeLeft` and `isRunning`.
  - The specification works on values. `Apply` is the update one handler
    makes. `AfterEffect` is the `useEffect` body, which stops the timer
    when no time is left. `Step` is an event followed by the effect. `Run`
    applies a sequence of events.
  - The class `CountdownTimer` has the three cells as fields and one method
    per event. Each event method ends by calling `Settle`, the effect.
    Each event method is proved to perform `Step` on its fields
    (`Model()`), and `Settle` is proved to perform `AfterEffect`. Every
    method keeps `Valid()`, which says that a running timer has time left.

Three behaviours of the code are easy to miss:

- "Set" does not write `duration`. The number field's `onChange` writes it,
  with any integer, including 0 and negative values. "Set" copies
  `duration` into `timeLeft` only when it is positive, and it does not
  stop a running timer.
- Reset copies `duration` into `timeLeft` unconditionally. After a negative
  edit, Reset makes `timeLeft` negative (`NegativeTimeLeftReachable`). So
  `timeLeft >= 0` is not an invariant of the code. It holds on every run
  without a Reset (`RunNoResetNonNegative`).
- `handleStart` is unguarded. Only the button is disabled. Start with no
  time left sets `isRunning`, and the effect clears it again in the same
  step. The net effect is nothing (`StartEffect`).

## Model

| member | source | states |
|---|---|---|
| `TimeFormat.Decimal` | src/app/page.tsx:41 | `String(n)`: a non-empty run of digits with value `n`, no leading zero unless `n` is 0, one character exactly when `n < 10` |
| `TimeFormat.PadStart` | src/app/page.tsx:41 | `padStart` result has length `max(len, width)`, ends with the input, and is the fill character before it (never truncates) |
| `TimeFormat.PaddedValue` | src/app/page.tsx:41 | padding a digit string with '0' keeps it all digits and keeps its value |
| `TimeFormat.DecimalAtMostTwoDigits` | src/app/page.tsx:41 | `String(n)` fits the two-character field exactly when `n < 100` |
| `TimeFormat.Field` | src/app/page.tsx:41 | a padded field is at least two digits, denotes `n`, and is exactly two characters iff `n < 100` |
| `TimeFormat.FieldIsPadStart` | src/app/page.tsx:41 | `Field(n)` is `String(n).padStart(2, '0')` |
| `TimeFormat.FormatTime` | src/app/page.tsx:38-42 | the label has a ':' three from the end; before it the digits of `s / 60`, after it two digits of `s % 60`; length 5 iff `s < 6000`; a wider label has no leading zero |
| `TimeFormat.FormatTimeIsPadded` | src/app/page.tsx:38-42 | the label is exactly `String(s / 60).padStart(2, '0') + ":" + String(s % 60).padStart(2, '0')` |
| `TimeFormat.ParseFormatTime` | src/app/page.tsx:38-42 | reading the label back (minutes times 60 plus two-digit seconds below 60) gives the seconds it was made from |
| `TimeFormat.FormatTimeInjective` | src/app/page.tsx:38-42 | two different second counts never show the same label |
| `TimeFormat.FormatTimeFields` | src/app/page.tsx:39-41 | the seconds field is two digits with value below 60; the minutes field is wider than two characters iff minutes reach 100 |
| `TimeFormat.SampleZero` | src/app/page.tsx:38-42 | `formatTime(0)` is `"00:00"`, the label at mount |
| `TimeFormat.SampleTwo` | src/app/page.tsx:38-42 | `formatTime(2)` is `"00:02"` |
| `TimeFormat.Sample59` | src/app/page.tsx:38-42 | `formatTime(59)` is `"00:59"` |
| `TimeFormat.Sample60` | src/app/page.tsx:38-42 | `formatTime(60)` is `"01:00"` |
| `TimeFormat.Sample125` | src/app/page.tsx:38-42 | `formatTime(125)` is `"02:05"` |
| `TimeFormat.Sample6000` | src/app/page.tsx:38-42 | `formatTime(6000)` is `"100:00"`: the minutes field grows instead of truncating |
| `Countdown.TickArmed` | src/app/page.tsx:19 | the interval is armed exactly when `isRunning && timeLeft > 0`; on a settled state, exactly when a tick would change anything |
| `Countdown.StartDisabled` | src/app/page.tsx:63 | the Start button's `disabled`: on a settled state it holds exactly when pressing Start would change nothing |
| `Countdown.PauseDisabled` | src/app/page.tsx:70 | the Pause button's `disabled`: it holds exactly when pressing Pause would change nothing |
| `Countdown.Apply` | src/app/page.tsx:10-36 | the handlers' own updates: only an edit (line 51) writes `duration`; only Start (line 31) sets `isRunning`, and Pause and Reset clear it; only "Set", Reset and an armed tick write `timeLeft`; a tick takes exactly 1 off (line 21) |
| `Countdown.InitialState` | src/app/page.tsx:6-8 | the mount state `Initial` is `(0, 0, not running)`, settled, with Start and Pause disabled and the label "00:00" |
| `Countdown.AfterEffect` | src/app/page.tsx:17-29 | the effect leaves a running timer with time left, changes neither `duration` nor `timeLeft`, never starts the timer, and is the identity on a settled state |
| `Countdown.Step` | src/app/page.tsx:10-36 | after any event and the effect, `isRunning ==> timeLeft > 0`; only an edit changes `duration`; only Start can start the timer |
| `Countdown.CountdownTimer.constructor` | src/app/page.tsx:6-8 | mount state: `duration = 0`, `timeLeft = 0`, not running |
| `Countdown.CountdownTimer.Settle` | src/app/page.tsx:17-29 | `isRunning` becomes `old(isRunning) && timeLeft > 0`; the other cells are unchanged |
| `Countdown.CountdownTimer.EditDuration` | src/app/page.tsx:51 | `duration := d` for any integer; `timeLeft` and `isRunning` unchanged |
| `Countdown.CountdownTimer.SetDuration` | src/app/page.tsx:10-15 | `timeLeft := duration` when `duration > 0`, else nothing; `duration` and `isRunning` unchanged |
| `Countdown.CountdownTimer.Start` | src/app/page.tsx:31 | the timer runs afterwards exactly when `timeLeft > 0`; `duration` and `timeLeft` unchanged |
| `Countdown.CountdownTimer.Pause` | src/app/page.tsx:32 | not running; `duration` and `timeLeft` unchanged |
| `Countdown.CountdownTimer.Reset` | src/app/page.tsx:33-36 | not running and `timeLeft = duration`, whatever the state was |
| `Countdown.CountdownTimer.Tick` | src/app/page.tsx:19-22 | while armed, `timeLeft` drops by exactly 1 and the timer keeps running iff time is left; otherwise nothing changes |
| `Countdown.RunSettled` | src/app/page.tsx:17-29 | every sequence of events keeps `isRunning ==> timeLeft > 0` |
| `Countdown.ReachableSettled` | src/app/page.tsx:6-36 | every state reachable from mount satisfies `isRunning ==> timeLeft > 0` |
| `Countdown.RunKeepsDuration` | src/app/page.tsx:51 | a run with no edit of the number field leaves `duration` as it was |
| `Countdown.RunTicks` | src/app/page.tsx:19-25 | `n` ticks on a running timer give `timeLeft - n` if `n < timeLeft`, else 0 and stopped; a stopped timer ignores ticks |
| `Countdown.RunNoResetNonNegative` | src/app/page.tsx:10-36 | with no Reset, a non-negative `timeLeft` stays non-negative |
| `Countdown.NegativeTimeLeftReachable` | src/app/page.tsx:33-36 | editing -5 then Reset gives `timeLeft = -5` |
| `Countdown.SubmitEffect` | src/app/page.tsx:10-15 | "Set" with `duration <= 0` changes nothing; otherwise it only sets `timeLeft := duration`, and a running timer keeps running |
| `Countdown.EditEffect` | src/app/page.tsx:51 | editing the field changes only `duration` |
| `Countdown.ResetEffect` | src/app/page.tsx:33-36 | Reset from any state gives `(duration, duration, not running)` |
| `Countdown.PauseEffect` | src/app/page.tsx:32 | Pause only clears `isRunning`, and a second Pause changes nothing |
| `Countdown.StartEffect` | src/app/page.tsx:31 | Start sets `isRunning` to `timeLeft > 0` and changes nothing else |
| `Countdown.TickFromOneStops` | src/app/page.tsx:19-25 | a tick from 1 ends at `timeLeft = 0`, stopped, with Start disabled |
| `Countdown.StartDisabledIffNoEffect` | src/app/page.tsx:61-67 | on a settled state the Start button is disabled exactly when pressing Start would change nothing |
| `Countdown.PauseDisabledIffNoEffect` | src/app/page.tsx:68-74 | the Pause button is disabled exactly when pressing Pause would change nothing |
| `Countdown.EffectOnSettled` | src/app/page.tsx:17-29 | the effect changes nothing on a settled state, so re-running it after an edit is harmless |
| `Countdown.Scenario` | src/app/page.tsx:6-36 | Edit(5), Set, Start and 3 ticks give 2 left and still running; Pause keeps 2; Start and 2 ticks give 0 and stopped |
| `Countdown.RunAppend` | src/app/page.tsx:6-36 | running two event sequences one after the other equals running their concatenation |
| `Countdown.ScenarioOnComponent` | src/app/page.tsx:6-58 | the same scenario on the component object shows `"00:02"`, `"00:02"`, `"00:00"` |

## Left out

- JSX markup, styling and the form and button rendering are not modelled. Only the two `disabled` expressions are kept, as `StartDisabled` and `PauseDisabled`.
- The real-time behaviour of `setInterval` and `clearInterval`, and the 1000 ms period, are not modelled. A tick is an abstract event that exists only while the effect has the interval armed (`TickArmed`). A tick at any other time is modelled as doing nothing.
- The interval handle, and clearing it in the effect's cleanup, are left out. They are resource plumbing, not state. The model does not state the "at most one live interval" property.
- React's effect scheduling, batching and re-render order are collapsed into one `Settle` step after every event. The model therefore does not capture an interval callback that fires after a state change but before the old interval is cleared.
- Decimal: matches JavaScript's `String(n)` only below 10^21. From there on `String` uses exponent notation ("1e+21"), which the model does not produce. Labels from 6 * 10^22 seconds on are affected.
- Tick, RunTicks: the exact decrement by 1 holds only up to `Number.MAX_SAFE_INTEGER` (2^53 - 1). Above it, `prev - 1` is rounded and can leave `timeLeft` unchanged. The model works on unbounded integers, so it matches the code only for values up to 2^53 - 1. The same bound applies to every other member that stores or compares `duration` and `timeLeft`.
- Parsing the field with `Number(e.target.value)` is left out, and so are NaN, fractional values and the empty string. These are floating-point concerns, so `duration` is an unbounded `int`.
- `FormatTime` is defined only for non-negative seconds. JavaScript's floor division and truncating `%` on negative numbers are not modelled. The code can still show a negative `timeLeft` after a negative edit followed by Reset (`NegativeTimeLeftReachable`), and the model does not say what that label looks like.
