# Cozy timer: a Dafny model of the countdown script

The cozy timer is a single page with an HH:MM:SS countdown. Three number
inputs set the hours, minutes and seconds. Start, pause and reset buttons
drive the countdown. A fireplace dims as time runs out, and a small creature
walks, sits and idles along with it. When the count is over, the page
shows "Time is Up!" and plays a chime. All of its behaviour lives in
`script.js`. This project models that script in four modules.

- `Clock` (Clock.dfy) holds the pure arithmetic.
  - `formatTime`: the hours, minutes and seconds split with JavaScript's
    truncating `%`, `String(n)` and `padStart(2, '0')`.
  - `getTotalSecondsFromInputs`: the validation of the three inputs.
  - The split that `setInputsFromTotalSeconds` writes back into the inputs.
- `Visuals` (Visuals.dfy) holds the rules of `updateVisualsBasedOnTime`.
  - The creature's walk/sit/walk rule over thirds of the reference duration.
    It is written with integer cross-multiplication and proved equal to the
    script's real-valued comparison with `D / 3`.
  - The fire's opacity, on exact reals.
- `TimerModel` (TimerModel.dfy) is the state machine as values.
  - The script's module-level variables, plus the parts of the document it
    writes (`Page`), form one `Timer` value.
  - There is one function per handler and helper, and the invariant `Inv`
    that every event keeps.
  - Lemmas state what the handlers promise over several steps.
- `TimerController` (TimerController.dfy) is the script as it runs.
  - A `Controller` object has the module-level variables as fields and the
    document as a `page` field.
  - Every handler and helper is a method that updates them step by step, in
    the script's order.
  - Each method is proved to end in the state the matching `TimerModel`
    function computes. The handlers are also proved to keep the invariant.

The display is recorded as a `Display` value: a second count (`Counting`), "Set a Time!"
or "Time is Up!". `DisplayText` renders it, and `DisplayTextInjective` shows
that the text determines the value.

Two behaviours of the script are kept as they are:
- `startTimer` does not refresh the display. After a fresh start, the old
  text stays until the first tick.
- The revert that `startTimer` schedules after "Set a Time!" is never
  cancelled. If the user enters a time and starts again within 1.5 s, that
  run is reset when the revert fires (`RevertCancelsLaterRun`).

The reset button's flag is only recomputed by handlers. A run that has
reached 0 therefore keeps reset disabled until the completing tick. The
invariant allows this.

## Model

| member | source | states |
|---|---|---|
| Clock.JsRem | script.js:26-27 | JavaScript's `%` with a positive divisor: the remainder has the sign of the dividend, its magnitude is below the divisor, and the dividend is the truncated quotient times the divisor plus the remainder |
| Clock.ClockFields | script.js:25-27 | for a count >= 0: hours >= 0, minutes and seconds in 0..59, and h*3600 + m*60 + s equals the count; for a negative count: negative hours and non-positive minutes and seconds |
| Clock.TotalSecondsFromInputs | script.js:37-49 | in-range inputs give h*3600 + m*60 + s; a negative field, minutes > 59 or seconds > 59 give 0 |
| Clock.InputsRoundTrip | script.js:52-60 | the fields written for a count >= 0 pass the validation and read back as the same count |
| Clock.NegativeInputsRejected | script.js:52-60 | the fields written for a negative count fail the validation and read back as 0 |
| Clock.InputsCanonical | script.js:37-49 | in-range inputs are exactly the split of the count they denote, so two different in-range inputs never denote the same duration |
| Clock.Decimal | script.js:28 | `String(n)`: non-empty digits without a leading zero; one digit iff n < 10, at most two iff n < 100 |
| Clock.DecimalRoundTrip | script.js:28 | the digits read back as n |
| Clock.PadTwo | script.js:28 | `padStart(2, '0')`: digits of length 2 below 100; a '0' is prepended only to a single digit, longer numbers are unchanged |
| Clock.PadTwoValue | script.js:28 | the padded field reads back as n |
| Clock.PadTwoSmall | script.js:28 | below 100 the padded field is the tens digit followed by the units digit |
| Clock.FormatTime | script.js:24-29 | the text is digits ':' two digits ':' two digits; it is 8 characters long iff the count is below 100 hours |
| Clock.ParseClockParts | script.js:28 | joining three digit strings with ':' gives a clock text whose value is h*3600 + m*60 + s |
| Clock.FormatTimeRoundTrip | script.js:24-29 | reading the clock text back gives the original count |
| Clock.FormatTimeInjective | script.js:24-29 | different counts are shown as different texts |
| Clock.FormatTimeFields | script.js:24-29 | for every count, including 100 hours and more, the text is the padded hours, minutes and seconds of its split joined by ':' |
| Clock.PadTwoExamples | script.js:28 | 0, 1 and 59 are padded to "00", "01" and "59" |
| Clock.FormatTimeZero | script.js:24-29 | 0 is shown as "00:00:00" |
| Clock.FormatTimeExamples | script.js:24-29 | 59 is shown as "00:00:59" and 3661 as "01:01:01" |
| Clock.FormatTimeHundredHours | script.js:24-29 | 360000 is shown as "100:00:00": the hours grow past two digits |
| Visuals.SegmentAnimation | script.js:214-225 | the walk/sit/walk rule never chooses idle |
| Visuals.SegmentMatchesThirds | script.js:215-225 | for every duration, including those not divisible by 3, the integer rule chooses the same animation as comparing elapsed seconds with D/3 and 2D/3 on reals |
| Visuals.SittingIsMiddleThird | script.js:215-225 | over a run the creature sits during one unbroken stretch: between two sitting moments it sits throughout |
| Visuals.SegmentEnds | script.js:215-225 | a run starts and ends walking, and a run of at least 2 seconds sits at some point |
| Visuals.FireEmbers | script.js:206-212 | the fire is at embers opacity 0.1 iff 10 * remaining <= reference |
| Visuals.FireBounds | script.js:206-212 | during a run the opacity stays within [0.1, 1.0], and it is 1.0 at full time |
| Visuals.FireMonotone | script.js:206-212 | the fire never brightens as the remaining time goes down |
| TimerModel.DisplayTextInjective | script.js:32-34 | display texts with equal content come from the same display value |
| TimerModel.ReferenceDuration | script.js:200-204 | the reference duration is initialSetDuration when that is set; otherwise the inputs' total when that is positive; otherwise 1; so it is always positive |
| TimerModel.SetCreaturePreservesClasses | script.js:63-75 | from a sprite with the single class of the current animation, the sprite ends with the single class of the new animation |
| TimerModel.SetCreatureIdempotent | script.js:63-75 | setting the same animation twice is setting it once; setting the current animation changes nothing |
| TimerModel.InitialInv | script.js:272-285 | the page after the load handler satisfies the invariant |
| TimerModel.StartPreservesInv | script.js:78-108 | startTimer keeps the invariant |
| TimerModel.TickPreservesInv | script.js:110-135 | one firing of the interval keeps the invariant |
| TimerModel.PausePreservesInv | script.js:139-151 | pauseTimer keeps the invariant |
| TimerModel.ResetEstablishesInv | script.js:154-177 | resetTimer reaches the invariant from any state whose sprite has the single class of the current animation |
| TimerModel.RevertPreservesInv | script.js:86-92 | the delayed "Set a Time!" revert keeps the invariant |
| TimerModel.StepPreservesInv | script.js:261-263 | every click on an enabled button, interval firing, revert firing or input edit keeps the invariant |
| TimerModel.RunPreservesInv | script.js:261-263 | every sequence of events keeps the invariant |
| TimerModel.NeverRunningAndPaused | script.js:16-17 | after any sequence of events from page load, the timer is never running and paused at once, and a running timer has its interval installed |
| TimerModel.StartCases | script.js:78-108 | start while running changes nothing; a fresh start with invalid or zero inputs only shows "Set a Time!" and schedules a revert; a fresh start with valid inputs captures their total as count and duration, runs, disables the inputs, start and reset, walks, and leaves the display alone; a resume keeps the paused count, the duration and the inputs |
| TimerModel.TickCases | script.js:110-135 | with time left, a tick decrements the count by one, shows it, and sets the creature by the thirds rule; at 0 it stops the interval, shows "Time is Up!", plays the chime, re-enables inputs, start and reset, idles, and sets the fire to 0.1 |
| TimerModel.TicksAdd | script.js:110-135 | a+b firings are a firings followed by b firings |
| TimerModel.Countdown | script.js:110-135 | k <= remaining firings count down by exactly k, keep the run going, and show the count left |
| TimerModel.CompletesAfterRemainingPlusOneTicks | script.js:110-135 | a run with D seconds left reaches 0 after D firings while still running, and completes on firing D+1 |
| TimerModel.FiveSecondRun | script.js:78-135 | with 0:00:05 entered and started, five firings show "00:00:00" while running, and the sixth ends the run showing "Time is Up!" |
| TimerModel.PauseThenResume | script.js:139-151 | pausing keeps the count, the duration and the display, idles and re-enables the inputs; a start after edits to those inputs resumes from the kept count without re-reading them |
| TimerModel.PauseWhenStopped | script.js:140 | pausing a timer that is not running changes nothing |
| TimerModel.ResetState | script.js:154-177 | from any state, reset stops, zeroes the inputs, count and duration, shows "00:00:00", enables the inputs, start and reset, disables pause, sets full fire, walks, stops the chime, and leaves pending reverts alone |
| TimerModel.ResetIdempotent | script.js:154-177 | resetting twice is resetting once |
| TimerModel.RevertStopsRun | script.js:88-91 | the revert stops any run and zeroes the count and duration |
| TimerModel.RevertCancelsLaterRun | script.js:84-92 | an invalid start schedules a revert; a valid run started before it fires is reset by it |
| TimerModel.CreatureFollowsSegments | script.js:213-229 | paused means idle; during a run a firing sets the creature by the thirds rule and the fire by the opacity rule, against the duration captured at start |
| TimerController.Controller.constructor | script.js:272-285 | loading the page gives the state of TimerModel.Initial, which satisfies the invariant |
| TimerController.Controller.UpdateTimerDisplay | script.js:32-34 | the display shows the current count; nothing else on the page changes |
| TimerController.Controller.SetCreatureAnimation | script.js:63-75 | the current animation becomes the new one; the sprite's old class is swapped for the new one, unless they are the same |
| TimerController.Controller.UpdateButtonStates | script.js:253-258 | start is disabled iff running, pause iff not running or paused, reset iff running with time left |
| TimerController.Controller.DisableTimeInputs | script.js:180-184 | the inputs are disabled; nothing else changes |
| TimerController.Controller.EnableTimeInputs | script.js:186-190 | the inputs are enabled; nothing else changes |
| TimerController.Controller.UpdateVisualsBasedOnTime | script.js:195-230 | the fire gets the opacity for the reference duration (initialSetDuration, else the inputs' total, else 1); the creature follows the thirds rule while running and idles while paused, otherwise it is unchanged |
| TimerController.Controller.ResetVisuals | script.js:233-240 | full fire and a walking creature |
| TimerController.Controller.TriggerCompletionAnimation | script.js:243-250 | embers fire 0.1 and an idle creature |
| TimerController.Controller.SetInputsFromTotalSeconds | script.js:52-60 | ends in TimerModel.SetInputsFromTotalSeconds of the old state: the inputs receive the split of the count and nothing else changes; for a count >= 0 they are in range and read back as the count |
| TimerController.Controller.StartTimer | script.js:78-108 | keeps the invariant and ends in TimerModel.Start of the old state |
| TimerController.Controller.Tick | script.js:110-135 | with the interval installed, keeps the invariant and ends in TimerModel.Tick of the old state |
| TimerController.Controller.PauseTimer | script.js:139-151 | keeps the invariant and ends in TimerModel.Pause of the old state |
| TimerController.Controller.ResetTimer | script.js:154-177 | ends in TimerModel.Reset of the old state from any state, and in the invariant from any state whose sprite has the single class of the current animation |
| TimerController.Controller.RevertMessage | script.js:86-92 | with a revert pending, keeps the invariant and ends in TimerModel.Revert of the old state |
| TimerController.Controller.EditInputs | script.js:180-190 | typing changes the inputs only while they are enabled, and keeps the invariant |

## Left out

- DOM lookups and listener wiring (script.js:1-11 and 261-263) are not modelled. The clicks are `TimerModel.Step` events, or calls of the `Controller` methods. A disabled button dispatches no click.
- Real time is not modelled. `setInterval` and `setTimeout` become the `Tick` and `RevertMessage` methods, which a client calls. `countdownActive` (the model's `ticking`) records that the interval is installed, and `pendingReverts` counts scheduled reverts. The 1 s and 1.5 s delays appear only as the order of events.
- Audio is reduced to the `chimePlaying` flag: play sets it, and pause-and-rewind clears it. The rejected play promise and its `console.error` are not modelled.
- The chime choice kept in `localStorage` and its change listener (script.js:264-285, apart from the load-time reset) are not modelled.
- Input parsing is not modelled. The model takes the three inputs as integers already produced by `parseInt(...) || 0`. The `console.error` logged for out-of-range inputs (script.js:44) is left out; only the 0 it returns is modelled.
- Fire opacity is computed on exact reals, not IEEE doubles. The conversion into the `style.opacity` string is left out.
- The presence checks on the creature and fire elements are not modelled. Both elements are assumed to exist.
- JavaScript numbers are doubles. Counts above 2^53 are not modelled, and neither is exponent rendering for numbers of 10^21 and above. Integers here are unbounded.
- The page's initial markup is not part of this model. `ScriptStart` assumes the sprite starts with the `creature-walking` class. The load handler's reset overwrites everything else.
- TimerController.Controller.ResetTimer: the invariant is only promised from a sprite carrying the single class of the current animation. From other markup the script's reset does not restore it either.
