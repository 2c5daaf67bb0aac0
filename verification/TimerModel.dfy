/** The timer's state machine as values: the script's module-level
    variables and the page they drive, one function per handler and helper,
    the invariant every handler keeps, and what the handlers promise over
    several steps (a run of D seconds, pause and resume, reset, the delayed
    revert after an invalid start). The class in TimerController performs the
    same steps in place and is proved against these functions. */
module TimerModel {
  import opened Clock
  import opened Visuals

  /** What the timer display shows: formatTime of a second count, or one of
      the two messages. */
  datatype Display = Counting(seconds: nat) | SetATime | TimeIsUp

  /** The display's textContent. */
  function DisplayText(d: Display): string {
    match d
    case Counting(n) => FormatTime(n)
    case SetATime => "Set a Time!"
    case TimeIsUp => "Time is Up!"
  }

  /** The disabled flags of the start, pause and reset buttons. */
  datatype Buttons = Buttons(startDisabled: bool, pauseDisabled: bool, resetDisabled: bool)

  /** The parts of the document the script writes. */
  datatype Page = Page(
    display: Display,                 // the timer display
    inputs: Fields,                   // the hours, minutes and seconds inputs, parsed
    inputsDisabled: bool,             // the disabled flag, written for all three inputs at once
    buttons: Buttons,
    fire: real,                       // the fire's opacity
    creatureClasses: set<Animation>,  // the creature-<name> classes on the sprite
    chimePlaying: bool)               // the chime was told to play and not stopped since

  /** The script's variables, the page, and the reverts scheduled by
      setTimeout that have not run yet. */
  datatype Timer = Timer(
    remaining: nat,                   // timeRemaining
    initial: nat,                     // initialSetDuration, the reference duration
    running: bool,                    // isRunning
    paused: bool,                     // isPaused
    ticking: bool,                    // a one-second interval is installed in `countdown`
    creature: Animation,              // currentCreatureAnimation
    page: Page,
    pendingReverts: nat)

  /** Different displays show different texts, so recording the display as
      a Display loses nothing: the text determines it. */
  lemma DisplayTextInjective(a: Display, b: Display)
    requires DisplayText(a) == DisplayText(b)
    ensures a == b
  {
    assert !IsClockText(DisplayText(SetATime)) && !IsClockText(DisplayText(TimeIsUp));
    assert DisplayText(SetATime)[0] != DisplayText(TimeIsUp)[0];
    if a.Counting? && b.Counting? {
      FormatTimeInjective(a.seconds, b.seconds);
    }
  }

  // ----- Helpers the handlers share -----

  /** The sprite's classes after switching from `current` to `name`: the
      old class is removed and the new one added, unless they are the same. */
  function SwapClass(classes: set<Animation>, current: Animation, name: Animation): set<Animation> {
    if current == name then classes else classes - {current} + {name}
  }

  /** setCreatureAnimation. */
  function SetCreatureAnimation(t: Timer, name: Animation): Timer {
    t.(creature := name, page := t.page.(creatureClasses := SwapClass(t.page.creatureClasses, t.creature, name)))
  }

  /** updateTimerDisplay. */
  function UpdateTimerDisplay(t: Timer): Timer {
    t.(page := t.page.(display := Counting(t.remaining)))
  }

  /** updateButtonStates. */
  function UpdateButtonStates(t: Timer): Timer {
    t.(page := t.page.(buttons := Buttons(t.running, !t.running || t.paused, t.running && t.remaining > 0)))
  }

  /** disableTimeInputs and enableTimeInputs. */
  function SetInputsDisabled(t: Timer, disabled: bool): Timer {
    t.(page := t.page.(inputsDisabled := disabled))
  }

  /** The denominator of the visual progress: the duration captured at the
      start, else the live input total, else 1. */
  function ReferenceDuration(initial: nat, inputs: Fields): (d: nat)
    ensures d > 0
    ensures initial > 0 ==> d == initial
    ensures initial == 0 && TotalSecondsFromInputs(inputs) > 0 ==> d == TotalSecondsFromInputs(inputs)
    ensures initial == 0 && TotalSecondsFromInputs(inputs) == 0 ==> d == 1
  {
    if initial != 0 then initial
    else if TotalSecondsFromInputs(inputs) != 0 then TotalSecondsFromInputs(inputs)
    else 1
  }

  /** updateVisualsBasedOnTime (with the fire element present). */
  function UpdateVisualsBasedOnTime(t: Timer): Timer {
    var reference := ReferenceDuration(t.initial, t.page.inputs);
    var lit := t.(page := t.page.(fire := FireOpacity(t.remaining, reference)));
    if t.running then SetCreatureAnimation(lit, SegmentAnimation(reference, t.remaining))
    else if t.paused then SetCreatureAnimation(lit, Idle)
    else lit
  }

  /** resetVisuals: full fire and a walking creature. */
  function ResetVisuals(t: Timer): Timer {
    SetCreatureAnimation(t.(page := t.page.(fire := 1.0)), Walking)
  }

  /** triggerCompletionAnimation: embers and an idle creature. */
  function TriggerCompletionAnimation(t: Timer): Timer {
    SetCreatureAnimation(t.(page := t.page.(fire := 0.1)), Idle)
  }

  /** setInputsFromTotalSeconds. */
  function SetInputsFromTotalSeconds(t: Timer, total: int): Timer {
    t.(page := t.page.(inputs := ClockFields(total)))
  }

  // ----- The handlers -----

  /** startTimer: nothing while counting; a fresh start reads the inputs and
      either shows "Set a Time!" and schedules a revert, or captures the
      duration; a resume keeps the paused count. Either way a started timer
      is running, its inputs disabled, its creature walking and its interval
      installed (any previous one cleared). The display is not refreshed. */
  function Start(t: Timer): Timer {
    if t.running && !t.paused then t
    else if !t.paused && TotalSecondsFromInputs(t.page.inputs) <= 0 then
      t.(page := t.page.(display := SetATime), pendingReverts := t.pendingReverts + 1)
    else
      var total := TotalSecondsFromInputs(t.page.inputs);
      var loaded := if t.paused then t else t.(remaining := total, initial := total);
      var flagged := SetInputsDisabled(UpdateButtonStates(loaded.(running := true, paused := false)), true);
      SetCreatureAnimation(flagged.(ticking := false), Walking).(ticking := true)
  }

  /** One run of the interval body: at zero the run completes, otherwise the
      count goes down by one and the display and visuals follow. */
  function Tick(t: Timer): Timer {
    if t.remaining <= 0 then
      var stopped := t.(ticking := false, running := false,
                        page := t.page.(chimePlaying := true, display := TimeIsUp));
      TriggerCompletionAnimation(SetInputsDisabled(UpdateButtonStates(stopped), false))
    else
      UpdateVisualsBasedOnTime(UpdateTimerDisplay(t.(remaining := t.remaining - 1)))
  }

  /** pauseTimer. */
  function Pause(t: Timer): Timer {
    if !t.running then t
    else
      var held := UpdateButtonStates(t.(ticking := false, paused := true, running := false));
      SetCreatureAnimation(SetInputsDisabled(held, false), Idle)
  }

  /** resetTimer. */
  function Reset(t: Timer): Timer {
    var zeroed := t.(ticking := false, running := false, paused := false,
                     page := t.page.(inputs := Fields(0, 0, 0)));
    var counted := zeroed.(remaining := TotalSecondsFromInputs(zeroed.page.inputs));
    var visuals := ResetVisuals(SetInputsDisabled(UpdateButtonStates(UpdateTimerDisplay(counted)), false));
    visuals.(initial := 0, page := visuals.page.(chimePlaying := false))
  }

  /** The callback scheduled 1.5 s after "Set a Time!": refresh the display,
      then reset. Nothing cancels it, so it also resets a run started in the
      meantime. */
  function Revert(t: Timer): Timer
    requires t.pendingReverts > 0
  {
    Reset(UpdateTimerDisplay(t.(pendingReverts := t.pendingReverts - 1)))
  }

  /** The user typing into the inputs, which a disabled input ignores. */
  function EditInputs(t: Timer, f: Fields): Timer {
    if t.page.inputsDisabled then t else t.(page := t.page.(inputs := f))
  }

  /** The state the script starts from, before the load handler runs. Only
      the creature's class matters: the load handler's reset writes
      everything else. */
  function ScriptStart(): Timer {
    Timer(0, 0, false, false, false, Walking,
          Page(Counting(0), Fields(0, 0, 0), false, Buttons(false, false, false), 1.0, {Walking}, false), 0)
  }

  /** The page once loaded: the load handler calls resetTimer. */
  function Initial(): Timer {
    Reset(ScriptStart())
  }

  /** What can happen to the page: a click, a firing of the interval or of a
      scheduled revert, or an edit of the inputs. */
  datatype Event = StartClick | PauseClick | ResetClick | IntervalFired | RevertFired | Edit(f: Fields)

  /** One event. A disabled button dispatches no click, an interval that is
      not installed and a revert that is not scheduled do not fire. */
  function Step(t: Timer, e: Event): Timer {
    match e
    case StartClick => if t.page.buttons.startDisabled then t else Start(t)
    case PauseClick => if t.page.buttons.pauseDisabled then t else Pause(t)
    case ResetClick => if t.page.buttons.resetDisabled then t else Reset(t)
    case IntervalFired => if t.ticking then Tick(t) else t
    case RevertFired => if t.pendingReverts > 0 then Revert(t) else t
    case Edit(f) => EditInputs(t, f)
  }

  function Run(t: Timer, events: seq<Event>): Timer
    decreases |events|
  {
    if events == [] then t else Run(Step(t, events[0]), events[1..])
  }

  /** n firings of the interval body. */
  function Ticks(t: Timer, n: nat): Timer
    decreases n
  {
    if n == 0 then t else Ticks(Tick(t), n - 1)
  }

  // ----- The invariant -----

  /** What holds between handlers: never running and paused at once; the
      interval is installed and the inputs are disabled exactly while running;
      a run or a pause has a positive reference duration that bounds the
      count; the sprite carries the one class of the current animation, idle
      while paused; the buttons follow the enablement rule (the reset flag is
      only recomputed by handlers, so it may stay set while a run sits at 0);
      the fire is between embers and full. */
  ghost predicate Inv(t: Timer) {
    !(t.running && t.paused) &&
    t.ticking == t.running &&
    t.page.inputsDisabled == t.running &&
    ((t.running || t.paused) ==> 0 < t.initial && t.remaining <= t.initial) &&
    t.page.creatureClasses == {t.creature} &&
    (t.paused ==> t.creature == Idle) &&
    t.page.buttons.startDisabled == t.running &&
    t.page.buttons.pauseDisabled == (!t.running || t.paused) &&
    (t.page.buttons.resetDisabled ==> t.running) &&
    (t.running && t.remaining > 0 ==> t.page.buttons.resetDisabled) &&
    0.1 <= t.page.fire <= 1.0
  }

  /** setCreatureAnimation keeps exactly one animation class on the sprite,
      the one of the animation it sets. */
  lemma SetCreaturePreservesClasses(t: Timer, name: Animation)
    requires t.page.creatureClasses == {t.creature}
    ensures SetCreatureAnimation(t, name).page.creatureClasses == {name}
    ensures SetCreatureAnimation(t, name).creature == name
  {
  }

  /** setCreatureAnimation twice with the same animation is the same as once,
      and setting the current animation changes nothing. */
  lemma SetCreatureIdempotent(t: Timer, name: Animation)
    ensures SetCreatureAnimation(SetCreatureAnimation(t, name), name) == SetCreatureAnimation(t, name)
    ensures SetCreatureAnimation(t, t.creature) == t
  {
  }

  lemma InitialInv()
    ensures Inv(Initial())
  {
    ResetEstablishesInv(ScriptStart());
  }

  lemma StartPreservesInv(t: Timer)
    requires Inv(t)
    ensures Inv(Start(t))
  {
  }

  lemma TickPreservesInv(t: Timer)
    requires Inv(t) && t.ticking
    ensures Inv(Tick(t))
  {
    if t.remaining > 0 {
      var shown := UpdateTimerDisplay(t.(remaining := t.remaining - 1));
      assert ReferenceDuration(shown.initial, shown.page.inputs) == t.initial;
      FireBounds(t.remaining - 1, t.initial);
      var lit := shown.(page := shown.page.(fire := FireOpacity(shown.remaining, t.initial)));
      assert Inv(lit);
      SetCreaturePreservesClasses(lit, SegmentAnimation(t.initial, shown.remaining));
      assert Tick(t) == SetCreatureAnimation(lit, SegmentAnimation(t.initial, shown.remaining));
    } else {
      var stopped := t.(ticking := false, running := false,
                        page := t.page.(chimePlaying := true, display := TimeIsUp));
      var flagged := SetInputsDisabled(UpdateButtonStates(stopped), false);
      SetCreaturePreservesClasses(flagged.(page := flagged.page.(fire := 0.1)), Idle);
      assert Tick(t) == TriggerCompletionAnimation(flagged);
    }
  }

  lemma PausePreservesInv(t: Timer)
    requires Inv(t)
    ensures Inv(Pause(t))
  {
  }

  /** A reset restores the invariant from any state whose sprite carries
      the one class of its current animation. */
  lemma ResetEstablishesInv(t: Timer)
    requires t.page.creatureClasses == {t.creature}
    ensures Inv(Reset(t))
  {
    ResetState(t);
  }

  lemma RevertPreservesInv(t: Timer)
    requires Inv(t) && t.pendingReverts > 0
    ensures Inv(Revert(t))
  {
    ResetEstablishesInv(UpdateTimerDisplay(t.(pendingReverts := t.pendingReverts - 1)));
  }

  lemma StepPreservesInv(t: Timer, e: Event)
    requires Inv(t)
    ensures Inv(Step(t, e))
  {
    match e
    case StartClick => StartPreservesInv(t);
    case PauseClick => PausePreservesInv(t);
    case ResetClick => ResetEstablishesInv(t);
    case IntervalFired => if t.ticking { TickPreservesInv(t); }
    case RevertFired => if t.pendingReverts > 0 { RevertPreservesInv(t); }
    case Edit(f) =>
  }

  lemma {:induction false} RunPreservesInv(t: Timer, events: seq<Event>)
    requires Inv(t)
    ensures Inv(Run(t, events))
    decreases |events|
  {
    if events != [] {
      StepPreservesInv(t, events[0]);
      RunPreservesInv(Step(t, events[0]), events[1..]);
    }
  }

  /** Whatever the user does and whatever fires, the timer is never running
      and paused at once, and a running timer has its interval installed. */
  lemma NeverRunningAndPaused(events: seq<Event>)
    ensures !(Run(Initial(), events).running && Run(Initial(), events).paused)
    ensures Run(Initial(), events).running ==> Run(Initial(), events).ticking
  {
    InitialInv();
    RunPreservesInv(Initial(), events);
  }

  // ----- startTimer -----

  /** The four outcomes of startTimer. */
  lemma StartCases(t: Timer)
    requires Inv(t)
    ensures t.running ==> Start(t) == t
    ensures !t.running && !t.paused && TotalSecondsFromInputs(t.page.inputs) == 0 ==>
      var s := Start(t);
      s == t.(page := t.page.(display := SetATime), pendingReverts := t.pendingReverts + 1) &&
      !s.running && !s.paused && s.remaining == t.remaining
    ensures !t.running && !t.paused && TotalSecondsFromInputs(t.page.inputs) > 0 ==>
      var s := Start(t);
      s.remaining == s.initial == TotalSecondsFromInputs(t.page.inputs) &&
      s.running && !s.paused && s.ticking && s.page.inputsDisabled && s.creature == Walking &&
      s.page.buttons == Buttons(true, false, true) && s.page.display == t.page.display
    ensures t.paused ==>
      var s := Start(t);
      s.remaining == t.remaining && s.initial == t.initial && s.page.inputs == t.page.inputs &&
      s.running && !s.paused && s.ticking && s.page.inputsDisabled && s.creature == Walking
  {
  }

  // ----- The interval body -----

  /** A tick either counts down by exactly one and keeps running, or, at
      zero, completes the run. */
  lemma TickCases(t: Timer)
    requires Inv(t) && t.ticking
    ensures t.remaining > 0 ==>
      var u := Tick(t);
      u.remaining == t.remaining - 1 && u.running && u.ticking && u.initial == t.initial &&
      u.page.display == Counting(u.remaining) &&
      u.creature == SegmentAnimation(t.initial, u.remaining) && u.page.creatureClasses == {u.creature}
    ensures t.remaining == 0 ==>
      var u := Tick(t);
      !u.running && !u.ticking && !u.paused && u.page.display == TimeIsUp && !u.page.inputsDisabled &&
      u.creature == Idle && u.page.creatureClasses == {Idle} && u.page.fire == 0.1 && u.page.chimePlaying &&
      u.page.buttons == Buttons(false, true, false) && u.remaining == 0 && u.initial == t.initial
  {
  }

  lemma {:induction false} TicksAdd(t: Timer, a: nat, b: nat)
    ensures Ticks(t, a + b) == Ticks(Ticks(t, a), b)
    decreases a
  {
    if a > 0 {
      var next := Tick(t);
      assert Ticks(t, a + b) == Ticks(next, (a - 1) + b);
      assert Ticks(t, a) == Ticks(next, a - 1);
      TicksAdd(next, a - 1, b);
    }
  }

  /** k ticks of a run with at least k seconds left count down by exactly k
      and leave it running, showing the count left. */
  lemma {:induction false} Countdown(t: Timer, k: nat)
    requires Inv(t) && t.ticking && k <= t.remaining
    ensures var u := Ticks(t, k);
      Inv(u) && u.ticking && u.running && u.remaining == t.remaining - k && u.initial == t.initial &&
      (k > 0 ==> u.page.display == Counting(u.remaining))
    decreases k
  {
    if k > 0 {
      TickPreservesInv(t);
      TickCases(t);
      Countdown(Tick(t), k - 1);
    }
  }

  /** A run with D seconds left completes on tick D + 1, not before: tick D
      brings the count to 0 and the next one stops the timer, shows
      "Time is Up!", plays the chime and re-enables the inputs, start and
      reset. */
  lemma CompletesAfterRemainingPlusOneTicks(t: Timer)
    requires Inv(t) && t.ticking
    ensures var last := Ticks(t, t.remaining);
      last.running && last.remaining == 0
    ensures var done := Ticks(t, t.remaining + 1);
      Inv(done) && !done.running && !done.ticking && done.page.display == TimeIsUp && done.page.chimePlaying &&
      !done.page.inputsDisabled && done.creature == Idle &&
      !done.page.buttons.startDisabled && !done.page.buttons.resetDisabled && done.page.buttons.pauseDisabled
  {
    Countdown(t, t.remaining);
    var last := Ticks(t, t.remaining);
    TicksAdd(t, t.remaining, 1);
    TickCases(last);
    TickPreservesInv(last);
  }

  /** Setting 0:00:05 and starting, then five ticks later the display reads
      00:00:00 with the timer still running; the sixth tick ends the run. */
  lemma FiveSecondRun()
    ensures var started := Start(EditInputs(Initial(), Fields(0, 0, 5)));
      started.running && started.remaining == 5 &&
      DisplayText(Ticks(started, 5).page.display) == "00:00:00" && Ticks(started, 5).running &&
      Ticks(started, 6).page.display == TimeIsUp && !Ticks(started, 6).running &&
      !Ticks(started, 6).page.buttons.startDisabled && !Ticks(started, 6).page.buttons.resetDisabled
  {
    InitialInv();
    var edited := EditInputs(Initial(), Fields(0, 0, 5));
    assert edited.page.inputs == Fields(0, 0, 5);
    StartPreservesInv(edited);
    var started := Start(edited);
    Countdown(started, 5);
    CompletesAfterRemainingPlusOneTicks(started);
    FormatTimeZero();
  }

  // ----- pauseTimer and resuming -----

  /** Pausing keeps the count; a start after it resumes from that count and
      keeps the reference duration, ignoring whatever was typed into the
      inputs the pause re-enabled. */
  lemma PauseThenResume(t: Timer, f: Fields)
    requires Inv(t) && t.running
    ensures var p := Pause(t);
      p.paused && !p.running && !p.ticking && p.remaining == t.remaining && p.initial == t.initial &&
      p.creature == Idle && !p.page.inputsDisabled && p.page.display == t.page.display
    ensures var p := EditInputs(Pause(t), f);
      p.page.inputs == f &&
      Start(p).running && Start(p).remaining == t.remaining && Start(p).initial == t.initial
  {
  }

  /** Pausing a timer that is not running changes nothing. */
  lemma PauseWhenStopped(t: Timer)
    requires !t.running
    ensures Pause(t) == t
  {
  }

  // ----- resetTimer -----

  /** What a reset leaves, from any state: stopped, zeroed inputs enabled, a
      zero count and duration, 00:00:00 on display, full fire, a walking
      creature, the chime stopped, and only pause disabled; the scheduled
      reverts are untouched. */
  lemma ResetState(t: Timer)
    ensures Reset(t) == t.(remaining := 0, initial := 0, running := false, paused := false, ticking := false,
                           creature := Walking,
                           page := t.page.(display := Counting(0), inputs := Fields(0, 0, 0), inputsDisabled := false,
                                           buttons := Buttons(false, true, false), fire := 1.0,
                                           creatureClasses := SwapClass(t.page.creatureClasses, t.creature, Walking),
                                           chimePlaying := false))
    ensures DisplayText(Reset(t).page.display) == "00:00:00"
  {
    FormatTimeZero();
  }

  /** Resetting twice is the same as resetting once. */
  lemma ResetIdempotent(t: Timer)
    ensures Reset(Reset(t)) == Reset(t)
  {
  }

  // ----- The delayed revert -----

  /** The pending revert stops any run, whatever happened since it was
      scheduled. */
  lemma RevertStopsRun(t: Timer)
    requires t.pendingReverts > 0
    ensures !Revert(t).running && !Revert(t).ticking && Revert(t).remaining == 0 && Revert(t).initial == 0
  {
  }

  /** Starting with empty inputs, then entering one minute and starting
      again within 1.5 s: the run starts, and the revert scheduled by the
      first click then cancels it. */
  lemma RevertCancelsLaterRun()
    ensures var invalid := Start(Initial());
      invalid.page.display == SetATime && invalid.pendingReverts == 1 && !invalid.running
    ensures var started := Start(EditInputs(Start(Initial()), Fields(0, 1, 0)));
      started.running && started.remaining == 60 && started.pendingReverts == 1 &&
      !Revert(started).running && Revert(started).remaining == 0
  {
    ResetState(ScriptStart());
  }

  // ----- Visuals during a run -----

  /** While paused the creature idles, and during a run it follows the
      walk/sit/walk rule against the duration captured at the start. */
  lemma CreatureFollowsSegments(t: Timer)
    requires Inv(t)
    ensures t.paused ==> t.creature == Idle
    ensures t.ticking && t.remaining > 0 ==>
      Tick(t).creature == SegmentAnimation(t.initial, t.remaining - 1) &&
      Tick(t).page.fire == FireOpacity(t.remaining - 1, t.initial)
  {
    if t.ticking && t.remaining > 0 {
      TickCases(t);
      var shown := UpdateTimerDisplay(t.(remaining := t.remaining - 1));
      assert ReferenceDuration(shown.initial, shown.page.inputs) == t.initial;
    }
  }
}
