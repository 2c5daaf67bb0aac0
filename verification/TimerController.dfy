/** The countdown controller as the page runs it: the script's module-level
    variables are fields of one object, the document it writes is a field
    holding a Page, and each handler changes them step by step, in the
    order the script does. Every method is proved to leave the object in the
    state the matching function of TimerModel computes, and the handlers to
    keep TimerModel.Inv. */
module TimerController {
  import opened Clock
  import opened Visuals
  import opened TimerModel

  class Controller {
    var timeRemaining: nat
    var initialSetDuration: nat
    var isRunning: bool
    var isPaused: bool
    /** Whether the one-second interval stored in `countdown` is installed. */
    var countdownActive: bool
    var currentCreatureAnimation: Animation
    /** The display, inputs, buttons, fire, creature sprite and chime. */
    var page: Page
    /** "Set a Time!" reverts scheduled and not yet run. */
    var pendingReverts: nat

    /** The object's state as a TimerModel value. */
    function Snapshot(): Timer
      reads this
    {
      Timer(timeRemaining, initialSetDuration, isRunning, isPaused, countdownActive,
            currentCreatureAnimation, page, pendingReverts)
    }

    ghost predicate Valid()
      reads this
    {
      Inv(Snapshot())
    }

    /** Loading the page: the module-level initialisers, then the load
        handler's resetTimer. */
    constructor ()
      ensures Valid() && Snapshot() == Initial()
    {
      isPaused := false;
      isRunning := false;
      currentCreatureAnimation := Walking;
      initialSetDuration := 0;
      timeRemaining := 0;
      countdownActive := false;
      page := ScriptStart().page;
      pendingReverts := 0;
      new;
      ResetTimer();
    }

    // ----- Helpers -----

    method UpdateTimerDisplay()
      modifies this`page
      ensures page == old(page).(display := Counting(timeRemaining))
    {
      page := page.(display := Counting(timeRemaining));
    }

    method SetCreatureAnimation(name: Animation)
      modifies this`currentCreatureAnimation, this`page
      ensures currentCreatureAnimation == name
      ensures page == old(page).(creatureClasses := SwapClass(old(page.creatureClasses), old(currentCreatureAnimation), name))
    {
      if currentCreatureAnimation == name {
        return;
      }
      page := page.(creatureClasses := page.creatureClasses - {currentCreatureAnimation});
      page := page.(creatureClasses := page.creatureClasses + {name});
      currentCreatureAnimation := name;
    }

    method UpdateButtonStates()
      modifies this`page
      ensures page == old(page).(buttons := Buttons(isRunning, !isRunning || isPaused, isRunning && timeRemaining > 0))
    {
      page := page.(buttons := page.buttons.(startDisabled := isRunning));
      page := page.(buttons := page.buttons.(pauseDisabled := !isRunning || isPaused));
      page := page.(buttons := page.buttons.(resetDisabled := isRunning && timeRemaining > 0));
    }

    method DisableTimeInputs()
      modifies this`page
      ensures page == old(page).(inputsDisabled := true)
    {
      page := page.(inputsDisabled := true);
    }

    method EnableTimeInputs()
      modifies this`page
      ensures page == old(page).(inputsDisabled := false)
    {
      page := page.(inputsDisabled := false);
    }

    method UpdateVisualsBasedOnTime()
      modifies this`currentCreatureAnimation, this`page
      ensures var reference := ReferenceDuration(initialSetDuration, old(page).inputs);
        currentCreatureAnimation ==
          (if isRunning then SegmentAnimation(reference, timeRemaining)
           else if isPaused then Idle
           else old(currentCreatureAnimation)) &&
        page == old(page).(fire := FireOpacity(timeRemaining, reference),
                           creatureClasses := SwapClass(old(page.creatureClasses), old(currentCreatureAnimation),
                                                        currentCreatureAnimation))
    {
      var referenceDuration := initialSetDuration;
      if referenceDuration == 0 {
        referenceDuration := TotalSecondsFromInputs(page.inputs);
        if referenceDuration == 0 {
          referenceDuration := 1;
        }
      }
      page := page.(fire := FireOpacity(timeRemaining, referenceDuration));
      if isRunning {
        SetCreatureAnimation(SegmentAnimation(referenceDuration, timeRemaining));
      } else if isPaused {
        SetCreatureAnimation(Idle);
      }
    }

    method ResetVisuals()
      modifies this`currentCreatureAnimation, this`page
      ensures currentCreatureAnimation == Walking
      ensures page == old(page).(fire := 1.0,
                                 creatureClasses := SwapClass(old(page.creatureClasses), old(currentCreatureAnimation), Walking))
    {
      page := page.(fire := 1.0);
      SetCreatureAnimation(Walking);
    }

    method TriggerCompletionAnimation()
      modifies this`currentCreatureAnimation, this`page
      ensures currentCreatureAnimation == Idle
      ensures page == old(page).(fire := 0.1,
                                 creatureClasses := SwapClass(old(page.creatureClasses), old(currentCreatureAnimation), Idle))
    {
      page := page.(fire := 0.1);
      SetCreatureAnimation(Idle);
    }

    /** setInputsFromTotalSeconds: a non-negative count is written as
        in-range fields that read back as the same count. */
    method SetInputsFromTotalSeconds(totalSeconds: int)
      modifies this`page
      ensures Snapshot() == TimerModel.SetInputsFromTotalSeconds(old(Snapshot()), totalSeconds)
      ensures totalSeconds >= 0 ==> InRange(page.inputs) && TotalSecondsFromInputs(page.inputs) == totalSeconds
    {
      var hours := totalSeconds / 3600;
      var minutes := JsRem(totalSeconds, 3600) / 60;
      var seconds := JsRem(totalSeconds, 60);
      page := page.(inputs := page.inputs.(hours := hours));
      page := page.(inputs := page.inputs.(minutes := minutes));
      page := page.(inputs := page.inputs.(seconds := seconds));
      if totalSeconds >= 0 {
        InputsRoundTrip(totalSeconds);
      }
    }

    // ----- The handlers -----

    /** startTimer. */
    method StartTimer()
      requires Valid()
      modifies this
      ensures Valid() && Snapshot() == Start(old(Snapshot()))
    {
      ghost var t := Snapshot();
      if isRunning && !isPaused {
        return;
      }
      if !isPaused {
        var totalDuration := TotalSecondsFromInputs(page.inputs);
        if totalDuration <= 0 {
          page := page.(display := SetATime);
          pendingReverts := pendingReverts + 1;
          StartPreservesInv(t);
          return;
        }
        timeRemaining := totalDuration;
        initialSetDuration := totalDuration;
      }
      isRunning := true;
      isPaused := false;
      UpdateButtonStates();
      DisableTimeInputs();
      countdownActive := false;
      SetCreatureAnimation(Walking);
      countdownActive := true;
      StartPreservesInv(t);
    }

    /** One firing of the interval installed by StartTimer. */
    method Tick()
      requires Valid() && countdownActive
      modifies this
      ensures Valid() && Snapshot() == TimerModel.Tick(old(Snapshot()))
    {
      ghost var t := Snapshot();
      if timeRemaining <= 0 {
        countdownActive := false;
        isRunning := false;
        page := page.(chimePlaying := true);
        page := page.(display := TimeIsUp);
        UpdateButtonStates();
        EnableTimeInputs();
        TriggerCompletionAnimation();
        TickPreservesInv(t);
        return;
      }
      timeRemaining := timeRemaining - 1;
      UpdateTimerDisplay();
      UpdateVisualsBasedOnTime();
      TickPreservesInv(t);
    }

    /** pauseTimer. */
    method PauseTimer()
      requires Valid()
      modifies this
      ensures Valid() && Snapshot() == Pause(old(Snapshot()))
    {
      ghost var t := Snapshot();
      if !isRunning {
        return;
      }
      countdownActive := false;
      isPaused := true;
      isRunning := false;
      UpdateButtonStates();
      EnableTimeInputs();
      SetCreatureAnimation(Idle);
      PausePreservesInv(t);
    }

    /** resetTimer. It restores the invariant from any state whose sprite
        carries the single class of the current animation. */
    method ResetTimer()
      modifies this
      ensures Snapshot() == Reset(old(Snapshot()))
      ensures old(page.creatureClasses == {currentCreatureAnimation}) ==> Valid()
    {
      ghost var t := Snapshot();
      countdownActive := false;
      isRunning := false;
      isPaused := false;
      page := page.(inputs := page.inputs.(hours := 0));
      page := page.(inputs := page.inputs.(minutes := 0));
      page := page.(inputs := page.inputs.(seconds := 0));
      timeRemaining := TotalSecondsFromInputs(page.inputs);
      UpdateTimerDisplay();
      UpdateButtonStates();
      EnableTimeInputs();
      ResetVisuals();
      initialSetDuration := 0;
      page := page.(chimePlaying := false);
      if t.page.creatureClasses == {t.creature} {
        ResetEstablishesInv(t);
      }
    }

    /** The callback StartTimer schedules after "Set a Time!". */
    method RevertMessage()
      requires Valid() && pendingReverts > 0
      modifies this
      ensures Valid() && Snapshot() == Revert(old(Snapshot()))
    {
      pendingReverts := pendingReverts - 1;
      UpdateTimerDisplay();
      ResetTimer();
    }

    /** The user typing into the three inputs. */
    method EditInputs(hours: int, minutes: int, seconds: int)
      requires Valid()
      modifies this`page
      ensures Valid() && Snapshot() == TimerModel.EditInputs(old(Snapshot()), Fields(hours, minutes, seconds))
    {
      if !page.inputsDisabled {
        page := page.(inputs := Fields(hours, minutes, seconds));
      }
    }
  }

  /** A client: set five seconds, start, and let the interval fire. */
  method FiveSecondRun()
  {
    var timer := new Controller();
    timer.EditInputs(0, 0, 5);
    timer.StartTimer();
    assert timer.isRunning && timer.timeRemaining == 5;
    timer.Tick();
    timer.Tick();
    timer.Tick();
    timer.Tick();
    timer.Tick();
    assert timer.isRunning && timer.timeRemaining == 0;
    FormatTimeZero();
    assert DisplayText(timer.page.display) == "00:00:00";
    timer.Tick();
    assert !timer.isRunning && timer.page.display == TimeIsUp;
    assert !timer.page.buttons.startDisabled && !timer.page.buttons.resetDisabled && timer.page.buttons.pauseDisabled;
  }
}
