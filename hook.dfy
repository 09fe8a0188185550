/**
 * The `usePomodoro` hook as an object: the module-level `pomodoroState` that
 * every `setState` replaces with the updater's result, and the interval handle
 * (`timerRef.current`, mirrored in `globalTimerRef`). One method per operation
 * the hook returns; each applies the pure updater of module Pomodoro.
 */
module PomodoroHook {
  import opened Text
  import opened Pomodoro

  class Timer {
    /** The current record: `pomodoroState`. */
    var state: State
    /** Whether an interval is scheduled: `timerRef.current !== null`. */
    var timerActive: bool

    ghost predicate Valid()
      reads this
    {
      ValidState(state) && timerActive == state.isRunning
    }

    constructor ()
      ensures Valid() && state == Initial() && !timerActive
    {
      state := Initial();
      timerActive := false;
    }

    /** `startTimer`: schedules the interval unless one is already scheduled. */
    method Start()
      requires Valid()
      modifies this
      ensures Valid() && timerActive && state.isRunning
      ensures old(timerActive) ==> state == old(state)
      ensures !old(timerActive) ==> state == WithRunning(old(state), true)
    {
      if timerActive {
        return;
      }
      timerActive := true;
      state := WithRunning(state, true);
    }

    /** `pauseTimer`: clears the interval if there is one; the record stops running either way. */
    method Pause()
      requires Valid()
      modifies this
      ensures Valid() && !timerActive
      ensures state == WithRunning(old(state), false)
    {
      if timerActive {
        timerActive := false;
      }
      state := WithRunning(state, false);
    }

    /** `resetTimer`: clears the interval and applies the reset updater. */
    method Reset()
      requires Valid()
      modifies this
      ensures Valid() && !timerActive
      ensures state == Pomodoro.Reset(old(state))
    {
      if timerActive {
        timerActive := false;
      }
      state := Pomodoro.Reset(state);
    }

    /** `toggleTimer`: pause when running, start otherwise. */
    method Toggle()
      requires Valid()
      modifies this
      ensures Valid()
      ensures timerActive == !old(state.isRunning)
      ensures state == WithRunning(old(state), !old(state.isRunning))
    {
      if state.isRunning {
        Pause();
      } else {
        Start();
      }
    }

    /**
     * One firing of the interval. It only fires while the interval is
     * scheduled; `d` are the durations of the record captured by `startTimer`.
     */
    method Tick(d: Durations, now: int)
      requires Valid() && timerActive && ValidDurations(d)
      modifies this
      ensures Valid() && timerActive
      ensures state == Pomodoro.Tick(old(state), d, now)
      ensures old(state.sessionHistory) <= state.sessionHistory
    {
      state := Pomodoro.Tick(state, d, now);
    }

    method SetWorkDuration(minutes: int)
      requires Valid()
      modifies this
      ensures Valid() && timerActive == old(timerActive)
      ensures state == Pomodoro.SetWorkDuration(old(state), minutes)
    {
      state := Pomodoro.SetWorkDuration(state, minutes);
    }

    method SetBreakDuration(minutes: int)
      requires Valid()
      modifies this
      ensures Valid() && timerActive == old(timerActive)
      ensures state == Pomodoro.SetBreakDuration(old(state), minutes)
    {
      state := Pomodoro.SetBreakDuration(state, minutes);
    }

    method SetLongBreakDuration(minutes: int)
      requires Valid()
      modifies this
      ensures Valid() && timerActive == old(timerActive)
      ensures state == Pomodoro.SetLongBreakDuration(old(state), minutes)
    {
      state := Pomodoro.SetLongBreakDuration(state, minutes);
    }

    method SetGoalCycles(cycles: int)
      requires Valid()
      modifies this
      ensures Valid() && timerActive == old(timerActive)
      ensures state == Pomodoro.SetGoalCycles(old(state), cycles)
    {
      state := Pomodoro.SetGoalCycles(state, cycles);
    }

    method SetCyclesBeforeLongBreak(cycles: int)
      requires Valid()
      modifies this
      ensures Valid() && timerActive == old(timerActive)
      ensures state == Pomodoro.SetCyclesBeforeLongBreak(old(state), cycles)
    {
      state := Pomodoro.SetCyclesBeforeLongBreak(state, cycles);
    }

    method SetSessionName(name: string)
      requires Valid()
      modifies this
      ensures Valid() && timerActive == old(timerActive)
      ensures state == Pomodoro.SetSessionName(old(state), name)
    {
      state := Pomodoro.SetSessionName(state, name);
    }

    method DismissNotification()
      requires Valid()
      modifies this
      ensures Valid() && timerActive == old(timerActive)
      ensures state == Pomodoro.DismissNotification(old(state))
    {
      state := Pomodoro.DismissNotification(state);
    }

    /** The progress effect, run after the remaining time, the phase or a duration changed. */
    method SyncProgress()
      requires Valid()
      modifies this
      ensures Valid() && timerActive == old(timerActive)
      ensures state == Pomodoro.SyncProgress(old(state))
    {
      state := Pomodoro.SyncProgress(state);
    }

    /** `formattedTime`: the MM:SS text of the remaining time, which reads back as that time. */
    function FormattedTime(): (t: string)
      reads this
      ensures state.timeRemaining >= 0 ==> ParseClock(t) == Some(state.timeRemaining)
      ensures 0 <= state.timeRemaining < 6000 ==>
        && |t| == 5 && AllDigits(t[..2]) && AllDigits(t[3..])
        && DecimalValue(t[..2]) == state.timeRemaining / 60
        && DecimalValue(t[3..]) == state.timeRemaining % 60
    {
      if 0 <= state.timeRemaining < 6000 then
        FormatTimeRoundTrip(state.timeRemaining);
        FormatTimeFields(state.timeRemaining);
        FormatTime(state.timeRemaining)
      else if state.timeRemaining >= 0 then
        FormatTimeRoundTrip(state.timeRemaining);
        FormatTime(state.timeRemaining)
      else
        FormatTime(state.timeRemaining)
    }
  }
}
