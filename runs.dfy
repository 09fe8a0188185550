/**
 * What holds across any sequence of the hook's operations: the invariant,
 * the history that only grows, the completed-cycle counter that moves in step
 * with the work sessions recorded, and how many ticks a phase lasts.
 */
module Runs {
  import opened Pomodoro
  import opened History

  /** One operation of the hook, as the updater it hands to `setState`. */
  datatype Action =
    | SetRunning(running: bool)
    | DoReset
    | DoTick(d: Durations, now: int)
    | SetWork(minutes: int)
    | SetBreak(minutes: int)
    | SetLongBreak(minutes: int)
    | SetGoal(cycles: int)
    | SetCycles(cycles: int)
    | Rename(name: string)
    | Dismiss
    | Recompute

  /** A tick reads durations the setters produced, so they are in range. */
  predicate Admissible(a: Action) {
    a.DoTick? ==> ValidDurations(a.d)
  }

  function Apply(s: State, a: Action): (r: State)
    requires ValidState(s) && Admissible(a)
    ensures ValidState(r)
  {
    match a
    case SetRunning(running) => WithRunning(s, running)
    case DoReset => Reset(s)
    case DoTick(d, now) => Tick(s, d, now)
    case SetWork(m) => SetWorkDuration(s, m)
    case SetBreak(m) => SetBreakDuration(s, m)
    case SetLongBreak(m) => SetLongBreakDuration(s, m)
    case SetGoal(c) => SetGoalCycles(s, c)
    case SetCycles(c) => SetCyclesBeforeLongBreak(s, c)
    case Rename(name) => SetSessionName(s, name)
    case Dismiss => DismissNotification(s)
    case Recompute => SyncProgress(s)
  }

  /** Applying a whole sequence of operations keeps the invariant and only extends the history. */
  function Run(s: State, actions: seq<Action>): (r: State)
    requires ValidState(s)
    requires forall i :: 0 <= i < |actions| ==> Admissible(actions[i])
    ensures ValidState(r)
    ensures s.sessionHistory <= r.sessionHistory
    decreases |actions|
  {
    if actions == [] then s else Run(Apply(s, actions[0]), actions[1..])
  }

  /** Number of work sessions recorded in a history. */
  function WorkCount(h: seq<SessionRecord>): nat {
    |Filter(h, {Work})|
  }

  /**
   * A single operation other than reset raises the completed-cycle counter by
   * exactly the number of work entries it appends to the history.
   */
  lemma CyclesFollowWorkEntries(s: State, a: Action)
    requires ValidState(s) && Admissible(a) && !a.DoReset?
    ensures Apply(s, a).completedCycles - s.completedCycles
            == WorkCount(Apply(s, a).sessionHistory) - WorkCount(s.sessionHistory)
  {
    var r := Apply(s, a);
    if a.DoTick? && ChangesPhase(s) {
      var rec := FinishedRecord(s, a.d, a.now);
      FilterAppend(s.sessionHistory, [rec], {Work});
      assert [rec][1..] == [];
    } else {
      assert r.sessionHistory == s.sessionHistory;
    }
  }

  /**
   * Between resets the completed-cycle counter grows by exactly the number of
   * work sessions recorded in the history.
   */
  lemma {:induction false} CyclesCountWorkSessions(s: State, actions: seq<Action>)
    requires ValidState(s)
    requires forall i :: 0 <= i < |actions| ==> Admissible(actions[i]) && !actions[i].DoReset?
    ensures Run(s, actions).completedCycles - s.completedCycles
            == WorkCount(Run(s, actions).sessionHistory) - WorkCount(s.sessionHistory)
    decreases |actions|
  {
    if actions != [] {
      CyclesFollowWorkEntries(s, actions[0]);
      CyclesCountWorkSessions(Apply(s, actions[0]), actions[1..]);
    }
  }

  /**
   * A finished phase is recorded at its full configured length, so it adds
   * exactly its configured minutes to the history page's focused total when it
   * was work, and to the break total otherwise.
   */
  lemma PhaseChangeAddsMinutes(s: State, d: Durations, now: int)
    requires ValidState(s) && ValidDurations(d) && ChangesPhase(s)
    ensures WorkMinutes(Tick(s, d, now).sessionHistory)
            == WorkMinutes(s.sessionHistory) + (if s.currentSession == Work then d.work else 0)
    ensures BreakMinutes(Tick(s, d, now).sessionHistory)
            == BreakMinutes(s.sessionHistory) + (if s.currentSession == Work then 0 else SessionDuration(d, s.currentSession))
  {
    var rec := FinishedRecord(s, d, now);
    assert rec.duration == SessionDuration(d, s.currentSession) * 60;
    assert Minutes(rec) == SessionDuration(d, s.currentSession);
    AppendOneSession(s.sessionHistory, rec);
  }

  /** Ticks fired at the given times, in order, with durations `d`. */
  function Ticks(s: State, d: Durations, times: seq<int>): State
    decreases |times|
  {
    if times == [] then s else Ticks(Tick(s, d, times[0]), d, times[1..])
  }

  /** While time remains, `n` ticks take exactly `n` seconds off and change nothing else. */
  lemma {:induction false} CountDown(s: State, d: Durations, times: seq<int>)
    requires |times| <= s.timeRemaining
    ensures Ticks(s, d, times) == s.(timeRemaining := s.timeRemaining - |times|)
    decreases |times|
  {
    if times != [] {
      CountDown(s.(timeRemaining := s.timeRemaining - 1), d, times[1..]);
    }
  }

  /**
   * A phase that starts with `T` seconds on the clock ends on tick `T + 1`: the
   * first `T` ticks count down to zero and the next one changes the phase,
   * recording the finished session with that tick's timestamp.
   */
  lemma PhaseLength(s: State, d: Durations, times: seq<int>)
    requires s.timeRemaining >= 0 && |times| == s.timeRemaining + 1
    ensures Ticks(s, d, times) == Tick(s.(timeRemaining := 0), d, times[|times| - 1])
    ensures |Ticks(s, d, times).sessionHistory| == |s.sessionHistory| + 1
  {
    var k := s.timeRemaining;
    TicksSplit(s, d, times[..k], [times[k]]);
    assert times == times[..k] + [times[k]];
    CountDown(s, d, times[..k]);
  }

  lemma {:induction false} TicksSplit(s: State, d: Durations, a: seq<int>, b: seq<int>)
    ensures Ticks(s, d, a + b) == Ticks(Ticks(s, d, a), d, b)
    decreases |a|
  {
    if a == [] {
      assert a + b == b;
    } else {
      assert (a + b)[1..] == a[1..] + b;
      TicksSplit(Tick(s, d, a[0]), d, a[1..], b);
    }
  }
}
