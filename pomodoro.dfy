/**
 * The Pomodoro timer's state record and the pure updaters the hook hands to
 * `setState(prev => ...)`: the one-second tick, reset, the running flag, the
 * clamping setters, the session name, dismissing the notification, the
 * progress effect and the MM:SS formatter.
 *
 * Durations are minutes, `timeRemaining` and recorded session durations are
 * seconds. The JavaScript numbers are integers here: the setters receive
 * `parseInt` results and every other value is computed from them by `+`, `-`,
 * `*` and `%`.
 */
module Pomodoro {
  import opened Text

  datatype SessionType = Work | Break | LongBreak

  datatype NoticeKind = Success | Info

  datatype Notification = Notification(isVisible: bool, message: string, kind: NoticeKind)

  /** One finished session, as appended to the history. `timestamp` is `Date.now()`, an opaque input. */
  datatype SessionRecord = SessionRecord(kind: SessionType, name: string, duration: int, completed: bool, timestamp: int)

  /** The three configured durations, in minutes. */
  datatype Durations = Durations(work: int, short: int, long: int)

  datatype State = State(
    isRunning: bool,
    currentSession: SessionType,
    sessionName: string,
    timeRemaining: int,
    progress: real,
    workDuration: int,
    breakDuration: int,
    longBreakDuration: int,
    completedCycles: int,
    goalCycles: int,
    cyclesBeforeLongBreak: int,
    notification: Notification,
    sessionHistory: seq<SessionRecord>)

  const DefaultWorkDuration: int := 25
  const DefaultBreakDuration: int := 5
  const DefaultLongBreakDuration: int := 15
  const DefaultGoalCycles: int := 4
  const DefaultCyclesBeforeLongBreak: int := 4

  // The ranges the setters clamp to.
  const MinWork: int := 1
  const MaxWork: int := 60
  const MinBreak: int := 1
  const MaxBreak: int := 30
  const MinLongBreak: int := 5
  const MaxLongBreak: int := 60
  const MinCycles: int := 1
  const MaxCycles: int := 10

  const WorkMessage: string := "Work time! Focus on your task."
  const BreakMessage: string := "Break time! Take a short rest."
  const LongBreakMessage: string := "Long break time! Take a good rest."

  predicate InRange(x: int, lo: int, hi: int) {
    lo <= x <= hi
  }

  predicate ValidDurations(d: Durations) {
    InRange(d.work, MinWork, MaxWork) && InRange(d.short, MinBreak, MaxBreak) && InRange(d.long, MinLongBreak, MaxLongBreak)
  }

  function DurationsOf(s: State): Durations {
    Durations(s.workDuration, s.breakDuration, s.longBreakDuration)
  }

  /** The invariant every reachable state keeps. */
  predicate ValidState(s: State) {
    && ValidDurations(DurationsOf(s))
    && InRange(s.goalCycles, MinCycles, MaxCycles)
    && InRange(s.cyclesBeforeLongBreak, MinCycles, MaxCycles)
    && s.timeRemaining >= 0
    && s.completedCycles >= 0
  }

  /** The module-level `pomodoroState` the hook starts from. */
  function Initial(): (s: State)
    ensures ValidState(s)
    ensures !s.isRunning && s.currentSession == Work && s.sessionName == DefaultSessionName(Work)
    ensures s.timeRemaining == s.workDuration * 60 == 1500
    ensures s.completedCycles == 0 && s.sessionHistory == [] && !s.notification.isVisible
  {
    State(
      isRunning := false,
      currentSession := Work,
      sessionName := "Work Session",
      timeRemaining := DefaultWorkDuration * 60,
      progress := 0.0,
      workDuration := DefaultWorkDuration,
      breakDuration := DefaultBreakDuration,
      longBreakDuration := DefaultLongBreakDuration,
      completedCycles := 0,
      goalCycles := DefaultGoalCycles,
      cyclesBeforeLongBreak := DefaultCyclesBeforeLongBreak,
      notification := Notification(false, "", Info),
      sessionHistory := [])
  }

  /** `getSessionDuration`: the configured minutes of a phase. */
  function SessionDuration(d: Durations, kind: SessionType): (minutes: int)
    ensures kind == Work ==> minutes == d.work
    ensures kind == Break ==> minutes == d.short
    ensures kind == LongBreak ==> minutes == d.long
    ensures ValidDurations(d) ==> MinWork <= minutes <= MaxWork
  {
    match kind
    case Work => d.work
    case Break => d.short
    case LongBreak => d.long
  }

  /** `getDefaultSessionName`. */
  function DefaultSessionName(kind: SessionType): (name: string)
    ensures |name| > 0
  {
    match kind
    case Work => "Work Session"
    case Break => "Short Break"
    case LongBreak => "Long Break"
  }

  /** Each phase has its own default name, so the name tells the phase. */
  lemma DefaultSessionNameInjective(a: SessionType, b: SessionType)
    ensures DefaultSessionName(a) == DefaultSessionName(b) ==> a == b
  {
  }

  /**
   * `n % k === 0` in JavaScript. `n % 0` is NaN there, which equals nothing, so
   * a zero divisor never divides.
   */
  predicate Divides(k: int, n: int) {
    k != 0 && n % k == 0
  }

  /** For a positive interval, dividing is being a whole multiple of it; a zero interval divides nothing. */
  lemma DividesMeansMultiple(k: int, n: int)
    ensures !Divides(0, n)
    ensures k > 0 ==> (Divides(k, n) <==> n == (n / k) * k)
    ensures k > 0 && n > 0 && Divides(k, n) ==> n >= k
  {
    if k > 0 {
      assert n == (n / k) * k + n % k;
      if n > 0 && Divides(k, n) {
        assert n / k >= 1;
        assert (n / k) * k >= k;
      }
    }
  }

  /** The phase that follows `finished`, given the completed-cycle count after it. */
  function NextSession(finished: SessionType, cycles: int, cyclesBeforeLongBreak: int): (next: SessionType)
    ensures (next == Work) == (finished != Work)
    ensures next == LongBreak <==> finished == Work && cycles > 0 && Divides(cyclesBeforeLongBreak, cycles)
  {
    if finished == Work then
      if cycles > 0 && Divides(cyclesBeforeLongBreak, cycles) then LongBreak else Break
    else
      Work
  }

  function PhaseMessage(next: SessionType): (message: string)
    ensures |message| > 0
  {
    match next
    case Work => WorkMessage
    case Break => BreakMessage
    case LongBreak => LongBreakMessage
  }

  /** Each phase announces itself with its own message. */
  lemma PhaseMessagesDiffer(a: SessionType, b: SessionType)
    ensures PhaseMessage(a) == PhaseMessage(b) ==> a == b
  {
  }

  /** The notification shown when the timer moves into `next`. */
  function PhaseNotification(next: SessionType): (n: Notification)
    ensures n.isVisible
    ensures (n.kind == Info) == (next == Work)
    ensures |n.message| > 0
  {
    Notification(true, PhaseMessage(next), if next == Work then Info else Success)
  }

  /** The history entry written when the current phase ends. */
  function FinishedRecord(s: State, d: Durations, now: int): (rec: SessionRecord)
    ensures rec.kind == s.currentSession && rec.name == s.sessionName
    ensures rec.completed && rec.timestamp == now
    ensures rec.duration + s.timeRemaining == SessionDuration(d, s.currentSession) * 60
    // A phase that ran down to zero is recorded at its full configured length, at least one minute.
    ensures ValidDurations(d) && s.timeRemaining == 0 ==>
      rec.duration == SessionDuration(d, s.currentSession) * 60 && rec.duration >= 60
  {
    SessionRecord(s.currentSession, s.sessionName, SessionDuration(d, s.currentSession) * 60 - s.timeRemaining, true, now)
  }

  /**
   * One run of the interval callback. `d` are the durations the callback reads:
   * those of the state captured when the timer was started, which the caller
   * supplies; `now` is `Date.now()`.
   */
  function Tick(s: State, d: Durations, now: int): (r: State)
    // Counting down: only the remaining time moves, by exactly one second.
    ensures s.timeRemaining > 0 ==> r == s.(timeRemaining := s.timeRemaining - 1)
    // At zero the phase changes ...
    ensures s.timeRemaining <= 0 && s.currentSession == Work ==>
      && r.completedCycles == s.completedCycles + 1
      && r.currentSession != Work
      && (r.currentSession == LongBreak <==> r.completedCycles > 0 && Divides(s.cyclesBeforeLongBreak, r.completedCycles))
    ensures s.timeRemaining <= 0 && s.currentSession != Work ==>
      r.currentSession == Work && r.completedCycles == s.completedCycles
    // ... the new phase starts full, under its default name, with its notification ...
    ensures s.timeRemaining <= 0 ==>
      && r.timeRemaining == SessionDuration(d, r.currentSession) * 60
      && r.sessionName == DefaultSessionName(r.currentSession)
      && r.notification == PhaseNotification(r.currentSession)
    // ... and exactly one entry describing the finished phase is appended.
    ensures s.timeRemaining <= 0 ==>
      && |r.sessionHistory| == |s.sessionHistory| + 1
      && r.sessionHistory[..|s.sessionHistory|] == s.sessionHistory
      && r.sessionHistory[|s.sessionHistory|] ==
           SessionRecord(s.currentSession, s.sessionName, SessionDuration(d, s.currentSession) * 60 - s.timeRemaining, true, now)
    // Settings, the running flag and progress are never touched by a tick.
    ensures DurationsOf(r) == DurationsOf(s) && r.goalCycles == s.goalCycles
    ensures r.cyclesBeforeLongBreak == s.cyclesBeforeLongBreak
    ensures r.isRunning == s.isRunning && r.progress == s.progress
    ensures ValidState(s) && ValidDurations(d) ==> ValidState(r)
  {
    if s.timeRemaining <= 0 then
      var cycles := if s.currentSession == Work then s.completedCycles + 1 else s.completedCycles;
      var next := NextSession(s.currentSession, cycles, s.cyclesBeforeLongBreak);
      s.(
        currentSession := next,
        sessionName := DefaultSessionName(next),
        timeRemaining := SessionDuration(d, next) * 60,
        completedCycles := cycles,
        sessionHistory := s.sessionHistory + [FinishedRecord(s, d, now)],
        notification := PhaseNotification(next))
    else
      s.(timeRemaining := s.timeRemaining - 1)
  }

  /** A phase change happens exactly on the tick that finds the clock at zero. */
  predicate ChangesPhase(s: State) {
    s.timeRemaining <= 0
  }

  /** The updater of `startTimer` and `pauseTimer`: only the running flag. */
  function WithRunning(s: State, running: bool): (r: State)
    ensures r.isRunning == running
    ensures r.(isRunning := s.isRunning) == s
    ensures ValidState(s) ==> ValidState(r)
  {
    s.(isRunning := running)
  }

  /** The hidden notification that `resetTimer` installs. */
  const HiddenNotification: Notification := Notification(false, "", Info)

  /** `resetTimer`'s updater. */
  function Reset(s: State): (r: State)
    ensures !r.isRunning && r.currentSession == Work && r.sessionName == DefaultSessionName(Work)
    ensures r.timeRemaining == s.workDuration * 60 && r.completedCycles == 0
    ensures r.notification == HiddenNotification
    ensures DurationsOf(r) == DurationsOf(s) && r.goalCycles == s.goalCycles
    ensures r.cyclesBeforeLongBreak == s.cyclesBeforeLongBreak
    ensures r.sessionHistory == s.sessionHistory && r.progress == s.progress
    ensures ValidState(s) ==> ValidState(r)
  {
    s.(
      isRunning := false,
      currentSession := Work,
      sessionName := DefaultSessionName(Work),
      timeRemaining := s.workDuration * 60,
      completedCycles := 0,
      notification := HiddenNotification)
  }

  /** Resetting twice is resetting once. */
  lemma ResetIdempotent(s: State)
    ensures Reset(Reset(s)) == Reset(s)
  {
  }

  /** The two range checks each setter makes: raise to `lo`, then cap at `hi`. */
  function Clamp(x: int, lo: int, hi: int): (r: int)
    requires lo <= hi
    ensures lo <= r <= hi
    ensures lo <= x <= hi ==> r == x
    ensures x < lo ==> r == lo
    ensures x > hi ==> r == hi
  {
    var raised := if x < lo then lo else x;
    if raised > hi then hi else raised
  }

  /**
   * The shared shape of the three duration setters: store `minutes` for `kind`;
   * when the current phase is `kind`, restart its countdown and its progress.
   */
  function WithDuration(s: State, kind: SessionType, minutes: int): (r: State)
    ensures SessionDuration(DurationsOf(r), kind) == minutes
    ensures forall k :: k != kind ==> SessionDuration(DurationsOf(r), k) == SessionDuration(DurationsOf(s), k)
    ensures s.currentSession == kind ==> r.timeRemaining == minutes * 60 && r.progress == 0.0
    ensures s.currentSession != kind ==> r.timeRemaining == s.timeRemaining && r.progress == s.progress
    ensures r.(workDuration := s.workDuration, breakDuration := s.breakDuration,
               longBreakDuration := s.longBreakDuration, timeRemaining := s.timeRemaining,
               progress := s.progress) == s
  {
    var restart := s.currentSession == kind;
    var t := if restart then minutes * 60 else s.timeRemaining;
    var p := if restart then 0.0 else s.progress;
    match kind
    case Work => s.(workDuration := minutes, timeRemaining := t, progress := p)
    case Break => s.(breakDuration := minutes, timeRemaining := t, progress := p)
    case LongBreak => s.(longBreakDuration := minutes, timeRemaining := t, progress := p)
  }

  /** `setWorkDuration`: clamp to [1, 60]. */
  function SetWorkDuration(s: State, minutes: int): (r: State)
    ensures r.workDuration == Clamp(minutes, MinWork, MaxWork)
    ensures r == WithDuration(s, Work, r.workDuration)
    ensures ValidState(s) ==> ValidState(r)
  {
    WithDuration(s, Work, Clamp(minutes, MinWork, MaxWork))
  }

  /** `setBreakDuration`: clamp to [1, 30]. */
  function SetBreakDuration(s: State, minutes: int): (r: State)
    ensures r.breakDuration == Clamp(minutes, MinBreak, MaxBreak)
    ensures r == WithDuration(s, Break, r.breakDuration)
    ensures ValidState(s) ==> ValidState(r)
  {
    WithDuration(s, Break, Clamp(minutes, MinBreak, MaxBreak))
  }

  /** `setLongBreakDuration`: clamp to [5, 60]. */
  function SetLongBreakDuration(s: State, minutes: int): (r: State)
    ensures r.longBreakDuration == Clamp(minutes, MinLongBreak, MaxLongBreak)
    ensures r == WithDuration(s, LongBreak, r.longBreakDuration)
    ensures ValidState(s) ==> ValidState(r)
  {
    WithDuration(s, LongBreak, Clamp(minutes, MinLongBreak, MaxLongBreak))
  }

  /** `setGoalCycles`: clamp to [1, 10]; nothing else changes. */
  function SetGoalCycles(s: State, cycles: int): (r: State)
    ensures r.goalCycles == Clamp(cycles, MinCycles, MaxCycles) && r.(goalCycles := s.goalCycles) == s
    ensures ValidState(s) ==> ValidState(r)
  {
    s.(goalCycles := Clamp(cycles, MinCycles, MaxCycles))
  }

  /** `setCyclesBeforeLongBreak`: clamp to [1, 10], which keeps the tick's `%` defined. */
  function SetCyclesBeforeLongBreak(s: State, cycles: int): (r: State)
    ensures r.cyclesBeforeLongBreak == Clamp(cycles, MinCycles, MaxCycles)
    ensures r.(cyclesBeforeLongBreak := s.cyclesBeforeLongBreak) == s
    ensures r.cyclesBeforeLongBreak != 0
    ensures ValidState(s) ==> ValidState(r)
  {
    s.(cyclesBeforeLongBreak := Clamp(cycles, MinCycles, MaxCycles))
  }

  /** `setSessionName`: any text is accepted. */
  function SetSessionName(s: State, name: string): (r: State)
    ensures r.sessionName == name && r.(sessionName := s.sessionName) == s
    ensures ValidState(s) ==> ValidState(r)
  {
    s.(sessionName := name)
  }

  /** `dismissNotification`: hides the notification, keeping its message and kind. */
  function DismissNotification(s: State): (r: State)
    ensures !r.notification.isVisible
    ensures r.notification.message == s.notification.message && r.notification.kind == s.notification.kind
    ensures r.(notification := s.notification) == s
    ensures ValidState(s) ==> ValidState(r)
  {
    s.(notification := s.notification.(isVisible := false))
  }

  lemma DismissIdempotent(s: State)
    ensures DismissNotification(DismissNotification(s)) == DismissNotification(s)
  {
  }

  /**
   * The progress effect: the fraction of the current phase already spent, from
   * the state's own durations. The source computes it in floating point.
   */
  function Progress(s: State): (p: real)
    requires ValidState(s)
    ensures s.timeRemaining == SessionDuration(DurationsOf(s), s.currentSession) * 60 ==> p == 0.0
    ensures s.timeRemaining == 0 ==> p == 1.0
    ensures s.timeRemaining <= SessionDuration(DurationsOf(s), s.currentSession) * 60 ==> 0.0 <= p <= 1.0
    ensures p <= 1.0
  {
    var total := SessionDuration(DurationsOf(s), s.currentSession) * 60;
    var spent := (s.timeRemaining as real) / (total as real);
    assert s.timeRemaining == total ==> spent == 1.0;
    assert s.timeRemaining <= total ==> spent <= 1.0 by {
      if s.timeRemaining <= total {
        FractionAtMostOne(s.timeRemaining as real, total as real);
      }
    }
    1.0 - spent
  }

  lemma FractionAtMostOne(a: real, b: real)
    requires 0.0 < b && a <= b
    ensures a / b <= 1.0
  {
    assert (a / b) * b == a;
  }

  /** The effect's updater: store the recomputed progress. */
  function SyncProgress(s: State): (r: State)
    requires ValidState(s)
    ensures r.progress == Progress(s) && r.(progress := s.progress) == s
    ensures ValidState(r)
  {
    s.(progress := Progress(s))
  }

  /** `formatTime`: `Math.floor(s / 60)` and `s % 60`, each padded to two digits, around ':'. */
  function FormatTime(seconds: int): (t: string)
    ensures |t| >= 5
    ensures seconds >= 0 ==> t[|t| - 3] == ':'
    ensures 0 <= seconds < 6000 ==> |t| == 5
  {
    PadTwo(FloorDiv(seconds, 60)) + ":" + PadTwo(JsRem60(seconds))
  }

  /** For any non-negative count of seconds the MM:SS text reads back as that count. */
  lemma FormatTimeRoundTrip(seconds: int)
    requires seconds >= 0
    ensures ParseClock(FormatTime(seconds)) == Some(seconds)
  {
    var m, sec := FloorDiv(seconds, 60), JsRem60(seconds);
    assert m == seconds / 60 && sec == seconds % 60;
    assert m * 60 + sec == seconds;
    var mt, st := PadTwo(m), PadTwo(sec);
    assert FormatTime(seconds) == mt + ":" + st;
    ParseClockParts(mt, st, m, sec);
  }

  /**
   * Below 100 minutes the text is exactly two digits of whole minutes, ':', and
   * two digits of the remaining seconds.
   */
  lemma FormatTimeFields(seconds: int)
    requires 0 <= seconds < 6000
    ensures |FormatTime(seconds)| == 5 && FormatTime(seconds)[2] == ':'
    ensures AllDigits(FormatTime(seconds)[..2]) && DecimalValue(FormatTime(seconds)[..2]) == seconds / 60
    ensures AllDigits(FormatTime(seconds)[3..]) && DecimalValue(FormatTime(seconds)[3..]) == seconds % 60
  {
    var m, sec := FloorDiv(seconds, 60), JsRem60(seconds);
    assert m == seconds / 60 && sec == seconds % 60;
    var mt, st := PadTwo(m), PadTwo(sec);
    assert |mt| == 2 && |st| == 2;
    assert FormatTime(seconds) == mt + ":" + st;
    ClockFields(mt, st);
  }
}
