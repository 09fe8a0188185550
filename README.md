# Pomodoro timer: state machine and history statistics

This project models the core of a Pomodoro timer web application in Dafny.

The timer is the `usePomodoro` hook. It keeps one state record: the phase (work, short break or long break), the seconds remaining, the three configured durations in minutes, the completed-cycle counter, the daily goal, the number of work cycles before a long break, a notification slot and the history of finished sessions. The record changes only through a fixed set of operations:

- a one-second tick, which counts down or, at zero, ends the phase, records it and moves to the next one;
- start, pause and toggle of the running flag;
- reset;
- five clamping setters and a session-name setter;
- dismissing the notification;
- the progress effect.

The `MM:SS` formatter renders the remaining time.

The history page computes statistics from the list of finished sessions:

- which list it reads (stored sessions, or the in-memory history when none are stored);
- the total focused minutes;
- the session count;
- the newest-first table and its `M:SS` duration cell;
- the per-day work and break minute sums;
- the completion rate.

Modules:

- `Text` (text.dfy): JavaScript's integer `toString`, `padStart(…, '0')`, the truncating `%`, `Math.floor` division, and a parser for `minutes:seconds` texts used to state round trips.
- `Pomodoro` (pomodoro.dfy): the state record as a datatype, the invariant `ValidState`, and each `setState(prev => …)` updater as a function.
- `PomodoroHook` (hook.dfy): the hook as a class `Timer`. Its field `state` is the module-level record. Its field `timerActive` says whether an interval is scheduled. There is one method per operation, each applying the updater of `Pomodoro`.
- `Runs` (runs.dfy): properties of whole sequences of operations and of ticks.
- `History` (history.dfy): the statistics of the history page.

`duration` in a session record is in seconds. The hook records `minutes * 60 - timeRemaining` and the history page divides by 60. The comment on the stored column (shared/schema.ts:27) says milliseconds. The model follows the code.

## Model

| member | source | states |
|---|---|---|
| Pomodoro.Initial | client/src/hooks/usePomodoro.ts:43-61 | the starting record is valid: a work phase, not running, 25 minutes on the clock, no completed cycles, an empty history and a hidden notification |
| Pomodoro.SessionDuration | client/src/hooks/usePomodoro.ts:134-145 | a work phase reads the work duration, a short break the break duration and a long break the long-break duration; each lies in 1..60 when the durations are in their ranges |
| Pomodoro.DividesMeansMultiple | client/src/hooks/usePomodoro.ts:194 | the long-break test `n % k === 0` never holds for a zero interval (NaN equals nothing); for a positive interval it holds exactly when n is a whole multiple of it, and a positive such n is at least the interval |
| Pomodoro.DefaultSessionName | client/src/hooks/usePomodoro.ts:148-159 | each phase has a non-empty default name |
| Pomodoro.DefaultSessionNameInjective | client/src/hooks/usePomodoro.ts:148-159 | different phases have different default names |
| Pomodoro.NextSession | client/src/hooks/usePomodoro.ts:186-202 | after work comes a break and after a break comes work; the next phase is a long break exactly when work ended and the new cycle count is a positive multiple of the long-break interval (a zero interval never divides, as `n % 0` is NaN) |
| Pomodoro.PhaseMessage | client/src/hooks/usePomodoro.ts:212-219 | every phase has a non-empty announcement |
| Pomodoro.PhaseMessagesDiffer | client/src/hooks/usePomodoro.ts:212-219 | the three announcements are distinct, so the message tells the phase |
| Pomodoro.PhaseNotification | client/src/hooks/usePomodoro.ts:212-219 | the phase-change notification is visible, non-empty, and of type info exactly when the next phase is work |
| Pomodoro.FinishedRecord | client/src/hooks/usePomodoro.ts:169-175 | the recorded session has the finished phase's type and name, is marked completed, carries the tick's time, and its duration plus the time still on the clock is the phase length; a phase run down to zero is recorded at its full length, at least one minute |
| Pomodoro.Tick | client/src/hooks/usePomodoro.ts:166-244 | with time left, only `timeRemaining` moves, down by one. At zero, a finished work phase adds one cycle and goes to a long break iff the new count divides evenly, else to a break. A finished break goes back to work with the count unchanged. The new phase starts at its full length under its default name with its notification. Exactly one record of the finished phase is appended and earlier entries are kept. Settings, running flag and progress are untouched. Validity is preserved |
| Pomodoro.WithRunning | client/src/hooks/usePomodoro.ts:248-261 | start and pause change only the running flag and keep validity |
| Pomodoro.Reset | client/src/hooks/usePomodoro.ts:265-285 | reset gives a stopped work phase named "Work Session" with the full work duration, zero cycles and a hidden notification; durations, goals, history and progress are kept |
| Pomodoro.ResetIdempotent | client/src/hooks/usePomodoro.ts:265-285 | resetting twice is resetting once |
| Pomodoro.Clamp | client/src/hooks/usePomodoro.ts:297-316 | the two range checks put the value in range, keep an in-range value and map a value below or above the range to the nearer bound |
| Pomodoro.WithDuration | client/src/hooks/usePomodoro.ts:297-371 | a duration setter stores the new minutes for its phase only; when the current phase is that phase it restarts the countdown at the new length with zero progress, otherwise both are unchanged; no other field changes |
| Pomodoro.SetWorkDuration | client/src/hooks/usePomodoro.ts:297-316 | the work duration becomes the input clamped to 1..60, with the restart rule of WithDuration; validity is preserved |
| Pomodoro.SetBreakDuration | client/src/hooks/usePomodoro.ts:319-338 | the short break becomes the input clamped to 1..30, with the restart rule; validity is preserved |
| Pomodoro.SetLongBreakDuration | client/src/hooks/usePomodoro.ts:352-371 | the long break becomes the input clamped to 5..60, with the restart rule; validity is preserved |
| Pomodoro.SetGoalCycles | client/src/hooks/usePomodoro.ts:341-349 | only the goal changes, to the input clamped to 1..10 |
| Pomodoro.SetCyclesBeforeLongBreak | client/src/hooks/usePomodoro.ts:374-382 | only the long-break interval changes, to the input clamped to 1..10, so it is never zero |
| Pomodoro.SetSessionName | client/src/hooks/usePomodoro.ts:385-390 | only the name changes, to any text |
| Pomodoro.DismissNotification | client/src/hooks/usePomodoro.ts:393-401 | the notification becomes hidden, with its message and type kept; nothing else changes |
| Pomodoro.DismissIdempotent | client/src/hooks/usePomodoro.ts:393-401 | dismissing twice is dismissing once |
| Pomodoro.Progress | client/src/hooks/usePomodoro.ts:121-131 | progress is 0 at the start of a phase, 1 when the clock reaches zero, and between 0 and 1 while the remaining time is within the phase length |
| Pomodoro.SyncProgress | client/src/hooks/usePomodoro.ts:121-131 | the effect stores the recomputed progress and keeps validity |
| Pomodoro.FormatTime | client/src/hooks/usePomodoro.ts:404-408 | the text has at least five characters, a ':' three from the end for non-negative input, and exactly five characters below 6000 seconds |
| Pomodoro.FormatTimeRoundTrip | client/src/hooks/usePomodoro.ts:404-408 | for any non-negative number of seconds, the MM:SS text reads back as that number, with a seconds field below 60 |
| Pomodoro.FormatTimeFields | client/src/hooks/usePomodoro.ts:404-408 | below 100 minutes the text is two digits denoting `floor(s/60)`, ':', and two digits denoting `s % 60` |
| PomodoroHook.Timer.constructor | client/src/hooks/usePomodoro.ts:43-73 | the hook starts from the initial record with no interval scheduled |
| PomodoroHook.Timer.Start | client/src/hooks/usePomodoro.ts:162-251 | with an interval already scheduled nothing changes; otherwise the interval is scheduled and the record starts running |
| PomodoroHook.Timer.Pause | client/src/hooks/usePomodoro.ts:254-262 | the interval is cleared and the record stops running |
| PomodoroHook.Timer.Reset | client/src/hooks/usePomodoro.ts:265-285 | the interval is cleared and the record is the reset of the old one |
| PomodoroHook.Timer.Toggle | client/src/hooks/usePomodoro.ts:288-294 | a running timer is paused and a stopped one started: the running flag and the interval flip together |
| PomodoroHook.Timer.Tick | client/src/hooks/usePomodoro.ts:165-244 | one firing of the interval applies the tick updater and keeps the invariant; the history only grows |
| PomodoroHook.Timer.SetWorkDuration | client/src/hooks/usePomodoro.ts:297-316 | the record becomes SetWorkDuration of the old one; the interval is untouched |
| PomodoroHook.Timer.SetBreakDuration | client/src/hooks/usePomodoro.ts:319-338 | the record becomes SetBreakDuration of the old one |
| PomodoroHook.Timer.SetLongBreakDuration | client/src/hooks/usePomodoro.ts:352-371 | the record becomes SetLongBreakDuration of the old one |
| PomodoroHook.Timer.SetGoalCycles | client/src/hooks/usePomodoro.ts:341-349 | the record becomes SetGoalCycles of the old one |
| PomodoroHook.Timer.SetCyclesBeforeLongBreak | client/src/hooks/usePomodoro.ts:374-382 | the record becomes SetCyclesBeforeLongBreak of the old one |
| PomodoroHook.Timer.SetSessionName | client/src/hooks/usePomodoro.ts:385-390 | the record becomes SetSessionName of the old one |
| PomodoroHook.Timer.DismissNotification | client/src/hooks/usePomodoro.ts:393-401 | the record becomes DismissNotification of the old one |
| PomodoroHook.Timer.SyncProgress | client/src/hooks/usePomodoro.ts:121-131 | the progress effect stores the recomputed progress |
| PomodoroHook.Timer.FormattedTime | client/src/hooks/usePomodoro.ts:412 | the text shown reads back as the remaining seconds; below 100 minutes it is two digits of whole minutes, ':', and two digits of the seconds left over |
| Runs.Apply | client/src/hooks/usePomodoro.ts:162-401 | every operation keeps the invariant: durations and cycle settings in their ranges, time remaining and completed cycles non-negative |
| Runs.Run | client/src/hooks/usePomodoro.ts:162-401 | any sequence of operations keeps the invariant, and the history it ends with extends the one it started with |
| Runs.CyclesFollowWorkEntries | client/src/hooks/usePomodoro.ts:169-231 | an operation other than reset raises the completed-cycle counter by exactly the number of work sessions it records |
| Runs.CyclesCountWorkSessions | client/src/hooks/usePomodoro.ts:169-231 | between resets, the completed-cycle counter grows by exactly the number of work sessions added to the history |
| Runs.PhaseChangeAddsMinutes | client/src/hooks/usePomodoro.ts:169-175 | a finished phase is recorded at its full length, so it adds its configured minutes to the focused total when it was work and to the break total otherwise |
| Runs.CountDown | client/src/hooks/usePomodoro.ts:240-243 | while time remains, n ticks take exactly n seconds off and change nothing else |
| Runs.PhaseLength | client/src/hooks/usePomodoro.ts:166-244 | a phase with T seconds on the clock ends on tick T + 1, which appends one record stamped with that tick's time |
| Runs.TicksSplit | client/src/hooks/usePomodoro.ts:165-244 | running two batches of ticks one after the other is running them as one batch |
| Text.NatToDecimal | client/src/hooks/usePomodoro.ts:407 | the rendering of a natural number is a non-empty digit string without leading zero, one digit exactly below 10 and at most two below 100 |
| Text.DecimalRoundTrip | client/src/hooks/usePomodoro.ts:407 | the rendered digits read back as the number |
| Text.PadStart | client/src/hooks/usePomodoro.ts:407 | padding yields the longer of the input and the width, ends with the input and has only '0' in front of it |
| Text.PadStartValue | client/src/hooks/usePomodoro.ts:407 | padding a digit string with zeros keeps the number it denotes |
| Text.IntToDecimal | client/src/pages/history.tsx:228 | a negative integer renders as '-' followed by the digits of its magnitude |
| Text.PadTwo | client/src/hooks/usePomodoro.ts:407 | a non-negative field renders as digits denoting it, of length exactly two below 100 |
| Text.JsRem60 | client/src/hooks/usePomodoro.ts:406 | the remainder takes the sign of the dividend, stays below 60 in magnitude and differs from the dividend by a multiple of 60 |
| Text.FloorDiv | client/src/hooks/usePomodoro.ts:405 | the quotient is the largest q with q times the divisor at most the dividend |
| Text.ParseClockParts | client/src/hooks/usePomodoro.ts:407 | digits for m, a ':' and two digits for s below 60 read back as m * 60 + s seconds |
| Text.TwoDigits | client/src/hooks/usePomodoro.ts:406-407 | a two-digit seconds field denotes less than 60 exactly when its first digit is at most '5' |
| History.SessionSource | client/src/pages/history.tsx:34-42 | the page reads the stored sessions, converted one for one, when there are any, and the in-memory history otherwise |
| History.FromDbForgetsOnlyId | client/src/pages/history.tsx:35-41 | two stored rows convert to the same record exactly when they differ at most in their id |
| History.Filter | client/src/pages/history.tsx:63-69 | the filtered list is no longer than the list, holds only entries of the chosen types, and holds every such entry |
| History.FilterCounts | client/src/pages/history.tsx:63-69 | filtering keeps each entry of a chosen type exactly as many times as it occurs, and no other entry |
| History.FilterAppend | client/src/pages/history.tsx:63-69 | filtering distributes over concatenation |
| History.SumMinutesNonNegative | client/src/pages/history.tsx:83-85 | sessions of non-negative length sum to non-negative minutes |
| History.Minutes | client/src/pages/history.tsx:83-85 | a session's minutes are `Math.floor(duration / 60)`: the largest m with 60m at most the duration, non-negative for a non-negative duration |
| History.SumAppend | client/src/pages/history.tsx:83-85 | the minute sum of two lists joined is the sum of their sums |
| History.FocusedMinutesAreWork | client/src/pages/history.tsx:63-65 | the focused total is 0 for a list of breaks only and the full minute sum for a list of work sessions only (the same fold serves the total card at lines 83-85) |
| History.BreakMinutesAreBreaks | client/src/pages/history.tsx:67-69 | the break sum is 0 for a list of work sessions only and the full minute sum for a list of short and long breaks |
| History.MinutesOfAppend | client/src/pages/history.tsx:63-69 | minute sums of a concatenation add up |
| History.AppendOneSession | client/src/pages/history.tsx:83-85 | one more work entry adds its whole minutes to the focused total and nothing to the break sum; one more break entry does the opposite |
| History.WorkAndBreakCoverAll | client/src/pages/history.tsx:63-69 | the work sum and the break sum together hold every session's minutes, so long breaks count as breaks |
| History.WorkAndBreakCountAll | client/src/pages/history.tsx:63-69 | every session is counted exactly once, as work or as a break |
| History.TotalSessions | client/src/pages/history.tsx:87 | the count is the number of work entries plus the number of break entries, regardless of completion |
| History.MinutesOfPermutation | client/src/pages/history.tsx:80-85 | the minute sums depend only on which sessions there are, not their order |
| History.NewestFirstOrdered | client/src/pages/history.tsx:80 | a list is newest-first (each entry at least as new as the next) exactly when no later entry is newer than an earlier one |
| History.Insert | client/src/pages/history.tsx:80 | inserting makes the list one longer and puts in front either the new entry or the old head |
| History.InsertOrdered | client/src/pages/history.tsx:80 | inserting into a newest-first list keeps it newest-first |
| History.InsertCounts | client/src/pages/history.tsx:80 | inserting adds exactly that entry and loses none |
| History.SortNewestFirst | client/src/pages/history.tsx:80 | the sorted copy is newest-first and a permutation of the list |
| History.SortIsStable | client/src/pages/history.tsx:80 | sessions with equal timestamps keep their relative order |
| History.DurationCell | client/src/pages/history.tsx:228 | the cell has at least four characters and, for a non-negative duration, a ':' three from the end |
| History.DurationCellMinutes | client/src/pages/history.tsx:228 | the minutes field is not padded: the cell has four characters exactly below ten minutes, and a longer cell never starts with '0' |
| History.DurationCellRoundTrip | client/src/pages/history.tsx:228 | for a non-negative duration the cell reads back as that many seconds |
| History.DurationCellMatchesClock | client/src/pages/history.tsx:228 | from ten minutes up the cell shows the same text as the timer face |
| History.CompletionRate | client/src/pages/history.tsx:90-92 | the rate is 0 when the goal is not positive, and otherwise 100 * completed / goal rounded half up |
| History.PageStatistics | client/src/pages/history.tsx:34-92 | the table is a newest-first permutation of the chosen list, the session count is its length, the focused total equals that of the table, and the rate is 0 with no goal |

## Left out

- React plumbing is not modelled: `useState`/`useEffect` syncing with the module-level record, `useRef` handles and `setInterval` scheduling. A tick is an explicit method call, and the progress effect is the explicit method `SyncProgress`.
- Pomodoro.Tick: takes the durations to use as an input. In the source the interval callback reads the durations of the record captured when `startTimer` ran, so durations changed while the timer runs are not seen. The caller supplies them; the closure capture itself is not reproduced.
- Network and persistence are not modelled: the session queries, the POST of a finished session, the server routes, the storage layer, the schema and authentication. They are I/O.
- Audio playback and `Date.now()` are not modelled; timestamps are opaque integer inputs, and a stored session's timestamp is taken as already converted by `new Date(...).getTime()`.
- Pomodoro.Progress: computed exactly as a real number, not in floating point.
- History.CompletionRate: computed exactly with round-half-up; `Math.round` of a floating-point quotient can differ at the last bit.
- The seven-day chart bucketing by local calendar day is not modelled; it needs local-time dates. The per-day sums are modelled as WorkMinutes and BreakMinutes of whatever list of sessions a day holds.
- Text.NatToDecimal: renders integers only; JavaScript's exponent notation from 1e21 up is not modelled.
- Pages, components, routing, theme and the UI-side clamps of the settings form are not modelled; they forward to the setters modelled here.
