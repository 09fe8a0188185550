/**
 * The statistics of the history page: which list of sessions it reads, the
 * focused minutes, the session count, the newest-first table with its
 * `M:SS` duration cells, the per-day work and break sums and the completion
 * rate. Everything here is a function of the lists it is given.
 */
module History {
  import opened Text
  import opened Pomodoro

  /** A row of the sessions table as the server returns it. */
  datatype DbSession = DbSession(id: int, kind: SessionType, name: string, duration: int, completed: bool, timestamp: int)

  /** The `dbSessions.map(...)` conversion: the row without its id. */
  function FromDb(row: DbSession): SessionRecord {
    SessionRecord(row.kind, row.name, row.duration, row.completed, row.timestamp)
  }

  /** The conversion keeps type, name, duration, completion and time, and forgets only the id. */
  lemma FromDbForgetsOnlyId(row: DbSession, other: DbSession)
    ensures FromDb(row) == FromDb(other) <==> row.(id := other.id) == other
  {
  }

  /** The list the page works on: the stored sessions when there are any, else the in-memory history. */
  function SessionSource(db: seq<DbSession>, local: seq<SessionRecord>): (h: seq<SessionRecord>)
    ensures |db| > 0 ==> |h| == |db| && forall i :: 0 <= i < |db| ==> h[i] == FromDb(db[i])
    ensures |db| == 0 ==> h == local
  {
    if |db| > 0 then seq(|db|, i requires 0 <= i < |db| => FromDb(db[i])) else local
  }

  /** `sessions.filter(s => kinds contains s.type)`, order kept. */
  function Filter(h: seq<SessionRecord>, kinds: set<SessionType>): (r: seq<SessionRecord>)
    ensures |r| <= |h|
    ensures forall i :: 0 <= i < |r| ==> r[i].kind in kinds && r[i] in h
    ensures forall i :: 0 <= i < |h| && h[i].kind in kinds ==> h[i] in r
  {
    if h == [] then []
    else (if h[0].kind in kinds then [h[0]] else []) + Filter(h[1..], kinds)
  }

  lemma {:induction false} FilterAppend(a: seq<SessionRecord>, b: seq<SessionRecord>, kinds: set<SessionType>)
    ensures Filter(a + b, kinds) == Filter(a, kinds) + Filter(b, kinds)
    decreases |a|
  {
    if a == [] {
      assert a + b == b;
    } else {
      assert (a + b)[1..] == a[1..] + b;
      FilterAppend(a[1..], b, kinds);
    }
  }

  /** Filtering keeps every entry of a chosen type as often as it occurs, and no other entry. */
  lemma {:induction false} FilterCounts(h: seq<SessionRecord>, kinds: set<SessionType>)
    ensures forall x :: multiset(Filter(h, kinds))[x] == (if x.kind in kinds then multiset(h)[x] else 0)
    decreases |h|
  {
    if h != [] {
      FilterCounts(h[1..], kinds);
      var head := if h[0].kind in kinds then [h[0]] else [];
      assert h == [h[0]] + h[1..];
      assert multiset(h) == multiset{h[0]} + multiset(h[1..]);
      assert multiset(Filter(h, kinds)) == multiset(head) + multiset(Filter(h[1..], kinds));
    }
  }

  /** `Math.floor(s.duration / 60)`: whole minutes of a session. */
  function Minutes(r: SessionRecord): (m: int)
    ensures m * 60 <= r.duration < m * 60 + 60
    ensures r.duration >= 0 ==> m >= 0
  {
    FloorDiv(r.duration, 60)
  }

  /** `reduce((acc, s) => acc + Math.floor(s.duration / 60), 0)`. */
  function SumMinutes(h: seq<SessionRecord>): int {
    if h == [] then 0 else Minutes(h[0]) + SumMinutes(h[1..])
  }

  /** Sessions of non-negative length add up to a non-negative number of minutes. */
  lemma {:induction false} SumMinutesNonNegative(h: seq<SessionRecord>)
    requires forall i :: 0 <= i < |h| ==> h[i].duration >= 0
    ensures SumMinutes(h) >= 0
  {
    if h != [] {
      SumMinutesNonNegative(h[1..]);
    }
  }

  lemma {:induction false} SumAppend(a: seq<SessionRecord>, b: seq<SessionRecord>)
    ensures SumMinutes(a + b) == SumMinutes(a) + SumMinutes(b)
    decreases |a|
  {
    if a == [] {
      assert a + b == b;
    } else {
      assert (a + b)[1..] == a[1..] + b;
      SumAppend(a[1..], b);
    }
  }

  /** Minutes spent in sessions of the given types. */
  function MinutesOf(h: seq<SessionRecord>, kinds: set<SessionType>): int {
    SumMinutes(Filter(h, kinds))
  }

  /** Focused minutes: work sessions only (the total card, and each day's work bar). */
  function WorkMinutes(h: seq<SessionRecord>): int {
    MinutesOf(h, {Work})
  }

  /** Each day's break bar: short and long breaks together. */
  function BreakMinutes(h: seq<SessionRecord>): int {
    MinutesOf(h, {Break, LongBreak})
  }

  lemma {:induction false} FilterAll(h: seq<SessionRecord>, kinds: set<SessionType>)
    requires forall i :: 0 <= i < |h| ==> h[i].kind in kinds
    ensures Filter(h, kinds) == h
    decreases |h|
  {
    if h != [] {
      FilterAll(h[1..], kinds);
      assert h[0].kind in kinds;
      assert Filter(h, kinds) == [h[0]] + h[1..];
    }
  }

  lemma FilterNone(h: seq<SessionRecord>, kinds: set<SessionType>)
    requires forall i :: 0 <= i < |h| ==> h[i].kind !in kinds
    ensures Filter(h, kinds) == []
  {
  }

  /** Only work sessions reach the focused total: breaks of either length add nothing to it. */
  lemma FocusedMinutesAreWork(h: seq<SessionRecord>)
    ensures (forall i :: 0 <= i < |h| ==> h[i].kind != Work) ==> WorkMinutes(h) == 0
    ensures (forall i :: 0 <= i < |h| ==> h[i].kind == Work) ==> WorkMinutes(h) == SumMinutes(h)
  {
    if forall i :: 0 <= i < |h| ==> h[i].kind != Work {
      FilterNone(h, {Work});
    }
    if forall i :: 0 <= i < |h| ==> h[i].kind == Work {
      FilterAll(h, {Work});
    }
  }

  /** The break sum takes short and long breaks alike, and no work session. */
  lemma BreakMinutesAreBreaks(h: seq<SessionRecord>)
    ensures (forall i :: 0 <= i < |h| ==> h[i].kind == Work) ==> BreakMinutes(h) == 0
    ensures (forall i :: 0 <= i < |h| ==> h[i].kind != Work) ==> BreakMinutes(h) == SumMinutes(h)
  {
    if forall i :: 0 <= i < |h| ==> h[i].kind == Work {
      FilterNone(h, {Break, LongBreak});
    }
    if forall i :: 0 <= i < |h| ==> h[i].kind != Work {
      forall i | 0 <= i < |h| ensures h[i].kind in {Break, LongBreak} {
        assert h[i].kind != Work;
      }
      FilterAll(h, {Break, LongBreak});
    }
  }

  lemma MinutesOfAppend(a: seq<SessionRecord>, b: seq<SessionRecord>, kinds: set<SessionType>)
    ensures MinutesOf(a + b, kinds) == MinutesOf(a, kinds) + MinutesOf(b, kinds)
  {
    FilterAppend(a, b, kinds);
    SumAppend(Filter(a, kinds), Filter(b, kinds));
  }

  /**
   * A new entry moves the focused minutes by its whole minutes when it is a
   * work session and leaves them alone when it is a break; for the break sum
   * it is the other way round.
   */
  lemma AppendOneSession(h: seq<SessionRecord>, r: SessionRecord)
    ensures WorkMinutes(h + [r]) == WorkMinutes(h) + (if r.kind == Work then Minutes(r) else 0)
    ensures BreakMinutes(h + [r]) == BreakMinutes(h) + (if r.kind != Work then Minutes(r) else 0)
  {
    MinutesOfAppend(h, [r], {Work});
    MinutesOfAppend(h, [r], {Break, LongBreak});
    assert [r][1..] == [];
  }

  lemma MinutesOfCons(h: seq<SessionRecord>, kinds: set<SessionType>)
    requires h != []
    ensures MinutesOf(h, kinds) == (if h[0].kind in kinds then Minutes(h[0]) else 0) + MinutesOf(h[1..], kinds)
    ensures |Filter(h, kinds)| == (if h[0].kind in kinds then 1 else 0) + |Filter(h[1..], kinds)|
  {
    var head := if h[0].kind in kinds then [h[0]] else [];
    SumAppend(head, Filter(h[1..], kinds));
    if head != [] {
      assert head[1..] == [];
    }
  }

  /** Every session is either work or a break, so the two bars together hold all minutes. */
  lemma {:induction false} WorkAndBreakCoverAll(h: seq<SessionRecord>)
    ensures WorkMinutes(h) + BreakMinutes(h) == SumMinutes(h)
  {
    if h != [] {
      WorkAndBreakCoverAll(h[1..]);
      var w, b := MinutesOf(h[1..], {Work}), MinutesOf(h[1..], {Break, LongBreak});
      assert w + b == SumMinutes(h[1..]);
      MinutesOfCons(h, {Work});
      MinutesOfCons(h, {Break, LongBreak});
      var m := Minutes(h[0]);
      assert SumMinutes(h) == m + SumMinutes(h[1..]);
      if h[0].kind == Work {
        assert WorkMinutes(h) == m + w && BreakMinutes(h) == b;
      } else {
        assert WorkMinutes(h) == w && BreakMinutes(h) == m + b;
      }
    }
  }

  /** Likewise every session is counted either among the work sessions or among the breaks. */
  lemma {:induction false} WorkAndBreakCountAll(h: seq<SessionRecord>)
    ensures |Filter(h, {Work})| + |Filter(h, {Break, LongBreak})| == |h|
  {
    if h != [] {
      WorkAndBreakCountAll(h[1..]);
      var w, b := |Filter(h[1..], {Work})|, |Filter(h[1..], {Break, LongBreak})|;
      MinutesOfCons(h, {Work});
      MinutesOfCons(h, {Break, LongBreak});
      if h[0].kind == Work {
        assert |Filter(h, {Work})| == w + 1 && |Filter(h, {Break, LongBreak})| == b;
      } else {
        assert |Filter(h, {Work})| == w && |Filter(h, {Break, LongBreak})| == b + 1;
      }
    }
  }

  /** `sessionHistory.length`: every entry counts, whatever its type or completion flag. */
  function TotalSessions(h: seq<SessionRecord>): (n: nat)
    ensures n == |Filter(h, {Work})| + |Filter(h, {Break, LongBreak})|
  {
    WorkAndBreakCountAll(h);
    |h|
  }

  /** The minute sums depend only on which sessions there are, not on their order. */
  lemma {:induction false} MinutesOfPermutation(a: seq<SessionRecord>, b: seq<SessionRecord>, kinds: set<SessionType>)
    requires multiset(a) == multiset(b)
    ensures MinutesOf(a, kinds) == MinutesOf(b, kinds)
    decreases |a|
  {
    if a == [] {
      assert |b| == |multiset(b)| == 0;
    } else {
      var x := a[0];
      assert x in multiset(b);
      var j :| 0 <= j < |b| && b[j] == x;
      var rest := b[..j] + b[j + 1..];
      assert b == b[..j] + [x] + b[j + 1..];
      assert a == [x] + a[1..];
      assert multiset(b) == multiset(b[..j]) + multiset{x} + multiset(b[j + 1..]);
      assert multiset(a) == multiset{x} + multiset(a[1..]);
      assert multiset(rest) == multiset(b[..j]) + multiset(b[j + 1..]);
      assert multiset(a[1..]) == multiset(a) - multiset{x};
      assert multiset(rest) == multiset(b) - multiset{x};
      MinutesOfPermutation(a[1..], rest, kinds);
      MinutesOfAppend([x], a[1..], kinds);
      MinutesOfAppend(b[..j] + [x], b[j + 1..], kinds);
      MinutesOfAppend(b[..j], [x], kinds);
      MinutesOfAppend(b[..j], b[j + 1..], kinds);
    }
  }

  /** Most recent first: each entry is at least as new as the one after it. */
  predicate NewestFirst(h: seq<SessionRecord>)
    decreases |h|
  {
    |h| <= 1 || (h[0].timestamp >= h[1].timestamp && NewestFirst(h[1..]))
  }

  /** Newest-first lists are exactly those whose timestamps never increase between any two positions. */
  lemma {:induction false} NewestFirstOrdered(h: seq<SessionRecord>)
    ensures NewestFirst(h) <==> forall i, j :: 0 <= i < j < |h| ==> h[i].timestamp >= h[j].timestamp
    decreases |h|
  {
    if |h| > 1 {
      var t := h[1..];
      NewestFirstOrdered(t);
      if NewestFirst(h) {
        forall i, j | 0 <= i < j < |h| ensures h[i].timestamp >= h[j].timestamp {
          if i == 0 {
            if j > 1 {
              assert t[0].timestamp >= t[j - 1].timestamp;
            }
          } else {
            assert t[i - 1].timestamp >= t[j - 1].timestamp;
          }
        }
      }
      if forall i, j :: 0 <= i < j < |h| ==> h[i].timestamp >= h[j].timestamp {
        forall i, j | 0 <= i < j < |t| ensures t[i].timestamp >= t[j].timestamp {
          assert h[i + 1].timestamp >= h[j + 1].timestamp;
        }
        assert h[0].timestamp >= h[1].timestamp;
      }
    }
  }

  /** An entry at least as new as the head of a newest-first list can go in front of it. */
  lemma PrependNewest(y: SessionRecord, h: seq<SessionRecord>)
    requires NewestFirst(h) && (h == [] || y.timestamp >= h[0].timestamp)
    ensures NewestFirst([y] + h)
  {
    assert ([y] + h)[1..] == h;
  }

  /** Inserts `x` after every strictly newer entry and before all others. */
  function Insert(x: SessionRecord, h: seq<SessionRecord>): (r: seq<SessionRecord>)
    ensures |r| == |h| + 1
    ensures r[0] == x || (h != [] && r[0] == h[0])
    decreases |h|
  {
    if h == [] || h[0].timestamp <= x.timestamp then [x] + h
    else [h[0]] + Insert(x, h[1..])
  }

  /** Inserting into a newest-first list keeps it newest-first. */
  lemma {:induction false} InsertOrdered(x: SessionRecord, h: seq<SessionRecord>)
    requires NewestFirst(h)
    ensures NewestFirst(Insert(x, h))
    decreases |h|
  {
    if h == [] || h[0].timestamp <= x.timestamp {
      PrependNewest(x, h);
    } else {
      var t := h[1..];
      assert NewestFirst(t);
      assert t != [] ==> h[0].timestamp >= t[0].timestamp;
      InsertOrdered(x, t);
      PrependNewest(h[0], Insert(x, t));
    }
  }

  /** Inserting adds exactly that entry and loses none. */
  lemma {:induction false} InsertCounts(x: SessionRecord, h: seq<SessionRecord>)
    ensures multiset(Insert(x, h)) == multiset(h) + multiset{x}
    decreases |h|
  {
    if h != [] && h[0].timestamp > x.timestamp {
      var t := h[1..];
      InsertCounts(x, t);
      assert h == [h[0]] + t;
      assert multiset(h) == multiset{h[0]} + multiset(t);
      assert Insert(x, h) == [h[0]] + Insert(x, t);
    }
  }

  /**
   * `[...sessionHistory].sort((a, b) => b.timestamp - a.timestamp)`: a sorted
   * copy, newest first. The sort is stable, so sessions with equal timestamps
   * keep their order.
   */
  function SortNewestFirst(h: seq<SessionRecord>): (r: seq<SessionRecord>)
    ensures NewestFirst(r)
    ensures multiset(r) == multiset(h)
    ensures |r| == |h|
  {
    if h == [] then []
    else
      var rest := SortNewestFirst(h[1..]);
      InsertOrdered(h[0], rest);
      InsertCounts(h[0], rest);
      assert h == [h[0]] + h[1..];
      Insert(h[0], rest)
  }

  /** The entries stamped `t`, in list order. */
  function StampedAt(h: seq<SessionRecord>, t: int): seq<SessionRecord> {
    if h == [] then []
    else (if h[0].timestamp == t then [h[0]] else []) + StampedAt(h[1..], t)
  }

  lemma StampedAtCons(y: SessionRecord, h: seq<SessionRecord>, t: int)
    ensures StampedAt([y] + h, t) == (if y.timestamp == t then [y] else []) + StampedAt(h, t)
  {
    assert ([y] + h)[1..] == h;
  }

  lemma {:induction false} StampedAtInsert(x: SessionRecord, h: seq<SessionRecord>, t: int)
    ensures StampedAt(Insert(x, h), t) == (if x.timestamp == t then [x] else []) + StampedAt(h, t)
    decreases |h|
  {
    if h == [] || h[0].timestamp <= x.timestamp {
      StampedAtCons(x, h, t);
    } else {
      StampedAtInsert(x, h[1..], t);
      StampedAtCons(h[0], Insert(x, h[1..]), t);
    }
  }

  /** Stability: for every timestamp, the sessions carrying it appear in the same order as before. */
  lemma {:induction false} SortIsStable(h: seq<SessionRecord>, t: int)
    ensures StampedAt(SortNewestFirst(h), t) == StampedAt(h, t)
    decreases |h|
  {
    if h != [] {
      SortIsStable(h[1..], t);
      StampedAtInsert(h[0], SortNewestFirst(h[1..]), t);
    }
  }

  /** The table's duration cell: whole minutes, ':', then the seconds padded to two digits. */
  function DurationCell(d: int): (cell: string)
    ensures |cell| >= 4
    ensures d >= 0 ==> cell[|cell| - 3] == ':'
  {
    IntToDecimal(FloorDiv(d, 60)) + ":" + PadTwo(JsRem60(d))
  }

  /**
   * The minutes of the cell are not padded: a single digit below ten minutes,
   * more digits only from ten minutes up, and never a leading zero.
   */
  lemma DurationCellMinutes(d: int)
    requires d >= 0
    ensures |DurationCell(d)| == 4 <==> d < 600
    ensures |DurationCell(d)| > 4 ==> DurationCell(d)[0] != '0'
  {
    var m := FloorDiv(d, 60);
    WholeMinutes(d);
    var mt, st := NatToDecimal(m), PadTwo(JsRem60(d));
    assert |mt| == 1 <==> d < 600;
    assert |st| == 2;
    assert IntToDecimal(m) == mt;
    FieldsAroundColon(mt, st);
  }

  /** A non-negative duration has a non-negative number of whole minutes, below ten exactly under 600 seconds. */
  lemma WholeMinutes(d: int)
    requires d >= 0
    ensures 0 <= FloorDiv(d, 60) && (FloorDiv(d, 60) < 10 <==> d < 600)
  {
  }

  lemma FieldsAroundColon(mt: string, st: string)
    requires |mt| >= 1
    ensures |mt + ":" + st| == |mt| + 1 + |st| && (mt + ":" + st)[0] == mt[0]
  {
  }

  /** For a non-negative duration the cell reads back as that many seconds. */
  lemma DurationCellRoundTrip(d: int)
    requires d >= 0
    ensures ParseClock(DurationCell(d)) == Some(d)
  {
    var m, sec := FloorDiv(d, 60), JsRem60(d);
    assert m == d / 60 && sec == d % 60;
    assert m * 60 + sec == d;
    var mt, st := NatToDecimal(m), PadTwo(sec);
    assert DurationCell(d) == mt + ":" + st;
    DecimalRoundTrip(m);
    ParseClockParts(mt, st, m, sec);
  }

  /**
   * The table cell and the timer face differ only in the minutes' padding: from
   * ten minutes up they show the same text.
   */
  lemma DurationCellMatchesClock(d: int)
    requires d >= 600
    ensures DurationCell(d) == FormatTime(d)
  {
    var m := FloorDiv(d, 60);
    assert m >= 10;
    assert |NatToDecimal(m)| >= 2;
    assert PadTwo(m) == NatToDecimal(m);
  }

  /**
   * The goal card: `Math.round((completed / goal) * 100)` when the goal is
   * positive, else 0. Rounding is half up, computed exactly.
   */
  function CompletionRate(completed: int, goal: int): (rate: int)
    ensures goal <= 0 ==> rate == 0
    ensures goal > 0 ==> 2 * goal * rate <= 200 * completed + goal < 2 * goal * rate + 2 * goal
  {
    if goal > 0 then FloorDiv(200 * completed + goal, 2 * goal) else 0
  }

  /** What the page shows. */
  datatype Statistics = Statistics(totalWorkMinutes: int, totalSessions: nat, completionRate: int, rows: seq<SessionRecord>)

  /**
   * The page's statistics: all computed from the same list, the table a sorted
   * copy of it whose own totals agree with the cards.
   */
  function PageStatistics(db: seq<DbSession>, local: seq<SessionRecord>, completedCycles: int, goalCycles: int): (v: Statistics)
    ensures multiset(v.rows) == multiset(SessionSource(db, local)) && NewestFirst(v.rows)
    ensures v.totalSessions == |v.rows|
    ensures v.totalWorkMinutes == WorkMinutes(v.rows)
    ensures goalCycles == 0 ==> v.completionRate == 0
  {
    var h := SessionSource(db, local);
    var rows := SortNewestFirst(h);
    MinutesOfPermutation(h, rows, {Work});
    Statistics(WorkMinutes(h), TotalSessions(h), CompletionRate(completedCycles, goalCycles), rows)
  }
}
