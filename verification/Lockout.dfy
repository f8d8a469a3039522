/** The lockout of login accounts after repeated failures (lib/ratelimit.js:57-119) and the way the
    login route uses it (lib/routes/auth.js:189-330). */
module Lockout {
  import opened Shared

  type Threshold = x: int | 3 <= x <= 50 witness 3

  // lib/constants.js:211-213; 8, 900000 and 900000 unless set.
  const LOGIN_ACCOUNT_FAILURE_THRESHOLD: Threshold
  const LOGIN_ACCOUNT_FAILURE_WINDOW_MS: Duration
  const LOGIN_ACCOUNT_LOCK_MS: Duration

  datatype Row = Row(failures: nat, windowStartedAtMs: int, lockedUntilMs: int)
  datatype LockState = LockState(locked: bool, retryAfterSec: int, failures: nat)

  type Rows = map<string, Row>

  const UNLOCKED := LockState(false, 0, 0)

  function LockedState(row: Row, now: int): LockState {
    LockState(true, RetryAfter(row.lockedUntilMs - now), row.failures)
  }

  predicate WindowOver(row: Row, now: int) {
    now - row.windowStartedAtMs > LOGIN_ACCOUNT_FAILURE_WINDOW_MS
  }

  predicate Stale(row: Row, now: int) {
    row.lockedUntilMs <= now && WindowOver(row, now)
  }

  /** The rows that still matter. */
  function Live(m: Rows, now: int): Rows {
    map id | id in m && !Stale(m[id], now) :: m[id]
  }

  // ---------- the operations ----------

  function Check(m: Rows, id: string, now: int): (LockState, Rows) {
    if id == "" || id !in m then (UNLOCKED, m)
    else if m[id].lockedUntilMs > now then (LockedState(m[id], now), m)
    else if WindowOver(m[id], now) then (UNLOCKED, m - {id})
    else (LockState(false, 0, m[id].failures), m)
  }

  /** The row a failure is recorded in. */
  function RowFor(m: Rows, id: string, now: int): Row {
    if id !in m || WindowOver(m[id], now) then Row(0, now, 0) else m[id]
  }

  function CountFailure(row: Row, now: int): Row {
    if row.failures + 1 >= LOGIN_ACCOUNT_FAILURE_THRESHOLD then row.(failures := 0, lockedUntilMs := now + LOGIN_ACCOUNT_LOCK_MS)
    else row.(failures := row.failures + 1)
  }

  function RecordIn(m: Rows, id: string, now: int): (LockState, Rows) {
    var row := RowFor(m, id, now);
    if row.lockedUntilMs > now then (LockedState(row, now), m[id := row])
    else
      var counted := CountFailure(row, now);
      (if counted.lockedUntilMs > now then LockedState(counted, now) else LockState(false, 0, counted.failures),
       m[id := counted])
  }

  function Record(m: Rows, id: string, now: int): (LockState, Rows) {
    if id == "" then (UNLOCKED, m)
    else RecordIn(if |m| > 10000 then Live(m, now) else m, id, now)
  }

  function Clear(m: Rows, id: string): Rows {
    if id == "" then m else m - {id}
  }

  lemma StaleIs(m: Rows, now: int)
    ensures forall id :: id in m ==>
              (!Stale(m[id], now) <==> now < m[id].lockedUntilMs || now - m[id].windowStartedAtMs <= LOGIN_ACCOUNT_FAILURE_WINDOW_MS)
  {
  }

  class Accounts {
    var loginAccountFailures: Rows

    constructor ()
      ensures loginAccountFailures == map[]
    {
      loginAccountFailures := map[];
    }

    /** getLoginAccountLockState (lib/ratelimit.js:57-74). */
    method GetLockState(id: string, now: int) returns (state: LockState)
      modifies this
      ensures (state, loginAccountFailures) == Check(old(loginAccountFailures), id, now)
    {
      if id == "" { return UNLOCKED; }
      if id !in loginAccountFailures { return UNLOCKED; }
      var row := loginAccountFailures[id];
      if row.lockedUntilMs > now {
        return LockState(true, RetryAfter(row.lockedUntilMs - now), row.failures);
      }
      if now - row.windowStartedAtMs > LOGIN_ACCOUNT_FAILURE_WINDOW_MS {
        loginAccountFailures := loginAccountFailures - {id};
        return UNLOCKED;
      }
      return LockState(false, 0, row.failures);
    }

    /** The sweep inside recordLoginAccountFailure (lib/ratelimit.js:79-86). */
    method Sweep(now: int)
      modifies this
      ensures loginAccountFailures == Live(old(loginAccountFailures), now)
      ensures forall id :: id in loginAccountFailures <==>
                id in old(loginAccountFailures)
                && (now < old(loginAccountFailures)[id].lockedUntilMs
                    || now - old(loginAccountFailures)[id].windowStartedAtMs <= LOGIN_ACCOUNT_FAILURE_WINDOW_MS)
      ensures forall id :: id in loginAccountFailures ==> loginAccountFailures[id] == old(loginAccountFailures)[id]
    {
      hide Stale;
      ghost var before := loginAccountFailures;
      var ids := loginAccountFailures.Keys;
      while ids != {}
        invariant ids <= before.Keys
        invariant forall k :: k in loginAccountFailures <==> k in before && (k in ids || !Stale(before[k], now))
        invariant forall k :: k in loginAccountFailures ==> loginAccountFailures[k] == before[k]
        decreases |ids|
      {
        var id :| id in ids;
        ids := ids - {id};
        if Stale(loginAccountFailures[id], now) { loginAccountFailures := loginAccountFailures - {id}; }
      }
      assert loginAccountFailures == Live(before, now);
      StaleIs(before, now);
    }

    /** recordLoginAccountFailure (lib/ratelimit.js:76-113). */
    method RecordFailure(id: string, now: int) returns (state: LockState)
      modifies this
      ensures (state, loginAccountFailures) == Record(old(loginAccountFailures), id, now)
    {
      if id == "" { return UNLOCKED; }
      if |loginAccountFailures| > 10000 { Sweep(now); }
      var row := Row(0, now, 0);
      if id in loginAccountFailures && now - loginAccountFailures[id].windowStartedAtMs <= LOGIN_ACCOUNT_FAILURE_WINDOW_MS {
        row := loginAccountFailures[id];
      }
      if row.lockedUntilMs > now {
        loginAccountFailures := loginAccountFailures[id := row];
        return LockState(true, RetryAfter(row.lockedUntilMs - now), row.failures);
      }
      row := row.(failures := row.failures + 1);
      if row.failures >= LOGIN_ACCOUNT_FAILURE_THRESHOLD {
        row := row.(lockedUntilMs := now + LOGIN_ACCOUNT_LOCK_MS, failures := 0);
      }
      loginAccountFailures := loginAccountFailures[id := row];
      if row.lockedUntilMs > now {
        return LockState(true, RetryAfter(row.lockedUntilMs - now), row.failures);
      }
      return LockState(false, 0, row.failures);
    }

    /** clearLoginAccountFailures (lib/ratelimit.js:115-119). */
    method ClearFailures(id: string)
      modifies this
      ensures loginAccountFailures == Clear(old(loginAccountFailures), id)
    {
      if id == "" { return; }
      loginAccountFailures := loginAccountFailures - {id};
    }
  }

  // ---------- deleting rows changes no result ----------

  datatype Step =
    | DoCheck(id: string, now: int)
    | DoRecord(id: string, now: int)
    | DoClear(id: string, now: int)

  predicate Monotone(t: int, steps: seq<Step>)
    decreases |steps|
  {
    steps == [] || (t <= steps[0].now && Monotone(steps[0].now, steps[1..]))
  }

  function Apply(m: Rows, step: Step): (LockState, Rows) {
    match step
    case DoCheck(id, now) => Check(m, id, now)
    case DoRecord(id, now) => Record(m, id, now)
    case DoClear(id, _) => (UNLOCKED, Clear(m, id))
  }

  /** The same operations, never deleting a row except to clear it. */
  function ApplyKeeping(m: Rows, step: Step): (LockState, Rows) {
    match step
    case DoCheck(id, now) => (Check(m, id, now).0, m)
    case DoRecord(id, now) => if id == "" then (UNLOCKED, m) else RecordIn(m, id, now)
    case DoClear(id, _) => (UNLOCKED, Clear(m, id))
  }

  function Results(m: Rows, steps: seq<Step>): seq<LockState>
    decreases |steps|
  {
    if steps == [] then [] else [Apply(m, steps[0]).0] + Results(Apply(m, steps[0]).1, steps[1..])
  }

  function ResultsKeeping(m: Rows, steps: seq<Step>): seq<LockState>
    decreases |steps|
  {
    if steps == [] then [] else [ApplyKeeping(m, steps[0]).0] + ResultsKeeping(ApplyKeeping(m, steps[0]).1, steps[1..])
  }

  /** The two stores agree on every row that matters from time t on. */
  ghost predicate Alike(a: Rows, b: Rows, t: int) {
    forall id :: (id in a && !Stale(a[id], t)) || (id in b && !Stale(b[id], t)) ==> id in a && id in b && a[id] == b[id]
  }

  lemma AlikeLater(a: Rows, b: Rows, t: int, now: int)
    requires Alike(a, b, t) && t <= now
    ensures Alike(a, b, now) && Alike(Live(a, now), b, now)
  {
    forall id | (id in a && !Stale(a[id], now)) || (id in b && !Stale(b[id], now)) ensures id in a && id in b && a[id] == b[id] {
      assert (id in a && !Stale(a[id], t)) || (id in b && !Stale(b[id], t));
    }
  }

  lemma RecordInAlike(a: Rows, b: Rows, id: string, now: int)
    requires Alike(a, b, now)
    ensures RecordIn(a, id, now).0 == RecordIn(b, id, now).0
    ensures Alike(RecordIn(a, id, now).1, RecordIn(b, id, now).1, now)
  {
    assert RowFor(a, id, now) == RowFor(b, id, now) by {
      if id in a && !Stale(a[id], now) { }
    }
  }

  lemma StepAlike(a: Rows, b: Rows, t: int, step: Step)
    requires Alike(a, b, t) && t <= step.now
    ensures Apply(a, step).0 == ApplyKeeping(b, step).0
    ensures Alike(Apply(a, step).1, ApplyKeeping(b, step).1, step.now)
  {
    AlikeLater(a, b, t, step.now);
    match step
    case DoCheck(id, now) =>
    case DoRecord(id, now) =>
      hide RecordIn;
      RecordInAlike(if |a| > 10000 then Live(a, now) else a, b, id, now);
    case DoClear(id, _) =>
  }

  lemma {:induction false} AlikeResults(a: Rows, b: Rows, t: int, steps: seq<Step>)
    requires Alike(a, b, t) && Monotone(t, steps)
    ensures Results(a, steps) == ResultsKeeping(b, steps)
    decreases |steps|
  {
    hide Apply, ApplyKeeping, Alike;
    if steps != [] {
      StepAlike(a, b, t, steps[0]);
      AlikeResults(Apply(a, steps[0]).1, ApplyKeeping(b, steps[0]).1, steps[0].now, steps[1..]);
    }
  }

  /** Neither the deletions made by checks nor the sweep of a large map change any result. */
  lemma DeletionsChangeNoResult(steps: seq<Step>, t: int)
    requires Monotone(t, steps)
    ensures Results(map[], steps) == ResultsKeeping(map[], steps)
  {
    AlikeResults(map[], map[], t, steps);
  }

  // ---------- evidence for a lock ----------

  datatype Event =
    | Counted(id: string, at: int)
    | LockSet(id: string, at: int)
    | WasCleared(id: string)

  /** What a step adds to the log: a counted failure, the lock it sets, or a clear. */
  function Events(m: Rows, step: Step): seq<Event> {
    match step
    case DoCheck(_, _) => []
    case DoRecord(id, now) =>
      if id == "" || RowFor(m, id, now).lockedUntilMs > now then []
      else
        [Counted(id, now)]
        + if CountFailure(RowFor(m, id, now), now).lockedUntilMs > now then [LockSet(id, now)] else []
    case DoClear(id, _) => if id == "" then [] else [WasCleared(id)]
  }

  /** The times of the failures of an account counted since its last lock or clear. */
  function Fresh(log: seq<Event>, id: string): seq<int> {
    if log == [] then []
    else
      var before, e := Fresh(log[..|log| - 1], id), log[|log| - 1];
      if e.id != id then before else if e.Counted? then before + [e.at] else []
  }

  /** The last n of those failures lie in the window that ends at t. */
  predicate LastWithin(times: seq<int>, n: int, start: int, t: int) {
    0 <= n <= |times| && forall i :: |times| - n <= i < |times| ==> start <= times[i] <= t
  }

  /** Every lock is backed by as many failures as the threshold asks for, all within the failure
      window that ends when the lock is set, counted since the last lock or clear of the account. */
  predicate Backed(log: seq<Event>) {
    log == []
    || (Backed(log[..|log| - 1])
        && (log[|log| - 1].LockSet? ==>
              var t := log[|log| - 1].at;
              LastWithin(Fresh(log[..|log| - 1], log[|log| - 1].id), LOGIN_ACCOUNT_FAILURE_THRESHOLD,
                         t - LOGIN_ACCOUNT_FAILURE_WINDOW_MS, t)))
  }

  /** What a row counts is in the log. */
  ghost predicate Counts(m: Rows, log: seq<Event>, clock: int) {
    forall id :: id in m ==>
      && m[id].failures < LOGIN_ACCOUNT_FAILURE_THRESHOLD
      && m[id].windowStartedAtMs <= clock
      && LastWithin(Fresh(log, id), m[id].failures, m[id].windowStartedAtMs, clock)
  }

  lemma FreshStep(log: seq<Event>, e: Event, id: string)
    ensures Fresh(log + [e], id)
         == if e.id != id then Fresh(log, id) else if e.Counted? then Fresh(log, id) + [e.at] else []
    ensures Backed(log + [e]) <==>
              Backed(log) && (e.LockSet? ==>
                LastWithin(Fresh(log, e.id), LOGIN_ACCOUNT_FAILURE_THRESHOLD, e.at - LOGIN_ACCOUNT_FAILURE_WINDOW_MS, e.at))
  {
    assert (log + [e])[..|log|] == log;
  }

  lemma CheckIsBacked(m: Rows, log: seq<Event>, clock: int, step: Step)
    requires Counts(m, log, clock) && Backed(log) && clock <= step.now && !step.DoRecord?
    ensures Counts(Apply(m, step).1, log + Events(m, step), step.now) && Backed(log + Events(m, step))
  {
    hide Fresh, Backed;
    var m', log' := Apply(m, step).1, log + Events(m, step);
    if step.DoClear? && step.id != "" {
      FreshStep(log, WasCleared(step.id), "");
      forall id | id in m' ensures LastWithin(Fresh(log', id), m'[id].failures, m'[id].windowStartedAtMs, step.now) {
        FreshStep(log, WasCleared(step.id), id);
        assert id in m && m'[id] == m[id];
      }
    } else {
      assert log' == log;
    }
  }

  /** The failures a row holds, with one more. */
  lemma OneMoreWithin(m: Rows, log: seq<Event>, clock: int, id: string, now: int)
    requires Counts(m, log, clock) && clock <= now
    ensures
      var row := RowFor(m, id, now);
      && row.failures < LOGIN_ACCOUNT_FAILURE_THRESHOLD
      && now - LOGIN_ACCOUNT_FAILURE_WINDOW_MS <= row.windowStartedAtMs <= now
      && LastWithin(Fresh(log, id) + [now], row.failures + 1, row.windowStartedAtMs, now)
  {
    hide Fresh;
    var row := RowFor(m, id, now);
    assert LastWithin(Fresh(log, id), row.failures, row.windowStartedAtMs, now);
    AnotherWithin(Fresh(log, id), row.failures, row.windowStartedAtMs, now);
  }

  lemma AnotherWithin(times: seq<int>, n: int, start: int, now: int)
    requires LastWithin(times, n, start, now) && start <= now
    ensures LastWithin(times + [now], n + 1, start, now)
  {
  }

  lemma RecordIsBacked(m: Rows, log: seq<Event>, clock: int, id: string, now: int)
    requires Counts(m, log, clock) && Backed(log) && clock <= now && id != ""
    requires RowFor(m, id, now).lockedUntilMs <= now
    ensures
      var counted := CountFailure(RowFor(m, id, now), now);
      var log' := log + Events(m, DoRecord(id, now));
      && Backed(log') && counted.failures < LOGIN_ACCOUNT_FAILURE_THRESHOLD && counted.windowStartedAtMs <= now
      && LastWithin(Fresh(log', id), counted.failures, counted.windowStartedAtMs, now)
      && (forall other :: other != id ==> Fresh(log', other) == Fresh(log, other))
  {
    hide Fresh, Backed, LastWithin;
    OneMoreWithin(m, log, clock, id, now);
    var row := RowFor(m, id, now);
    var mid := log + [Counted(id, now)];
    FreshStep(log, Counted(id, now), id);
    forall other | other != id ensures Fresh(mid, other) == Fresh(log, other) && Fresh(mid + [LockSet(id, now)], other) == Fresh(log, other) {
      FreshStep(log, Counted(id, now), other);
      FreshStep(mid, LockSet(id, now), other);
    }
    FreshStep(mid, LockSet(id, now), id);
    assert log + [Counted(id, now)] + [LockSet(id, now)] == log + ([Counted(id, now)] + [LockSet(id, now)]);
    assert [Counted(id, now)] + [] == [Counted(id, now)];
    NoneWithin(row.windowStartedAtMs, now);
    if row.failures + 1 >= LOGIN_ACCOUNT_FAILURE_THRESHOLD {
      Widen(Fresh(mid, id), LOGIN_ACCOUNT_FAILURE_THRESHOLD, row.windowStartedAtMs, now - LOGIN_ACCOUNT_FAILURE_WINDOW_MS, now);
    }
  }

  lemma NoneWithin(start: int, t: int)
    ensures LastWithin([], 0, start, t)
  {
  }

  lemma Widen(times: seq<int>, n: int, start: int, earlier: int, t: int)
    requires LastWithin(times, n, start, t) && earlier <= start
    ensures LastWithin(times, n, earlier, t)
  {
  }

  /** The rows after a failure is recorded: those before it, less the swept ones, and the account's. */
  lemma RecordRows(m: Rows, id: string, now: int)
    requires id != ""
    ensures
      var row, m' := RowFor(m, id, now), Record(m, id, now).1;
      && (forall other :: other in m' && other != id ==> other in m && m'[other] == m[other])
      && id in m' && m'[id] == (if row.lockedUntilMs > now then row else CountFailure(row, now))
      && (row == Row(0, now, 0) || (id in m && row == m[id]))
      && (row.lockedUntilMs > now ==> Events(m, DoRecord(id, now)) == [])
  {
    SweepSameRow(m, id, now);
  }

  lemma RecordStepIsBacked(m: Rows, log: seq<Event>, clock: int, id: string, now: int)
    requires Counts(m, log, clock) && Backed(log) && clock <= now && id != ""
    ensures Counts(Record(m, id, now).1, log + Events(m, DoRecord(id, now)), now) && Backed(log + Events(m, DoRecord(id, now)))
  {
    hide Fresh, Backed, RowFor, CountFailure, Record, Events, LastWithin;
    RecordRows(m, id, now);
    var m', log' := Record(m, id, now).1, log + Events(m, DoRecord(id, now));
    if RowFor(m, id, now).lockedUntilMs > now {
      assert log' == log;
      forall other | other in m' ensures CountsOf(m', log, now, other) { KeptCounts(m, m', log, clock, other, now); }
    } else {
      RecordIsBacked(m, log, clock, id, now);
      forall other | other in m' && other != id ensures CountsOf(m', log, now, other) { KeptCounts(m, m', log, clock, other, now); }
    }
  }

  /** What one row counts is in the log. */
  predicate CountsOf(m: Rows, log: seq<Event>, clock: int, id: string)
    requires id in m
  {
    && m[id].failures < LOGIN_ACCOUNT_FAILURE_THRESHOLD && m[id].windowStartedAtMs <= clock
    && LastWithin(Fresh(log, id), m[id].failures, m[id].windowStartedAtMs, clock)
  }

  /** A row that is new, or that was there before. */
  lemma KeptCounts(m: Rows, m': Rows, log: seq<Event>, clock: int, id: string, now: int)
    requires Counts(m, log, clock) && clock <= now && id in m'
    requires m'[id] == Row(0, now, 0) || (id in m && m'[id] == m[id])
    ensures CountsOf(m', log, now, id)
  {
    hide Fresh, LastWithin;
    if m'[id] == Row(0, now, 0) {
      NoneCounted(Fresh(log, id), now);
    } else {
      Later(Fresh(log, id), m[id].failures, m[id].windowStartedAtMs, clock, now);
    }
  }

  lemma NoneCounted(times: seq<int>, now: int)
    ensures LastWithin(times, 0, now, now)
  {
  }

  lemma Later(times: seq<int>, n: int, start: int, t: int, later: int)
    requires LastWithin(times, n, start, t) && t <= later
    ensures LastWithin(times, n, start, later)
  {
  }

  lemma StepIsBacked(m: Rows, log: seq<Event>, clock: int, step: Step)
    requires Counts(m, log, clock) && Backed(log) && clock <= step.now
    ensures Counts(Apply(m, step).1, log + Events(m, step), step.now) && Backed(log + Events(m, step))
  {
    hide Fresh, Backed, LastWithin, RowFor, CountFailure;
    if step.DoRecord? && step.id != "" {
      RecordStepIsBacked(m, log, clock, step.id, step.now);
    } else if step.DoRecord? {
      assert log + Events(m, step) == log;
      hide *;
      CountsLater(m, log, clock, step.now);
    } else {
      CheckIsBacked(m, log, clock, step);
    }
  }

  lemma CountsLater(m: Rows, log: seq<Event>, clock: int, later: int)
    requires Counts(m, log, clock) && clock <= later
    ensures Counts(m, log, later)
  {
    hide Fresh;
  }

  /** The sweep does not change which row a failure is recorded in. */
  lemma SweepSameRow(m: Rows, id: string, now: int)
    ensures RowFor(Live(m, now), id, now) == RowFor(m, id, now)
  {
  }

  function RunLog(m: Rows, log: seq<Event>, steps: seq<Step>): seq<Event>
    decreases |steps|
  {
    if steps == [] then log else RunLog(Apply(m, steps[0]).1, log + Events(m, steps[0]), steps[1..])
  }

  lemma {:induction false} RunIsBacked(m: Rows, log: seq<Event>, clock: int, steps: seq<Step>)
    requires Counts(m, log, clock) && Backed(log) && Monotone(clock, steps)
    ensures Backed(RunLog(m, log, steps))
    decreases |steps|
  {
    hide Apply, Events, Counts, Backed;
    if steps != [] {
      StepIsBacked(m, log, clock, steps[0]);
      RunIsBacked(Apply(m, steps[0]).1, log + Events(m, steps[0]), steps[0].now, steps[1..]);
    }
  }

  /** In every run, however checks, failures, clears and the sweep interleave, no lock is set without
      evidence. */
  lemma EveryLockIsBacked(steps: seq<Step>, t: int)
    requires Monotone(t, steps)
    ensures Backed(RunLog(map[], [], steps))
  {
    RunIsBacked(map[], [], t, steps);
  }

  // ---------- how long a lock lasts ----------

  /** When the account's lock ends according to the log: a lock time after it was set, unless the
      account was cleared since. */
  function LockEnd(log: seq<Event>, id: string): int {
    if log == [] then 0
    else
      var e := log[|log| - 1];
      if e.id == id && e.LockSet? then e.at + LOGIN_ACCOUNT_LOCK_MS
      else if e.id == id && e.WasCleared? then 0
      else LockEnd(log[..|log| - 1], id)
  }

  lemma LockEndStep(log: seq<Event>, e: Event, id: string)
    ensures LockEnd(log + [e], id)
         == if e.id == id && e.LockSet? then e.at + LOGIN_ACCOUNT_LOCK_MS
            else if e.id == id && e.WasCleared? then 0 else LockEnd(log, id)
  {
    assert (log + [e])[..|log|] == log;
  }

  /** The login route records a failure only after an unlocked check in the same handler, with no await
      in between; the clock may have moved on. */
  predicate AsTheRouteDoes(m: Rows, step: Step, checkedAt: int) {
    step.DoRecord? ==> checkedAt <= step.now && !Check(m, step.id, checkedAt).0.locked
  }

  ghost predicate LocksAgree(m: Rows, log: seq<Event>, clock: int) {
    forall id :: id != "" ==>
      && (LockEnd(log, id) > clock ==> id in m && m[id].lockedUntilMs == LockEnd(log, id))
      && (id in m && m[id].lockedUntilMs > clock ==> LockEnd(log, id) == m[id].lockedUntilMs)
  }

  /** While the stores agree, a check reports a lock exactly until the lock's end. */
  lemma LockedUntilItsEnd(m: Rows, log: seq<Event>, clock: int, id: string, now: int)
    requires LocksAgree(m, log, clock) && clock <= now && id != ""
    ensures Check(m, id, now).0.locked <==> now < LockEnd(log, id)
  {
    hide LockEnd;
  }

  lemma ClearAgrees(m: Rows, log: seq<Event>, clock: int, id: string, now: int)
    requires LocksAgree(m, log, clock) && 0 <= clock <= now && id != ""
    ensures LocksAgree(m - {id}, log + [WasCleared(id)], now)
  {
    hide LockEnd;
    forall x ensures LockEnd(log + [WasCleared(id)], x) == if x == id then 0 else LockEnd(log, x) { LockEndStep(log, WasCleared(id), x); }
  }

  lemma CheckAgrees(m: Rows, log: seq<Event>, clock: int, id: string, now: int)
    requires LocksAgree(m, log, clock) && 0 <= clock <= now
    ensures LocksAgree(Check(m, id, now).1, log, now)
  {
    hide LockEnd;
  }

  lemma AgreeLater(m: Rows, log: seq<Event>, clock: int, now: int)
    requires LocksAgree(m, log, clock) && clock <= now
    ensures LocksAgree(m, log, now)
  {
    hide LockEnd;
  }

  lemma RouteStepAgrees(m: Rows, log: seq<Event>, clock: int, step: Step, checkedAt: int)
    requires LocksAgree(m, log, clock) && clock <= checkedAt <= step.now && AsTheRouteDoes(m, step, checkedAt) && 0 <= clock
    ensures LocksAgree(Apply(m, step).1, log + Events(m, step), step.now)
  {
    hide LocksAgree, Check, Record, RowFor, CountFailure;
    var none: seq<Event> := [];
    assert log + none == log;
    match step
    case DoCheck(id, now) => CheckAgrees(m, log, clock, id, now);
    case DoClear(id, now) => if id == "" { AgreeLater(m, log, clock, now); } else { ClearAgrees(m, log, clock, id, now); }
    case DoRecord(id, now) => RouteRecordAgrees(m, log, clock, id, now, checkedAt);
  }

  lemma RecordMovesLockEnd(m: Rows, log: seq<Event>, id: string, now: int, x: string)
    requires id != "" && RowFor(m, id, now).lockedUntilMs <= now
    ensures LockEnd(log + Events(m, DoRecord(id, now)), x)
         == if x == id && CountFailure(RowFor(m, id, now), now).lockedUntilMs > now then now + LOGIN_ACCOUNT_LOCK_MS
            else LockEnd(log, x)
  {
    hide LockEnd, RowFor, CountFailure;
    LockEndStep(log, Counted(id, now), x);
    LockEndStep(log + [Counted(id, now)], LockSet(id, now), x);
    assert log + [Counted(id, now)] + [LockSet(id, now)] == log + ([Counted(id, now)] + [LockSet(id, now)]);
    assert [Counted(id, now)] + [] == [Counted(id, now)];
  }

  /** The row of an account that was checked unlocked: no lock runs, and a new one is the only lock. */
  lemma UncheckedRow(m: Rows, log: seq<Event>, clock: int, id: string, now: int, checkedAt: int)
    requires LocksAgree(m, log, clock) && 0 <= clock <= checkedAt <= now && !Check(m, id, checkedAt).0.locked && id != ""
    ensures
      var row, counted := RowFor(m, id, now), CountFailure(RowFor(m, id, now), now);
      && row.lockedUntilMs <= now && LockEnd(log, id) <= now
      && (counted.lockedUntilMs > now ==> counted.lockedUntilMs == now + LOGIN_ACCOUNT_LOCK_MS)
  {
    hide LockEnd;
  }

  lemma RouteRecordAgrees(m: Rows, log: seq<Event>, clock: int, id: string, now: int, checkedAt: int)
    requires LocksAgree(m, log, clock) && 0 <= clock <= checkedAt <= now && !Check(m, id, checkedAt).0.locked
    ensures LocksAgree(Record(m, id, now).1, log + Events(m, DoRecord(id, now)), now)
  {
    hide LockEnd;
    if id == "" {
      assert log + Events(m, DoRecord(id, now)) == log;
    } else {
      hide RowFor, CountFailure, Record, Events, Check;
      UncheckedRow(m, log, clock, id, now, checkedAt);
      OthersKept(m, id, now);
      RecordRows(m, id, now);
      var m', log' := Record(m, id, now).1, log + Events(m, DoRecord(id, now));
      var counted := CountFailure(RowFor(m, id, now), now);
      forall x ensures LockEnd(log', x) == if x == id && counted.lockedUntilMs > now then now + LOGIN_ACCOUNT_LOCK_MS else LockEnd(log, x) {
        RecordMovesLockEnd(m, log, id, now, x);
      }
    }
  }

  /** Recording a failure sweeps no row that is locked. */
  lemma OthersKept(m: Rows, id: string, now: int)
    requires id != ""
    ensures forall x :: x in m && x != id && m[x].lockedUntilMs > now ==> x in Record(m, id, now).1
  {
    hide RowFor, CountFailure;
  }

  ghost predicate RouteRun(m: Rows, clock: int, steps: seq<Step>, checks: seq<int>)
    requires |checks| == |steps|
    decreases |steps|
  {
    steps == []
    || (clock <= checks[0] <= steps[0].now && AsTheRouteDoes(m, steps[0], checks[0])
        && RouteRun(Apply(m, steps[0]).1, steps[0].now, steps[1..], checks[1..]))
  }

  function Run(m: Rows, steps: seq<Step>): Rows
    decreases |steps|
  {
    if steps == [] then m else Run(Apply(m, steps[0]).1, steps[1..])
  }

  function LastTime(clock: int, steps: seq<Step>): int {
    if steps == [] then clock else steps[|steps| - 1].now
  }

  lemma {:induction false} RouteRunAgrees(m: Rows, log: seq<Event>, clock: int, steps: seq<Step>, checks: seq<int>)
    requires |checks| == |steps| && 0 <= clock && LocksAgree(m, log, clock) && RouteRun(m, clock, steps, checks)
    ensures LocksAgree(Run(m, steps), RunLog(m, log, steps), LastTime(clock, steps))
    decreases |steps|
  {
    hide Apply, Events, LocksAgree, AsTheRouteDoes;
    if steps != [] {
      RouteStepAgrees(m, log, clock, steps[0], checks[0]);
      RouteRunAgrees(Apply(m, steps[0]).1, log + Events(m, steps[0]), steps[0].now, steps[1..], checks[1..]);
    }
  }

  /** After any run in which failures are recorded as the login route does, an account is reported
      locked exactly until a lock time after its last lock was set, or until it is cleared. */
  lemma LocksLast(steps: seq<Step>, checks: seq<int>, clock: int, id: string, now: int)
    requires |checks| == |steps| && 0 <= clock && RouteRun(map[], clock, steps, checks)
    requires id != "" && LastTime(clock, steps) <= now
    ensures Check(Run(map[], steps), id, now).0.locked <==> now < LockEnd(RunLog(map[], [], steps), id)
  {
    hide Run, RunLog, Check, RouteRun, LocksAgree;
    NothingLocked(clock);
    RouteRunAgrees(map[], [], clock, steps, checks);
    LockedUntilItsEnd(Run(map[], steps), RunLog(map[], [], steps), LastTime(clock, steps), id, now);
  }

  /** A locked caller who waits as long as told finds the account unlocked, if nothing else is
      recorded meanwhile, and the time told is less than a second too long. */
  lemma WaitingUnlocks(m: Rows, id: string, now: int, later: int)
    requires Check(m, id, now).0.locked
    ensures
      var (state, m') := Check(m, id, now);
      && m' == m && state.retryAfterSec >= 1
      && (later >= now + 1000 * state.retryAfterSec ==> !Check(m', id, later).0.locked)
      && (later <= now + 1000 * (state.retryAfterSec - 1) ==> Check(m', id, later).0.locked)
  {
    var ms := m[id].lockedUntilMs - now;
    assert ms <= 1000 * (-((-ms) / 1000)) < ms + 1000;
  }

  lemma NothingLocked(clock: int)
    requires 0 <= clock
    ensures LocksAgree(map[], [], clock)
  {
  }

  /** Recording a failure for a locked account, which the login route never does, keeps the lock, up to
      its end, exactly while the failure window that led to it is not over; after that it forgets it. */
  lemma RecordKeepsLockIffWindowRuns(m: Rows, id: string, now: int, later: int)
    requires id != "" && id in m && m[id].lockedUntilMs > now >= 0 && later >= now
    ensures
      var (state, m') := Record(m, id, now);
      var kept := now - m[id].windowStartedAtMs <= LOGIN_ACCOUNT_FAILURE_WINDOW_MS;
      (state.locked <==> kept) && (Check(m', id, later).0.locked <==> kept && later < m[id].lockedUntilMs)
  {
    SweepSameRow(m, id, now);
  }
}
