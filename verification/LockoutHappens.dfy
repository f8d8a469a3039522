/** That an account is locked: the other half of EveryLockIsBacked and LocksLast. As many failures as the
    threshold asks for, within the failure window of the first and without a clear in between, lock the
    account for exactly the lock time, whatever the other accounts do.
 */
module LockoutHappens {
  import opened Lockout
  import opened Shared

  /** How many failures of the account the steps record. */
  function FailuresOf(steps: seq<Step>, id: string): nat {
    if steps == [] then 0 else (if steps[0].DoRecord? && steps[0].id == id then 1 else 0) + FailuresOf(steps[1..], id)
  }

  /** No step is about the account but checks and failures recorded up to time `end`. */
  predicate FailsOnly(steps: seq<Step>, id: string, end: int) {
    forall i :: 0 <= i < |steps| && steps[i].id == id ==> !steps[i].DoClear? && (steps[i].DoRecord? ==> steps[i].now <= end)
  }

  /** The account has no row that a failure at time t would still be counted in. */
  predicate StartsAfresh(m: Rows, id: string, t: int) {
    id !in m || WindowOver(m[id], t)
  }

  /** n failures of a window that began at `start` are counted, and no lock runs. */
  predicate HasCounted(m: Rows, id: string, n: nat, start: int) {
    id in m && m[id].failures == n && m[id].windowStartedAtMs == start && m[id].lockedUntilMs <= start
  }

  /** The results of the failures of the account: the k-th reports k failures and no lock. */
  predicate CountsUp(m: Rows, steps: seq<Step>, id: string, k: nat)
    decreases |steps|
  {
    steps == []
    || if steps[0].DoRecord? && steps[0].id == id then
         Apply(m, steps[0]).0 == LockState(false, 0, k + 1) && CountsUp(Apply(m, steps[0]).1, steps[1..], id, k + 1)
       else CountsUp(Apply(m, steps[0]).1, steps[1..], id, k)
  }

  /** A step about another account leaves a row alone that is locked or within its window. */
  lemma OthersLeaveRow(m: Rows, step: Step, id: string)
    requires id in m && step.id != id && !Stale(m[id], step.now)
    ensures id in Apply(m, step).1 && Apply(m, step).1[id] == m[id]
  {
  }

  /** So does a check of the account itself. */
  lemma CheckLeavesRow(m: Rows, id: string, now: int)
    requires id in m && !Stale(m[id], now)
    ensures Check(m, id, now).1 == m
    ensures Check(m, id, now).0.locked <==> id != "" && now < m[id].lockedUntilMs
  {
  }

  /** Within the window a check reports what is counted. */
  lemma CheckReports(m: Rows, id: string, n: nat, start: int, now: int)
    requires HasCounted(m, id, n, start) && start <= now <= start + LOGIN_ACCOUNT_FAILURE_WINDOW_MS && id != ""
    ensures Check(m, id, now).0 == LockState(false, 0, n)
  {
  }

  /** One failure more, in the window that began at `start`. */
  lemma FailureCounts(m: Rows, id: string, n: nat, start: int, now: int)
    requires HasCounted(m, id, n, start) && 0 <= start <= now <= start + LOGIN_ACCOUNT_FAILURE_WINDOW_MS && id != ""
    ensures
      var (state, m') := Record(m, id, now);
      if n + 1 < LOGIN_ACCOUNT_FAILURE_THRESHOLD then state == LockState(false, 0, n + 1) && HasCounted(m', id, n + 1, start)
      else state == LockState(true, RetryAfter(LOGIN_ACCOUNT_LOCK_MS), 0)
           && id in m' && m'[id].lockedUntilMs == now + LOGIN_ACCOUNT_LOCK_MS
  {
  }

  lemma FirstFailureCounts(m: Rows, id: string, now: int)
    requires StartsAfresh(m, id, now) && 0 <= now && id != ""
    ensures
      var (state, m') := Record(m, id, now);
      state == LockState(false, 0, 1) && HasCounted(m', id, 1, now)
  {
    SweepSameRow(m, id, now);
  }

  /** While fewer failures than the threshold are recorded, each is counted and none locks. */
  lemma {:induction false} FailuresCount(m: Rows, t: int, steps: seq<Step>, id: string, n: nat, start: int)
    requires HasCounted(m, id, n, start) && 0 <= start <= t && Monotone(t, steps) && id != ""
    requires LastTime(t, steps) <= start + LOGIN_ACCOUNT_FAILURE_WINDOW_MS
    requires FailsOnly(steps, id, start + LOGIN_ACCOUNT_FAILURE_WINDOW_MS) && n + FailuresOf(steps, id) < LOGIN_ACCOUNT_FAILURE_THRESHOLD
    ensures HasCounted(Run(m, steps), id, n + FailuresOf(steps, id), start) && CountsUp(m, steps, id, n)
    decreases |steps|
  {
    hide Apply, LastTime;
    if steps != [] {
      var step, m' := steps[0], Apply(m, steps[0]).1;
      StepInWindow(t, steps);
      assert FailsOnly(steps[1..], id, start + LOGIN_ACCOUNT_FAILURE_WINDOW_MS) by {
        forall i | 0 <= i < |steps| - 1 ensures steps[1..][i] == steps[i + 1] { }
      }
      CountedStep(m, step, id, n, start);
      FailuresCount(m', step.now, steps[1..], id, if step.DoRecord? && step.id == id then n + 1 else n, start);
    }
  }

  lemma StepInWindow(t: int, steps: seq<Step>)
    requires Monotone(t, steps) && steps != []
    ensures t <= steps[0].now <= LastTime(t, steps) && LastTime(t, steps) == LastTime(steps[0].now, steps[1..])
  {
    AtMostLast(steps[0].now, steps[1..]);
  }

  lemma {:induction false} AtMostLast(t: int, steps: seq<Step>)
    requires Monotone(t, steps)
    ensures t <= LastTime(t, steps)
    decreases |steps|
  {
    if steps != [] { AtMostLast(steps[0].now, steps[1..]); }
  }

  lemma CountedStep(m: Rows, step: Step, id: string, n: nat, start: int)
    requires HasCounted(m, id, n, start) && 0 <= start <= step.now <= start + LOGIN_ACCOUNT_FAILURE_WINDOW_MS && id != ""
    requires step.id == id ==> !step.DoClear?
    requires step.DoRecord? && step.id == id ==> n + 1 < LOGIN_ACCOUNT_FAILURE_THRESHOLD
    ensures
      var (state, m') := Apply(m, step);
      if step.DoRecord? && step.id == id then state == LockState(false, 0, n + 1) && HasCounted(m', id, n + 1, start)
      else HasCounted(m', id, n, start)
  {
    hide Check, Record;
    if step.id != id {
      OthersLeaveRow(m, step, id);
    } else if step.DoRecord? {
      FailureCounts(m, id, n, start, step.now);
    } else {
      CheckLeavesRow(m, id, step.now);
    }
  }

  // ---------- how long the lock lasts ----------

  /** A lock that ends at `end`, in every state after it was set; a row whose lock is over may be gone. */
  predicate LockedUntil(m: Rows, id: string, end: int, clock: int) {
    && (clock < end ==> id in m && m[id].lockedUntilMs == end)
    && (id in m ==> m[id].lockedUntilMs <= end)
  }

  /** No failure of the account is recorded, and it is not cleared. */
  predicate Rests(steps: seq<Step>, id: string) {
    forall i :: 0 <= i < |steps| && steps[i].id == id ==> steps[i].DoCheck?
  }

  lemma RestKeepsLock(m: Rows, step: Step, id: string, end: int, clock: int)
    requires LockedUntil(m, id, end, clock) && clock <= step.now && (step.id == id ==> step.DoCheck?)
    ensures LockedUntil(Apply(m, step).1, id, end, step.now)
  {
    hide RowFor, CountFailure;
  }

  lemma {:induction false} RestsKeepLock(m: Rows, t: int, steps: seq<Step>, id: string, end: int)
    requires LockedUntil(m, id, end, t) && Monotone(t, steps) && Rests(steps, id)
    ensures LockedUntil(Run(m, steps), id, end, LastTime(t, steps))
    decreases |steps|
  {
    hide Apply, LockedUntil, LastTime;
    if steps == [] {
      NoTime(t);
    } else {
      StepInWindow(t, steps);
      forall i | 0 <= i < |steps| - 1 ensures steps[1..][i] == steps[i + 1] { }
      RestKeepsLock(m, steps[0], id, end, t);
      RestsKeepLock(Apply(m, steps[0]).1, steps[0].now, steps[1..], id, end);
    }
  }

  lemma NoTime(t: int)
    ensures LastTime(t, []) == t
  {
  }

  lemma LockIsReported(m: Rows, id: string, end: int, clock: int, now: int)
    requires LockedUntil(m, id, end, clock) && clock <= now && id != ""
    ensures Check(m, id, now).0.locked <==> now < end
  {
  }

  /** Of an account whose failures start afresh at time t, with whatever other accounts do in between:
      the failures before the threshold are counted and lock nothing; the one that reaches the threshold,
      at time `last`, reports the lock; and then checks report it for exactly LOGIN_ACCOUNT_LOCK_MS. */
  lemma FailuresLock(m: Rows, id: string, t: int, steps: seq<Step>, last: int, later: seq<Step>, now: int)
    requires id != "" && 0 <= t && StartsAfresh(m, id, t) && Monotone(t, steps)
    requires LastTime(t, steps) <= last <= t + LOGIN_ACCOUNT_FAILURE_WINDOW_MS
    requires FailsOnly(steps, id, last) && FailuresOf(steps, id) == LOGIN_ACCOUNT_FAILURE_THRESHOLD - 2
    requires Monotone(last, later) && Rests(later, id) && LastTime(last, later) <= now
    ensures
      var (first, m1) := Record(m, id, t);
      var (state, m2) := Record(Run(m1, steps), id, last);
      && first == LockState(false, 0, 1) && CountsUp(m1, steps, id, 1)
      && Check(Run(m1, steps), id, last).0 == LockState(false, 0, LOGIN_ACCOUNT_FAILURE_THRESHOLD - 1)
      && state == LockState(true, RetryAfter(LOGIN_ACCOUNT_LOCK_MS), 0)
      && (Check(Run(m2, later), id, now).0.locked <==> now < last + LOGIN_ACCOUNT_LOCK_MS)
  {
    hide Run, Record, Check, CountsUp, FailuresOf, LastTime, Monotone, Rests, HasCounted;
    FirstFailureCounts(m, id, t);
    var m1 := Record(m, id, t).1;
    FailuresCount(m1, t, steps, id, 1, t);
    AtMostLast(t, steps);
    CheckReports(Run(m1, steps), id, LOGIN_ACCOUNT_FAILURE_THRESHOLD - 1, t, last);
    FailureCounts(Run(m1, steps), id, LOGIN_ACCOUNT_FAILURE_THRESHOLD - 1, t, last);
    var m2 := Record(Run(m1, steps), id, last).1;
    RestsKeepLock(m2, last, later, id, last + LOGIN_ACCOUNT_LOCK_MS);
    LockIsReported(Run(m2, later), id, last + LOGIN_ACCOUNT_LOCK_MS, LastTime(last, later), now);
  }
}
