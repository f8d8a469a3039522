/** The promise-based mutex of lib/mutex.js.

    A task asks for the lock, is granted it (at once, or by the release of the task before it), enters
    `fn` in a later microtask, and leaves it by returning or by throwing. Between these points any
    other task may run.
 */
module AsyncMutex {
  type Task = nat

  datatype Phase = Waiting | Granted | Running | Done

  /** `requested` and `entered` are history: the order of the calls of acquire, and the order in which
      tasks entered their functions. */
  datatype Lock = Lock(locked: bool, queue: seq<Task>, phase: map<Task, Phase>, requested: seq<Task>, entered: seq<Task>)

  const FREE := Lock(false, [], map[], [], [])

  predicate In(l: Lock, t: Task, p: Phase) {
    t in l.phase && l.phase[t] == p
  }

  function Request(l: Lock, t: Task): Lock
    requires t !in l.phase
  {
    if !l.locked then l.(locked := true, phase := l.phase[t := Granted], requested := l.requested + [t])
    else l.(queue := l.queue + [t], phase := l.phase[t := Waiting], requested := l.requested + [t])
  }

  function Enter(l: Lock, t: Task): Lock
    requires In(l, t, Granted)
  {
    l.(phase := l.phase[t := Running], entered := l.entered + [t])
  }

  /** The `finally` of run: the same whether the function returned or threw. */
  function Leave(l: Lock, t: Task): Lock
    requires In(l, t, Running)
  {
    var done := l.phase[t := Done];
    if l.queue == [] then l.(locked := false, phase := done)
    else l.(queue := l.queue[1..], phase := done[l.queue[0] := Granted])
  }

  // ---------- the invariant ----------

  predicate Distinct(ts: seq<Task>) {
    forall i, j :: 0 <= i < j < |ts| ==> ts[i] != ts[j]
  }

  /** The number of tasks the lock has been given to so far. */
  function GrantCount(l: Lock): int {
    |l.requested| - |l.queue|
  }

  /** The tasks requested at places lo to hi are in phase p. */
  predicate AllIn(l: Lock, lo: int, hi: int, p: Phase) {
    forall i :: 0 <= i < |l.requested| && lo <= i < hi ==> In(l, l.requested[i], p)
  }

  predicate Recorded(l: Lock) {
    && Distinct(l.requested)
    && (forall t :: t in l.phase ==> t in l.requested)
  }

  /** A lock that is held: the tasks that are done, then the holder, then those that wait. Entries
      follow the same order. */
  predicate Held(l: Lock, g: nat) {
    && g == GrantCount(l) && 1 <= g <= |l.requested| && l.queue == l.requested[g..]
    && AllIn(l, 0, g - 1, Done) && AllIn(l, g, |l.requested|, Waiting)
    && ((In(l, l.requested[g - 1], Granted) && l.entered == l.requested[..g - 1])
        || (In(l, l.requested[g - 1], Running) && l.entered == l.requested[..g]))
  }

  /** A lock that is free: everybody is done. */
  predicate Released(l: Lock) {
    l.queue == [] && l.entered == l.requested && AllIn(l, 0, |l.requested|, Done)
  }

  predicate Inv(l: Lock) {
    && Recorded(l) && 0 <= GrantCount(l)
    && if l.locked then Held(l, GrantCount(l)) else Released(l)
  }

  lemma FreeInv()
    ensures Inv(FREE)
  {
  }

  lemma Frame(l: Lock, l': Lock, t: Task, lo: int, hi: int, p: Phase)
    requires AllIn(l, lo, hi, p) && l.requested <= l'.requested && hi <= |l.requested|
    requires forall i :: 0 <= i < |l.requested| && lo <= i < hi ==> l.requested[i] != t
    requires forall u :: u != t && u in l.phase ==> u in l'.phase && l'.phase[u] == l.phase[u]
    ensures AllIn(l', lo, hi, p)
  {
  }

  lemma RequestRecorded(l: Lock, t: Task)
    requires Recorded(l) && t !in l.phase && (forall i :: 0 <= i < |l.requested| ==> l.requested[i] in l.phase)
    ensures Recorded(Request(l, t))
  {
    var l' := Request(l, t);
    forall u | u in l'.phase ensures u in l'.requested {
      if u == t { assert l'.requested[|l.requested|] == t; }
    }
  }

  lemma AllKnown(l: Lock)
    requires Inv(l)
    ensures forall i :: 0 <= i < |l.requested| ==> l.requested[i] in l.phase
  {
  }

  lemma Appended(r: seq<Task>, t: Task, g: nat)
    requires g <= |r|
    ensures (r + [t])[..g] == r[..g] && (r + [t])[g..] == r[g..] + [t]
  {
  }

  lemma WaitsBehind(l: Lock, lo: int, hi: nat)
    requires AllIn(l, lo, hi, Waiting) && |l.requested| == hi + 1 && In(l, l.requested[hi], Waiting)
    ensures AllIn(l, lo, hi + 1, Waiting)
  {
  }

  lemma QueuedStaysHeld(l: Lock, l': Lock, t: Task, g: nat)
    requires Held(l, g) && t !in l.phase && (forall i :: 0 <= i < |l.requested| ==> l.requested[i] in l.phase)
    requires l'.queue == l.queue + [t] && l'.requested == l.requested + [t] && l'.entered == l.entered
    requires l'.phase == l.phase[t := Waiting]
    ensures Held(l', g)
  {
    var r := l.requested;
    hide AllIn;
    Frame(l, l', t, 0, g - 1, Done);
    Frame(l, l', t, g, |r|, Waiting);
    WaitsBehind(l', g, |r|);
    Appended(r, t, g);
    Appended(r, t, g - 1);
    assert In(l', r[g - 1], Granted) <==> In(l, r[g - 1], Granted);
  }

  lemma RequestHeldKeepsInv(l: Lock, t: Task)
    requires Inv(l) && t !in l.phase && l.locked
    ensures Inv(Request(l, t))
  {
    AllKnown(l);
    RequestRecorded(l, t);
    hide Recorded, Held;
    QueuedStaysHeld(l, Request(l, t), t, GrantCount(l));
  }

  lemma FirstIsHeld(l: Lock, l': Lock, t: Task)
    requires Released(l) && t !in l.phase && (forall i :: 0 <= i < |l.requested| ==> l.requested[i] in l.phase)
    requires l'.queue == [] && l'.requested == l.requested + [t] && l'.entered == l.entered
    requires l'.phase == l.phase[t := Granted]
    ensures Held(l', |l'.requested|)
  {
    var r := l.requested;
    Frame(l, l', t, 0, |r|, Done);
    Appended(r, t, |r|);
  }

  lemma RequestFreeKeepsInv(l: Lock, t: Task)
    requires Inv(l) && t !in l.phase && !l.locked
    ensures Inv(Request(l, t))
  {
    AllKnown(l);
    RequestRecorded(l, t);
    assert l.queue == [];
    hide Recorded, Held, Released;
    FirstIsHeld(l, Request(l, t), t);
  }

  lemma RequestKeepsInv(l: Lock, t: Task)
    requires Inv(l) && t !in l.phase
    ensures Inv(Request(l, t))
  {
    hide Inv, Request;
    if l.locked { RequestHeldKeepsInv(l, t); } else { RequestFreeKeepsInv(l, t); }
  }

  /** The holder of the lock. */
  lemma HolderIs(l: Lock, t: Task)
    requires Inv(l) && (In(l, t, Granted) || In(l, t, Running))
    ensures l.locked && GrantCount(l) >= 1 && l.requested[GrantCount(l) - 1] == t
  {
    assert t in l.requested;
    var i :| 0 <= i < |l.requested| && l.requested[i] == t;
  }

  lemma EnteredIsHeld(l: Lock, l': Lock, t: Task, g: nat)
    requires Held(l, g) && Distinct(l.requested) && In(l, t, Granted) && l.requested[g - 1] == t
    requires l' == l.(phase := l.phase[t := Running], entered := l.entered + [t])
    ensures Held(l', g)
  {
    var r := l.requested;
    assert forall i :: 0 <= i < |r| && i != g - 1 ==> r[i] != t;
    hide Distinct, AllIn;
    Frame(l, l', t, 0, g - 1, Done);
    Frame(l, l', t, g, |r|, Waiting);
    assert r[..g] == r[..g - 1] + [t];
  }

  lemma EnterKeepsInv(l: Lock, t: Task)
    requires Inv(l) && In(l, t, Granted)
    ensures Inv(Enter(l, t))
  {
    HolderIs(l, t);
    hide Held, Distinct, In;
    EnteredIsHeld(l, Enter(l, t), t, GrantCount(l));
    StillRecorded(l, Enter(l, t));
    hide Recorded;
  }

  /** When the holder is done, everything before the queue is done. */
  lemma LeaverIsDone(l: Lock, mid: Lock, t: Task)
    requires Inv(l) && In(l, t, Running) && mid == l.(phase := l.phase[t := Done])
    ensures l.locked && l.entered == l.requested[..GrantCount(l)] && 1 <= GrantCount(l) <= |l.requested|
    ensures AllIn(mid, 0, GrantCount(l), Done) && AllIn(mid, GrantCount(l), |l.requested|, Waiting) && Recorded(mid)
  {
    HolderIs(l, t);
    var g, r := GrantCount(l), l.requested;
    hide Recorded;
    assert Recorded(mid) by { StillRecorded(l, mid); }
    assert Distinct(r) by { StillRecorded(l, mid); }
    Frame(l, mid, t, 0, g - 1, Done);
    Frame(l, mid, t, g, |r|, Waiting);
  }

  lemma StillRecorded(l: Lock, l': Lock)
    requires Recorded(l) && l'.requested == l.requested && l'.phase.Keys == l.phase.Keys
    ensures Recorded(l') && Distinct(l.requested)
  {
    hide Distinct;
  }

  lemma GrantNext(mid: Lock, l': Lock, next: Task, g: nat)
    requires Recorded(mid) && 0 < g < |mid.requested| && next == mid.requested[g]
    requires AllIn(mid, 0, g, Done) && AllIn(mid, g, |mid.requested|, Waiting)
    requires l'.requested == mid.requested && l'.phase == mid.phase[next := Granted]
    ensures AllIn(l', 0, g, Done) && AllIn(l', g + 1, |mid.requested|, Waiting) && Recorded(l') && In(l', next, Granted)
  {
    assert In(mid, next, Waiting);
    assert l'.phase.Keys == mid.phase.Keys;
    StillRecorded(mid, l');
    Frame(mid, l', next, 0, g, Done);
    Frame(mid, l', next, g + 1, |mid.requested|, Waiting);
  }

  /** The head of the queue is granted the lock. */
  lemma NextIsHeld(mid: Lock, l': Lock, g: nat)
    requires Recorded(mid) && 0 < g < |mid.requested| && g == GrantCount(mid) && mid.queue == mid.requested[g..]
    requires mid.entered == mid.requested[..g]
    requires AllIn(mid, 0, g, Done) && AllIn(mid, g, |mid.requested|, Waiting)
    requires l' == mid.(queue := mid.queue[1..], phase := mid.phase[mid.queue[0] := Granted])
    ensures Held(l', g + 1) && Recorded(l')
  {
    var next := mid.queue[0];
    assert next == mid.requested[g] && mid.queue[1..] == mid.requested[g + 1..];
    GrantNext(mid, l', next, g);
    hide AllIn, Recorded;
  }

  lemma QueueOfHeld(l: Lock)
    requires Inv(l) && l.locked
    ensures l.queue == l.requested[GrantCount(l)..]
  {
    hide Recorded, AllIn;
  }

  lemma LeaveKeepsInv(l: Lock, t: Task)
    requires Inv(l) && In(l, t, Running)
    ensures Inv(Leave(l, t))
  {
    hide Held, Recorded, AllIn, In;
    var l', g := Leave(l, t), GrantCount(l);
    var mid := l.(phase := l.phase[t := Done]);
    LeaverIsDone(l, mid, t);
    QueueOfHeld(l);
    if l.queue == [] {
      assert l.requested[..g] == l.requested;
      StillRecorded(mid, l');
      AllInCarries(mid, l', 0, g, Done);
    } else {
      NextIsHeld(mid, l', g);
    }
  }

  lemma AllInCarries(l: Lock, l': Lock, lo: int, hi: int, p: Phase)
    requires AllIn(l, lo, hi, p) && l'.requested == l.requested && l'.phase == l.phase
    ensures AllIn(l', lo, hi, p)
  {
  }

  // ---------- what the mutex promises ----------

  /** At most one task is inside, whoever waits finds the lock held, and tasks enter in the order in
      which they asked. */
  lemma MutexPromises(l: Lock, t: Task, u: Task)
    requires Inv(l)
    ensures In(l, t, Running) && In(l, u, Running) ==> t == u
    ensures In(l, t, Waiting) ==> l.locked
    ensures l.entered <= l.requested
  {
    if In(l, t, Running) && In(l, u, Running) {
      HolderIs(l, t);
      HolderIs(l, u);
    }
    if In(l, t, Waiting) {
      assert t in l.requested;
      var i :| 0 <= i < |l.requested| && l.requested[i] == t;
    }
  }

  /** A task that leaves, by returning or by throwing, hands the lock to the task that asked next. */
  lemma LeavingHandsOver(l: Lock, t: Task)
    requires Inv(l) && In(l, t, Running)
    ensures |l.entered| < |l.requested| ==> In(Leave(l, t), l.requested[|l.entered|], Granted)
    ensures |l.entered| == |l.requested| ==> !Leave(l, t).locked
  {
    HolderIs(l, t);
    var g := GrantCount(l);
    assert |l.entered| == g;
    if g < |l.requested| { assert l.queue[0] == l.requested[g]; }
  }

  /** The lock is never idle while a task has not finished: somebody holds it. */
  lemma SomebodyHoldsIt(l: Lock, t: Task) returns (holder: Task)
    requires Inv(l) && t in l.phase && l.phase[t] != Done
    ensures In(l, holder, Granted) || In(l, holder, Running)
  {
    assert t in l.requested;
    var i :| 0 <= i < |l.requested| && l.requested[i] == t;
    holder := l.requested[GrantCount(l) - 1];
  }

  /** class AsyncMutex (lib/mutex.js:3-37). The queue of resolve functions is a queue of tasks. */
  class Mutex {
    var queue: seq<Task>
    var locked: bool
    ghost var phase: map<Task, Phase>
    ghost var requested: seq<Task>
    ghost var entered: seq<Task>

    ghost function View(): Lock
      reads this
    {
      Lock(locked, queue, phase, requested, entered)
    }

    constructor ()
      ensures View() == FREE && Inv(View())
    {
      queue, locked, phase, requested, entered := [], false, map[], [], [];
      new;
      FreeInv();
    }

    /** acquire: the promise is resolved at once, or put into the queue. */
    method Acquire(t: Task) returns (resolved: bool)
      requires Inv(View()) && t !in phase
      modifies this
      ensures View() == Request(old(View()), t) && Inv(View())
      ensures resolved <==> In(View(), t, Granted)
    {
      hide Inv;
      RequestKeepsInv(View(), t);
      resolved := !locked;
      if !locked {
        locked := true;
      } else {
        queue := queue + [t];
      }
      phase := phase[t := if resolved then Granted else Waiting];
      requested := requested + [t];
    }

    /** The microtask in which `await this.acquire()` continues. */
    ghost method Continue(t: Task)
      requires Inv(View()) && In(View(), t, Granted)
      modifies this`phase, this`entered
      ensures View() == Enter(old(View()), t) && Inv(View())
    {
      EnterKeepsInv(View(), t);
      phase := phase[t := Running];
      entered := entered + [t];
    }

    /** release, called by the `finally` of the task inside. */
    method Release(ghost t: Task)
      requires Inv(View()) && In(View(), t, Running)
      modifies this
      ensures View() == Leave(old(View()), t) && Inv(View())
    {
      hide Inv;
      LeaveKeepsInv(View(), t);
      phase := phase[t := Done];
      if |queue| > 0 {
        var next := queue[0];
        queue := queue[1..];
        phase := phase[next := Granted];
      } else {
        locked := false;
      }
    }
  }
}
