/** Saving the sites (lib/sites.js:334-339, 552-570, server.js:837-863) as interleaved steps.

    A save is handed the array that `state.sites` refers to when it is asked for. It takes its snapshot
    of that array inside the sites lock and writes it after an `await`. Changes are made in place, or
    put a new array in the place of the old one. A flush saves inside a second, outer lock and then
    clears the dirty flag; flushes outside that lock, and handlers that clear the flag after a save of
    their own, are saves that clear. What an array holds is a version, and every change makes a new
    one. A write to the store is one step, or fails.
 */
module Persistence {
  import opened AsyncMutex
  import opened Shared

  /** A snapshot: who took it, how many were taken before it, and the version that it shows. */
  datatype Snapshot = Snapshot(task: Task, place: nat, version: nat)

  /** `replaced` holds the versions of the arrays that were replaced, `memory` that of the present one;
      `bound` is the array that each save was handed, `stored` lists the snapshots in the order in
      which they were written, and `clearing` the tasks that will still clear the flag. */
  datatype State = State(
    outer: Lock,
    sites: Lock,
    replaced: seq<nat>,
    memory: nat,
    dirty: bool,
    bound: map<Task, nat>,
    snapshot: map<Task, Snapshot>,
    written: set<Task>,
    stored: seq<Snapshot>,
    store: nat,
    failed: set<Task>,
    clearing: set<Task>)

  const START := State(FREE, FREE, [], 0, false, map[], map[], {}, [], 0, {}, {})

  datatype Step =
    | Mutate
    | Replace
    | AskSave(t: Task, clears: bool)
    | AskFlush(t: Task)
    | EnterFlush(t: Task)
    | EnterSave(t: Task)
    | Write(t: Task)
    | FinishSave(t: Task, fails: bool)
    | ClearFlag(t: Task)
    | FinishFlush(t: Task)

  /** What the array with the given number holds. */
  function Version(st: State, arrayNo: nat): nat {
    if arrayNo < |st.replaced| then st.replaced[arrayNo] else st.memory
  }

  predicate Fresh(st: State, t: Task) {
    t !in st.outer.phase && t !in st.sites.phase
  }

  predicate Enabled(st: State, step: Step) {
    match step
    case Mutate => true
    case Replace => true
    case AskSave(t, _) => Fresh(st, t)
    case AskFlush(t) => Fresh(st, t)
    case EnterFlush(t) => In(st.outer, t, Granted) && t !in st.sites.phase
    case EnterSave(t) => In(st.sites, t, Granted) && t in st.bound
    case Write(t) => In(st.sites, t, Running) && t in st.snapshot && t !in st.written
    case FinishSave(t, fails) => In(st.sites, t, Running) && (fails || t in st.written)
    case ClearFlag(t) => In(st.sites, t, Done) && t !in st.failed && t in st.clearing
    case FinishFlush(t) => In(st.outer, t, Running) && In(st.sites, t, Done) && (t in st.failed || t !in st.clearing)
  }

  /** persistSites (lib/sites.js:334-339) up to its first `await`. */
  function Ask(st: State, t: Task, clears: bool): State
    requires t !in st.sites.phase
  {
    st.(sites := Request(st.sites, t), bound := st.bound[t := |st.replaced|],
        clearing := if clears then st.clearing + {t} else st.clearing)
  }

  function Apply(st: State, step: Step): State
    requires Enabled(st, step)
  {
    match step
    case Mutate => st.(memory := st.memory + 1, dirty := true)
    case Replace => st.(replaced := st.replaced + [st.memory], memory := st.memory + 1, dirty := true)
    case AskSave(t, clears) => Ask(st, t, clears)
    case AskFlush(t) => st.(outer := Request(st.outer, t))
    case EnterFlush(t) => Ask(st.(outer := Enter(st.outer, t)), t, true)
    case EnterSave(t) =>
      st.(sites := Enter(st.sites, t),
          snapshot := st.snapshot[t := Snapshot(t, |st.sites.entered|, Version(st, st.bound[t]))])
    case Write(t) =>
      st.(store := st.snapshot[t].version, stored := st.stored + [st.snapshot[t]], written := st.written + {t})
    case FinishSave(t, fails) =>
      st.(sites := Leave(st.sites, t), failed := if fails then st.failed + {t} else st.failed)
    case ClearFlag(t) => st.(dirty := false, clearing := st.clearing - {t})
    case FinishFlush(t) => st.(outer := Leave(st.outer, t))
  }

  predicate ValidRun(st: State, steps: seq<Step>)
    decreases |steps|
  {
    steps == [] || (Enabled(st, steps[0]) && ValidRun(Apply(st, steps[0]), steps[1..]))
  }

  function Run(st: State, steps: seq<Step>): State
    requires ValidRun(st, steps)
    decreases |steps|
  {
    if steps == [] then st else Run(Apply(st, steps[0]), steps[1..])
  }

  // ---------- the invariant ----------

  /** A flush asks for the sites lock when it enters the outer lock, and leaves the outer lock after
      it left the sites lock. */
  predicate Nested(st: State) {
    forall t :: t in st.outer.phase ==>
      && (t in st.sites.phase <==> In(st.outer, t, Running) || In(st.outer, t, Done))
      && (In(st.outer, t, Done) ==> In(st.sites, t, Done))
  }

  /** Replaced arrays keep versions older than the present one, in the order of their replacement. */
  predicate Arrays(st: State) {
    forall a, b :: 0 <= a < b <= |st.replaced| ==> Version(st, a) < Version(st, b)
  }

  predicate BoundInOrder(asked: seq<Task>, bound: map<Task, nat>) {
    forall i, j :: 0 <= i < j < |asked| ==> asked[i] in bound && asked[j] in bound && bound[asked[i]] <= bound[asked[j]]
  }

  /** Saves that asked earlier were handed the same array or an earlier one. */
  predicate Bindings(st: State) {
    && (forall t :: t in st.sites.phase ==> t in st.bound && st.bound[t] <= |st.replaced|)
    && (forall t :: t in st.bound ==> t in st.sites.phase)
    && BoundInOrder(st.sites.requested, st.bound)
  }

  /** Exactly the tasks that entered took a snapshot, in the order in which they entered. */
  predicate Places(st: State) {
    && (forall i :: 0 <= i < |st.sites.entered| ==>
          st.sites.entered[i] in st.snapshot && st.snapshot[st.sites.entered[i]].place == i)
    && (forall t :: t in st.snapshot ==>
          && st.snapshot[t].task == t && t in st.sites.phase && st.snapshot[t].place < |st.sites.entered|
          && st.sites.entered[st.snapshot[t].place] == t)
  }

  /** A snapshot is no newer than its array, and later snapshots are no older than earlier ones. */
  predicate Versions(st: State) {
    && (forall t :: t in st.snapshot ==> t in st.bound && st.snapshot[t].version <= Version(st, st.bound[t]) <= st.memory)
    && (forall t, u :: t in st.snapshot && u in st.snapshot && st.snapshot[t].place <= st.snapshot[u].place ==>
          st.snapshot[t].version <= st.snapshot[u].version)
  }

  /** A snapshot that its task took and wrote. */
  predicate IsWritten(st: State, s: Snapshot) {
    s.task in st.written && s.task in st.snapshot && st.snapshot[s.task] == s
  }

  /** The snapshots that were written, in the order in which they were taken; the store holds the one
      written last. */
  predicate Stored(st: State) {
    && (forall i, j :: 0 <= i < j < |st.stored| ==> st.stored[i].place < st.stored[j].place)
    && (forall k :: 0 <= k < |st.stored| ==> IsWritten(st, st.stored[k]))
    && (forall t :: t in st.written ==>
          t in st.snapshot && st.stored != [] && st.snapshot[t].place <= st.stored[|st.stored| - 1].place)
    && st.store == if st.stored == [] then 0 else st.stored[|st.stored| - 1].version
  }

  /** A save that finished without failing was written. */
  predicate FinishedIsWritten(st: State) {
    forall t :: t in st.sites.phase && In(st.sites, t, Done) && t !in st.failed ==> t in st.written
  }

  /** Only a finished save has failed, and a flush whose save is not finished will clear the flag. */
  ghost predicate PendingOf(st: State, t: Task) {
    && (t in st.failed ==> In(st.sites, t, Done))
    && (In(st.outer, t, Running) && t in st.sites.phase && !In(st.sites, t, Done) ==> t in st.clearing)
  }

  ghost predicate Pending(st: State) {
    forall t :: PendingOf(st, t)
  }

  ghost predicate StateInv(st: State) {
    && Inv(st.outer) && Inv(st.sites) && Nested(st) && Arrays(st) && Bindings(st)
    && Places(st) && Versions(st) && Stored(st) && FinishedIsWritten(st) && Pending(st)
  }

  lemma StartInv()
    ensures StateInv(START)
  {
    FreeInv();
  }

  // ---------- what the locks say ----------

  /** Where the task inside the sites lock stands. */
  lemma HolderEntered(l: Lock, t: Task)
    requires Inv(l) && In(l, t, Running)
    ensures |l.entered| >= 1 && l.entered[|l.entered| - 1] == t
    ensures forall i :: 0 <= i < |l.entered| - 1 ==> l.entered[i] != t && In(l, l.entered[i], Done)
  {
    HolderIs(l, t);
  }

  /** The task that was granted the lock is the next in the order of requests. */
  lemma GrantedIsNext(l: Lock, t: Task)
    requires Inv(l) && In(l, t, Granted)
    ensures l.entered <= l.requested && |l.entered| < |l.requested| && l.requested[|l.entered|] == t
    ensures forall i :: 0 <= i < |l.entered| ==> l.entered[i] != t
  {
    HolderIs(l, t);
    var g := GrantCount(l);
    assert l.entered == l.requested[..g - 1];
  }

  lemma LeaveFacts(l: Lock, t: Task, u: Task)
    requires Inv(l) && In(l, t, Running)
    ensures Leave(l, t).entered == l.entered && Leave(l, t).requested == l.requested
    ensures In(Leave(l, t), t, Done)
    ensures u in Leave(l, t).phase <==> u in l.phase
    ensures In(Leave(l, t), u, Done) <==> u == t || In(l, u, Done)
    ensures In(Leave(l, t), u, Running) <==> u != t && In(l, u, Running)
  {
    HolderIs(l, t);
    if l.queue != [] {
      var g := GrantCount(l);
      assert l.queue[0] == l.requested[g];
      assert In(l, l.queue[0], Waiting);
    }
  }

  /** What a departure changes in the phases: the task is done, and nobody else is done or inside
      that was not before. */
  ghost predicate Departed(l: Lock, l': Lock, t: Task) {
    && l'.entered == l.entered && l'.requested == l.requested
    && (forall u :: u in l'.phase <==> u in l.phase)
    && (forall u :: In(l', u, Done) <==> u == t || In(l, u, Done))
    && (forall u :: In(l', u, Running) <==> u != t && In(l, u, Running))
  }

  lemma LeaveDeparts(l: Lock, t: Task)
    requires Inv(l) && In(l, t, Running)
    ensures Departed(l, Leave(l, t), t) && Inv(Leave(l, t))
  {
    LeaveKeepsInv(l, t);
    hide Leave, Inv, In;
    LeaveFacts(l, t, t);
    forall u
      ensures u in Leave(l, t).phase <==> u in l.phase
      ensures In(Leave(l, t), u, Done) <==> u == t || In(l, u, Done)
      ensures In(Leave(l, t), u, Running) <==> u != t && In(l, u, Running) {
      LeaveFacts(l, t, u);
    }
  }
}
