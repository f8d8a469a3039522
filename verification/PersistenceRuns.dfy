/** Whole runs of saves and flushes: the order in which snapshots reach the store, when the store shows
    the present sites and when a cleared dirty flag is true, and that nobody is stuck.
 */
module PersistenceRuns {
  import opened AsyncMutex
  import opened Persistence
  import opened PersistenceSteps
  import opened Shared

  // ---------- snapshots reach the store in order ----------

  lemma StoredIsSnapshot(st: State, k: nat)
    requires Places(st) && Versions(st) && Stored(st) && k < |st.stored|
    ensures
      var i := st.stored[k].place;
      && i < |st.sites.entered| && st.sites.entered[i] in st.snapshot && st.snapshot[st.sites.entered[i]] == st.stored[k]
      && st.stored[k].version <= st.memory
  {
    assert IsWritten(st, st.stored[k]);
    PlaceIsEntered(st, st.stored[k].task);
  }

  lemma StoredRises(st: State, i: nat, j: nat)
    requires Places(st) && Versions(st) && Stored(st) && i < j < |st.stored|
    ensures st.stored[i].place < st.stored[j].place && st.stored[i].version <= st.stored[j].version
  {
    StoredIsSnapshot(st, i);
    StoredIsSnapshot(st, j);
    assert st.stored[i].place < st.stored[j].place;
  }

  /** In every run, snapshots reach the store in the order in which they were taken, which is the order
      in which the saves were asked for, and what they show never gets older, although a save may have
      been handed an array that was replaced while it waited. */
  lemma SnapshotsReachStoreInOrder(steps: seq<Step>, i: nat, j: nat)
    requires ValidRun(START, steps) && i < j < |Run(START, steps).stored|
    ensures
      var st := Run(START, steps);
      var p, q := st.stored[i].place, st.stored[j].place;
      && p < q < |st.sites.entered| && st.sites.entered <= st.sites.requested
      && st.sites.entered[p] in st.snapshot && st.snapshot[st.sites.entered[p]] == st.stored[i]
      && st.sites.entered[q] in st.snapshot && st.snapshot[st.sites.entered[q]] == st.stored[j]
      && st.stored[i].version <= st.stored[j].version
  {
    hide Run, ValidRun, Inv, Nested, Arrays, Bindings, Places, Versions, Stored, FinishedIsWritten, Pending;
    StartInv();
    RunKeepsInv(START, steps);
    var st := Run(START, steps);
    StoredIsSnapshot(st, i);
    StoredIsSnapshot(st, j);
    StoredRises(st, i, j);
    MutexPromises(st.sites, 0, 0);
  }

  lemma StoreAtMostMemory(st: State)
    requires Places(st) && Versions(st) && Stored(st)
    ensures st.store <= st.memory
  {
    if st.stored != [] { StoredIsSnapshot(st, |st.stored| - 1); }
  }

  lemma WriteGoesOn(st: State, t: Task)
    requires StateInv(st) && Enabled(st, Write(t))
    ensures st.store <= st.snapshot[t].version
  {
    hide Inv, Nested, Arrays, Bindings, Places, FinishedIsWritten, Pending, In;
    HolderIsLatest(st, t);
    if st.stored != [] {
      var last := |st.stored| - 1;
      var u := st.stored[last].task;
      assert IsWritten(st, st.stored[last]);
      assert st.snapshot[u].place <= st.snapshot[t].place;
    }
  }

  /** No step puts an older version over a newer one. */
  lemma StoreNeverGoesBack(st: State, step: Step)
    requires StateInv(st) && Enabled(st, step)
    ensures st.store <= Apply(st, step).store <= Apply(st, step).memory
  {
    hide Inv, Nested, Arrays, Bindings, Places, Versions, Stored, FinishedIsWritten, Pending, Request, Enter, Leave, In;
    StepKeepsInv(st, step);
    StoreAtMostMemory(Apply(st, step));
    if step.Write? { WriteGoesOn(st, step.t); }
  }

  // ---------- when the store shows the present ----------

  predicate Asks(step: Step, t: Task) {
    (step.AskSave? || step.EnterFlush?) && step.t == t
  }

  predicate Asked(steps: seq<Step>, t: Task) {
    exists i :: 0 <= i < |steps| && Asks(steps[i], t)
  }

  predicate SnapshotTaken(steps: seq<Step>, t: Task) {
    exists i :: 0 <= i < |steps| && steps[i] == EnterSave(t)
  }

  /** The sites were replaced after the save was asked for. */
  predicate ReplacedSinceAsked(steps: seq<Step>, t: Task) {
    exists i, j :: 0 <= i < j < |steps| && Asks(steps[i], t) && steps[j].Replace?
  }

  /** The sites were changed in place after the snapshot was taken. */
  predicate MutatedSinceSnapshot(steps: seq<Step>, t: Task) {
    exists i, j :: 0 <= i < j < |steps| && steps[i] == EnterSave(t) && steps[j].Mutate?
  }

  /** Who wrote last. */
  function LastWriter(steps: seq<Step>): Option<Task> {
    if steps == [] then None
    else if steps[|steps| - 1].Write? then Some(steps[|steps| - 1].t)
    else LastWriter(steps[..|steps| - 1])
  }

  lemma AskedStep(p: seq<Step>, e: Step, t: Task)
    ensures Asked(p + [e], t) <==> Asked(p, t) || Asks(e, t)
    ensures SnapshotTaken(p + [e], t) <==> SnapshotTaken(p, t) || e == EnterSave(t)
  {
    var s := p + [e];
    if Asked(p, t) {
      var i :| 0 <= i < |p| && Asks(p[i], t);
      assert Asks(s[i], t);
    }
    if Asks(e, t) { assert Asks(s[|p|], t); }
    if SnapshotTaken(p, t) {
      var i :| 0 <= i < |p| && p[i] == EnterSave(t);
      assert s[i] == EnterSave(t);
    }
    if e == EnterSave(t) { assert s[|p|] == EnterSave(t); }
  }

  lemma ReplacedStep(p: seq<Step>, e: Step, t: Task)
    ensures ReplacedSinceAsked(p + [e], t) <==> ReplacedSinceAsked(p, t) || (Asked(p, t) && e.Replace?)
  {
    var s := p + [e];
    hide Asks;
    if ReplacedSinceAsked(p, t) {
      var i, j :| 0 <= i < j < |p| && Asks(p[i], t) && p[j].Replace?;
      assert Asks(s[i], t) && s[j].Replace?;
    }
    if Asked(p, t) && e.Replace? {
      var i :| 0 <= i < |p| && Asks(p[i], t);
      assert Asks(s[i], t) && s[|p|].Replace?;
    }
    if ReplacedSinceAsked(s, t) {
      var i, j :| 0 <= i < j < |s| && Asks(s[i], t) && s[j].Replace?;
      assert Asks(p[i], t);
      if j < |p| { assert p[j].Replace?; }
    }
  }

  lemma MutatedStep(p: seq<Step>, e: Step, t: Task)
    ensures MutatedSinceSnapshot(p + [e], t) <==> MutatedSinceSnapshot(p, t) || (SnapshotTaken(p, t) && e.Mutate?)
  {
    var s := p + [e];
    if MutatedSinceSnapshot(p, t) {
      var i, j :| 0 <= i < j < |p| && p[i] == EnterSave(t) && p[j].Mutate?;
      assert s[i] == EnterSave(t) && s[j].Mutate?;
    }
    if SnapshotTaken(p, t) && e.Mutate? {
      var i :| 0 <= i < |p| && p[i] == EnterSave(t);
      assert s[i] == EnterSave(t) && s[|p|].Mutate?;
    }
    if MutatedSinceSnapshot(s, t) {
      var i, j :| 0 <= i < j < |s| && s[i] == EnterSave(t) && s[j].Mutate?;
      assert p[i] == EnterSave(t);
      if j < |p| { assert p[j].Mutate?; }
    }
  }

  /** A run and the step after it. */
  lemma {:induction false} RunStep(st: State, steps: seq<Step>, e: Step)
    ensures ValidRun(st, steps + [e]) <==> ValidRun(st, steps) && Enabled(Run(st, steps), e)
    ensures ValidRun(st, steps + [e]) ==> Run(st, steps + [e]) == Apply(Run(st, steps), e)
    decreases |steps|
  {
    hide Enabled, Apply;
    if steps == [] {
      assert [] + [e] == [e];
    } else {
      assert (steps + [e])[0] == steps[0] && (steps + [e])[1..] == steps[1..] + [e];
      if Enabled(st, steps[0]) { RunStep(Apply(st, steps[0]), steps[1..], e); }
    }
  }

  /** What the state says of the save of one task is what the steps of the run say. */
  ghost predicate Follows(st: State, steps: seq<Step>, t: Task) {
    && (t in st.bound <==> Asked(steps, t))
    && (t in st.bound ==> (st.bound[t] == |st.replaced| <==> !ReplacedSinceAsked(steps, t)))
    && (t in st.snapshot <==> SnapshotTaken(steps, t))
    && (t in st.snapshot ==>
          (st.snapshot[t].version == st.memory <==> !ReplacedSinceAsked(steps, t) && !MutatedSinceSnapshot(steps, t)))
  }

  lemma SinceNeedsFirst(steps: seq<Step>, t: Task)
    ensures ReplacedSinceAsked(steps, t) ==> Asked(steps, t)
    ensures MutatedSinceSnapshot(steps, t) ==> SnapshotTaken(steps, t)
  {
    if ReplacedSinceAsked(steps, t) {
      var i, j :| 0 <= i < j < |steps| && Asks(steps[i], t) && steps[j].Replace?;
    }
    if MutatedSinceSnapshot(steps, t) {
      var i, j :| 0 <= i < j < |steps| && steps[i] == EnterSave(t) && steps[j].Mutate?;
    }
  }

  /** A version is the present one exactly if its array is. */
  lemma PresentVersion(st: State, arrayNo: nat)
    requires Arrays(st) && arrayNo <= |st.replaced|
    ensures Version(st, arrayNo) == st.memory <==> arrayNo == |st.replaced|
  {
    if arrayNo < |st.replaced| { assert Version(st, arrayNo) < Version(st, |st.replaced|); }
  }

  /** What the invariant says of one task. */
  lemma TaskFacts(st: State, t: Task)
    requires StateInv(st)
    ensures t in st.bound ==> t in st.sites.phase && st.bound[t] <= |st.replaced|
    ensures t in st.snapshot ==> t in st.sites.phase && t in st.bound && st.snapshot[t].version <= st.memory
    ensures In(st.sites, t, Granted) ==> t !in st.snapshot
  {
    if In(st.sites, t, Granted) { GrantedIsNext(st.sites, t); }
    hide Inv, Nested, Arrays, Stored, FinishedIsWritten, Pending;
  }

  /** What the steps say of a task changes with a step that asks for it, takes its snapshot, or changes
      the sites. */
  lemma HistoryStep(steps: seq<Step>, e: Step, t: Task)
    ensures Asked(steps + [e], t) <==> Asked(steps, t) || Asks(e, t)
    ensures SnapshotTaken(steps + [e], t) <==> SnapshotTaken(steps, t) || e == EnterSave(t)
    ensures ReplacedSinceAsked(steps + [e], t) <==> ReplacedSinceAsked(steps, t) || (Asked(steps, t) && e.Replace?)
    ensures MutatedSinceSnapshot(steps + [e], t) <==> MutatedSinceSnapshot(steps, t) || (SnapshotTaken(steps, t) && e.Mutate?)
  {
    AskedStep(steps, e, t);
    ReplacedStep(steps, e, t);
    MutatedStep(steps, e, t);
  }

  lemma ChangeFollows(st: State, steps: seq<Step>, e: Step, t: Task)
    requires StateInv(st) && (e.Mutate? || e.Replace?) && Follows(st, steps, t)
    ensures Follows(Apply(st, e), steps + [e], t)
  {
    HistoryStep(steps, e, t);
    TaskFacts(st, t);
    hide StateInv, Asked, SnapshotTaken, ReplacedSinceAsked, MutatedSinceSnapshot;
  }

  lemma AskFollows(st: State, steps: seq<Step>, e: Step, t: Task)
    requires StateInv(st) && Asks(e, t) && Enabled(st, e) && Follows(st, steps, t)
    ensures Follows(Apply(st, e), steps + [e], t)
  {
    HistoryStep(steps, e, t);
    SinceNeedsFirst(steps, t);
    TaskFacts(st, t);
    hide StateInv, Asked, SnapshotTaken, ReplacedSinceAsked, MutatedSinceSnapshot, Request, Enter;
  }

  lemma EnterSaveTakes(st: State, t: Task)
    requires StateInv(st) && Enabled(st, EnterSave(t))
    ensures
      var st' := Apply(st, EnterSave(t));
      && t !in st.snapshot && st'.bound == st.bound && st'.replaced == st.replaced && st'.memory == st.memory
      && t in st'.snapshot && (st'.snapshot[t].version == st.memory <==> st.bound[t] == |st.replaced|)
  {
    TaskFacts(st, t);
    PresentVersion(st, st.bound[t]);
    hide StateInv, Enter, Version;
  }

  lemma EnterSaveFollows(st: State, steps: seq<Step>, t: Task)
    requires StateInv(st) && Enabled(st, EnterSave(t)) && Follows(st, steps, t)
    ensures Follows(Apply(st, EnterSave(t)), steps + [EnterSave(t)], t)
  {
    HistoryStep(steps, EnterSave(t), t);
    SinceNeedsFirst(steps, t);
    EnterSaveTakes(st, t);
    hide StateInv, Enabled, Apply, Asked, SnapshotTaken, ReplacedSinceAsked, MutatedSinceSnapshot;
  }

  /** The steps of others, and those that only write, finish or clear. */
  predicate Elsewhere(e: Step, t: Task) {
    !e.Mutate? && !e.Replace? && !Asks(e, t) && e != EnterSave(t)
  }

  lemma ElsewhereSame(st: State, e: Step, t: Task)
    requires Enabled(st, e) && Elsewhere(e, t)
    ensures
      var st' := Apply(st, e);
      && st'.replaced == st.replaced && st'.memory == st.memory
      && (t in st'.bound <==> t in st.bound) && (t in st.bound ==> st'.bound[t] == st.bound[t])
      && (t in st'.snapshot <==> t in st.snapshot) && (t in st.snapshot ==> st'.snapshot[t] == st.snapshot[t])
  {
    hide Request, Enter, Leave, Version;
  }

  lemma ElsewhereFollows(st: State, steps: seq<Step>, e: Step, t: Task)
    requires Enabled(st, e) && Elsewhere(e, t) && Follows(st, steps, t)
    ensures Follows(Apply(st, e), steps + [e], t)
  {
    HistoryStep(steps, e, t);
    ElsewhereSame(st, e, t);
    hide Asked, SnapshotTaken, ReplacedSinceAsked, MutatedSinceSnapshot, Enabled, Apply;
  }

  lemma StepFollows(st: State, steps: seq<Step>, e: Step, t: Task)
    requires StateInv(st) && Enabled(st, e) && Follows(st, steps, t)
    ensures Follows(Apply(st, e), steps + [e], t)
  {
    hide StateInv, Enabled, Apply, Follows;
    if e.Mutate? || e.Replace? {
      ChangeFollows(st, steps, e, t);
    } else if Asks(e, t) {
      AskFollows(st, steps, e, t);
    } else if e == EnterSave(t) {
      EnterSaveFollows(st, steps, t);
    } else {
      ElsewhereFollows(st, steps, e, t);
    }
  }

  lemma {:induction false} RunFollows(steps: seq<Step>, t: Task)
    requires ValidRun(START, steps)
    ensures Follows(Run(START, steps), steps, t)
    decreases |steps|
  {
    if steps == [] {
    } else {
      hide Follows, Apply, Enabled, StateInv, Run, ValidRun;
      var p, e := steps[..|steps| - 1], steps[|steps| - 1];
      assert steps == p + [e];
      RunStep(START, p, e);
      StartInv();
      RunKeepsInv(START, p);
      RunFollows(p, t);
      StepFollows(Run(START, p), p, e, t);
    }
  }

  predicate Changed(steps: seq<Step>) {
    exists i :: 0 <= i < |steps| && (steps[i].Mutate? || steps[i].Replace?)
  }

  lemma ChangedStep(p: seq<Step>, e: Step)
    ensures Changed(p + [e]) <==> Changed(p) || e.Mutate? || e.Replace?
  {
    var s := p + [e];
    if Changed(p) {
      var i :| 0 <= i < |p| && (p[i].Mutate? || p[i].Replace?);
      assert s[i].Mutate? || s[i].Replace?;
    }
    assert s[|p|] == e;
  }

  /** What the state says of the last write is what the steps say. */
  ghost predicate FollowsWrites(st: State, steps: seq<Step>) {
    && (st.memory == 0 <==> !Changed(steps))
    && match LastWriter(steps)
       case None => st.stored == [] && st.store == 0
       case Some(t) =>
         st.stored != [] && t in st.snapshot && st.store == st.snapshot[t].version && st.stored[|st.stored| - 1] == st.snapshot[t]
  }

  /** Only a write changes the store, and a snapshot once taken stays. */
  lemma StepKeepsWritten(st: State, e: Step, t: Task)
    requires Enabled(st, e) && t in st.snapshot && e != EnterSave(t)
    ensures t in Apply(st, e).snapshot && Apply(st, e).snapshot[t] == st.snapshot[t]
    ensures !e.Write? ==> Apply(st, e).stored == st.stored && Apply(st, e).store == st.store
  {
    hide Request, Enter, Leave, Version;
  }

  lemma StepKeepsStore(st: State, e: Step)
    requires Enabled(st, e)
    ensures !e.Write? ==> Apply(st, e).stored == st.stored && Apply(st, e).store == st.store
    ensures
      var st' := Apply(st, e);
      e.Write? ==> && st'.stored != [] && e.t in st'.snapshot && st'.store == st'.snapshot[e.t].version
                   && st'.stored[|st'.stored| - 1] == st'.snapshot[e.t]
    ensures Apply(st, e).memory == if e.Mutate? || e.Replace? then st.memory + 1 else st.memory
  {
    hide Request, Enter, Leave, Version;
  }

  lemma LastWriterStep(steps: seq<Step>, e: Step)
    ensures LastWriter(steps + [e]) == if e.Write? then Some(e.t) else LastWriter(steps)
  {
    assert (steps + [e])[..|steps|] == steps;
  }

  lemma NotTakenTwice(st: State, e: Step, t: Task)
    requires StateInv(st) && Enabled(st, e) && t in st.snapshot
    ensures e != EnterSave(t)
  {
    TaskFacts(st, t);
    hide StateInv;
  }

  lemma StepFollowsWrites(st: State, steps: seq<Step>, e: Step)
    requires StateInv(st) && Enabled(st, e) && FollowsWrites(st, steps)
    ensures FollowsWrites(Apply(st, e), steps + [e])
  {
    hide StateInv, Changed, Enabled, Apply, LastWriter;
    ChangedStep(steps, e);
    StepKeepsStore(st, e);
    if LastWriter(steps).Some? {
      NotTakenTwice(st, e, LastWriter(steps).value);
      StepKeepsWritten(st, e, LastWriter(steps).value);
    }
    LastWriterStep(steps, e);
  }

  lemma {:induction false} RunFollowsWrites(steps: seq<Step>)
    requires ValidRun(START, steps)
    ensures FollowsWrites(Run(START, steps), steps)
    decreases |steps|
  {
    if steps == [] {
    } else {
      hide FollowsWrites, Apply, Enabled, StateInv, Run, ValidRun;
      var p, e := steps[..|steps| - 1], steps[|steps| - 1];
      assert steps == p + [e];
      RunStep(START, p, e);
      StartInv();
      RunKeepsInv(START, p);
      RunFollowsWrites(p);
      StepFollowsWrites(Run(START, p), p, e);
    }
  }

  /** When the store shows the present sites, after any run, is told by its steps alone: whoever wrote
      last must have been handed the array that is still in place, and must have taken its snapshot
      after the last change to it. Before the first write, nothing may have changed. */
  lemma StoreIsPresentIff(steps: seq<Step>)
    requires ValidRun(START, steps)
    ensures
      var st := Run(START, steps);
      match LastWriter(steps)
      case None => st.store == st.memory <==> !Changed(steps)
      case Some(t) => st.store == st.memory <==> !ReplacedSinceAsked(steps, t) && !MutatedSinceSnapshot(steps, t)
  {
    hide Run, ValidRun, Changed, ReplacedSinceAsked, MutatedSinceSnapshot, Asked, SnapshotTaken, LastWriter;
    RunFollowsWrites(steps);
    if LastWriter(steps).Some? { RunFollows(steps, LastWriter(steps).value); }
  }

  lemma WrittenIsStored(st: State, t: Task)
    requires StateInv(st) && In(st.sites, t, Done) && t !in st.failed
    ensures st.stored != [] && t in st.snapshot && st.snapshot[t].version <= st.store <= st.memory
  {
    StoreAtMostMemory(st);
    var last := |st.stored| - 1;
    assert t in st.written;
    assert IsWritten(st, st.stored[last]);
    hide Inv, Nested, Arrays, Bindings, Places, FinishedIsWritten, Pending;
  }

  /** Clearing the flag is truthful exactly when whoever wrote last, the flush itself or a later save,
      was handed the array that is still in place and took its snapshot after the last change to it. */
  lemma ClearedFlagIsTrueIff(steps: seq<Step>, t: Task)
    requires ValidRun(START, steps + [ClearFlag(t)])
    ensures LastWriter(steps).Some?
    ensures
      var w, st := LastWriter(steps).value, Run(START, steps + [ClearFlag(t)]);
      !st.dirty && (st.store == st.memory <==> !ReplacedSinceAsked(steps, w) && !MutatedSinceSnapshot(steps, w))
  {
    hide Run, ValidRun, Changed, ReplacedSinceAsked, MutatedSinceSnapshot, LastWriter, StateInv;
    RunStep(START, steps, ClearFlag(t));
    StartInv();
    RunKeepsInv(START, steps);
    WrittenIsStored(Run(START, steps), t);
    RunFollowsWrites(steps);
    StoreIsPresentIff(steps);
  }

  /** In particular when the sites were neither replaced since the flush itself asked nor changed since
      it took its snapshot. */
  lemma ClearedFlagIsTrueWithoutChange(steps: seq<Step>, t: Task)
    requires ValidRun(START, steps + [ClearFlag(t)])
    requires !ReplacedSinceAsked(steps, t) && !MutatedSinceSnapshot(steps, t)
    ensures var st := Run(START, steps + [ClearFlag(t)]); !st.dirty && st.store == st.memory
  {
    hide Run, ValidRun, ReplacedSinceAsked, MutatedSinceSnapshot, Asked, SnapshotTaken, StateInv;
    RunStep(START, steps, ClearFlag(t));
    StartInv();
    RunKeepsInv(START, steps);
    WrittenIsStored(Run(START, steps), t);
    RunFollows(steps, t);
  }

  lemma RunCons(st: State, step: Step, steps: seq<Step>)
    requires Enabled(st, step) && ValidRun(Apply(st, step), steps)
    ensures ValidRun(st, [step] + steps) && Run(st, [step] + steps) == Run(Apply(st, step), steps)
  {
    assert ([step] + steps)[1..] == steps;
  }

  /** Writing, finishing and clearing, by a task inside the sites lock. */
  function SaveAndClear(t: Task): seq<Step> {
    [Write(t)] + ([FinishSave(t, false)] + ([ClearFlag(t)] + []))
  }

  lemma SaveAndClearIs(t: Task)
    ensures SaveAndClear(t) == [Write(t), FinishSave(t, false), ClearFlag(t)]
  {
  }

  lemma SaveAndClearRuns(st: State, t: Task)
    requires Inv(st.sites) && In(st.sites, t, Running) && t in st.snapshot && t !in st.written && t !in st.failed && t in st.clearing
    ensures ValidRun(st, SaveAndClear(t))
    ensures
      var st' := Run(st, SaveAndClear(t));
      && !st'.dirty && st'.store == st.snapshot[t].version && st'.memory == st.memory && st'.outer == st.outer
      && st'.sites == Leave(st.sites, t) && t !in st'.clearing
  {
    var a := Apply(st, Write(t));
    var b := Apply(a, FinishSave(t, false));
    LeaveFacts(st.sites, t, t);
    var c := Apply(b, ClearFlag(t));
    hide Inv, Leave, Enabled, Apply;
    RunCons(b, ClearFlag(t), []);
    RunCons(a, FinishSave(t, false), [ClearFlag(t)] + []);
    RunCons(st, Write(t), [FinishSave(t, false)] + ([ClearFlag(t)] + []));
  }

  /** A flush inside both locks, with what the invariant says of it. */
  lemma FlushInside(st: State, t: Task)
    requires StateInv(st) && In(st.outer, t, Running) && In(st.sites, t, Running)
    ensures t in st.snapshot && st.snapshot[t].version <= st.memory && t !in st.failed && t in st.clearing
  {
    HolderEntered(st.sites, t);
    assert PendingOf(st, t);
    TaskFacts(st, t);
    hide Inv, Nested, Arrays, Bindings, Versions, Stored, FinishedIsWritten, Pending;
  }

  /** Whatever went before and whoever waits, a flush that has taken its snapshot forgets every change
      that is made before it ends, if nobody else writes in between. */
  lemma FlushForgets(st: State, t: Task, change: Step)
    requires StateInv(st) && In(st.outer, t, Running) && In(st.sites, t, Running) && t !in st.written
    requires change.Mutate? || change.Replace?
    ensures
      var steps := [change] + SaveAndClear(t);
      ValidRun(st, steps) && !Run(st, steps).dirty && Run(st, steps).store < Run(st, steps).memory
  {
    FlushInside(st, t);
    StepKeepsInv(st, change);
    hide Nested, Arrays, Bindings, Places, Versions, Stored, FinishedIsWritten, Pending, Inv, SaveAndClear, In;
    SaveAndClearRuns(Apply(st, change), t);
    RunCons(st, change, SaveAndClear(t));
  }

  lemma GrantedEnters(st: State, t: Task)
    requires StateInv(st) && Enabled(st, EnterSave(t))
    ensures
      var st' := Apply(st, EnterSave(t));
      && In(st'.sites, t, Running) && t !in st'.written && st'.outer == st.outer && st'.memory == st.memory
      && st'.sites == Enter(st.sites, t)
      && t in st'.snapshot && st'.snapshot[t].version == Version(st, st.bound[t])
  {
    GrantedNotWritten(st, t);
    EnterFacts(st.sites, t);
    hide StateInv, Enter, Version;
  }

  lemma SitesInv(st: State)
    requires StateInv(st)
    ensures Inv(st.sites) && Arrays(st)
  {
  }

  /** The task that was granted the sites lock enters with a snapshot that is older than the memory when
      its array was replaced. */
  lemma StaleEnters(st: State, t: Task)
    requires StateInv(st) && Enabled(st, EnterSave(t)) && t in st.bound && st.bound[t] != |st.replaced|
    ensures
      var st' := Apply(st, EnterSave(t));
      && StateInv(st') && In(st'.sites, t, Running) && t !in st'.written && st'.outer == st.outer && st'.memory == st.memory
      && st'.sites == Enter(st.sites, t)
      && t in st'.snapshot && st'.snapshot[t].version == Version(st, st.bound[t]) < st.memory
  {
    hide StateInv, In, Apply, Enabled, Inv, Version, Arrays;
    EnterSaveTakes(st, t);
    GrantedEnters(st, t);
    StepKeepsInv(st, EnterSave(t));
    SitesInv(st);
    VersionsAtMostMemory(st, st.bound[t]);
  }

  /** A flush whose array was replaced while it waited stores the old array, clears the flag, and hands
      the lock on. */
  lemma WaitingFlushStoresOldArray(st: State, t: Task)
    requires StateInv(st) && In(st.outer, t, Running) && In(st.sites, t, Granted)
    requires t in st.bound && st.bound[t] != |st.replaced|
    ensures
      var steps := [EnterSave(t)] + SaveAndClear(t);
      && ValidRun(st, steps) && !Run(st, steps).dirty
      && Run(st, steps).store == Version(st, st.bound[t]) < Run(st, steps).memory
      && Run(st, steps).outer == st.outer && t !in Run(st, steps).clearing
      && In(Enter(st.sites, t), t, Running) && Run(st, steps).sites == Leave(Enter(st.sites, t), t)
  {
    assert Enabled(st, EnterSave(t));
    hide StateInv, SaveAndClear, In, Apply, Enabled, Inv, Version, Run, ValidRun;
    var st' := Apply(st, EnterSave(t));
    StaleEnters(st, t);
    SitesInv(st');
    FlushInside(st', t);
    SaveAndClearRuns(st', t);
    RunCons(st, EnterSave(t), SaveAndClear(t));
  }

  lemma GrantedNotWritten(st: State, t: Task)
    requires StateInv(st) && In(st.sites, t, Granted)
    ensures t !in st.written
  {
    TaskFacts(st, t);
    hide Inv, Nested, Arrays, Bindings, Places, Versions, FinishedIsWritten, Pending;
  }

  /** A new array, the save of it that is asked for at once, and then the end of the save inside. */
  function ReplaceAndFinish(u: Task, w: Task): seq<Step> {
    [Replace] + ([AskSave(w, true)] + ([Write(u)] + ([FinishSave(u, false)] + [])))
  }

  lemma ReplaceAndFinishRuns(st: State, u: Task, w: Task)
    requires In(st.sites, u, Running) && u in st.snapshot && u !in st.written && Fresh(st, w)
    ensures ValidRun(st, ReplaceAndFinish(u, w))
    ensures
      var st' := Run(st, ReplaceAndFinish(u, w));
      && In(Request(st.sites, w), u, Running) && st'.sites == Leave(Request(st.sites, w), u)
      && st'.outer == st.outer && st'.bound == st.bound[w := |st.replaced| + 1]
      && |st'.replaced| == |st.replaced| + 1
  {
    var a := Apply(st, Replace);
    var b := Apply(a, AskSave(w, true));
    var c := Apply(b, Write(u));
    var d := Apply(c, FinishSave(u, false));
    assert In(Request(st.sites, w), u, Running) && d.sites == Leave(Request(st.sites, w), u) && d.outer == st.outer;
    assert d.bound == st.bound[w := |st.replaced| + 1] && |d.replaced| == |st.replaced| + 1;
    hide Leave, Request, Enabled, Apply, In;
    RunCons(c, FinishSave(u, false), []);
    RunCons(b, Write(u), [FinishSave(u, false)] + []);
    RunCons(a, AskSave(w, true), [Write(u)] + ([FinishSave(u, false)] + []));
    RunCons(st, Replace, [AskSave(w, true)] + ([Write(u)] + ([FinishSave(u, false)] + [])));
  }

  lemma HeadIsGranted(l: Lock, u: Task, t: Task, w: Task)
    requires In(l, u, Running) && l.locked && l.queue != [] && l.queue[0] == t && w !in l.phase
    ensures In(Request(l, w), u, Running)
    ensures In(Leave(Request(l, w), u), t, Granted) && Leave(Request(l, w), u).queue == l.queue[1..] + [w]
  {
  }

  /** The sites are replaced while a flush waits behind another save; the save of the new sites comes
      behind both. */
  lemma ReplacedWhileWaiting(st: State, t: Task, u: Task, w: Task)
    requires StateInv(st) && In(st.outer, t, Running) && In(st.sites, u, Running) && u !in st.written && Fresh(st, w)
    requires st.sites.queue != [] && st.sites.queue[0] == t
    ensures ValidRun(st, ReplaceAndFinish(u, w))
    ensures
      var st' := Run(st, ReplaceAndFinish(u, w));
      && StateInv(st') && In(st'.outer, t, Running) && In(st'.sites, t, Granted)
      && t in st'.bound && st'.bound[t] != |st'.replaced|
      && st'.outer == st.outer && st'.sites.queue == st.sites.queue[1..] + [w]
  {
    assert Fresh(st, w) && w !in st.sites.phase;
    hide StateInv, Inv, Run, ValidRun, ReplaceAndFinish, In, Leave, Request, Fresh;
    SitesInv(st);
    QueuedIsKnown(st.sites, t);
    HolderHoldsIt(st.sites, u);
    SnapshotInside(st, u);
    BoundWhenKnown(st, t);
    ReplaceAndFinishRuns(st, u, w);
    RunKeepsInv(st, ReplaceAndFinish(u, w));
    HeadIsGranted(st.sites, u, t, w);
  }

  lemma HolderHoldsIt(l: Lock, u: Task)
    requires Inv(l) && In(l, u, Running)
    ensures l.locked
  {
    HolderIs(l, u);
  }

  lemma QueuedIsKnown(l: Lock, t: Task)
    requires Inv(l) && l.queue != [] && l.queue[0] == t
    ensures t in l.phase
  {
    assert In(l, l.requested[GrantCount(l)], Waiting);
  }

  lemma BoundWhenKnown(st: State, t: Task)
    requires StateInv(st) && t in st.sites.phase
    ensures t in st.bound && st.bound[t] <= |st.replaced|
  {
    hide Inv, Nested, Arrays, Places, Versions, Stored, FinishedIsWritten, Pending;
  }

  lemma SnapshotInside(st: State, u: Task)
    requires StateInv(st) && In(st.sites, u, Running)
    ensures u in st.snapshot
  {
    HolderEntered(st.sites, u);
    hide Inv, Nested, Arrays, Bindings, Versions, Stored, FinishedIsWritten, Pending;
  }

  /** The flag is clear, and the store is behind the memory. */
  ghost predicate Lies(steps: seq<Step>) {
    ValidRun(START, steps) && !Run(START, steps).dirty && Run(START, steps).store < Run(START, steps).memory
  }

  /** A mutation while the write of a flush is under way. */
  function LateMutation(): seq<Step> {
    [AskFlush(7), EnterFlush(7), EnterSave(7), Mutate, Write(7), FinishSave(7, false), ClearFlag(7)]
  }

  /** A flush that waits for another save while an import replaces the sites; the save of the imported
      sites, behind both, fails. */
  function StaleArray(): seq<Step> {
    [AskSave(1, false), EnterSave(1), AskFlush(2), EnterFlush(2), Replace, AskSave(3, true), Write(1), FinishSave(1, false),
     EnterSave(2), Write(2), FinishSave(2, false), ClearFlag(2), FinishFlush(2), EnterSave(3), FinishSave(3, true)]
  }

  /** Nobody has anything left to do. */
  predicate AllDone(st: State) {
    && (forall t :: t in st.outer.phase ==> st.outer.phase[t] == Done)
    && (forall t :: t in st.sites.phase ==> st.sites.phase[t] == Done)
  }

  /** In general the cleared flag says nothing: a change made while the write is under way is forgotten. */
  lemma ClearedFlagMayLie()
    ensures Lies(LateMutation())
  {
    hide StateInv, SaveAndClear;
    StartInv();
    var a := Apply(START, AskFlush(7));
    StepKeepsInv(START, AskFlush(7));
    var b := Apply(a, EnterFlush(7));
    StepKeepsInv(a, EnterFlush(7));
    var c := Apply(b, EnterSave(7));
    StepKeepsInv(b, EnterSave(7));
    FlushForgets(c, 7, Mutate);
    hide Apply, Enabled;
    var end := [Mutate] + SaveAndClear(7);
    RunCons(b, EnterSave(7), end);
    RunCons(a, EnterFlush(7), [EnterSave(7)] + end);
    RunCons(START, AskFlush(7), [EnterFlush(7)] + ([EnterSave(7)] + end));
    SaveAndClearIs(7);
    assert LateMutation() == [AskFlush(7)] + ([EnterFlush(7)] + ([EnterSave(7)] + end));
  }

  function FlushBehindSave(): seq<Step> {
    [AskSave(1, false)] + ([EnterSave(1)] + ([AskFlush(2)] + ([EnterFlush(2)] + [])))
  }

  lemma SaveInside()
    ensures
      var a := Apply(START, AskSave(1, false));
      && Enabled(a, EnterSave(1))
      && var st := Apply(a, EnterSave(1));
      && In(st.sites, 1, Running) && st.sites.locked && st.sites.queue == [] && 2 !in st.sites.phase
      && 3 !in st.sites.phase && st.outer == FREE && st.written == {}
  {
  }

  /** A flush that asks while a save is inside waits behind it. */
  lemma FlushBehindSaveRuns()
    ensures ValidRun(START, FlushBehindSave())
    ensures
      var st := Run(START, FlushBehindSave());
      && In(st.outer, 2, Running) && In(st.sites, 1, Running) && 1 !in st.written
      && st.sites.queue == [2] && st.outer.queue == [] && Fresh(st, 3)
  {
    var a := Apply(START, AskSave(1, false));
    assert Enabled(START, AskSave(1, false));
    SaveInside();
    var b := Apply(a, EnterSave(1));
    FlushWaits(b, 2, 1, 3);
    hide Apply, Enabled, Run, ValidRun, In;
    RunCons(a, EnterSave(1), [AskFlush(2)] + ([EnterFlush(2)] + []));
    RunCons(START, AskSave(1, false), [EnterSave(1)] + ([AskFlush(2)] + ([EnterFlush(2)] + [])));
  }

  lemma FlushWaits(st: State, t: Task, u: Task, w: Task)
    requires In(st.sites, u, Running) && st.sites.locked && st.sites.queue == [] && t !in st.sites.phase
    requires st.outer == FREE && t != u && w != t && w !in st.sites.phase
    ensures ValidRun(st, [AskFlush(t)] + ([EnterFlush(t)] + []))
    ensures
      var st' := Run(st, [AskFlush(t)] + ([EnterFlush(t)] + []));
      && In(st'.outer, t, Running) && In(st'.sites, u, Running) && st'.sites.queue == [t] && st'.written == st.written
      && st'.outer.queue == [] && Fresh(st', w)
  {
    var c := Apply(st, AskFlush(t));
    var d := Apply(c, EnterFlush(t));
    assert In(d.outer, t, Running) && In(d.sites, u, Running) && d.sites.queue == [t] && d.written == st.written;
    assert d.outer.queue == [] && Fresh(d, w);
    hide Apply, Enabled, In, Fresh;
    RunCons(c, EnterFlush(t), []);
    RunCons(st, AskFlush(t), [EnterFlush(t)] + []);
  }

  lemma StaleArrayIs()
    ensures FlushBehindSave() + (ReplaceAndFinish(1, 3) + (([EnterSave(2)] + SaveAndClear(2)) + FlushAndFail(2, 3))) == StaleArray()
  {
  }

  /** The end of a flush, and a save that fails. */
  function FlushAndFail(t: Task, w: Task): seq<Step> {
    [FinishFlush(t)] + ([EnterSave(w)] + ([FinishSave(w, true)] + []))
  }

  lemma FlushAndFailRuns(st: State, t: Task, w: Task)
    requires In(st.outer, t, Running) && In(st.sites, t, Done) && t !in st.clearing && st.outer.queue == []
    requires In(st.sites, w, Granted) && w in st.bound && st.sites.queue == []
    ensures ValidRun(st, FlushAndFail(t, w))
    ensures
      var st' := Run(st, FlushAndFail(t, w));
      && st'.dirty == st.dirty && st'.store == st.store && st'.memory == st.memory
      && !st'.outer.locked && !st'.sites.locked
  {
    hide Version;
    var a := Apply(st, FinishFlush(t));
    var b := Apply(a, EnterSave(w));
    var c := Apply(b, FinishSave(w, true));
    assert c.dirty == st.dirty && c.store == st.store && c.memory == st.memory && !c.outer.locked && !c.sites.locked;
    hide Apply, Enabled;
    RunCons(b, FinishSave(w, true), []);
    RunCons(a, EnterSave(w), [FinishSave(w, true)] + []);
    RunCons(st, FinishFlush(t), [EnterSave(w)] + ([FinishSave(w, true)] + []));
  }

  lemma NextIsGranted(l: Lock, t: Task, w: Task)
    requires Inv(l) && In(l, t, Granted) && l.queue == [w]
    ensures In(Enter(l, t), t, Running)
    ensures var l' := Leave(Enter(l, t), t); In(l', t, Done) && In(l', w, Granted) && l'.queue == []
  {
    HolderIs(l, t);
    assert l.requested[GrantCount(l)] == w;
    assert In(l, w, Waiting);
  }

  lemma FreeIsDone(l: Lock)
    requires Inv(l) && !l.locked
    ensures forall t :: t in l.phase ==> l.phase[t] == Done
  {
    forall t | t in l.phase ensures l.phase[t] == Done {
      assert t in l.requested;
      var i :| 0 <= i < |l.requested| && l.requested[i] == t;
      assert In(l, l.requested[i], Done);
    }
  }

  lemma FreeAreDone(st: State)
    requires StateInv(st) && !st.outer.locked && !st.sites.locked
    ensures AllDone(st)
  {
    FreeIsDone(st.outer);
    FreeIsDone(st.sites);
  }

  /** Nor does it when nothing is changed in place: the flush may store an array that was replaced before
      it took its snapshot, and when the save of the new array fails nothing is left that would store it. */
  lemma ClearedFlagMayHideOldArray()
    ensures Lies(StaleArray()) && AllDone(Run(START, StaleArray()))
  {
    FlushBehindSaveRuns();
    StartInv();
    StaleArrayIs();
    hide StateInv, SaveAndClear, ReplaceAndFinish, FlushBehindSave, FlushAndFail, StaleArray, Run, ValidRun, In, Version;
    hide Enter, Leave, Inv, AllDone, Fresh;
    RunKeepsInv(START, FlushBehindSave());
    var st := Run(START, FlushBehindSave());
    ReplacedWhileWaiting(st, 2, 1, 3);
    var st' := Run(st, ReplaceAndFinish(1, 3));
    var flush := [EnterSave(2)] + SaveAndClear(2);
    WaitingFlushStoresOldArray(st', 2);
    RunKeepsInv(st', flush);
    SitesInv(st');
    NextIsGranted(st'.sites, 2, 3);
    StaleArrayEnds(Run(st', flush));
    RunJoins(st', flush, FlushAndFail(2, 3));
    RunJoins(st, ReplaceAndFinish(1, 3), flush + FlushAndFail(2, 3));
    RunJoins(START, FlushBehindSave(), ReplaceAndFinish(1, 3) + (flush + FlushAndFail(2, 3)));
  }

  lemma StaleArrayEnds(st: State)
    requires StateInv(st) && In(st.outer, 2, Running) && In(st.sites, 2, Done) && 2 !in st.clearing && st.outer.queue == []
    requires In(st.sites, 3, Granted) && st.sites.queue == []
    ensures ValidRun(st, FlushAndFail(2, 3))
    ensures
      var st' := Run(st, FlushAndFail(2, 3));
      st'.dirty == st.dirty && st'.store == st.store && st'.memory == st.memory && AllDone(st')
  {
    hide StateInv, FlushAndFail, Run, ValidRun, AllDone;
    BoundWhenKnown(st, 3);
    FlushAndFailRuns(st, 2, 3);
    RunKeepsInv(st, FlushAndFail(2, 3));
    FreeAreDone(Run(st, FlushAndFail(2, 3)));
  }

  lemma {:induction false} RunJoins(st: State, a: seq<Step>, b: seq<Step>)
    requires ValidRun(st, a) && ValidRun(Run(st, a), b)
    ensures ValidRun(st, a + b) && Run(st, a + b) == Run(Run(st, a), b)
    decreases |a|
  {
    hide Apply, Enabled;
    if a == [] {
      assert a + b == b;
    } else {
      assert (a + b)[0] == a[0] && (a + b)[1..] == a[1..] + b;
      RunJoins(Apply(st, a[0]), a[1..], b);
    }
  }

  // ---------- no deadlock ----------

  /** Steps the tasks themselves take; the others are new work, or changes. */
  predicate Own(step: Step) {
    !step.Mutate? && !step.Replace? && !step.AskSave? && !step.AskFlush?
  }

  predicate Fails(step: Step) { step.FinishSave? && step.fails }

  predicate Unfinished(l: Lock, t: Task) {
    t in l.phase && l.phase[t] != Done
  }

  lemma InsideTookSnapshot(st: State, h: Task)
    requires Inv(st.sites) && Places(st) && In(st.sites, h, Running)
    ensures h in st.snapshot
  {
    HolderEntered(st.sites, h);
    hide Inv;
  }

  /** The next step of the task that holds the sites lock. */
  lemma SaverGoesOn(st: State, h: Task) returns (step: Step)
    requires StateInv(st) && (In(st.sites, h, Granted) || In(st.sites, h, Running))
    ensures Own(step) && Enabled(st, step) && !Fails(step)
  {
    hide Inv, Nested, Arrays, Places, Versions, Stored, FinishedIsWritten, Pending;
    assert h in st.bound;
    if In(st.sites, h, Running) { InsideTookSnapshot(st, h); }
    step := if In(st.sites, h, Granted) then EnterSave(h) else if h !in st.written then Write(h) else FinishSave(h, false);
  }

  lemma NestedAt(st: State, h: Task)
    requires Nested(st) && h in st.outer.phase
    ensures h in st.sites.phase <==> In(st.outer, h, Running) || In(st.outer, h, Done)
  {
  }

  /** The next step of the task that holds the outer lock while nobody is at the sites lock. */
  lemma FlusherGoesOn(st: State, h: Task) returns (step: Step)
    requires StateInv(st) && (In(st.outer, h, Granted) || In(st.outer, h, Running)) && !Unfinished(st.sites, h)
    ensures Own(step) && Enabled(st, step) && !Fails(step)
  {
    hide Inv, Nested, Arrays, Bindings, Places, Versions, Stored, FinishedIsWritten, Pending;
    NestedAt(st, h);
    step := if In(st.outer, h, Granted) then EnterFlush(h)
            else if h in st.failed || h !in st.clearing then FinishFlush(h) else ClearFlag(h);
  }

  /** As long as some task has not finished, some task can take a step, and not just by failing: the two
      nested locks never deadlock. */
  lemma NeverStuck(st: State, t: Task) returns (step: Step)
    requires StateInv(st) && (Unfinished(st.outer, t) || Unfinished(st.sites, t))
    ensures Own(step) && Enabled(st, step) && !Fails(step)
  {
    if exists u :: Unfinished(st.sites, u) {
      var u :| Unfinished(st.sites, u);
      var h := SomebodyHoldsIt(st.sites, u);
      hide StateInv;
      step := SaverGoesOn(st, h);
    } else {
      var h := SomebodyHoldsIt(st.outer, t);
      hide StateInv;
      step := FlusherGoesOn(st, h);
    }
  }

  /** How many tasks have left the lock. */
  function LeftCount(l: Lock): int {
    if l.locked && |l.entered| == GrantCount(l) then |l.entered| - 1 else |l.entered|
  }

  /** Entries and departures still to come. */
  function Remaining(l: Lock): int {
    2 * |l.requested| - |l.entered| - LeftCount(l)
  }

  /** What is still to be done: entries and departures, writes, and flags to clear. */
  function Work(st: State): int {
    8 * Remaining(st.outer) + 2 * Remaining(st.sites) + |st.sites.entered| - |st.stored| + |st.clearing|
  }

  lemma RequestAddsWork(l: Lock, t: Task)
    requires Inv(l) && t !in l.phase
    ensures Remaining(Request(l, t)) == Remaining(l) + 2 && |Request(l, t).entered| == |l.entered|
  {
  }

  lemma EnterDoesWork(l: Lock, t: Task)
    requires Inv(l) && In(l, t, Granted)
    ensures Remaining(Enter(l, t)) == Remaining(l) - 1 && |Enter(l, t).entered| == |l.entered| + 1
  {
    HolderIs(l, t);
  }

  lemma LeaveDoesWork(l: Lock, t: Task)
    requires Inv(l) && In(l, t, Running)
    ensures Remaining(Leave(l, t)) == Remaining(l) - 1 && |Leave(l, t).entered| == |l.entered|
  {
    HolderIs(l, t);
  }

  lemma RemainingIsNat(l: Lock)
    requires Inv(l)
    ensures Remaining(l) >= 0
  {
  }

  lemma {:induction false} StoredAtMost(s: seq<Snapshot>, n: nat)
    requires (forall i, j :: 0 <= i < j < |s| ==> s[i].place < s[j].place) && forall k :: 0 <= k < |s| ==> s[k].place < n
    ensures |s| <= n
  {
    if s != [] {
      var k := |s| - 1;
      StoredAtMost(s[..k], s[k].place);
    }
  }

  lemma WorkIsNat(st: State)
    requires StateInv(st)
    ensures Work(st) >= 0
  {
    RemainingIsNat(st.outer);
    RemainingIsNat(st.sites);
    forall k | 0 <= k < |st.stored| ensures st.stored[k].place < |st.sites.entered| { StoredIsSnapshot(st, k); }
    StoredAtMost(st.stored, |st.sites.entered|);
    hide Inv, Remaining, Nested, Arrays, Bindings, Places, Versions, FinishedIsWritten, Pending;
  }

  lemma AddOne(s: set<Task>, t: Task)
    ensures |s + {t}| <= |s| + 1
    ensures t in s ==> |s - {t}| == |s| - 1
  {
    if t in s { assert s + {t} == s; }
  }

  /** Every step of a task uses up work, and work never becomes negative: tasks that keep taking steps
      come to an end. */
  lemma OwnStepsDoWork(st: State, step: Step)
    requires StateInv(st) && Enabled(st, step) && Own(step)
    ensures 0 <= Work(Apply(st, step)) < Work(st)
  {
    StepKeepsInv(st, step);
    WorkIsNat(Apply(st, step));
    assert Inv(st.outer) && Inv(st.sites);
    hide StateInv, Inv, Remaining, Request, Enter, Leave, Version;
    AddOne(st.clearing, step.t);
    match step
    case EnterFlush(t) =>
      EnterDoesWork(st.outer, t);
      RequestAddsWork(st.sites, t);
    case EnterSave(t) => EnterDoesWork(st.sites, t);
    case Write(t) =>
    case FinishSave(t, _) => LeaveDoesWork(st.sites, t);
    case ClearFlag(t) =>
    case FinishFlush(t) => LeaveDoesWork(st.outer, t);
  }

  /** Without new work, a run is no longer than the work there is; with NeverStuck, every save and
      every flush that was asked for finishes. */
  lemma {:induction false} RunsEnd(st: State, steps: seq<Step>)
    requires StateInv(st) && ValidRun(st, steps) && forall i :: 0 <= i < |steps| ==> Own(steps[i])
    ensures |steps| <= Work(st)
    decreases |steps|
  {
    hide StateInv, Apply, Enabled, Work;
    if steps != [] {
      OwnStepsDoWork(st, steps[0]);
      StepKeepsInv(st, steps[0]);
      RunsEnd(Apply(st, steps[0]), steps[1..]);
    } else {
      WorkIsNat(st);
    }
  }

  // ---------- the dirty flag ----------

  /** The sites were changed and the flag was not cleared since. */
  predicate ChangedSinceCleared(steps: seq<Step>) {
    exists i :: 0 <= i < |steps| && (steps[i].Mutate? || steps[i].Replace?) && forall j :: i < j < |steps| ==> !steps[j].ClearFlag?
  }

  lemma ChangedSinceStep(p: seq<Step>, e: Step)
    ensures ChangedSinceCleared(p + [e]) <==> e.Mutate? || e.Replace? || (ChangedSinceCleared(p) && !e.ClearFlag?)
  {
    var s := p + [e];
    assert s[|p|] == e && forall i :: 0 <= i < |p| ==> s[i] == p[i];
    if ChangedSinceCleared(p) && !e.ClearFlag? {
      var i :| 0 <= i < |p| && (p[i].Mutate? || p[i].Replace?) && forall j :: i < j < |p| ==> !p[j].ClearFlag?;
      assert s[i].Mutate? || s[i].Replace?;
    }
    if ChangedSinceCleared(s) && !e.Mutate? && !e.Replace? {
      var i :| 0 <= i < |s| && (s[i].Mutate? || s[i].Replace?) && forall j :: i < j < |s| ==> !s[j].ClearFlag?;
      assert p[i].Mutate? || p[i].Replace?;
    }
  }

  /** After any run the flag is set exactly when a change was made and the flag not cleared since. */
  lemma {:induction false} DirtyIff(steps: seq<Step>)
    requires ValidRun(START, steps)
    ensures Run(START, steps).dirty <==> ChangedSinceCleared(steps)
    decreases |steps|
  {
    if steps != [] {
      hide Enabled, Run, ValidRun, ChangedSinceCleared, Request, Enter, Leave, Version;
      var p, e := steps[..|steps| - 1], steps[|steps| - 1];
      assert steps == p + [e];
      RunStep(START, p, e);
      DirtyIff(p);
      ChangedSinceStep(p, e);
    }
  }
}
