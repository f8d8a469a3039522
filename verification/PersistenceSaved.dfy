/** What the handlers that put a new array in place rely on: they ask for a save of it at once. Once all
    saves are done and none of them failed, the replacements are in the store, and only changes made in
    place can be missing there.
 */
module PersistenceSaved {
  import opened AsyncMutex
  import opened Persistence
  import opened PersistenceSteps
  import opened PersistenceRuns
  import opened Shared

  predicate AskedAtOnce(steps: seq<Step>) {
    forall j :: 0 <= j < |steps| - 1 && steps[j].Replace? ==> steps[j + 1].AskSave?
  }

  /** A save is asked for in the step after every replacement (lib/routes/backup.js:131-151,
      lib/routes/settings.js:672-676). */
  predicate EveryReplaceIsSaved(steps: seq<Step>) {
    AskedAtOnce(steps) && (steps == [] || !steps[|steps| - 1].Replace?)
  }

  /** Every save that was asked for is done, and did not fail. */
  predicate AllSaved(st: State) {
    forall t :: t in st.sites.phase ==> In(st.sites, t, Done) && t !in st.failed
  }

  predicate Mutated(steps: seq<Step>) {
    exists i :: 0 <= i < |steps| && steps[i].Mutate?
  }

  /** Somebody was handed the array that is in place now. */
  ghost predicate PresentIsAsked(st: State) {
    st.replaced == [] || exists t :: t in st.bound && st.bound[t] == |st.replaced|
  }

  lemma AskBindsPresent(st: State, e: Step)
    requires Enabled(st, e) && !e.Replace?
    ensures Apply(st, e).replaced == st.replaced
    ensures e.AskSave? ==> PresentIsAsked(Apply(st, e))
    ensures PresentIsAsked(st) ==> PresentIsAsked(Apply(st, e))
  {
    hide Request, Enter, Leave, Version;
    var st' := Apply(st, e);
    if e.AskSave? || e.EnterFlush? {
      assert e.t in st'.bound && st'.bound[e.t] == |st'.replaced|;
    }
  }

  lemma {:induction false} RunAsksForPresent(steps: seq<Step>)
    requires ValidRun(START, steps) && EveryReplaceIsSaved(steps)
    ensures PresentIsAsked(Run(START, steps))
    decreases |steps|
  {
    if steps != [] {
      hide Apply, Enabled, Run, ValidRun, PresentIsAsked;
      var p, e := steps[..|steps| - 1], steps[|steps| - 1];
      assert steps == p + [e];
      RunStep(START, p, e);
      AskBindsPresent(Run(START, p), e);
      if p == [] || !p[|p| - 1].Replace? {
        RunAsksForPresent(p);
      } else {
        assert steps[|p| - 1].Replace?;
      }
    }
  }

  /** The array of an earlier snapshot is the same or an earlier one. */
  lemma EarlierArray(st: State, t: Task, u: Task)
    requires StateInv(st) && t in st.snapshot && u in st.snapshot && st.snapshot[t].place <= st.snapshot[u].place
    ensures t in st.bound && u in st.bound && st.bound[t] <= st.bound[u] <= |st.replaced|
  {
    hide Inv, Nested, Arrays, Versions, Stored, FinishedIsWritten, Pending;
    TaskFacts(st, t);
    TaskFacts(st, u);
    MutexPromises(st.sites, t, u);
    var i, j := st.snapshot[t].place, st.snapshot[u].place;
    assert st.sites.requested[i] == t && st.sites.requested[j] == u;
  }

  lemma WrittenWhenSaved(st: State, t: Task)
    requires StateInv(st) && AllSaved(st) && t in st.bound
    ensures t in st.snapshot && st.stored != [] && st.snapshot[t].place <= st.stored[|st.stored| - 1].place
  {
    assert t in st.sites.phase;
    assert t in st.written;
    hide Inv, Nested, Arrays, Places, Versions, FinishedIsWritten, Pending;
  }

  /** When everything is saved, whoever wrote last was handed the array that is in place. */
  lemma LastHoldsPresent(st: State, w: Task)
    requires StateInv(st) && AllSaved(st) && PresentIsAsked(st)
    requires st.stored != [] && w in st.snapshot && st.stored[|st.stored| - 1] == st.snapshot[w]
    ensures w in st.bound && st.bound[w] == |st.replaced|
  {
    hide StateInv, AllSaved;
    EarlierArray(st, w, w);
    if st.replaced != [] {
      var t :| t in st.bound && st.bound[t] == |st.replaced|;
      WrittenWhenSaved(st, t);
      EarlierArray(st, t, w);
    }
  }

  lemma NothingReplaced(st: State)
    requires StateInv(st) && AllSaved(st) && PresentIsAsked(st) && st.stored == []
    ensures st.replaced == []
  {
    hide StateInv, AllSaved;
    if st.replaced != [] {
      var t :| t in st.bound && st.bound[t] == |st.replaced|;
      WrittenWhenSaved(st, t);
    }
  }

  lemma {:induction false} ReplacedIsKept(steps: seq<Step>, i: nat)
    requires ValidRun(START, steps) && i < |steps| && steps[i].Replace?
    ensures Run(START, steps).replaced != []
    decreases |steps|
  {
    hide Enabled, Run, ValidRun, Request, Enter, Leave, Version;
    var p, e := steps[..|steps| - 1], steps[|steps| - 1];
    assert steps == p + [e];
    RunStep(START, p, e);
    if i < |p| { ReplacedIsKept(p, i); }
  }

  lemma OnlyMutated(steps: seq<Step>)
    requires ValidRun(START, steps) && Run(START, steps).replaced == []
    ensures Changed(steps) <==> Mutated(steps)
  {
    hide ValidRun, Run;
    if Changed(steps) {
      var i :| 0 <= i < |steps| && (steps[i].Mutate? || steps[i].Replace?);
      if steps[i].Replace? { ReplacedIsKept(steps, i); }
    }
    if Mutated(steps) {
      var i :| 0 <= i < |steps| && steps[i].Mutate?;
      assert Changed(steps);
    }
  }

  /** In any run in which every replacement is saved at once and every save is done, store and memory
      agree exactly if nothing was changed in place since the last written snapshot, or ever when
      nothing was written. */
  lemma SavedIsPresentIff(steps: seq<Step>)
    requires ValidRun(START, steps) && EveryReplaceIsSaved(steps) && AllSaved(Run(START, steps))
    ensures
      var st := Run(START, steps);
      match LastWriter(steps)
      case None => st.store == st.memory <==> !Mutated(steps)
      case Some(w) => st.store == st.memory <==> !MutatedSinceSnapshot(steps, w)
  {
    hide Run, ValidRun, StateInv, AllSaved, PresentIsAsked, EveryReplaceIsSaved;
    hide Changed, Mutated, ReplacedSinceAsked, MutatedSinceSnapshot, Asked, SnapshotTaken, LastWriter;
    StartInv();
    RunKeepsInv(START, steps);
    RunAsksForPresent(steps);
    RunFollowsWrites(steps);
    StoreIsPresentIff(steps);
    match LastWriter(steps)
    case None =>
      NothingReplaced(Run(START, steps));
      OnlyMutated(steps);
    case Some(w) =>
      LastHoldsPresent(Run(START, steps), w);
      RunFollows(steps, w);
  }
}
