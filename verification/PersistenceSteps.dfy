/** Every step of saves and flushes keeps their invariant. */
module PersistenceSteps {
  import opened AsyncMutex
  import opened Persistence
  import opened PersistenceFrames

  // ---------- what each step keeps ----------

  lemma ChangeKeepsArrays(st: State, step: Step)
    requires Arrays(st) && (step.Mutate? || step.Replace?)
    ensures Arrays(Apply(st, step))
  {
    var st' := Apply(st, step);
    forall a, b | 0 <= a < b <= |st'.replaced| ensures Version(st', a) < Version(st', b) {
      if b <= |st.replaced| { assert Version(st, a) < Version(st, b); }
      if a < |st.replaced| { assert Version(st, a) < Version(st, |st.replaced|); }
    }
  }

  lemma SnapshotsAreBound(st: State)
    requires Places(st) && Bindings(st)
    ensures forall t :: t in st.snapshot ==> t in st.sites.phase && t in st.bound && st.bound[t] <= |st.replaced|
  {
  }

  lemma ChangeKeepsInv(st: State, step: Step)
    requires StateInv(st) && (step.Mutate? || step.Replace?)
    ensures StateInv(Apply(st, step))
  {
    hide Inv, Nested, Arrays, Bindings, Places, Versions, Stored, FinishedIsWritten, Pending;
    var st' := Apply(st, step);
    ChangeKeepsArrays(st, step);
    SnapshotsAreBound(st);
    NestedLooksAt(st, st');
    BindingsLookAt(st, st');
    PlacesLookAt(st, st');
    ChangeKeepsVersions(st, st');
    StoredLooksAt(st, st');
    FinishedLooksAt(st, st');
    PendingUnseen(st, st');
  }

  lemma ChangeKeepsVersions(st: State, st': State)
    requires Versions(st) && (st' == Apply(st, Mutate) || st' == Apply(st, Replace))
    requires forall t :: t in st.snapshot ==> t in st.bound && st.bound[t] <= |st.replaced|
    ensures Versions(st')
  {
    forall t | t in st.snapshot ensures Version(st, st.bound[t]) <= Version(st', st.bound[t]) <= st'.memory { }
    VersionsLookAt(st, st');
  }

  /** Who asks is handed the present array, the latest of all. */
  lemma AskKeepsBindings(st: State, t: Task, clears: bool)
    requires Bindings(st) && t !in st.sites.phase && forall i :: 0 <= i < |st.sites.requested| ==> st.sites.requested[i] in st.sites.phase
    ensures Bindings(Ask(st, t, clears))
  {
    var st' := Ask(st, t, clears);
    var r, r' := st.sites.requested, st'.sites.requested;
    assert r' == r + [t];
    forall i, j | 0 <= i < j < |r'|
      ensures r'[i] in st'.bound && r'[j] in st'.bound && st'.bound[r'[i]] <= st'.bound[r'[j]]
    {
      assert r[i] in st.sites.phase;
      if j < |r| { assert st.bound[r[i]] <= st.bound[r[j]] && r[j] in st.sites.phase; }
    }
  }

  lemma RequestFacts(l: Lock, t: Task)
    requires t !in l.phase
    ensures Request(l, t).entered == l.entered && Request(l, t).requested == l.requested + [t]
    ensures t in Request(l, t).phase && !In(Request(l, t), t, Done) && !In(Request(l, t), t, Running)
    ensures forall u :: u != t ==> (u in Request(l, t).phase <==> u in l.phase)
    ensures forall u :: u != t && u in l.phase ==> Request(l, t).phase[u] == l.phase[u]
  {
  }

  /** All but the nesting, which depends on who asks. */
  lemma AskKeepsSaves(st: State, t: Task, clears: bool)
    requires StateInv(st) && t !in st.sites.phase
    ensures
      var st' := Ask(st, t, clears);
      && Inv(st'.sites) && Arrays(st') && Bindings(st') && Places(st') && Versions(st') && Stored(st') && FinishedIsWritten(st')
  {
    var st' := Ask(st, t, clears);
    RequestKeepsInv(st.sites, t);
    AllKnown(st.sites);
    AskKeepsBindings(st, t, clears);
    SnapshotsAreBound(st);
    RequestFacts(st.sites, t);
    hide Inv, Nested, Arrays, Bindings, Places, Versions, Stored, FinishedIsWritten, Pending, Request;
    ArraysLookAt(st, st');
    PlacesLookAt(st, st');
    AskKeepsVersions(st, st', t);
    StoredLooksAt(st, st');
    AskKeepsFinished(st, st', t);
  }

  lemma AskKeepsVersions(st: State, st': State, t: Task)
    requires Versions(st) && t !in st.snapshot && st'.snapshot == st.snapshot && st'.bound == st.bound[t := |st.replaced|]
    requires st'.memory == st.memory && st'.replaced == st.replaced
    ensures Versions(st')
  {
    VersionsLookAt(st, st');
  }

  lemma AskKeepsFinished(st: State, st': State, t: Task)
    requires FinishedIsWritten(st) && st'.written == st.written && st'.failed == st.failed
    requires !In(st'.sites, t, Done) && forall u :: u != t && u in st'.sites.phase ==> u in st.sites.phase && st'.sites.phase[u] == st.sites.phase[u]
    ensures FinishedIsWritten(st')
  {
    FinishedLooksAt(st, st');
  }

  lemma AskSaveKeepsInv(st: State, t: Task, clears: bool)
    requires StateInv(st) && Enabled(st, AskSave(t, clears))
    ensures StateInv(Apply(st, AskSave(t, clears)))
  {
    AskKeepsSaves(st, t, clears);
    RequestFacts(st.sites, t);
    AskOutsideNests(st, Ask(st, t, clears), t);
    AskKeepsPending(st, Ask(st, t, clears), t);
    hide Inv, Nested, Arrays, Bindings, Places, Versions, Stored, FinishedIsWritten, Pending, Request;
  }

  lemma AskKeepsPending(st: State, st': State, t: Task)
    requires Pending(st) && t !in st.sites.phase && st'.failed == st.failed && st.clearing <= st'.clearing
    requires t in st'.clearing || !In(st'.outer, t, Running)
    requires t in st'.sites.phase && forall u :: u != t ==> (u in st'.sites.phase <==> u in st.sites.phase)
    requires forall u :: u != t && u in st.sites.phase ==> st'.sites.phase[u] == st.sites.phase[u]
    requires forall u :: u != t ==> (In(st'.outer, u, Running) <==> In(st.outer, u, Running))
    ensures Pending(st')
  {
    assert PendingOf(st, t);
    assert PendingOf(st', t);
    forall u | u != t ensures SamePending(st, st', u) { }
    PendingLooksAt(st, st', t);
  }

  lemma AskOutsideNests(st: State, st': State, t: Task)
    requires Nested(st) && t !in st.outer.phase && st'.outer == st.outer
    requires forall u :: u != t ==> (u in st'.sites.phase <==> u in st.sites.phase)
    requires forall u :: u != t && u in st.sites.phase ==> st'.sites.phase[u] == st.sites.phase[u]
    ensures Nested(st')
  {
  }

  lemma AskFlushNests(st: State, st': State, t: Task)
    requires Nested(st) && t !in st.sites.phase && st'.sites == st.sites
    requires t in st'.outer.phase && !In(st'.outer, t, Done) && !In(st'.outer, t, Running)
    requires forall u :: u != t ==> (u in st'.outer.phase <==> u in st.outer.phase)
    requires forall u :: u != t && u in st.outer.phase ==> st'.outer.phase[u] == st.outer.phase[u]
    ensures Nested(st')
  {
  }

  lemma AskFlushKeepsPending(st: State, st': State, t: Task)
    requires Pending(st) && st'.sites == st.sites && st'.failed == st.failed && st'.clearing == st.clearing
    requires !In(st'.outer, t, Running) && forall u :: u != t ==> (u in st'.outer.phase <==> u in st.outer.phase)
    requires forall u :: u != t && u in st.outer.phase ==> st'.outer.phase[u] == st.outer.phase[u]
    ensures Pending(st')
  {
    assert PendingOf(st, t);
    forall u | u != t ensures SamePending(st, st', u) { }
    PendingLooksAt(st, st', t);
  }

  lemma AskFlushKeepsInv(st: State, t: Task)
    requires StateInv(st) && Enabled(st, AskFlush(t))
    ensures StateInv(Apply(st, AskFlush(t)))
  {
    var st' := Apply(st, AskFlush(t));
    RequestKeepsInv(st.outer, t);
    RequestFacts(st.outer, t);
    hide Inv, Nested, Arrays, Bindings, Places, Versions, Stored, FinishedIsWritten, Pending, Request, In;
    AskFlushNests(st, st', t);
    AskFlushKeepsPending(st, st', t);
    OuterKeepsSaves(st, st');
  }

  /** The saves do not look at the outer lock, the flag or who will clear it. */
  lemma OuterKeepsSaves(st: State, st': State)
    requires StateInv(st) && st' == st.(outer := st'.outer, dirty := st'.dirty, clearing := st'.clearing)
    ensures Inv(st'.sites) && Arrays(st') && Bindings(st') && Places(st') && Versions(st') && Stored(st') && FinishedIsWritten(st')
  {
    hide Inv, Nested, Arrays, Bindings, Places, Versions, Stored, FinishedIsWritten, Pending, In;
    SnapshotsAreBound(st);
    ArraysLookAt(st, st');
    BindingsLookAt(st, st');
    PlacesLookAt(st, st');
    OuterKeepsVersions(st, st');
    StoredLooksAt(st, st');
    FinishedLooksAt(st, st');
  }

  lemma OuterKeepsVersions(st: State, st': State)
    requires Versions(st) && st' == st.(outer := st'.outer, dirty := st'.dirty, clearing := st'.clearing)
    ensures Versions(st')
  {
    VersionsLookAt(st, st');
  }

  lemma EnterFacts(l: Lock, t: Task)
    requires In(l, t, Granted)
    ensures Enter(l, t).entered == l.entered + [t] && Enter(l, t).requested == l.requested
    ensures In(Enter(l, t), t, Running) && Enter(l, t).phase.Keys == l.phase.Keys
    ensures forall u :: u != t && u in l.phase ==> Enter(l, t).phase[u] == l.phase[u]
  {
  }

  lemma EnterFlushNests(st: State, st': State, t: Task)
    requires Nested(st) && In(st'.outer, t, Running) && t in st'.sites.phase && st'.outer.phase.Keys == st.outer.phase.Keys
    requires forall u :: u != t && u in st.outer.phase ==> st'.outer.phase[u] == st.outer.phase[u]
    requires forall u :: u != t ==> (u in st'.sites.phase <==> u in st.sites.phase)
    requires forall u :: u != t && u in st.sites.phase ==> st'.sites.phase[u] == st.sites.phase[u]
    ensures Nested(st')
  {
    SameKeys(st.outer, st'.outer);
  }

  lemma EnterOuterSame(st: State, t: Task)
    requires In(st.outer, t, Granted)
    ensures forall u :: u != t ==> (In(Enter(st.outer, t), u, Running) <==> In(st.outer, u, Running))
  {
  }

  lemma EnterFlushKeepsInv(st: State, t: Task)
    requires StateInv(st) && Enabled(st, EnterFlush(t))
    ensures StateInv(Apply(st, EnterFlush(t)))
  {
    var mid, st' := st.(outer := Enter(st.outer, t)), Apply(st, EnterFlush(t));
    EnterKeepsInv(st.outer, t);
    EnterFacts(st.outer, t);
    RequestFacts(st.sites, t);
    hide Inv, Nested, Arrays, Bindings, Places, Versions, Stored, FinishedIsWritten, Pending, Request, Enter, In;
    EnterFlushNests(st, st', t);
    EnterOuterSame(st, t);
    AskKeepsPending(st, st', t);
    AskKeepsSaves(st, t, true);
    var asked := Ask(st, t, true);
    assert st' == asked.(outer := mid.outer);
    ArraysLookAt(asked, st');
    BindingsLookAt(asked, st');
    PlacesLookAt(asked, st');
    OuterKeepsVersions(asked, st');
    StoredLooksAt(asked, st');
    FinishedLooksAt(asked, st');
  }

  lemma EnterSaveKeepsPlaces(st: State, st': State, t: Task, version: nat)
    requires Places(st) && st'.sites.entered == st.sites.entered + [t] && st'.sites.phase.Keys == st.sites.phase.Keys
    requires t in st.sites.phase && forall i :: 0 <= i < |st.sites.entered| ==> st.sites.entered[i] != t
    requires st'.snapshot == st.snapshot[t := Snapshot(t, |st.sites.entered|, version)]
    ensures Places(st') && t !in st.snapshot
  {
    SameKeys(st.sites, st'.sites);
  }

  /** Everybody who took a snapshot before had asked before, and so was handed the same array or an
      earlier one: here the order of the mutex keeps the versions in order. */
  lemma EarlierIsNoNewer(st: State, t: Task, u: Task)
    requires Inv(st.sites) && In(st.sites, t, Granted) && t in st.bound && u in st.snapshot
    requires Arrays(st) && Bindings(st) && Places(st) && Versions(st)
    ensures st.snapshot[u].version <= Version(st, st.bound[t])
  {
    GrantedIsNext(st.sites, t);
    var i := st.snapshot[u].place;
    assert st.sites.requested[i] == st.sites.entered[i] == u;
    assert st.bound[st.sites.requested[i]] <= st.bound[st.sites.requested[|st.sites.entered|]];
    if st.bound[u] < st.bound[t] { assert Version(st, st.bound[u]) < Version(st, st.bound[t]); }
    hide Inv, Places, Arrays, Bindings;
  }

  lemma EnterSaveKeepsVersions(st: State, st': State, t: Task, taken: Snapshot)
    requires Versions(st) && t !in st.snapshot && t in st.bound && st'.snapshot == st.snapshot[t := taken]
    requires st'.bound == st.bound && st'.memory == st.memory && st'.replaced == st.replaced
    requires taken.version == Version(st, st.bound[t]) <= st.memory
    requires forall u :: u in st.snapshot ==> st.snapshot[u].version <= taken.version && st.snapshot[u].place < taken.place
    ensures Versions(st')
  {
  }

  lemma EnterSaveKeepsFinished(st: State, st': State, t: Task)
    requires FinishedIsWritten(st) && st'.written == st.written && st'.failed == st.failed
    requires In(st'.sites, t, Running) && st'.sites.phase.Keys == st.sites.phase.Keys
    requires forall u :: u != t && u in st.sites.phase ==> st'.sites.phase[u] == st.sites.phase[u]
    ensures FinishedIsWritten(st')
  {
    SameKeys(st.sites, st'.sites);
    FinishedLooksAt(st, st');
  }

  lemma EnterSaveKeepsPending(st: State, st': State, t: Task)
    requires Pending(st) && In(st.sites, t, Granted) && In(st'.sites, t, Running) && st'.sites.phase.Keys == st.sites.phase.Keys
    requires forall u :: u != t && u in st.sites.phase ==> st'.sites.phase[u] == st.sites.phase[u]
    requires st'.outer == st.outer && st'.failed == st.failed && st'.clearing == st.clearing
    ensures Pending(st')
  {
    assert PendingOf(st, t);
    SameKeys(st.sites, st'.sites);
    forall u | u != t ensures SamePending(st, st', u) { }
    PendingLooksAt(st, st', t);
  }

  lemma EnterSaveNests(st: State, st': State, t: Task)
    requires Nested(st) && st'.outer == st.outer && In(st.sites, t, Granted) && st'.sites.phase.Keys == st.sites.phase.Keys
    requires forall u :: u != t && u in st.sites.phase ==> st'.sites.phase[u] == st.sites.phase[u]
    ensures Nested(st')
  {
    SameKeys(st.sites, st'.sites);
  }

  lemma VersionsAtMostMemory(st: State, arrayNo: nat)
    requires Arrays(st)
    ensures Version(st, arrayNo) <= st.memory
  {
    if arrayNo < |st.replaced| { assert Version(st, arrayNo) < Version(st, |st.replaced|); }
  }

  lemma EnterSaveKeepsInv(st: State, t: Task)
    requires StateInv(st) && Enabled(st, EnterSave(t))
    ensures StateInv(Apply(st, EnterSave(t)))
  {
    hide Inv, Nested, Arrays, Bindings, Places, Versions, Stored, FinishedIsWritten, Pending, Enter, Version;
    var st' := Apply(st, EnterSave(t));
    EnterKeepsInv(st.sites, t);
    EnterFacts(st.sites, t);
    GrantedIsNext(st.sites, t);
    VersionsAtMostMemory(st, st.bound[t]);
    var taken := st'.snapshot[t];
    forall u | u in st.snapshot ensures st.snapshot[u].version <= taken.version && st.snapshot[u].place < taken.place {
      EarlierIsNoNewer(st, t, u);
      PlaceIsEntered(st, u);
    }
    EnterSaveNests(st, st', t);
    EnterSaveKeepsPlaces(st, st', t, taken.version);
    EnterSaveKeepsVersions(st, st', t, taken);
    EnterSaveKeepsFinished(st, st', t);
    EnterSaveKeepsPending(st, st', t);
    hide In;
    ArraysLookAt(st, st');
    BindingsLookAt(st, st');
    StoredLooksAt(st, st');
  }

  lemma PlaceIsEntered(st: State, u: Task)
    requires Places(st) && u in st.snapshot
    ensures st.snapshot[u].place < |st.sites.entered| && st.sites.entered[st.snapshot[u].place] == u
  {
  }

  /** The task inside the sites lock took the latest snapshot, so that all written ones come before. */
  lemma HolderIsLatest(st: State, t: Task)
    requires Inv(st.sites) && In(st.sites, t, Running) && Places(st) && Stored(st) && t in st.snapshot && t !in st.written
    ensures st.snapshot[t].place == |st.sites.entered| - 1 && st.snapshot[t].task == t
    ensures forall k :: 0 <= k < |st.stored| ==> st.stored[k].place < st.snapshot[t].place
  {
    hide Inv, In;
    HolderEntered(st.sites, t);
    PlaceIsEntered(st, t);
    assert st.snapshot[st.sites.entered[|st.sites.entered| - 1]].place == |st.sites.entered| - 1;
    hide Places;
    forall k | 0 <= k < |st.stored| ensures st.stored[k].place < st.snapshot[t].place {
      assert IsWritten(st, st.stored[k]);
      PlaceIsEntered(st, st.stored[k].task);
    }
  }

  lemma WriteKeepsStored(st: State, st': State, t: Task)
    requires Stored(st) && t in st.snapshot && st.snapshot[t].task == t && st'.snapshot == st.snapshot && st'.written == st.written + {t}
    requires st'.stored == st.stored + [st.snapshot[t]] && st'.store == st.snapshot[t].version
    requires forall k :: 0 <= k < |st.stored| ==> st.stored[k].place < st.snapshot[t].place
    ensures Stored(st')
  {
    forall k | 0 <= k < |st'.stored| ensures IsWritten(st', st'.stored[k]) {
      if k < |st.stored| { assert IsWritten(st, st.stored[k]); }
    }
  }

  lemma WriteKeepsInv(st: State, t: Task)
    requires StateInv(st) && Enabled(st, Write(t))
    ensures StateInv(Apply(st, Write(t)))
  {
    hide Inv, Nested, Arrays, Bindings, Places, Versions, Stored, FinishedIsWritten, Pending, In;
    var st' := Apply(st, Write(t));
    HolderIsLatest(st, t);
    WriteKeepsStored(st, st', t);
    NestedLooksAt(st, st');
    ArraysLookAt(st, st');
    BindingsLookAt(st, st');
    PlacesLookAt(st, st');
    WriteKeepsVersions(st, st');
    FinishedLooksAt(st, st');
    PendingUnseen(st, st');
  }

  lemma WriteKeepsVersions(st: State, st': State)
    requires Versions(st) && st' == st.(store := st'.store, stored := st'.stored, written := st'.written)
    ensures Versions(st')
  {
    VersionsLookAt(st, st');
  }

  lemma LeaveSitesNests(st: State, st': State, t: Task)
    requires Nested(st) && Departed(st.sites, st'.sites, t) && st'.outer == st.outer
    ensures Nested(st')
  {
    hide In;
  }

  lemma LeaveOuterNests(st: State, st': State, t: Task)
    requires Nested(st) && Departed(st.outer, st'.outer, t) && st'.sites == st.sites && In(st.sites, t, Done)
    requires In(st.outer, t, Running)
    ensures Nested(st')
  {
    assert t in st.sites.phase;
    hide In;
  }

  lemma LeaveKeepsFinished(st: State, st': State, t: Task)
    requires FinishedIsWritten(st) && Departed(st.sites, st'.sites, t) && st'.written == st.written && st.failed <= st'.failed
    requires t in st'.failed || t in st.written
    ensures FinishedIsWritten(st')
  {
    hide In;
    FinishedLooksAt(st, st');
  }

  lemma LeaveSitesKeepsPending(st: State, st': State, t: Task)
    requires Pending(st) && Departed(st.sites, st'.sites, t) && st'.outer == st.outer && st'.clearing == st.clearing
    requires forall u :: u != t ==> (u in st'.failed <==> u in st.failed)
    ensures Pending(st')
  {
    hide In;
    assert PendingOf(st, t);
    forall u | u != t ensures SamePending(st, st', u) { }
    PendingLooksAt(st, st', t);
  }

  lemma LeaveOuterKeepsPending(st: State, st': State, t: Task)
    requires Pending(st) && Departed(st.outer, st'.outer, t) && st'.sites == st.sites && st'.clearing == st.clearing
    requires st'.failed == st.failed && In(st.sites, t, Done)
    ensures Pending(st')
  {
    hide In;
    assert PendingOf(st, t);
    forall u | u != t ensures SamePending(st, st', u) { }
    PendingLooksAt(st, st', t);
  }

  lemma ClearKeepsPending(st: State, st': State, t: Task)
    requires Pending(st) && st'.outer == st.outer && st'.sites == st.sites && st'.failed == st.failed
    requires st'.clearing == st.clearing - {t} && In(st.sites, t, Done)
    ensures Pending(st')
  {
    hide In;
    assert PendingOf(st, t);
    forall u | u != t ensures SamePending(st, st', u) { }
    PendingLooksAt(st, st', t);
  }

  lemma FinishSaveKeepsInv(st: State, t: Task, fails: bool)
    requires StateInv(st) && Enabled(st, FinishSave(t, fails))
    ensures StateInv(Apply(st, FinishSave(t, fails)))
  {
    hide Inv, Nested, Arrays, Bindings, Places, Versions, Stored, FinishedIsWritten, Pending, Leave, In;
    var st' := Apply(st, FinishSave(t, fails));
    LeaveDeparts(st.sites, t);
    LeaveSitesNests(st, st', t);
    LeaveKeepsFinished(st, st', t);
    LeaveSitesKeepsPending(st, st', t);
    assert st'.sites.phase.Keys == st.sites.phase.Keys;
    hide Departed;
    ArraysLookAt(st, st');
    BindingsLookAt(st, st');
    PlacesLookAt(st, st');
    FinishSaveKeepsVersions(st, st');
    StoredLooksAt(st, st');
  }

  lemma FinishSaveKeepsVersions(st: State, st': State)
    requires Versions(st) && st' == st.(sites := st'.sites, failed := st'.failed)
    ensures Versions(st')
  {
    VersionsLookAt(st, st');
  }

  lemma ClearFlagKeepsInv(st: State, t: Task)
    requires StateInv(st) && Enabled(st, ClearFlag(t))
    ensures StateInv(Apply(st, ClearFlag(t)))
  {
    hide Inv, Nested, Arrays, Bindings, Places, Versions, Stored, FinishedIsWritten, Pending, In;
    OuterKeepsSaves(st, Apply(st, ClearFlag(t)));
    NestedLooksAt(st, Apply(st, ClearFlag(t)));
    ClearKeepsPending(st, Apply(st, ClearFlag(t)), t);
  }

  lemma FinishFlushKeepsInv(st: State, t: Task)
    requires StateInv(st) && Enabled(st, FinishFlush(t))
    ensures StateInv(Apply(st, FinishFlush(t)))
  {
    hide Inv, Nested, Arrays, Bindings, Places, Versions, Stored, FinishedIsWritten, Pending, Leave, Departed, In;
    var st' := Apply(st, FinishFlush(t));
    LeaveDeparts(st.outer, t);
    LeaveOuterNests(st, st', t);
    LeaveOuterKeepsPending(st, st', t);
    OuterKeepsSaves(st, st');
  }

  lemma StepKeepsInv(st: State, step: Step)
    requires StateInv(st) && Enabled(st, step)
    ensures StateInv(Apply(st, step))
  {
    hide StateInv, Apply;
    match step
    case Mutate => ChangeKeepsInv(st, step);
    case Replace => ChangeKeepsInv(st, step);
    case AskSave(t, clears) => AskSaveKeepsInv(st, t, clears);
    case AskFlush(t) => AskFlushKeepsInv(st, t);
    case EnterFlush(t) => EnterFlushKeepsInv(st, t);
    case EnterSave(t) => EnterSaveKeepsInv(st, t);
    case Write(t) => WriteKeepsInv(st, t);
    case FinishSave(t, fails) => FinishSaveKeepsInv(st, t, fails);
    case ClearFlag(t) => ClearFlagKeepsInv(st, t);
    case FinishFlush(t) => FinishFlushKeepsInv(st, t);
  }

  lemma {:induction false} RunKeepsInv(st: State, steps: seq<Step>)
    requires StateInv(st) && ValidRun(st, steps)
    ensures StateInv(Run(st, steps))
    decreases |steps|
  {
    hide StateInv, Apply, Enabled;
    if steps != [] {
      StepKeepsInv(st, steps[0]);
      RunKeepsInv(Apply(st, steps[0]), steps[1..]);
    }
  }
}
