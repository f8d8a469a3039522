/** What each predicate of the invariant of saves and flushes looks at. */
module PersistenceFrames {
  import opened AsyncMutex
  import opened Persistence

  // ---------- what each predicate looks at ----------

  lemma NestedLooksAt(st: State, st': State)
    requires Nested(st) && st'.outer.phase == st.outer.phase && st'.sites.phase == st.sites.phase
    ensures Nested(st')
  {
  }

  lemma ArraysLookAt(st: State, st': State)
    requires Arrays(st) && st'.replaced == st.replaced && st'.memory == st.memory
    ensures Arrays(st')
  {
    forall a, b | 0 <= a < b <= |st.replaced| ensures Version(st', a) < Version(st', b) {
      assert Version(st, a) < Version(st, b);
    }
  }

  lemma BindingsLookAt(st: State, st': State)
    requires Bindings(st) && st'.bound == st.bound && |st.replaced| <= |st'.replaced|
    requires st'.sites.requested == st.sites.requested && st'.sites.phase.Keys == st.sites.phase.Keys
    ensures Bindings(st')
  {
    SameKeys(st.sites, st'.sites);
    forall t | t in st'.sites.phase ensures t in st'.bound && st'.bound[t] <= |st'.replaced| { assert t in st.sites.phase; }
    forall t | t in st'.bound ensures t in st'.sites.phase { assert t in st.sites.phase; }
    hide BoundInOrder;
  }

  lemma SameKeys(l: Lock, l': Lock)
    requires l'.phase.Keys == l.phase.Keys
    ensures forall t :: t in l'.phase <==> t in l.phase
  {
    forall t ensures t in l'.phase <==> t in l.phase { assert t in l'.phase.Keys <==> t in l.phase.Keys; }
  }

  lemma PlacesLookAt(st: State, st': State)
    requires Places(st) && st'.snapshot == st.snapshot && st'.sites.entered == st.sites.entered
    requires forall t :: t in st.sites.phase ==> t in st'.sites.phase
    ensures Places(st')
  {
  }

  lemma VersionsLookAt(st: State, st': State)
    requires Versions(st) && st'.snapshot == st.snapshot && st.memory <= st'.memory
    requires forall t :: t in st.snapshot ==> t in st.bound && t in st'.bound && st'.bound[t] == st.bound[t]
    requires forall t :: t in st.snapshot ==> Version(st, st.bound[t]) <= Version(st', st.bound[t]) <= st'.memory
    ensures Versions(st')
  {
  }

  lemma StoredLooksAt(st: State, st': State)
    requires Stored(st) && st'.written == st.written && st'.stored == st.stored && st'.store == st.store
    requires forall t :: t in st.snapshot ==> t in st'.snapshot && st'.snapshot[t] == st.snapshot[t]
    ensures Stored(st')
  {
    forall k | 0 <= k < |st'.stored| ensures IsWritten(st', st'.stored[k]) { assert IsWritten(st, st.stored[k]); }
  }

  lemma FinishedLooksAt(st: State, st': State)
    requires FinishedIsWritten(st) && st.written <= st'.written && st.failed <= st'.failed
    requires forall t :: t in st'.sites.phase && In(st'.sites, t, Done) && t !in st'.failed ==>
               (t in st.sites.phase && In(st.sites, t, Done)) || t in st'.written
    ensures FinishedIsWritten(st')
  {
    hide In;
  }

  /** What a pending save depends on. */
  ghost predicate SamePending(st: State, st': State, u: Task) {
    && (In(st'.outer, u, Running) <==> In(st.outer, u, Running))
    && (u in st'.sites.phase <==> u in st.sites.phase) && (In(st'.sites, u, Done) <==> In(st.sites, u, Done))
    && (u in st'.failed <==> u in st.failed) && (u in st.clearing ==> u in st'.clearing)
  }

  lemma PendingLooksAt(st: State, st': State, t: Task)
    requires Pending(st) && PendingOf(st', t) && forall u :: u != t ==> SamePending(st, st', u)
    ensures Pending(st')
  {
    hide In;
    forall u ensures PendingOf(st', u) {
      assert PendingOf(st, u);
      if u != t { assert SamePending(st, st', u); }
    }
  }

  lemma PendingUnseen(st: State, st': State)
    requires Pending(st) && st'.outer.phase == st.outer.phase && st'.sites.phase == st.sites.phase
    requires st'.failed == st.failed && st'.clearing == st.clearing
    ensures Pending(st')
  {
    forall u ensures SamePending(st, st', u) { }
    assert PendingOf(st, 0);
    PendingLooksAt(st, st', 0);
  }
}
