/** Whole runs of the command protocol: what every reachable state keeps, and what a legal log means
    for one command. */
module AgentCommandRuns {
  import opened AgentCommands
  import opened Shared

  // ---------- runs ----------

  /** One call. Ids are fresh (`crypto.randomBytes`), and the clock does not go back. */
  datatype Step =
    | DoEnqueue(site: string, id: string, command: string, now: int)
    | DoPoll(site: string, now: int)
    | DoResult(site: string, id: string)
    | DoReject(id: string, how: Outcome)
    | DoClear(site: string, order: seq<string>)

  ghost predicate Enabled(st: Commands, step: Step) {
    match step
    case DoEnqueue(_, id, _, now) => st.clock <= now && id != "" && !WasEnqueued(st.log, id)
    case DoPoll(_, now) => st.clock <= now
    case DoResult(_, _) => true
    case DoReject(_, _) => true
    case DoClear(site, order) => ClearOrder(st, site, order)
  }

  function Apply(st: Commands, step: Step): Commands {
    match step
    case DoEnqueue(site, id, command, now) => Enqueue(st, site, id, command, now)
    case DoPoll(site, now) => Dequeue(st, site, now).1
    case DoResult(site, id) => Resolve(st, site, id).1
    case DoReject(id, how) => Reject(st, id, how)
    case DoClear(site, order) => ClearSite(st, site, order)
  }

  ghost predicate ValidRun(st: Commands, steps: seq<Step>)
    decreases |steps|
  {
    steps == [] || (Enabled(st, steps[0]) && ValidRun(Apply(st, steps[0]), steps[1..]))
  }

  function Run(st: Commands, steps: seq<Step>): Commands
    decreases |steps|
  {
    if steps == [] then st else Run(Apply(st, steps[0]), steps[1..])
  }

  lemma StepKeepsInv(st: Commands, step: Step)
    requires Inv(st) && Enabled(st, step)
    ensures Inv(Apply(st, step))
  {
    hide Inv, Enqueue, Dequeue, Resolve, Reject, ClearSite, ClearOrder;
    match step
    case DoEnqueue(site, id, command, now) => EnqueueKeepsInv(st, site, id, command, now);
    case DoPoll(site, now) => DequeueKeepsInv(st, site, now);
    case DoResult(site, id) => ResolveKeepsInv(st, site, id);
    case DoReject(id, how) => RejectKeepsInv(st, id, how);
    case DoClear(site, order) => ClearKeepsInv(st, site, order);
  }

  /** Queue, waiters and log agree in every reachable state, and the log is legal. */
  lemma {:induction false} RunKeepsInv(st: Commands, steps: seq<Step>)
    requires Inv(st) && ValidRun(st, steps)
    ensures Inv(Run(st, steps))
    decreases |steps|
  {
    hide Inv, Apply, Enabled;
    if steps != [] {
      StepKeepsInv(st, steps[0]);
      RunKeepsInv(Apply(st, steps[0]), steps[1..]);
    }
  }

  /** The ids in a site's queue are distinct and are exactly the ids of the waiters of that site. */
  lemma QueueIsWaiters(clock: int, steps: seq<Step>, site: string, id: string)
    requires clock >= 0 && ValidRun(Start(clock), steps)
    ensures
      var st := Run(Start(clock), steps);
      && Distinct(Ids(QueueOf(st, site)))
      && (id in Ids(QueueOf(st, site)) <==> id in st.pending && st.pending[id].siteId == site)
  {
    hide Run, ValidRun, Open, IssueCount, LastIssue, EnqueuedAt, EnqueuedText, Legal, Ids;
    StartInv(clock);
    RunKeepsInv(Start(clock), steps);
    var st := Run(Start(clock), steps);
    assert QueueAgrees(st, site);
    if id in Ids(QueueOf(st, site)) {
      var i :| 0 <= i < |QueueOf(st, site)| && Ids(QueueOf(st, site))[i] == id;
      RowFacts(st, site, i);
    }
    if id in st.pending { assert WaiterAgrees(st, id); }
  }

  /** A result is taken exactly when the command is open at the site of the session that sends it;
      otherwise nothing changes. */
  lemma ResultTakenIffOpen(st: Commands, site: string, id: string)
    requires Inv(st) && site != ""
    ensures Resolve(st, site, id).0 <==> id in Open(st.log, site)
    ensures !Resolve(st, site, id).0 ==> Resolve(st, site, id).1 == st
  {
    hide Open, IssueCount, LastIssue, EnqueuedAt, EnqueuedText, Legal, Settle, Ids;
    assert QueueAgrees(st, site);
    if id in st.pending { assert WaiterAgrees(st, id); }
    if id in Open(st.log, site) {
      var i :| 0 <= i < |Open(st.log, site)| && Open(st.log, site)[i] == id;
      RowFacts(st, site, i);
    }
  }

  // ---------- what a legal log means for one command ----------

  lemma {:induction false} LegalAt(log: seq<Event>, k: nat)
    requires Legal(log) && k < |log|
    ensures Legal(log[..k]) && LegalNext(log[..k], log[k])
  {
    hide LegalNext;
    if k < |log| - 1 {
      LegalAt(log[..|log| - 1], k);
      assert log[..|log| - 1][..k] == log[..k];
    }
  }

  /** A command is open at one site, once. */
  lemma {:induction false} OpenOnce(log: seq<Event>, site: string, other: string, id: string)
    requires Legal(log)
    ensures Distinct(Open(log, site))
    ensures site != other && id in Open(log, site) ==> id !in Open(log, other)
  {
    hide WasEnqueued, EnqueuedAt, EnqueuedText, IssueCount, LastIssue, Open, Legal, RemoveFirst;
    if log == [] {
      OpenOfNothing(site);
    } else {
      var p, e := log[..|log| - 1], log[|log| - 1];
      LegalAt(log, |p|);
      assert log == p + [e];
      OpenOnce(p, site, other, id);
      LogStep(p, e, site, id);
      LogStep(p, e, other, id);
      RemoveFirstDistinct(Open(p, site), e.id);
      RemoveFirstKeeps(Open(p, site), e.id, id);
      RemoveFirstKeeps(Open(p, other), e.id, id);
      OpenIsEnqueued(p, site, e.id);
      OpenIsEnqueued(p, other, e.id);
      if e.Enqueued? { assert forall i :: 0 <= i < |Open(p, site)| ==> Open(p, site)[i] in Open(p, site); }
    }
  }

  lemma OpenOfNothing(site: string)
    ensures Open([], site) == []
  {
  }

  lemma OpenIsEnqueued(log: seq<Event>, site: string, id: string)
    ensures id in Open(log, site) ==> WasEnqueued(log, id)
  {
    if id in Open(log, site) { OpenWasEnqueued(log, site, id); }
  }

  /** Once settled, a command is open nowhere. */
  lemma {:induction false} SettledIsClosed(log: seq<Event>, i: nat, site: string)
    requires Legal(log) && i < |log| && log[i].Settled?
    ensures log[i].id !in Open(log, site) && WasEnqueued(log, log[i].id)
  {
    hide WasEnqueued, EnqueuedAt, EnqueuedText, IssueCount, LastIssue, Open, Legal, RemoveFirst, OlderIssued;
    var p, e, id := log[..|log| - 1], log[|log| - 1], log[i].id;
    LegalAt(log, |p|);
    assert log == p + [e];
    LogStep(p, e, site, id);
    if i == |p| {
      OpenOnce(p, site, e.site, id);
      OpenOnce(p, e.site, site, id);
      OpenIsEnqueued(p, e.site, id);
      RemoveFirstKeeps(Open(p, site), id, id);
    } else {
      SettledIsClosed(p, i, site);
      RemoveFirstKeeps(Open(p, site), e.id, id);
    }
  }

  /** A command is settled at most once, and never issued (or enqueued) again after that. */
  lemma SettledOnce(log: seq<Event>, i: nat, j: nat)
    requires Legal(log) && i < j < |log| && log[i].Settled?
    ensures log[j].id != log[i].id
  {
    hide Open, IssueCount, LastIssue, EnqueuedAt, EnqueuedText, Legal, WasEnqueued, OlderIssued;
    LegalAt(log, j);
    assert log[..j][i] == log[i];
    SettledIsClosed(log[..j], i, log[j].site);
  }

  ghost predicate WasSettled(log: seq<Event>, id: string) {
    exists j :: 0 <= j < |log| && log[j].Settled? && log[j].id == id
  }

  /** An enqueued command is open until it is settled: with SettledOnce, exactly one of "waiting" and
      "settled once" holds at any time. */
  lemma {:induction false} OpenUntilSettled(log: seq<Event>, i: nat)
    requires Legal(log) && i < |log| && log[i].Enqueued?
    ensures log[i].id in Open(log, log[i].site) <==> !WasSettled(log, log[i].id)
  {
    hide WasEnqueued, EnqueuedAt, EnqueuedText, IssueCount, LastIssue, Open, Legal, RemoveFirst, OlderIssued;
    var p, e, id, site := log[..|log| - 1], log[|log| - 1], log[i].id, log[i].site;
    LegalAt(log, |p|);
    assert log == p + [e];
    LogStep(p, e, site, id);
    if WasSettled(log, id) {
      var j :| 0 <= j < |log| && log[j].Settled? && log[j].id == id;
      SettledIsClosed(log, j, site);
    } else if i < |p| {
      forall j | 0 <= j < |p| ensures !(p[j].Settled? && p[j].id == id) { assert p[j] == log[j]; }
      OpenUntilSettled(p, i);
      RemoveFirstKeeps(Open(p, site), e.id, id);
    }
  }

  lemma {:induction false} IssuedCounts(log: seq<Event>, i: nat)
    requires Legal(log) && i < |log| && log[i].Issued?
    ensures IssueCount(log, log[i].id) > 0 && log[i].at <= LastIssue(log, log[i].id)
  {
    hide WasEnqueued, EnqueuedAt, EnqueuedText, IssueCount, LastIssue, Open, Legal, OlderIssued;
    var p, e, id := log[..|log| - 1], log[|log| - 1], log[i].id;
    LegalAt(log, |p|);
    assert log == p + [e];
    LogStep(p, e, "", id);
    if i < |p| { IssuedCounts(p, i); }
  }

  /** Two issues of one command are at least a lease apart. */
  lemma IssuesApart(log: seq<Event>, i: nat, j: nat)
    requires Legal(log) && i < j < |log| && log[i].Issued? && log[j].Issued? && log[i].id == log[j].id
    ensures log[i].at + COMMAND_LEASE_MS <= log[j].at
  {
    hide Open, IssueCount, LastIssue, EnqueuedAt, EnqueuedText, Legal, OlderIssued;
    LegalAt(log, j);
    assert log[..j][i] == log[i];
    IssuedCounts(log[..j], i);
  }

  ghost predicate Before(ids: seq<string>, a: string, b: string) {
    exists x, y :: 0 <= x < y < |ids| && ids[x] == a && ids[y] == b
  }

  lemma RemoveKeepsBefore(ids: seq<string>, id: string, a: string, b: string)
    requires Before(ids, a, b) && Distinct(ids) && a != id && b != id
    ensures Before(RemoveFirst(ids, id), a, b)
  {
    hide RemoveFirst;
    var x, y :| 0 <= x < y < |ids| && ids[x] == a && ids[y] == b;
    if id in ids {
      var k :| 0 <= k < |ids| && ids[k] == id;
      RemoveFirstAt(ids, k);
      var r := ids[..k] + ids[k + 1..];
      assert r[if x < k then x else x - 1] == a && r[if y < k then y else y - 1] == b;
    } else {
      RemoveAbsent(ids, id);
    }
  }

  lemma {:induction false} RemoveAbsent(ids: seq<string>, id: string)
    requires id !in ids
    ensures RemoveFirst(ids, id) == ids
  {
    if ids != [] {
      assert ids == [ids[0]] + ids[1..];
      RemoveAbsent(ids[1..], id);
    }
  }

  /** Open commands stand in the order in which they were enqueued. */
  lemma {:induction false} OpenInOrder(log: seq<Event>, i: nat, j: nat)
    requires Legal(log) && i < j < |log| && log[i].Enqueued? && log[j].Enqueued? && log[i].site == log[j].site
    requires log[i].id in Open(log, log[i].site) && log[j].id in Open(log, log[i].site)
    ensures Before(Open(log, log[i].site), log[i].id, log[j].id)
  {
    hide WasEnqueued, EnqueuedAt, EnqueuedText, IssueCount, LastIssue, Open, Legal, RemoveFirst, OlderIssued;
    var p, e, site, a, b := log[..|log| - 1], log[|log| - 1], log[i].site, log[i].id, log[j].id;
    LegalAt(log, |p|);
    assert log == p + [e] && p[i] == log[i];
    LogStep(p, e, site, a);
    OpenOnce(p, site, site, a);
    RemoveFirstKeeps(Open(p, site), e.id, a);
    RemoveFirstKeeps(Open(p, site), e.id, b);
    if j == |p| {
      var x :| 0 <= x < |Open(log, site)| && Open(log, site)[x] == a;
      StillEnqueued(p, i);
      assert Open(log, site) == Open(p, site) + [b];
      assert x < |Open(p, site)| && Open(log, site)[|Open(p, site)|] == b;
    } else {
      StillEnqueued(p, i);
      StillEnqueued(p, j);
      OpenInOrder(p, i, j);
      if e.Settled? && e.site == site { RemoveKeepsBefore(Open(p, site), e.id, a, b); }
      if e.Enqueued? && e.site == site { BeforeExtends(Open(p, site), e.id, a, b); }
    }
  }

  lemma BeforeExtends(ids: seq<string>, id: string, a: string, b: string)
    requires Before(ids, a, b)
    ensures Before(ids + [id], a, b)
  {
    var x, y :| 0 <= x < y < |ids| && ids[x] == a && ids[y] == b;
    assert (ids + [id])[x] == a && (ids + [id])[y] == b;
  }

  lemma StillEnqueued(log: seq<Event>, i: nat)
    requires i < |log| && log[i].Enqueued?
    ensures WasEnqueued(log, log[i].id)
  {
  }

  ghost predicate WasIssued(log: seq<Event>, id: string) {
    exists k :: 0 <= k < |log| && log[k].Issued? && log[k].id == id
  }

  lemma {:induction false} CountedWasIssued(log: seq<Event>, id: string)
    requires IssueCount(log, id) > 0
    ensures WasIssued(log, id)
  {
    var n := |log| - 1;
    if log[n].Issued? && log[n].id == id {
    } else {
      CountedWasIssued(log[..n], id);
      var k :| 0 <= k < n && log[..n][k].Issued? && log[..n][k].id == id;
      assert log[k].Issued? && log[k].id == id;
    }
  }

  /** First come, first issued: when b is issued, every a enqueued before it at the same site has been
      issued or settled already. */
  lemma FirstComeFirstIssued(log: seq<Event>, i: nat, j: nat, k: nat)
    requires Legal(log) && i < j < k < |log|
    requires log[i].Enqueued? && log[j].Enqueued? && log[i].site == log[j].site
    requires log[k].Issued? && log[k].id == log[j].id
    ensures WasIssued(log[..k], log[i].id) || WasSettled(log[..k], log[i].id)
  {
    hide WasEnqueued, EnqueuedAt, EnqueuedText, IssueCount, LastIssue, Open, Legal, WasIssued, WasSettled;
    var p, site, a, b := log[..k], log[i].site, log[i].id, log[j].id;
    LegalAt(log, k);
    assert p[i] == log[i] && p[j] == log[j];
    OpenUntilSettled(p, i);
    OpenUntilSettled(p, j);
    IssuedAtItsSite(p, log[k], j);
    if !WasSettled(p, a) {
      OpenInOrder(p, i, j);
      var x, y :| 0 <= x < y < |Open(p, site)| && Open(p, site)[x] == a && Open(p, site)[y] == b;
      assert IssueCount(p, a) > 0;
      CountedWasIssued(p, a);
    }
  }

  /** A command is issued at the site it was enqueued for. */
  lemma IssuedAtItsSite(p: seq<Event>, e: Event, j: nat)
    requires Legal(p) && e.Issued? && LegalNext(p, e)
    requires j < |p| && p[j].Enqueued? && p[j].id == e.id
    ensures e.site == p[j].site
  {
    hide WasEnqueued, EnqueuedAt, EnqueuedText, IssueCount, LastIssue, Open, Legal, WasSettled, OlderIssued;
    SiteOfOpen(p, j, e.site);
  }

  lemma {:induction false} SiteOfOpen(log: seq<Event>, j: nat, site: string)
    requires Legal(log) && j < |log| && log[j].Enqueued? && log[j].id in Open(log, site)
    ensures site == log[j].site
  {
    hide WasEnqueued, EnqueuedAt, EnqueuedText, IssueCount, LastIssue, Open, Legal, RemoveFirst, OlderIssued;
    var p, e, id := log[..|log| - 1], log[|log| - 1], log[j].id;
    LegalAt(log, |p|);
    assert log == p + [e];
    LogStep(p, e, site, id);
    if j == |p| {
      OpenIsEnqueued(p, site, id);
    } else {
      assert p[j] == log[j];
      RemoveFirstKeeps(Open(p, site), e.id, id);
      StillEnqueued(p, j);
      SiteOfOpen(p, j, site);
    }
  }

  // ---------- how often a command is issued ----------

  /** n issues take at least n - 1 leases. */
  lemma {:induction false} LeaseBudget(log: seq<Event>, id: string)
    requires Legal(log) && IssueCount(log, id) > 0
    ensures EnqueuedAt(log, id) + (IssueCount(log, id) - 1) * COMMAND_LEASE_MS <= LastIssue(log, id)
  {
    hide WasEnqueued, EnqueuedAt, EnqueuedText, IssueCount, LastIssue, Open, Legal, OlderIssued;
    if log == [] {
      CountOfNothing(id);
    } else {
      var p, e := log[..|log| - 1], log[|log| - 1];
      LegalAt(log, |p|);
      assert log == p + [e];
      LogStep(p, e, "", id);
      if IssueCount(p, id) > 0 {
        LeaseBudget(p, id);
        CountedIsEnqueued(p, id);
        var n := IssueCount(p, id);
        assert n * COMMAND_LEASE_MS == (n - 1) * COMMAND_LEASE_MS + COMMAND_LEASE_MS;
      }
    }
  }

  lemma CountOfNothing(id: string)
    ensures IssueCount([], id) == 0
  {
  }

  lemma CountedIsEnqueued(log: seq<Event>, id: string)
    requires Legal(log) && IssueCount(log, id) > 0
    ensures WasEnqueued(log, id)
  {
    if !WasEnqueued(log, id) { NeverIssued(log, id); }
  }

  /** Timers fire on time: no command is enqueued or polled for while a waiter's deadline has passed. */
  ghost predicate Punctual(st: Commands, step: Step) {
    (step.DoPoll? || step.DoEnqueue?) ==>
      forall id :: id in st.pending ==> step.now < st.pending[id].createdAt + COMMAND_TIMEOUT_MS
  }

  ghost predicate PunctualRun(st: Commands, steps: seq<Step>)
    decreases |steps|
  {
    steps == [] || (Punctual(st, steps[0]) && PunctualRun(Apply(st, steps[0]), steps[1..]))
  }

  predicate InTime(log: seq<Event>, id: string) {
    IssueCount(log, id) > 0 ==> LastIssue(log, id) < EnqueuedAt(log, id) + COMMAND_TIMEOUT_MS
  }

  lemma SameLogInTime(st: Commands, e: Event, id: string)
    requires InTime(st.log, id) && Legal(st.log) && LegalNext(st.log, e) && !e.Issued?
    ensures InTime(st.log + [e], id)
  {
    hide WasEnqueued, EnqueuedAt, EnqueuedText, IssueCount, LastIssue, Open, Legal;
    LogStep(st.log, e, "", id);
    if IssueCount(st.log, id) > 0 { CountedIsEnqueued(st.log, id); }
  }

  lemma {:induction false} ClearedInTime(log: seq<Event>, site: string, order: seq<string>, id: string)
    requires InTime(log, id)
    ensures InTime(AllCleared(log, site, order), id)
  {
    hide EnqueuedAt, EnqueuedText, IssueCount, LastIssue;
    if order != [] {
      var n := |order| - 1;
      ClearedInTime(log, site, order[..n], id);
      LogStep(AllCleared(log, site, order[..n]), Settled(site, order[n], Cleared), site, id);
    }
  }

  lemma PollInTime(st: Commands, site: string, now: int, id: string)
    requires Inv(st) && st.clock <= now && InTime(st.log, id) && Punctual(st, DoPoll(site, now))
    ensures InTime(Dequeue(st, site, now).1.log, id)
  {
    hide WasEnqueued, EnqueuedAt, EnqueuedText, IssueCount, LastIssue, Open, Legal, FirstFree, IssuedFirst, Ids, Distinct;
    var q, i := QueueOf(st, site), FirstFree(QueueOf(st, site), now);
    if site != "" && i < |q| {
      assert QueueAgrees(st, site);
      RowFacts(st, site, i);
      LogStep(st.log, Issued(site, q[i].id, now), site, id);
    }
  }

  lemma StepInTime(st: Commands, step: Step, id: string)
    requires Inv(st) && Enabled(st, step) && Punctual(st, step) && InTime(st.log, id)
    ensures InTime(Apply(st, step).log, id)
  {
    hide InTime, Open, IssueCount, LastIssue, EnqueuedAt, EnqueuedText, Legal, WasEnqueued, QueueAgrees, RemoveRow, FirstFree;
    match step
    case DoEnqueue(site, x, command, now) =>
      if site != "" && command != "" { SameLogInTime(st, Enqueued(site, x, command, now), id); }
    case DoPoll(site, now) => PollInTime(st, site, now, id);
    case DoResult(site, x) =>
      if Resolve(st, site, x).0 {
        assert WaiterAgrees(st, x);
        SameLogInTime(st, Settled(site, x, Answered), id);
      }
    case DoReject(x, how) =>
      if x in st.pending {
        assert WaiterAgrees(st, x);
        SameLogInTime(st, Settled(st.pending[x].siteId, x, how), id);
      }
    case DoClear(site, order) => ClearedInTime(st.log, site, order, id);
  }

  lemma {:induction false} RunInTime(st: Commands, steps: seq<Step>, id: string)
    requires Inv(st) && ValidRun(st, steps) && PunctualRun(st, steps) && InTime(st.log, id)
    ensures InTime(Run(st, steps).log, id)
    decreases |steps|
  {
    hide InTime, Inv, Apply, Enabled, Punctual;
    if steps != [] {
      StepKeepsInv(st, steps[0]);
      StepInTime(st, steps[0], id);
      RunInTime(Apply(st, steps[0]), steps[1..], id);
    }
  }

  function CeilDiv(a: int, b: Duration): int {
    (a + b - 1) / b
  }

  lemma ProductsOrdered(x: int, y: int, b: Duration)
    requires x <= y
    ensures x * b <= y * b
  {
    assert (y - x) * b >= 0;
    assert (y - x) * b == y * b - x * b;
  }

  lemma CeilDivBounds(a: int, b: Duration, n: int)
    requires (n - 1) * b < a
    ensures n <= CeilDiv(a, b)
  {
    var q := CeilDiv(a, b);
    assert a + b - 1 < q * b + b;
    if q <= n - 1 { ProductsOrdered(q, n - 1, b); }
  }

  /** When timers fire on time, no command is issued more than ceil(TIMEOUT / LEASE) times. */
  lemma IssuedAtMost(clock: int, steps: seq<Step>, id: string)
    requires clock >= 0 && ValidRun(Start(clock), steps) && PunctualRun(Start(clock), steps)
    ensures IssueCount(Run(Start(clock), steps).log, id) <= CeilDiv(COMMAND_TIMEOUT_MS, COMMAND_LEASE_MS)
  {
    hide Run, ValidRun, PunctualRun, IssueCount, LastIssue, EnqueuedAt, EnqueuedText, QueueAgrees, CeilDiv;
    StartInv(clock);
    CountOfNothing(id);
    RunKeepsInv(Start(clock), steps);
    RunInTime(Start(clock), steps, id);
    var log := Run(Start(clock), steps).log;
    if IssueCount(log, id) > 0 {
      LeaseBudget(log, id);
      CeilDivBounds(COMMAND_TIMEOUT_MS, COMMAND_LEASE_MS, IssueCount(log, id));
    } else {
      CeilDivBounds(COMMAND_TIMEOUT_MS, COMMAND_LEASE_MS, 1);
    }
  }

  // ---------- every command is settled ----------

  /** An open command has a waiter, made when it was enqueued. */
  lemma OpenHasWaiter(st: Commands, site: string, id: string)
    requires Inv(st) && id in Open(st.log, site)
    ensures id != "" && id in st.pending
    ensures st.pending[id].siteId == site && st.pending[id].createdAt == EnqueuedAt(st.log, id)
  {
    hide Open, IssueCount, LastIssue, EnqueuedAt, EnqueuedText, Legal, Ids;
    assert QueueAgrees(st, site);
    var i :| 0 <= i < |Open(st.log, site)| && Open(st.log, site)[i] == id;
    RowFacts(st, site, i);
  }

  /** One event settles the command, and no other. */
  ghost predicate SettledExactlyOnce(log: seq<Event>, id: string) {
    exists j :: 0 <= j < |log| && log[j].Settled? && log[j].id == id && OnlyAt(log, j)
  }

  ghost predicate OnlyAt(log: seq<Event>, j: nat)
    requires j < |log|
  {
    forall k :: 0 <= k < |log| && log[k].Settled? && log[k].id == log[j].id ==> k == j
  }

  lemma SettledIsExactlyOnce(log: seq<Event>, id: string)
    requires Legal(log) && WasSettled(log, id)
    ensures SettledExactlyOnce(log, id)
  {
    hide Legal;
    var j :| 0 <= j < |log| && log[j].Settled? && log[j].id == id;
    forall k | 0 <= k < |log| && log[k].Settled? && log[k].id == log[j].id ensures k == j {
      if k < j { SettledOnce(log, k, j); }
      if j < k { SettledOnce(log, j, k); }
    }
    assert OnlyAt(log, j);
  }

  /** In any state that agrees, the timer of an open command settles it, and nothing else ever does. */
  lemma TimerSettles(st: Commands, site: string, id: string)
    requires Inv(st) && id in Open(st.log, site)
    ensures !WasSettled(st.log, id) && SettledExactlyOnce(Reject(st, id, TimedOut).log, id)
  {
    hide Open, IssueCount, LastIssue, EnqueuedAt, EnqueuedText, Legal, QueueAgrees, SettledExactlyOnce, RemoveRow;
    OpenHasWaiter(st, site, id);
    RejectKeepsInv(st, id, TimedOut);
    var log := Reject(st, id, TimedOut).log;
    assert log == st.log + [Settled(site, id, TimedOut)];
    assert log[|st.log|].Settled? && log[|st.log|].id == id;
    SettledIsExactlyOnce(log, id);
    if WasSettled(st.log, id) {
      var j :| 0 <= j < |st.log| && st.log[j].Settled? && st.log[j].id == id;
      SettledIsClosed(st.log, j, site);
    }
  }

  /** The log holds the time of the only enqueue of an id. */
  lemma {:induction false} EnqueuedThen(log: seq<Event>, i: nat)
    requires Legal(log) && i < |log| && log[i].Enqueued?
    ensures EnqueuedAt(log, log[i].id) == log[i].at
  {
    hide WasEnqueued, EnqueuedAt, EnqueuedText, IssueCount, LastIssue, Open, Legal, OlderIssued;
    var p, e := log[..|log| - 1], log[|log| - 1];
    LegalAt(log, |p|);
    assert log == p + [e];
    LogStep(p, e, "", log[i].id);
    if i < |p| {
      StillEnqueued(p, i);
      EnqueuedThen(p, i);
    }
  }

  /** When timers fire on time, every command has been settled exactly once when a poll or an enqueue
      comes after its deadline. */
  lemma SettledByDeadline(clock: int, steps: seq<Step>, i: nat, next: Step)
    requires clock >= 0 && ValidRun(Start(clock), steps)
    requires Punctual(Run(Start(clock), steps), next) && (next.DoPoll? || next.DoEnqueue?)
    requires
      var log := Run(Start(clock), steps).log;
      i < |log| && log[i].Enqueued? && log[i].at + COMMAND_TIMEOUT_MS <= next.now
    ensures
      var log := Run(Start(clock), steps).log;
      SettledExactlyOnce(log, log[i].id)
  {
    hide Run, ValidRun, Open, EnqueuedAt, EnqueuedText, IssueCount, LastIssue, Legal, QueueAgrees, SettledExactlyOnce;
    StartInv(clock);
    RunKeepsInv(Start(clock), steps);
    var st := Run(Start(clock), steps);
    var e := st.log[i];
    OpenUntilSettled(st.log, i);
    EnqueuedThen(st.log, i);
    if e.id in Open(st.log, e.site) { OpenHasWaiter(st, e.site, e.id); }
    SettledIsExactlyOnce(st.log, e.id);
  }
}
