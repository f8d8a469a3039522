/** The command queues and waiters of the collector agents (lib/agent.js:495-609, 632-641).

    A command lives twice: as a row of its site's queue, leased to the agent on every poll, and as a
    pending waiter that holds the promise of the operator's request. The log records what happened;
    `Legal` says what a log may look like, without mentioning queues, leases held in rows, or waiters.
 */
module AgentCommands {
  import opened Shared

  // CAJAL_AGENT_COMMAND_TIMEOUT_MS (30000 unless set) and CAJAL_AGENT_COMMAND_LEASE_MS (12000 unless
  // set), lib/constants.js:249-250.
  const COMMAND_TIMEOUT_MS: Duration
  const COMMAND_LEASE_MS: Duration

  datatype Row = Row(id: string, command: string, createdAt: int, leaseUntil: int, attempts: nat, lastIssuedAt: int)
  datatype Waiter = Waiter(siteId: string, command: string, createdAt: int)
  datatype Outcome = Answered | TimedOut | Cleared

  datatype Event =
    | Enqueued(site: string, id: string, text: string, at: int)
    | Issued(site: string, id: string, at: int)
    | Settled(site: string, id: string, how: Outcome)

  datatype Commands = Commands(queues: map<string, seq<Row>>, pending: map<string, Waiter>, log: seq<Event>, clock: int)

  function Start(clock: int): Commands {
    Commands(map[], map[], [], clock)
  }

  // ---------- the operations ----------

  function QueueOf(st: Commands, site: string): seq<Row> {
    if site in st.queues then st.queues[site] else []
  }

  function Enqueue(st: Commands, site: string, id: string, command: string, now: int): Commands {
    if site == "" || command == "" then st
    else st.(queues := st.queues[site := QueueOf(st, site) + [Row(id, command, now, 0, 0, 0)]],
             pending := st.pending[id := Waiter(site, command, now)],
             log := st.log + [Enqueued(site, id, command, now)],
             clock := now)
  }

  /** The first row without a running lease; |q| when there is none. */
  function FirstFree(q: seq<Row>, now: int): (i: nat)
    ensures i <= |q| && (i < |q| ==> q[i].leaseUntil <= now)
    ensures forall j :: 0 <= j < i ==> q[j].leaseUntil > now
  {
    if q == [] || q[0].leaseUntil <= now then 0 else 1 + FirstFree(q[1..], now)
  }

  function Lease(row: Row, now: int): Row {
    row.(leaseUntil := now + COMMAND_LEASE_MS, attempts := row.attempts + 1, lastIssuedAt := now)
  }

  function Dequeue(st: Commands, site: string, now: int): (Option<Row>, Commands) {
    if site == "" then (None, st.(clock := now))
    else
      var q := QueueOf(st, site);
      var i := FirstFree(q, now);
      if i == |q| then (None, st.(queues := st.queues[site := q], clock := now))
      else
        var row := Lease(q[i], now);
        (Some(row), st.(queues := st.queues[site := q[i := row]], log := st.log + [Issued(site, row.id, now)], clock := now))
  }

  function RemoveRow(q: seq<Row>, id: string): seq<Row> {
    if q == [] then [] else if q[0].id == id then q[1..] else [q[0]] + RemoveRow(q[1..], id)
  }

  /** The waiter leaves `pending`, its row leaves the queue, its promise is settled. */
  function Settle(st: Commands, site: string, id: string, how: Outcome): Commands {
    st.(queues := if site == "" then st.queues else st.queues[site := RemoveRow(QueueOf(st, site), id)],
        pending := st.pending - {id},
        log := st.log + [Settled(site, id, how)])
  }

  function Resolve(st: Commands, site: string, id: string): (bool, Commands) {
    if id == "" || id !in st.pending then (false, st)
    else
      var expected := st.pending[id].siteId;
      if expected != "" && expected != site then (false, st)
      else (true, Settle(st, if expected != "" then expected else site, id, Answered))
  }

  function Reject(st: Commands, id: string, how: Outcome): Commands {
    if id == "" || id !in st.pending then st else Settle(st, st.pending[id].siteId, id, how)
  }

  /** `order` lists the site's waiters in the order in which the map of waiters yields them. */
  ghost predicate ClearOrder(st: Commands, site: string, order: seq<string>) {
    && (forall i, j :: 0 <= i < j < |order| ==> order[i] != order[j])
    && (forall id :: id in order <==> id in st.pending && st.pending[id].siteId == site)
  }

  function AllCleared(log: seq<Event>, site: string, order: seq<string>): seq<Event> {
    if order == [] then log
    else AllCleared(log, site, order[..|order| - 1]) + [Settled(site, order[|order| - 1], Cleared)]
  }

  /** The queue is dropped; it is there again, empty, as soon as one waiter has been rejected. */
  function ClearSite(st: Commands, site: string, order: seq<string>): Commands {
    if site == "" then st
    else
      var queues := st.queues - {site};
      st.(queues := if order == [] then queues else queues[site := []],
          pending := map id | id in st.pending && id !in order :: st.pending[id],
          log := AllCleared(st.log, site, order))
  }

  // ---------- what a log says ----------

  function RemoveFirst(ids: seq<string>, id: string): seq<string> {
    if ids == [] then [] else if ids[0] == id then ids[1..] else [ids[0]] + RemoveFirst(ids[1..], id)
  }

  /** The commands of a site that are enqueued and not settled, in the order they were enqueued. */
  function Open(log: seq<Event>, site: string): seq<string> {
    if log == [] then []
    else
      var before := Open(log[..|log| - 1], site);
      match log[|log| - 1]
      case Enqueued(s, id, _, _) => if s == site then before + [id] else before
      case Settled(s, id, _) => if s == site then RemoveFirst(before, id) else before
      case Issued(_, _, _) => before
  }

  function IssueCount(log: seq<Event>, id: string): nat {
    if log == [] then 0
    else
      var e := log[|log| - 1];
      IssueCount(log[..|log| - 1], id) + if e.Issued? && e.id == id then 1 else 0
  }

  /** When the command was issued last; 0 when it never was. */
  function LastIssue(log: seq<Event>, id: string): int {
    if log == [] then 0
    else
      var e := log[|log| - 1];
      if e.Issued? && e.id == id then e.at else LastIssue(log[..|log| - 1], id)
  }

  predicate WasEnqueued(log: seq<Event>, id: string) {
    exists i :: 0 <= i < |log| && log[i].Enqueued? && log[i].id == id
  }

  /** When the command was enqueued. */
  function EnqueuedAt(log: seq<Event>, id: string): int {
    if log == [] then 0
    else
      var e := log[|log| - 1];
      if e.Enqueued? && e.id == id then e.at else EnqueuedAt(log[..|log| - 1], id)
  }

  /** The text with which the command was enqueued. */
  function EnqueuedText(log: seq<Event>, id: string): string {
    if log == [] then ""
    else
      var e := log[|log| - 1];
      if e.Enqueued? && e.id == id then e.text else EnqueuedText(log[..|log| - 1], id)
  }

  /** What may happen next: an id is used once; only an open command is issued, never while its lease
      runs and never before an older open command of its site was issued; only an open command is
      settled. */
  predicate LegalNext(log: seq<Event>, e: Event) {
    match e
    case Enqueued(site, id, _, _) => site != "" && id != "" && !WasEnqueued(log, id)
    case Issued(site, id, at) =>
      && id in Open(log, site)
      && (IssueCount(log, id) > 0 ==> LastIssue(log, id) + COMMAND_LEASE_MS <= at)
      && EnqueuedAt(log, id) <= at
      && OlderIssued(log, site, id)
    case Settled(site, id, _) => id in Open(log, site)
  }

  predicate OlderIssued(log: seq<Event>, site: string, id: string) {
    forall j, k :: 0 <= j < k < |Open(log, site)| && Open(log, site)[k] == id ==>
      IssueCount(log, Open(log, site)[j]) > 0
  }

  predicate Legal(log: seq<Event>) {
    log == [] || (Legal(log[..|log| - 1]) && LegalNext(log[..|log| - 1], log[|log| - 1]))
  }

  // ---------- the invariant ----------

  function Ids(q: seq<Row>): (ids: seq<string>)
    ensures |ids| == |q| && forall i :: 0 <= i < |q| ==> ids[i] == q[i].id
  {
    seq(|q|, i requires 0 <= i < |q| => q[i].id)
  }

  predicate Distinct(ids: seq<string>) {
    forall i, j :: 0 <= i < j < |ids| ==> ids[i] != ids[j]
  }

  /** Rows that were issued come before rows that were not. */
  predicate IssuedFirst(q: seq<Row>) {
    forall i, j :: 0 <= i < j < |q| && q[j].attempts > 0 ==> q[i].attempts > 0
  }

  /** What a row holds is what the log and the waiter of the command say. */
  predicate RowAgrees(st: Commands, site: string, row: Row) {
    && row.id != "" && WasEnqueued(st.log, row.id)
    && row.id in st.pending && st.pending[row.id] == Waiter(site, row.command, row.createdAt)
    && row.createdAt == EnqueuedAt(st.log, row.id) <= st.clock
    && row.command == EnqueuedText(st.log, row.id)
    && row.attempts == IssueCount(st.log, row.id)
    && (row.attempts == 0 ==> row.leaseUntil == 0)
    && (row.attempts > 0 ==>
          && row.lastIssuedAt == LastIssue(st.log, row.id) <= st.clock
          && row.leaseUntil == row.lastIssuedAt + COMMAND_LEASE_MS)
  }

  predicate QueueAgrees(st: Commands, site: string) {
    && Ids(QueueOf(st, site)) == Open(st.log, site)
    && Distinct(Ids(QueueOf(st, site)))
    && IssuedFirst(QueueOf(st, site))
    && forall i :: 0 <= i < |QueueOf(st, site)| ==> RowAgrees(st, site, QueueOf(st, site)[i])
  }

  predicate WaiterAgrees(st: Commands, id: string)
    requires id in st.pending
  {
    id != "" && st.pending[id].siteId != "" && id in Open(st.log, st.pending[id].siteId)
  }

  ghost predicate Inv(st: Commands) {
    && st.clock >= 0
    && Legal(st.log)
    && (forall site :: QueueAgrees(st, site))
    && (forall id :: id in st.pending ==> WaiterAgrees(st, id))
  }

  lemma Appended(log: seq<Event>, e: Event)
    ensures (log + [e])[..|log|] == log && (log + [e])[|log|] == e
  {
  }

  lemma OpenStep(log: seq<Event>, e: Event, site: string)
    ensures Open(log + [e], site)
         == if e.site != site || e.Issued? then Open(log, site)
            else if e.Enqueued? then Open(log, site) + [e.id]
            else RemoveFirst(Open(log, site), e.id)
  {
    hide RemoveFirst;
    Appended(log, e);
  }

  lemma CountStep(log: seq<Event>, e: Event, id: string)
    ensures IssueCount(log + [e], id) == IssueCount(log, id) + if e.Issued? && e.id == id then 1 else 0
    ensures LastIssue(log + [e], id) == if e.Issued? && e.id == id then e.at else LastIssue(log, id)
    ensures EnqueuedAt(log + [e], id) == if e.Enqueued? && e.id == id then e.at else EnqueuedAt(log, id)
  {
    Appended(log, e);
  }

  lemma TextStep(log: seq<Event>, e: Event, id: string)
    ensures EnqueuedText(log + [e], id) == if e.Enqueued? && e.id == id then e.text else EnqueuedText(log, id)
  {
    Appended(log, e);
  }

  lemma WasEnqueuedStep(log: seq<Event>, e: Event, id: string)
    ensures WasEnqueued(log + [e], id) <==> WasEnqueued(log, id) || (e.Enqueued? && e.id == id)
  {
    if WasEnqueued(log, id) {
      var i :| 0 <= i < |log| && log[i].Enqueued? && log[i].id == id;
      assert (log + [e])[i] == log[i];
    }
    if e.Enqueued? && e.id == id {
      assert (log + [e])[|log|].Enqueued?;
    }
  }

  lemma LegalStep(log: seq<Event>, e: Event)
    ensures Legal(log + [e]) <==> Legal(log) && LegalNext(log, e)
  {
    hide LegalNext;
    Appended(log, e);
  }

  /** What one more event changes, and what it does not. */
  lemma LogStep(log: seq<Event>, e: Event, site: string, id: string)
    ensures Open(log + [e], site)
         == if e.site != site || e.Issued? then Open(log, site)
            else if e.Enqueued? then Open(log, site) + [e.id]
            else RemoveFirst(Open(log, site), e.id)
    ensures IssueCount(log + [e], id) == IssueCount(log, id) + if e.Issued? && e.id == id then 1 else 0
    ensures LastIssue(log + [e], id) == if e.Issued? && e.id == id then e.at else LastIssue(log, id)
    ensures EnqueuedAt(log + [e], id) == if e.Enqueued? && e.id == id then e.at else EnqueuedAt(log, id)
    ensures WasEnqueued(log + [e], id) <==> WasEnqueued(log, id) || (e.Enqueued? && e.id == id)
    ensures Legal(log + [e]) <==> Legal(log) && LegalNext(log, e)
  {
    hide *;
    OpenStep(log, e, site);
    CountStep(log, e, id);
    WasEnqueuedStep(log, e, id);
    LegalStep(log, e);
  }

  lemma StartInv(clock: int)
    requires clock >= 0
    ensures Inv(Start(clock))
  {
  }

  /** An event about one command leaves a row of another command as it was. */
  lemma OtherRow(st: Commands, st': Commands, e: Event, site: string, row: Row)
    requires RowAgrees(st, site, row) && row.id != e.id
    requires st'.log == st.log + [e] && st.clock <= st'.clock
    requires row.id in st'.pending && st'.pending[row.id] == st.pending[row.id]
    ensures RowAgrees(st', site, row)
  {
    hide WasEnqueued, Open, IssueCount, LastIssue, EnqueuedAt, EnqueuedText, Legal;
    LogStep(st.log, e, site, row.id);
    TextStep(st.log, e, row.id);
  }

  /** A queue no event is about still agrees. */
  lemma OtherQueue(st: Commands, st': Commands, e: Event, site: string)
    requires QueueAgrees(st, site) && e.site != site
    requires st'.log == st.log + [e] && st.clock <= st'.clock
    requires QueueOf(st', site) == QueueOf(st, site)
    requires forall i :: 0 <= i < |QueueOf(st, site)| ==>
               var id := QueueOf(st, site)[i].id;
               id != e.id && id in st'.pending && st'.pending[id] == st.pending[id]
    ensures QueueAgrees(st', site)
  {
    hide RowAgrees, Open, IssueCount, LastIssue, EnqueuedAt, EnqueuedText, Legal, WasEnqueued;
    LogStep(st.log, e, site, "");
    var q := QueueOf(st, site);
    forall i | 0 <= i < |q| ensures RowAgrees(st', site, q[i]) {
      assert RowAgrees(st, site, q[i]) && q[i].id in st.pending by { RowFacts(st, site, i); }
      OtherRow(st, st', e, site, q[i]);
    }
  }

  lemma RowFacts(st: Commands, site: string, i: nat)
    requires QueueAgrees(st, site) && i < |QueueOf(st, site)|
    ensures
      var row := QueueOf(st, site)[i];
      && RowAgrees(st, site, row)
      && row.id != "" && WasEnqueued(st.log, row.id)
      && row.id in st.pending && st.pending[row.id] == Waiter(site, row.command, row.createdAt)
      && row.id == Open(st.log, site)[i]
  {
  }

  lemma {:induction false} RemoveFirstAt(ids: seq<string>, k: nat)
    requires k < |ids| && Distinct(ids)
    ensures RemoveFirst(ids, ids[k]) == ids[..k] + ids[k + 1..]
  {
    if k > 0 {
      RemoveFirstAt(ids[1..], k - 1);
      assert ids[1..][..k - 1] == ids[1..k] && ids[1..][k..] == ids[k + 1..];
    }
  }

  lemma {:induction false} RemoveRowAt(q: seq<Row>, k: nat)
    requires k < |q| && Distinct(Ids(q))
    ensures RemoveRow(q, q[k].id) == q[..k] + q[k + 1..]
  {
    hide Ids;
    if k > 0 {
      assert Ids(q)[0] != Ids(q)[k];
      var tail := q[1..];
      forall i, j | 0 <= i < j < |tail| ensures Ids(tail)[i] != Ids(tail)[j] {
        assert Ids(q)[i + 1] != Ids(q)[j + 1];
      }
      RemoveRowAt(tail, k - 1);
      assert [q[0]] + (tail[..k - 1] + tail[k..]) == q[..k] + q[k + 1..];
    }
  }

  lemma {:induction false} RemoveFirstKeeps(ids: seq<string>, id: string, x: string)
    ensures x in RemoveFirst(ids, id) ==> x in ids
    ensures x in ids && x != id ==> x in RemoveFirst(ids, id)
    ensures Distinct(ids) ==> id !in RemoveFirst(ids, id)
  {
    if ids != [] {
      assert ids == [ids[0]] + ids[1..];
      RemoveFirstKeeps(ids[1..], id, x);
    }
  }

  lemma {:induction false} RemoveFirstDistinct(ids: seq<string>, id: string)
    requires Distinct(ids)
    ensures Distinct(RemoveFirst(ids, id))
  {
    if ids != [] && ids[0] != id {
      RemoveFirstDistinct(ids[1..], id);
      RemoveFirstKeeps(ids[1..], id, ids[0]);
      var rest := RemoveFirst(ids[1..], id);
      assert ids[0] !in rest;
      assert forall j :: 0 <= j < |rest| ==> rest[j] in rest;
    }
  }

  /** An open command was enqueued. */
  lemma {:induction false} OpenWasEnqueued(log: seq<Event>, site: string, id: string)
    requires id in Open(log, site)
    ensures WasEnqueued(log, id)
  {
    var p, e := log[..|log| - 1], log[|log| - 1];
    assert log == p + [e];
    LogStep(p, e, site, id);
    if e.Settled? && e.site == site { RemoveFirstKeeps(Open(p, site), e.id, id); }
    if id in Open(p, site) { OpenWasEnqueued(p, site, id); }
  }

  /** What was never enqueued was never issued. */
  lemma {:induction false} NeverIssued(log: seq<Event>, id: string)
    requires Legal(log) && !WasEnqueued(log, id)
    ensures IssueCount(log, id) == 0
  {
    if log != [] {
      var p, e := log[..|log| - 1], log[|log| - 1];
      assert log == p + [e];
      LogStep(p, e, "", id);
      NeverIssued(p, id);
      if e.Issued? && e.id == id { OpenWasEnqueued(p, e.site, id); }
    }
  }

  lemma HasElement(ids: seq<string>)
    requires ids != []
    ensures exists x :: x in ids
  {
    assert ids[0] in ids;
  }

  lemma IdsAppend(q: seq<Row>, row: Row)
    ensures Ids(q + [row]) == Ids(q) + [row.id]
  {
  }

  lemma NewRowAgrees(st: Commands, site: string, id: string, command: string, now: int)
    requires Inv(st) && st.clock <= now && id != "" && !WasEnqueued(st.log, id) && site != "" && command != ""
    ensures RowAgrees(Enqueue(st, site, id, command, now), site, Row(id, command, now, 0, 0, 0))
  {
    hide Open, IssueCount, LastIssue, EnqueuedAt, EnqueuedText, Legal, WasEnqueued, QueueAgrees;
    LogStep(st.log, Enqueued(site, id, command, now), site, id);
    TextStep(st.log, Enqueued(site, id, command, now), id);
    NeverIssued(st.log, id);
  }

  /** The new row at the end of the queue agrees, the others still do. */
  lemma EnqueueKeepsQueue(st: Commands, site: string, id: string, command: string, now: int)
    requires Inv(st) && st.clock <= now && id != "" && !WasEnqueued(st.log, id) && site != "" && command != ""
    ensures QueueAgrees(Enqueue(st, site, id, command, now), site)
  {
    hide RowAgrees, Open, IssueCount, LastIssue, EnqueuedAt, EnqueuedText, Legal, WasEnqueued, Ids;
    var st' := Enqueue(st, site, id, command, now);
    var e, row, q := Enqueued(site, id, command, now), Row(id, command, now, 0, 0, 0), QueueOf(st, site);
    assert QueueAgrees(st, site);
    LogStep(st.log, e, site, id);
    NewRowAgrees(st, site, id, command, now);
    IdsAppend(q, row);
    forall i | 0 <= i < |q| ensures RowAgrees(st', site, q[i]) && q[i].id != id && q[i].id == Ids(q)[i] {
      RowFacts(st, site, i);
      OtherRow(st, st', e, site, q[i]);
    }
  }

  lemma EnqueueKeepsInv(st: Commands, site: string, id: string, command: string, now: int)
    requires Inv(st) && st.clock <= now && id != "" && !WasEnqueued(st.log, id)
    ensures Inv(Enqueue(st, site, id, command, now))
  {
    if site != "" && command != "" {
      hide RowAgrees, Open, IssueCount, LastIssue, EnqueuedAt, EnqueuedText, Legal, WasEnqueued, Ids;
      var st' := Enqueue(st, site, id, command, now);
      var e := Enqueued(site, id, command, now);
      LogStep(st.log, e, site, id);
      forall s ensures QueueAgrees(st', s) {
        assert QueueAgrees(st, s);
        if s == site {
          EnqueueKeepsQueue(st, site, id, command, now);
        } else {
          forall i | 0 <= i < |QueueOf(st, s)|
            ensures var x := QueueOf(st, s)[i].id; x != id && x in st.pending && st'.pending[x] == st.pending[x] {
            RowFacts(st, s, i);
          }
          OtherQueue(st, st', e, s);
        }
      }
      forall x | x in st'.pending ensures WaiterAgrees(st', x) {
        if x != id {
          assert WaiterAgrees(st, x);
          LogStep(st.log, e, st.pending[x].siteId, x);
        }
      }
    }
  }

  /** Time passing changes nothing. */
  lemma ClockKeepsInv(st: Commands, st': Commands)
    requires Inv(st) && st.clock <= st'.clock
    requires st'.pending == st.pending && st'.log == st.log
    requires forall site :: QueueOf(st', site) == QueueOf(st, site)
    ensures Inv(st')
  {
    hide Open, IssueCount, LastIssue, EnqueuedAt, EnqueuedText, Legal, WasEnqueued, Ids;
    forall s ensures QueueAgrees(st', s) {
      assert QueueAgrees(st, s);
      forall i | 0 <= i < |QueueOf(st, s)| ensures RowAgrees(st', s, QueueOf(st, s)[i]) {
        RowFacts(st, s, i);
      }
    }
    forall x | x in st'.pending ensures WaiterAgrees(st', x) {
      assert WaiterAgrees(st, x);
    }
  }

  /** The first free row may be issued. */
  lemma FirstFreeIsLegal(st: Commands, site: string, now: int)
    requires Inv(st) && st.clock <= now
    requires FirstFree(QueueOf(st, site), now) < |QueueOf(st, site)|
    ensures
      var q := QueueOf(st, site);
      var i := FirstFree(q, now);
      && LegalNext(st.log, Issued(site, q[i].id, now))
      && forall j :: 0 <= j < i ==> q[j].attempts > 0
  {
    hide Open, IssueCount, LastIssue, EnqueuedAt, EnqueuedText, Legal, WasEnqueued, FirstFree;
    var q := QueueOf(st, site);
    var i := FirstFree(q, now);
    assert QueueAgrees(st, site);
    RowFacts(st, site, i);
    var open := Open(st.log, site);
    forall j | 0 <= j < i ensures q[j].attempts > 0 && IssueCount(st.log, open[j]) > 0 {
      RowFacts(st, site, j);
    }
    forall j, k | 0 <= j < k < |open| && open[k] == q[i].id ensures IssueCount(st.log, open[j]) > 0 {
      assert k == i by { assert Ids(q)[k] == Ids(q)[i]; }
    }
  }

  /** The leased row agrees after the poll. */
  lemma LeasedRowAgrees(st: Commands, st': Commands, site: string, i: nat, now: int)
    requires QueueAgrees(st, site) && i < |QueueOf(st, site)| && st.clock <= now
    requires st'.log == st.log + [Issued(site, QueueOf(st, site)[i].id, now)] && st'.clock == now && st'.pending == st.pending
    ensures RowAgrees(st', site, Lease(QueueOf(st, site)[i], now))
  {
    hide Open, IssueCount, LastIssue, EnqueuedAt, EnqueuedText, Legal, WasEnqueued, IssuedFirst, Ids;
    var id := QueueOf(st, site)[i].id;
    RowFacts(st, site, i);
    LogStep(st.log, Issued(site, id, now), site, id);
    TextStep(st.log, Issued(site, id, now), id);
  }

  lemma DequeueKeepsQueue(st: Commands, site: string, now: int)
    requires Inv(st) && st.clock <= now && site != ""
    requires FirstFree(QueueOf(st, site), now) < |QueueOf(st, site)|
    ensures QueueAgrees(Dequeue(st, site, now).1, site)
  {
    hide RowAgrees, FirstFree, Open, IssueCount, LastIssue, EnqueuedAt, EnqueuedText, Legal, WasEnqueued;
    var st', q := Dequeue(st, site, now).1, QueueOf(st, site);
    var i := FirstFree(q, now);
    var row, e := Lease(q[i], now), Issued(site, q[i].id, now);
    assert QueueAgrees(st, site);
    FirstFreeIsLegal(st, site, now);
    LogStep(st.log, e, site, q[i].id);
    LeasedRowAgrees(st, st', site, i, now);
    var q' := q[i := row];
    assert QueueOf(st', site) == q';
    assert Ids(q') == Ids(q);
    forall j | 0 <= j < |q| ensures RowAgrees(st', site, q'[j]) {
      if j != i {
        RowFacts(st, site, j);
        assert Ids(q)[j] != Ids(q)[i];
        OtherRow(st, st', e, site, q[j]);
      }
    }
  }

  lemma DequeueKeepsInv(st: Commands, site: string, now: int)
    requires Inv(st) && st.clock <= now
    ensures Inv(Dequeue(st, site, now).1)
  {
    hide RowAgrees, Open, IssueCount, LastIssue, EnqueuedAt, EnqueuedText, Legal, LegalNext, WasEnqueued, Ids, FirstFree;
    var (_, st') := Dequeue(st, site, now);
    var q := QueueOf(st, site);
    var i := FirstFree(q, now);
    if site == "" || i == |q| {
      ClockKeepsInv(st, st');
    } else {
      var e := Issued(site, q[i].id, now);
      FirstFreeIsLegal(st, site, now);
      LogStep(st.log, e, site, q[i].id);
      forall s ensures QueueAgrees(st', s) {
        assert QueueAgrees(st, s);
        if s == site {
          DequeueKeepsQueue(st, site, now);
        } else {
          assert QueueAgrees(st, site);
          RowFacts(st, site, i);
          forall j | 0 <= j < |QueueOf(st, s)|
            ensures var x := QueueOf(st, s)[j].id; x != e.id && x in st.pending {
            RowFacts(st, s, j);
          }
          OtherQueue(st, st', e, s);
        }
      }
      forall x | x in st'.pending ensures WaiterAgrees(st', x) {
        assert WaiterAgrees(st, x);
        LogStep(st.log, e, st.pending[x].siteId, x);
      }
    }
  }

  /** The queue without its k-th row. */
  lemma QueueWithout(q: seq<Row>, k: nat)
    requires k < |q| && Distinct(Ids(q)) && IssuedFirst(q)
    ensures
      var q' := q[..k] + q[k + 1..];
      && RemoveRow(q, q[k].id) == q'
      && Ids(q') == RemoveFirst(Ids(q), q[k].id)
      && Distinct(Ids(q')) && IssuedFirst(q')
      && forall j :: 0 <= j < |q'| ==> q'[j].id != q[k].id
  {
    hide RemoveRow, RemoveFirst, Ids;
    RemoveRowAt(q, k);
    RemoveFirstAt(Ids(q), k);
    RemoveFirstDistinct(Ids(q), q[k].id);
    var q' := q[..k] + q[k + 1..];
    assert Ids(q') == Ids(q)[..k] + Ids(q)[k + 1..];
    forall j | 0 <= j < |q'| ensures q'[j].id != q[k].id {
      var i := if j < k then j else j + 1;
      assert q'[j] == q[i] && Ids(q)[i] != Ids(q)[k];
    }
  }

  lemma SettleKeepsQueue(st: Commands, id: string, how: Outcome)
    requires Inv(st) && id in st.pending
    ensures QueueAgrees(Settle(st, st.pending[id].siteId, id, how), st.pending[id].siteId)
  {
    hide RowAgrees, Open, IssueCount, LastIssue, EnqueuedAt, EnqueuedText, Legal, LegalNext, WasEnqueued, RemoveRow, RemoveFirst, Ids, IssuedFirst, Distinct;
    var site := st.pending[id].siteId;
    var st', q, e := Settle(st, site, id, how), QueueOf(st, site), Settled(site, id, how);
    assert WaiterAgrees(st, id) && QueueAgrees(st, site);
    LogStep(st.log, e, site, id);
    var k :| 0 <= k < |q| && Ids(q)[k] == id;
    QueueWithout(q, k);
    var q' := q[..k] + q[k + 1..];
    assert QueueOf(st', site) == q';
    forall j | 0 <= j < |q'| ensures RowAgrees(st', site, q'[j]) {
      var i := if j < k then j else j + 1;
      assert q'[j] == q[i];
      RowFacts(st, site, i);
      OtherRow(st, st', e, site, q[i]);
    }
  }

  lemma SettleKeepsInv(st: Commands, id: string, how: Outcome)
    requires Inv(st) && id in st.pending
    ensures Inv(Settle(st, st.pending[id].siteId, id, how))
  {
    hide RowAgrees, Open, IssueCount, LastIssue, EnqueuedAt, EnqueuedText, Legal, WasEnqueued, Ids, RemoveRow, RemoveFirst;
    var site := st.pending[id].siteId;
    var st', e := Settle(st, site, id, how), Settled(site, id, how);
    assert WaiterAgrees(st, id);
    LogStep(st.log, e, site, id);
    forall s ensures QueueAgrees(st', s) {
      assert QueueAgrees(st, s);
      if s == site {
        SettleKeepsQueue(st, id, how);
      } else {
        forall j | 0 <= j < |QueueOf(st, s)|
          ensures var x := QueueOf(st, s)[j].id; x != id && x in st.pending {
          RowFacts(st, s, j);
        }
        OtherQueue(st, st', e, s);
      }
    }
    forall x | x in st'.pending ensures WaiterAgrees(st', x) {
      assert WaiterAgrees(st, x);
      LogStep(st.log, e, st.pending[x].siteId, x);
      if st.pending[x].siteId == site { RemoveFirstKeeps(Open(st.log, site), id, x); }
    }
  }

  lemma ResolveKeepsInv(st: Commands, site: string, id: string)
    requires Inv(st)
    ensures Inv(Resolve(st, site, id).1)
  {
    hide Settle, QueueAgrees, Legal, Open;
    if id in st.pending {
      assert WaiterAgrees(st, id);
      SettleKeepsInv(st, id, Answered);
    }
  }

  lemma RejectKeepsInv(st: Commands, id: string, how: Outcome)
    requires Inv(st)
    ensures Inv(Reject(st, id, how))
  {
    hide Settle, QueueAgrees, Legal, Open;
    if id in st.pending {
      SettleKeepsInv(st, id, how);
    }
  }

  /** Clearing settles the commands of `order` and nothing else. */
  lemma {:induction false} AllClearedLog(log: seq<Event>, site: string, order: seq<string>, other: string, id: string)
    requires Legal(log) && Distinct(order) && Distinct(Open(log, site))
    requires forall x :: x in order ==> x in Open(log, site)
    ensures
      var log' := AllCleared(log, site, order);
      && Legal(log') && Distinct(Open(log', site))
      && (forall x :: x in Open(log', site) <==> x in Open(log, site) && x !in order)
      && (other != site ==> Open(log', other) == Open(log, other))
      && IssueCount(log', id) == IssueCount(log, id) && LastIssue(log', id) == LastIssue(log, id)
      && EnqueuedAt(log', id) == EnqueuedAt(log, id) && (WasEnqueued(log', id) <==> WasEnqueued(log, id))
      && EnqueuedText(log', id) == EnqueuedText(log, id)
  {
    hide Open, IssueCount, LastIssue, EnqueuedAt, EnqueuedText, Legal, WasEnqueued, RemoveFirst;
    if order != [] {
      var n := |order| - 1;
      var p := AllCleared(log, site, order[..n]);
      AllClearedLog(log, site, order[..n], other, id);
      var e := Settled(site, order[n], Cleared);
      assert order[n] in order && order[n] !in order[..n];
      LogStep(p, e, site, id);
      LogStep(p, e, other, id);
      TextStep(p, e, id);
      RemoveFirstDistinct(Open(p, site), order[n]);
      forall x ensures x in RemoveFirst(Open(p, site), order[n]) <==> x in Open(log, site) && x !in order {
        RemoveFirstKeeps(Open(p, site), order[n], x);
      }
    }
  }

  lemma ClearKeepsInv(st: Commands, site: string, order: seq<string>)
    requires Inv(st) && ClearOrder(st, site, order)
    ensures Inv(ClearSite(st, site, order))
  {
    if site != "" {
      hide Open, IssueCount, LastIssue, EnqueuedAt, EnqueuedText, Legal, WasEnqueued, AllCleared;
      var st' := ClearSite(st, site, order);
      assert QueueAgrees(st, site);
      forall x | x in order ensures x in Open(st.log, site) { assert WaiterAgrees(st, x); }
      AllClearedLog(st.log, site, order, site, "");
      forall x | x in Open(st.log, site) ensures x in order {
        var i :| 0 <= i < |Open(st.log, site)| && Open(st.log, site)[i] == x;
        RowFacts(st, site, i);
      }
      assert Open(st'.log, site) == [] by {
        if Open(st'.log, site) != [] { HasElement(Open(st'.log, site)); }
      }
      forall s ensures QueueAgrees(st', s) {
        if s == site {
          assert QueueOf(st', site) == [];
        } else {
          ClearKeepsOtherQueue(st, site, order, s);
        }
      }
      forall x | x in st'.pending ensures WaiterAgrees(st', x) {
        assert WaiterAgrees(st, x);
        AllClearedLog(st.log, site, order, st.pending[x].siteId, x);
      }
    }
  }

  lemma ClearKeepsOtherQueue(st: Commands, site: string, order: seq<string>, s: string)
    requires Inv(st) && ClearOrder(st, site, order) && site != "" && s != site
    requires Distinct(Open(st.log, site)) && forall x :: x in order ==> x in Open(st.log, site)
    ensures QueueAgrees(ClearSite(st, site, order), s)
  {
    hide Open, IssueCount, LastIssue, EnqueuedAt, EnqueuedText, Legal, WasEnqueued, AllCleared;
    var st' := ClearSite(st, site, order);
    assert QueueAgrees(st, s);
    AllClearedLog(st.log, site, order, s, "");
    forall i | 0 <= i < |QueueOf(st, s)| ensures RowAgrees(st', s, QueueOf(st, s)[i]) {
      RowFacts(st, s, i);
      AllClearedLog(st.log, site, order, s, QueueOf(st, s)[i].id);
    }
  }
}
