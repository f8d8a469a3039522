/** What the operations on the commands do, told by the log alone: what a poll is answered with, what a
    taken result, a timeout and a clear leave behind. No law here mentions rows, leases held in rows, or
    the order in which a queue is searched. */
module AgentAnswers {
  import opened AgentCommands
  import opened AgentCommandRuns
  import opened Shared

  /** The command was issued, and the lease of its last issue still runs. */
  predicate Leased(log: seq<Event>, id: string, now: int) {
    IssueCount(log, id) > 0 && now < LastIssue(log, id) + COMMAND_LEASE_MS
  }

  /** The command was enqueued at the site, with this text. */
  predicate EnqueuedAs(log: seq<Event>, site: string, id: string, text: string) {
    exists i :: 0 <= i < |log| && log[i].Enqueued? && log[i].site == site && log[i].id == id && log[i].text == text
  }

  /** Of the open commands of the site the first whose lease does not run, with its text. */
  predicate IsNext(log: seq<Event>, site: string, now: int, id: string, text: string) {
    && EnqueuedAs(log, site, id, text) && !Leased(log, id, now)
    && exists k :: 0 <= k < |Open(log, site)| && Open(log, site)[k] == id
                   && forall j :: 0 <= j < k ==> Leased(log, Open(log, site)[j], now)
  }

  /** Nothing is handed out exactly when a lease runs for every open command of the site. Otherwise the
      next command is, and the log says so. */
  predicate AnswersPoll(log: seq<Event>, site: string, now: int, row: Option<Row>, log': seq<Event>) {
    && (row.None? <==> forall k :: 0 <= k < |Open(log, site)| ==> Leased(log, Open(log, site)[k], now))
    && (row.Some? ==> IsNext(log, site, now, row.value.id, row.value.command))
    && log' == if row.None? then log else log + [Issued(site, row.value.id, now)]
  }

  lemma {:induction false} OpenEnqueuedAs(log: seq<Event>, site: string, id: string)
    requires Legal(log) && id in Open(log, site)
    ensures EnqueuedAs(log, site, id, EnqueuedText(log, id))
  {
    hide WasEnqueued, EnqueuedAt, EnqueuedText, IssueCount, LastIssue, Open, Legal, RemoveFirst, OlderIssued;
    if log == [] {
      OpenOfNothing(site);
    } else {
      var p, e := log[..|log| - 1], log[|log| - 1];
      LegalAt(log, |p|);
      assert log == p + [e];
      LogStep(p, e, site, id);
      TextStep(p, e, id);
      if e.Enqueued? && e.id == id {
        OpenIsEnqueued(p, site, id);
        assert log[|p|] == e;
      } else {
        RemoveFirstKeeps(Open(p, site), e.id, id);
        OpenEnqueuedAs(p, site, id);
        var i :| 0 <= i < |p| && p[i].Enqueued? && p[i].site == site && p[i].id == id && p[i].text == EnqueuedText(p, id);
        assert log[i] == p[i];
      }
    }
  }

  /** A row's lease runs exactly when the log says so. */
  lemma RowIsLeased(st: Commands, site: string, i: nat, now: int)
    requires QueueAgrees(st, site) && i < |QueueOf(st, site)| && 0 <= st.clock <= now
    ensures QueueOf(st, site)[i].leaseUntil > now <==> Leased(st.log, QueueOf(st, site)[i].id, now)
    ensures i < |Open(st.log, site)| && QueueOf(st, site)[i].id == Open(st.log, site)[i]
    ensures QueueOf(st, site)[i].command == EnqueuedText(st.log, QueueOf(st, site)[i].id)
  {
    hide Open, IssueCount, LastIssue, EnqueuedAt, EnqueuedText, Legal;
    RowFacts(st, site, i);
    assert |Ids(QueueOf(st, site))| == |Open(st.log, site)|;
  }

  /** What a poll is answered with, in every state that agrees. Waiters stay, and so do other queues. */
  lemma PollIsAnswered(st: Commands, site: string, now: int)
    requires Inv(st) && st.clock <= now && site != ""
    ensures
      var (row, st') := Dequeue(st, site, now);
      && AnswersPoll(st.log, site, now, row, st'.log) && st'.pending == st.pending
      && forall other :: other != site ==> QueueOf(st', other) == QueueOf(st, other)
  {
    hide Leased, EnqueuedAs, Open, IssueCount, LastIssue, EnqueuedAt, EnqueuedText, Legal, FirstFree, RowAgrees;
    var q, open := QueueOf(st, site), Open(st.log, site);
    var i := FirstFree(q, now);
    assert QueueAgrees(st, site) && |Ids(q)| == |open|;
    forall j | 0 <= j < |q| ensures (q[j].leaseUntil > now <==> Leased(st.log, q[j].id, now)) && q[j].id == open[j] {
      RowIsLeased(st, site, j, now);
    }
    if i < |q| {
      RowIsLeased(st, site, i, now);
      OpenEnqueuedAs(st.log, site, open[i]);
      assert open[i] == q[i].id && !Leased(st.log, open[i], now);
    }
  }

  /** A command that is accepted is open, with its text, and nothing else changes. */
  lemma EnqueueIsLogged(st: Commands, site: string, id: string, command: string, now: int)
    ensures
      var st' := Enqueue(st, site, id, command, now);
      if site == "" || command == "" then st' == st
      else st'.log == st.log + [Enqueued(site, id, command, now)] && Open(st'.log, site) == Open(st.log, site) + [id]
           && st'.pending.Keys == st.pending.Keys + {id}
  {
    hide Open;
    OpenStep(st.log, Enqueued(site, id, command, now), site);
  }

  /** The log grows by the one event that settles the command, and its waiter is gone. */
  ghost predicate SettledAs(st: Commands, st': Commands, site: string, id: string, how: Outcome) {
    && st'.log == st.log + [Settled(site, id, how)]
    && st'.pending.Keys == st.pending.Keys - {id}
    && SettledExactlyOnce(st'.log, id)
  }

  lemma SettleSettles(st: Commands, id: string, how: Outcome)
    requires Inv(st) && id in st.pending
    ensures SettledAs(st, Settle(st, st.pending[id].siteId, id, how), st.pending[id].siteId, id, how)
  {
    hide Open, IssueCount, LastIssue, EnqueuedAt, EnqueuedText, Legal, QueueAgrees, SettledExactlyOnce, RemoveRow;
    SettleKeepsInv(st, id, how);
    var st' := Settle(st, st.pending[id].siteId, id, how);
    assert st'.log[|st.log|] == Settled(st.pending[id].siteId, id, how);
    SettledIsExactlyOnce(st'.log, id);
  }

  /** A result that is taken settles its command, once, as answered; any other changes nothing. */
  lemma ResultSettles(st: Commands, site: string, id: string)
    requires Inv(st) && site != ""
    ensures
      var (taken, st') := Resolve(st, site, id);
      && (taken <==> id in Open(st.log, site))
      && if taken then SettledAs(st, st', site, id, Answered) else st' == st
  {
    hide Open, IssueCount, LastIssue, EnqueuedAt, EnqueuedText, Legal, QueueAgrees, SettledAs, Settle;
    ResultTakenIffOpen(st, site, id);
    if id in st.pending {
      assert WaiterAgrees(st, id);
      SettleSettles(st, id, Answered);
    }
  }

  /** The timer of a command settles it, once, as timed out, if it is still open anywhere. */
  lemma TimerSettlesAsTimedOut(st: Commands, site: string, id: string)
    requires Inv(st)
    ensures id in Open(st.log, site) ==> SettledAs(st, Reject(st, id, TimedOut), site, id, TimedOut)
    ensures id !in st.pending ==> Reject(st, id, TimedOut) == st
  {
    hide Open, IssueCount, LastIssue, EnqueuedAt, EnqueuedText, Legal, QueueAgrees, SettledAs, Settle;
    if id in Open(st.log, site) {
      OpenHasWaiter(st, site, id);
      SettleSettles(st, id, TimedOut);
    }
  }

  lemma {:induction false} AllClearedIs(log: seq<Event>, site: string, order: seq<string>)
    ensures
      var log' := AllCleared(log, site, order);
      && |log'| == |log| + |order| && log'[..|log|] == log
      && forall k :: 0 <= k < |order| ==> log'[|log| + k] == Settled(site, order[k], Cleared)
  {
    if order != [] { AllClearedIs(log, site, order[..|order| - 1]); }
  }

  /** Clearing a site settles every command that was open there, once, as cleared, and leaves what is
      open elsewhere. */
  lemma ClearSettlesAll(st: Commands, site: string, order: seq<string>, id: string)
    requires Inv(st) && ClearOrder(st, site, order) && site != ""
    ensures
      var st' := ClearSite(st, site, order);
      && st.log <= st'.log && |st'.log| == |st.log| + |Open(st.log, site)|
      && (forall k :: |st.log| <= k < |st'.log| ==> st'.log[k].Settled? && st'.log[k].site == site && st'.log[k].how == Cleared)
      && Open(st'.log, site) == []
      && (id in Open(st.log, site) ==> SettledExactlyOnce(st'.log, id))
      && (forall other :: other != site ==> Open(st'.log, other) == Open(st.log, other))
  {
    hide Open, IssueCount, LastIssue, EnqueuedAt, EnqueuedText, Legal, QueueAgrees, SettledExactlyOnce, AllCleared, WasEnqueued;
    var st' := ClearSite(st, site, order);
    ClearKeepsInv(st, site, order);
    AllClearedIs(st.log, site, order);
    ClearedIsOpen(st, site, order);
    OpenDistinct(st, site);
    forall other | other != site ensures Open(st'.log, other) == Open(st.log, other) {
      AllClearedLog(st.log, site, order, other, "");
    }
    AllClearedLog(st.log, site, order, site, "");
    assert Open(st'.log, site) == [] by { if Open(st'.log, site) != [] { HasElement(Open(st'.log, site)); } }
    SameSize(order, Open(st.log, site));
    forall k | |st.log| <= k < |st'.log| ensures st'.log[k] == Settled(site, order[k - |st.log|], Cleared) {
      assert st'.log[|st.log| + (k - |st.log|)] == st'.log[k];
    }
    if id in Open(st.log, site) {
      var k :| 0 <= k < |order| && order[k] == id;
      assert st'.log[|st.log| + k] == Settled(site, id, Cleared);
      SettledIsExactlyOnce(st'.log, id);
    }
  }

  /** The waiters of a site are those of its open commands. */
  lemma ClearedIsOpen(st: Commands, site: string, order: seq<string>)
    requires Inv(st) && ClearOrder(st, site, order)
    ensures forall x :: x in order <==> x in Open(st.log, site)
  {
    hide Open, IssueCount, LastIssue, EnqueuedAt, EnqueuedText, Legal, QueueAgrees;
    forall x ensures x in order <==> x in Open(st.log, site) {
      if x in order { assert WaiterAgrees(st, x); }
      if x in Open(st.log, site) { OpenHasWaiter(st, site, x); }
    }
  }

  lemma OpenDistinct(st: Commands, site: string)
    requires Inv(st)
    ensures Distinct(Open(st.log, site))
  {
    hide Open, Legal, RowAgrees, Ids, Distinct;
    assert QueueAgrees(st, site);
  }

  lemma {:induction false} AsMany(a: seq<string>, s: set<string>)
    requires Distinct(a) && forall x :: x in a <==> x in s
    ensures |a| == |s|
    decreases |a|
  {
    if a == [] {
      assert s == {};
    } else {
      var n := |a| - 1;
      assert forall x :: x in a[..n] <==> x in s - {a[n]};
      AsMany(a[..n], s - {a[n]});
    }
  }

  lemma SameSize(a: seq<string>, b: seq<string>)
    requires Distinct(a) && Distinct(b) && forall x :: x in a <==> x in b
    ensures |a| == |b|
  {
    hide Distinct;
    var s := set x | x in b;
    AsMany(a, s);
    AsMany(b, s);
  }
}
