/** The collector-agent runtime: the four maps of lib/agent.js updated in place, the request handlers
    of lib/routes/agent.js in the order in which they compose them, and what every run of requests
    keeps. One handler call reads the clock once here. */
module AgentRuntime {
  import opened Shared
  import S = AgentSessions
  import C = AgentCommands
  import R = AgentCommandRuns

  // ---------- the two states together ----------

  datatype System = System(sessions: S.Sessions, commands: C.Commands)

  /** What arrives from outside. Fresh ids and tokens come from `crypto.randomBytes`. */
  datatype Request =
    | RegisterAgent(site: string, token: string, info: string, now: int)
    | Poll(token: string, sites: set<string>, now: int)
    | PostResult(token: string, id: string, now: int)
    | QueueCommand(site: string, id: string, command: string, now: int)
    | TimerFires(id: string, now: int)
    | PruneSessions(now: int)
    | ClearRuntime(site: string, order: seq<string>, now: int)
    | AskPresence(site: string, now: int)

  datatype Response =
    | Unauthorized
    | BadRequest
    | NotFound
    | Accepted
    | Command(row: Option<C.Row>)

  ghost predicate Inv(sys: System) {
    S.Inv(sys.sessions) && C.Inv(sys.commands)
  }

  ghost predicate Admissible(sys: System, r: Request) {
    && sys.sessions.clock <= r.now && sys.commands.clock <= r.now
    && match r
       case RegisterAgent(_, token, _, _) => token != "" && !S.WasRegistered(sys.sessions, token)
       case QueueCommand(_, id, _, _) => id != "" && !C.WasEnqueued(sys.commands.log, id)
       case ClearRuntime(site, order, _) => C.ClearOrder(sys.commands, site, order)
       case _ => true
  }

  /** What a request does to the sessions. */
  function SessionStep(r: Request): S.Step {
    match r
    case RegisterAgent(site, token, info, now) => S.DoRegister(site, token, info, now)
    case Poll(token, _, now) => S.DoUse(token, now)
    case PostResult(token, _, now) => S.DoUse(token, now)
    case PruneSessions(now) => S.DoPrune(now)
    case ClearRuntime(site, _, now) => S.DoRevoke(site, now)
    case AskPresence(site, now) => S.DoReport(site, now)
    case QueueCommand(_, _, _, now) => S.DoRevoke("", now)
    case TimerFires(_, now) => S.DoRevoke("", now)
  }

  /** The answer, and what the request does to the commands. */
  function Answer(sys: System, r: Request): (Response, C.Commands) {
    match r
    case Poll(token, sites, now) => (
      match S.Get(sys.sessions, token, now).0
      case None => (Unauthorized, sys.commands)
      case Some(session) =>
        if session.siteId !in sites then (NotFound, sys.commands)
        else var (row, commands) := C.Dequeue(sys.commands, session.siteId, now); (Command(row), commands)
      )
    case PostResult(token, id, now) => (
      match S.Get(sys.sessions, token, now).0
      case None => (Unauthorized, sys.commands)
      case Some(session) =>
        if id == "" then (BadRequest, sys.commands)
        else
          var (taken, commands) := C.Resolve(sys.commands, session.siteId, id);
          (if taken then Accepted else NotFound, commands)
      )
    case QueueCommand(site, id, command, now) =>
      (if site == "" || command == "" then BadRequest else Accepted, C.Enqueue(sys.commands, site, id, command, now))
    case TimerFires(id, _) => (Accepted, C.Reject(sys.commands, id, C.TimedOut))
    case ClearRuntime(site, order, _) => (Accepted, C.ClearSite(sys.commands, site, order))
    case _ => (Accepted, sys.commands)
  }

  function Serve(sys: System, r: Request): System {
    System(S.Apply(sys.sessions, SessionStep(r)), Answer(sys, r).1)
  }

  ghost predicate ValidRun(sys: System, requests: seq<Request>)
    decreases |requests|
  {
    requests == [] || (Admissible(sys, requests[0]) && ValidRun(Serve(sys, requests[0]), requests[1..]))
  }

  function Run(sys: System, requests: seq<Request>): System
    decreases |requests|
  {
    if requests == [] then sys else Run(Serve(sys, requests[0]), requests[1..])
  }

  function Start(clock: int): System {
    System(S.Start(clock), C.Start(clock))
  }

  lemma ServeKeepsInv(sys: System, r: Request)
    requires Inv(sys) && Admissible(sys, r)
    ensures Inv(Serve(sys, r))
  {
    hide S.Inv, C.Inv, S.Apply, C.Dequeue, C.Resolve, C.Enqueue, C.Reject, C.ClearSite, S.Get, C.ClearOrder;
    S.StepKeepsInv(sys.sessions, SessionStep(r));
    match r
    case Poll(token, sites, now) =>
      var found := S.Get(sys.sessions, token, now).0;
      if found.Some? { C.DequeueKeepsInv(sys.commands, found.value.siteId, now); }
    case PostResult(token, id, now) =>
      var found := S.Get(sys.sessions, token, now).0;
      if found.Some? { C.ResolveKeepsInv(sys.commands, found.value.siteId, id); }
    case QueueCommand(site, id, command, now) => C.EnqueueKeepsInv(sys.commands, site, id, command, now);
    case TimerFires(id, _) => C.RejectKeepsInv(sys.commands, id, C.TimedOut);
    case ClearRuntime(site, order, _) => C.ClearKeepsInv(sys.commands, site, order);
    case _ =>
  }

  /** Every reachable state of the whole runtime agrees with itself. */
  lemma {:induction false} ReachableKeepsInv(sys: System, requests: seq<Request>)
    requires Inv(sys) && ValidRun(sys, requests)
    ensures Inv(Run(sys, requests))
    decreases |requests|
  {
    hide Inv, Serve, Admissible;
    if requests != [] {
      ServeKeepsInv(sys, requests[0]);
      ReachableKeepsInv(Serve(sys, requests[0]), requests[1..]);
    }
  }

  /** A command is handed out only to the agent whose token names the one usable session of the
      command's site, and only while the command is open there. */
  lemma OnlyTheSiteAgentGetsCommands(sys: System, token: string, sites: set<string>, now: int)
    requires Inv(sys) && Admissible(sys, Poll(token, sites, now))
    requires Answer(sys, Poll(token, sites, now)).0.Command? && Answer(sys, Poll(token, sites, now)).0.row.Some?
    ensures
      var row := Answer(sys, Poll(token, sites, now)).0.row.value;
      && token in sys.sessions.byToken
      && var site := sys.sessions.byToken[token].siteId;
      && sys.sessions.bySite[site].token == token
      && row.id in C.Open(sys.commands.log, site)
      && (forall t :: t in sys.sessions.byToken && sys.sessions.byToken[t].siteId == site ==> t == token)
  {
    hide C.Open, C.IssueCount, C.LastIssue, C.EnqueuedAt, C.EnqueuedText, C.Legal, C.FirstFree, S.LastToken;
    var site := sys.sessions.byToken[token].siteId;
    assert S.SessionAgrees(sys.sessions, token);
    assert C.QueueAgrees(sys.commands, site);
    var q := C.QueueOf(sys.commands, site);
    C.RowFacts(sys.commands, site, C.FirstFree(q, now));
    forall t | t in sys.sessions.byToken && sys.sessions.byToken[t].siteId == site ensures t == token {
      S.OneSessionPerSite(sys.sessions, t, token);
    }
  }

  /** A result for a command of another site, or for a command that is settled or unknown, is answered
      with "not found" and leaves every queue, waiter and log entry alone; any other is accepted. */
  lemma ForeignResultChangesNothing(sys: System, token: string, id: string, now: int)
    requires Inv(sys) && Admissible(sys, PostResult(token, id, now))
    requires S.Get(sys.sessions, token, now).0.Some? && id != ""
    ensures
      var site := sys.sessions.byToken[token].siteId;
      var (response, commands) := Answer(sys, PostResult(token, id, now));
      && (response == Accepted <==> id in C.Open(sys.commands.log, site))
      && (response == NotFound <==> id !in C.Open(sys.commands.log, site))
      && (response == NotFound ==> commands == sys.commands)
  {
    FoundHasSite(sys.sessions, token, now);
    hide S.Inv, C.Inv, S.Get, C.Open, C.Resolve, Admissible;
    R.ResultTakenIffOpen(sys.commands, sys.sessions.byToken[token].siteId, id);
  }

  lemma FoundHasSite(st: S.Sessions, token: string, now: int)
    requires S.Inv(st) && S.Get(st, token, now).0.Some?
    ensures token in st.byToken && st.byToken[token].siteId != "" && S.Get(st, token, now).0.value == st.byToken[token]
  {
    hide S.LastToken;
    assert S.SessionAgrees(st, token);
  }

  // ---------- the command protocol inside the runtime ----------

  /** What a request does to the commands, as steps of the command protocol. */
  function CommandSteps(sys: System, r: Request): seq<R.Step> {
    match r
    case Poll(token, sites, now) => (
      match S.Get(sys.sessions, token, now).0
      case None => []
      case Some(session) => if session.siteId in sites then [R.DoPoll(session.siteId, now)] else []
      )
    case PostResult(token, id, now) => (
      match S.Get(sys.sessions, token, now).0
      case None => []
      case Some(session) => if id == "" then [] else [R.DoResult(session.siteId, id)]
      )
    case QueueCommand(site, id, command, now) => [R.DoEnqueue(site, id, command, now)]
    case TimerFires(id, _) => [R.DoReject(id, C.TimedOut)]
    case ClearRuntime(site, order, _) => [R.DoClear(site, order)]
    case _ => []
  }

  function AllCommandSteps(sys: System, requests: seq<Request>): seq<R.Step>
    decreases |requests|
  {
    if requests == [] then [] else CommandSteps(sys, requests[0]) + AllCommandSteps(Serve(sys, requests[0]), requests[1..])
  }

  lemma OneStep(st: C.Commands, step: R.Step)
    requires R.Enabled(st, step)
    ensures R.ValidRun(st, [step]) && R.Run(st, [step]) == R.Apply(st, step)
  {
    assert [step][1..] == [];
    hide R.Enabled, R.Apply;
  }

  lemma ServeIsSteps(sys: System, r: Request)
    requires Admissible(sys, r)
    ensures |CommandSteps(sys, r)| <= 1
    ensures R.ValidRun(sys.commands, CommandSteps(sys, r))
    ensures R.Run(sys.commands, CommandSteps(sys, r)) == Serve(sys, r).commands
  {
    hide S.Get, S.Apply, C.Dequeue, C.Resolve, C.Enqueue, C.Reject, C.ClearSite, C.ClearOrder, C.WasEnqueued;
    var steps := CommandSteps(sys, r);
    if steps != [] { OneStep(sys.commands, steps[0]); }
  }

  lemma {:induction false} StepsJoin(st: C.Commands, a: seq<R.Step>, b: seq<R.Step>)
    requires |a| <= 1 && R.ValidRun(st, a) && R.ValidRun(R.Run(st, a), b)
    ensures R.ValidRun(st, a + b) && R.Run(st, a + b) == R.Run(R.Run(st, a), b)
  {
    hide R.Enabled, R.Apply;
    if a == [] { assert a + b == b; } else { assert (a + b)[1..] == b && a[1..] == []; }
  }

  /** A run of the runtime is, for the commands, a run of the command protocol: everything proved of
      those holds of it. */
  lemma {:induction false} RunIsCommandRun(sys: System, requests: seq<Request>)
    requires ValidRun(sys, requests)
    ensures R.ValidRun(sys.commands, AllCommandSteps(sys, requests))
    ensures R.Run(sys.commands, AllCommandSteps(sys, requests)) == Run(sys, requests).commands
    decreases |requests|
  {
    hide Serve, Admissible, CommandSteps, R.Enabled, R.Apply;
    if requests != [] {
      var next := Serve(sys, requests[0]);
      ServeIsSteps(sys, requests[0]);
      RunIsCommandRun(next, requests[1..]);
      StepsJoin(sys.commands, CommandSteps(sys, requests[0]), AllCommandSteps(next, requests[1..]));
    }
  }

  /** Timers fire on time: nobody polls or enqueues while a waiter's deadline has passed. */
  ghost predicate Punctual(sys: System, r: Request) {
    (r.Poll? || r.QueueCommand?) ==>
      forall id :: id in sys.commands.pending ==> r.now < sys.commands.pending[id].createdAt + C.COMMAND_TIMEOUT_MS
  }

  ghost predicate PunctualRun(sys: System, requests: seq<Request>)
    decreases |requests|
  {
    requests == [] || (Punctual(sys, requests[0]) && PunctualRun(Serve(sys, requests[0]), requests[1..]))
  }

  lemma StepsArePunctual(sys: System, r: Request, rest: seq<R.Step>)
    requires Admissible(sys, r) && Punctual(sys, r) && R.PunctualRun(Serve(sys, r).commands, rest)
    ensures R.PunctualRun(sys.commands, CommandSteps(sys, r) + rest)
  {
    ServeIsSteps(sys, r);
    var steps := CommandSteps(sys, r);
    hide S.Get, S.Apply, C.Dequeue, C.Resolve, C.Enqueue, C.Reject, C.ClearSite, Admissible;
    if steps == [] {
      assert steps + rest == rest;
    } else {
      assert (steps + rest)[1..] == rest;
      OneStepRun(sys.commands, steps[0]);
    }
  }

  lemma OneStepRun(st: C.Commands, step: R.Step)
    ensures R.Run(st, [step]) == R.Apply(st, step)
  {
    assert [step][1..] == [];
    hide R.Apply;
  }

  lemma {:induction false} RunIsPunctual(sys: System, requests: seq<Request>)
    requires ValidRun(sys, requests) && PunctualRun(sys, requests)
    ensures R.PunctualRun(sys.commands, AllCommandSteps(sys, requests))
    decreases |requests|
  {
    hide Serve, Admissible, Punctual, CommandSteps, R.Punctual, R.Apply;
    if requests != [] {
      RunIsPunctual(Serve(sys, requests[0]), requests[1..]);
      StepsArePunctual(sys, requests[0], AllCommandSteps(Serve(sys, requests[0]), requests[1..]));
    }
  }

  /** When timers fire on time, no run of requests hands a command out more than ceil(TIMEOUT / LEASE)
      times. */
  lemma RuntimeIssuesAtMost(clock: int, requests: seq<Request>, id: string)
    requires clock >= 0 && ValidRun(Start(clock), requests) && PunctualRun(Start(clock), requests)
    ensures C.IssueCount(Run(Start(clock), requests).commands.log, id) <= R.CeilDiv(C.COMMAND_TIMEOUT_MS, C.COMMAND_LEASE_MS)
  {
    hide Run, ValidRun, PunctualRun, AllCommandSteps, C.IssueCount, R.CeilDiv, R.Run, R.ValidRun, R.PunctualRun;
    RunIsCommandRun(Start(clock), requests);
    RunIsPunctual(Start(clock), requests);
    R.IssuedAtMost(clock, AllCommandSteps(Start(clock), requests), id);
  }

  // ---------- the code ----------

  lemma RemoveBehind(q: seq<C.Row>, i: nat)
    requires 0 < i < |q|
    ensures [q[0]] + (q[1..][..i - 1] + q[1..][i..]) == q[..i] + q[i + 1..]
  {
  }

  lemma {:induction false} RemoveRowFound(q: seq<C.Row>, id: string, i: nat)
    requires i <= |q| && (forall j :: 0 <= j < i ==> q[j].id != id) && (i < |q| ==> q[i].id == id)
    ensures C.RemoveRow(q, id) == if i < |q| then q[..i] + q[i + 1..] else q
  {
    if i > 0 {
      forall j | 0 <= j < i - 1 ensures q[1..][j].id != id { assert q[1..][j] == q[j + 1]; }
      RemoveRowFound(q[1..], id, i - 1);
      if i < |q| { RemoveBehind(q, i); } else { assert q == [q[0]] + q[1..]; }
    } else if q != [] {
      assert q[..0] + q[1..] == q[1..];
    }
  }

  lemma FirstFreeFound(q: seq<C.Row>, now: int, i: nat)
    requires i <= |q| && (forall j :: 0 <= j < i ==> q[j].leaseUntil > now) && (i < |q| ==> q[i].leaseUntil <= now)
    ensures C.FirstFree(q, now) == i
  {
    var f := C.FirstFree(q, now);
    assert f <= |q|;
  }

  class Runtime {
    var agentSessions: map<string, S.Session>
    var agentBySite: map<string, S.Presence>
    var agentCommandQueue: map<string, seq<C.Row>>
    var agentPending: map<string, C.Waiter>

    // history
    ghost var registered: seq<S.Registration>
    ghost var log: seq<C.Event>
    ghost var sessionClock: int
    ghost var commandClock: int

    ghost function Sessions(): S.Sessions
      reads this
    {
      S.Sessions(agentSessions, agentBySite, registered, sessionClock)
    }

    ghost function Commands(): C.Commands
      reads this
    {
      C.Commands(agentCommandQueue, agentPending, log, commandClock)
    }

    ghost function View(): System
      reads this
    {
      System(Sessions(), Commands())
    }

    constructor (ghost clock: int)
      requires clock > 0
      ensures View() == Start(clock) && Inv(View())
    {
      agentSessions, agentBySite, agentCommandQueue, agentPending := map[], map[], map[], map[];
      registered, log, sessionClock, commandClock := [], [], clock, clock;
      new;
      S.StartInv(clock);
      C.StartInv(clock);
    }

    // ---- sessions ----

    /** setCollectorAgentPresence (lib/agent.js:457-471). */
    method SetPresence(token: string, session: S.Session, now: int)
      modifies this`agentBySite
      ensures Sessions() == S.SetPresence(old(Sessions()), token, session, now)
    {
      if session.siteId == "" || token == "" { return; }
      agentBySite := agentBySite[session.siteId := S.Presence(token, session.info, now)];
    }

    /** touchCollectorAgentSession (lib/agent.js:612-618). */
    method TouchSession(token: string, session: S.Session, now: int)
      modifies this`agentSessions, this`agentBySite
      ensures Sessions() == S.Touch(old(Sessions()), token, session, now)
    {
      if token == "" { return; }
      var touched := session.(lastSeenAt := now, expiresAt := now + S.SESSION_TTL_MS);
      agentSessions := agentSessions[token := touched];
      SetPresence(token, touched, now);
    }

    /** revokeCollectorAgentSiteSessions (lib/agent.js:620-630). */
    method RevokeSiteSessions(site: string)
      modifies this`agentSessions, this`agentBySite
      ensures Sessions() == S.Revoke(old(Sessions()), site)
    {
      if site == "" { return; }
      ghost var before, view := agentSessions, Sessions();
      var tokens := agentSessions.Keys;
      while tokens != {}
        invariant tokens <= before.Keys && agentSessions.Keys <= before.Keys && agentBySite == view.bySite
        invariant forall t :: t in before ==> (t in agentSessions <==> t in tokens || before[t].siteId != site)
        invariant forall t :: t in agentSessions ==> agentSessions[t] == before[t]
        decreases |tokens|
      {
        var token :| token in tokens;
        tokens := tokens - {token};
        if agentSessions[token].siteId == site { agentSessions := agentSessions - {token}; }
      }
      assert agentSessions == S.Revoke(view, site).byToken;
      agentBySite := agentBySite - {site};
    }

    /** issueCollectorAgentSession (lib/agent.js:643-666). */
    method IssueSession(site: string, token: string, info: string, now: int)
      modifies this`agentSessions, this`agentBySite, this`registered
      ensures Sessions() == S.Register(old(Sessions()), site, token, info, now)
    {
      if site == "" { return; }
      RevokeSiteSessions(site);
      var session := S.Session(site, info, now, now + S.SESSION_TTL_MS);
      agentSessions := agentSessions[token := session];
      registered := registered + [S.Registration(site, token)];
      SetPresence(token, session, now);
    }

    /** getCollectorAgentSession (lib/agent.js:668-696). */
    method GetSession(token: string, now: int) returns (found: Option<S.Session>)
      modifies this`agentSessions, this`agentBySite
      ensures (found, Sessions()) == S.Get(old(Sessions()), token, now)
    {
      if token == "" || token !in agentSessions { return None; }
      var session := agentSessions[token];
      if session.expiresAt == 0 || session.expiresAt <= now {
        agentSessions := agentSessions - {token};
        if session.siteId != "" { agentBySite := agentBySite - {session.siteId}; }
        return None;
      }
      return Some(session);
    }

    /** pruneCollectorAgentSessions (lib/agent.js:480-493). */
    method PruneAgentSessions(now: int)
      modifies this`agentSessions, this`agentBySite
      ensures Sessions() == S.Prune(old(Sessions()), now)
    {
      ghost var before, view := agentSessions, Sessions();
      var activeSiteIds: set<string> := {};
      var tokens := agentSessions.Keys;
      while tokens != {}
        invariant tokens <= before.Keys && agentSessions.Keys <= before.Keys && agentBySite == view.bySite
        invariant forall t :: t in before ==> (t in agentSessions <==> t in tokens || !S.Expired(before[t], now))
        invariant forall t :: t in agentSessions ==> agentSessions[t] == before[t]
        invariant forall s :: s in activeSiteIds ==> s != "" && S.Active(view, s, now)
        invariant forall t :: t in before && t !in tokens && !S.Expired(before[t], now) && before[t].siteId != "" ==>
                    before[t].siteId in activeSiteIds
        decreases |tokens|
      {
        var token :| token in tokens;
        tokens := tokens - {token};
        var session := agentSessions[token];
        if session.expiresAt == 0 || session.expiresAt <= now {
          agentSessions := agentSessions - {token};
        } else if session.siteId != "" {
          activeSiteIds := activeSiteIds + {session.siteId};
        }
      }
      assert agentSessions == S.Prune(view, now).byToken;
      PrunePresences(activeSiteIds, now, view);
    }

    /** The second loop of pruneCollectorAgentSessions (lib/agent.js:490-492). */
    method PrunePresences(activeSiteIds: set<string>, now: int, ghost view: S.Sessions)
      requires forall s :: s in activeSiteIds <==> s != "" && S.Active(view, s, now)
      requires view.bySite == agentBySite
      modifies this`agentBySite
      ensures agentBySite == S.Prune(view, now).bySite
    {
      hide S.Active;
      ghost var before := agentBySite;
      var sites := agentBySite.Keys;
      while sites != {}
        invariant sites <= before.Keys && agentBySite.Keys <= before.Keys
        invariant forall s :: s in before ==> (s in agentBySite <==> s in sites || s in activeSiteIds)
        invariant forall s :: s in agentBySite ==> agentBySite[s] == before[s]
        decreases |sites|
      {
        var site :| site in sites;
        sites := sites - {site};
        if site !in activeSiteIds { agentBySite := agentBySite - {site}; }
      }
    }

    /** getCollectorAgentPresence (lib/agent.js:429-455). */
    method GetPresence(site: string, now: int) returns (report: Option<S.Report>)
      modifies this`agentBySite
      ensures (report, Sessions()) == S.Connection(old(Sessions()), site, now)
    {
      if site == "" || site !in agentBySite { return None; }
      var current := agentBySite[site];
      if current.token == "" || current.token !in agentSessions {
        agentBySite := agentBySite - {site};
        return None;
      }
      var session := agentSessions[current.token];
      var lastSeenAt := if session.lastSeenAt != 0 then session.lastSeenAt else current.lastSeenAt;
      var connected := lastSeenAt > 0 && now - lastSeenAt <= S.SESSION_TTL_MS;
      if !connected { return None; }
      return Some(S.Report(site, current.token, if session.info != "" then session.info else current.info, lastSeenAt));
    }

    // ---- commands ----

    /** ensureCollectorAgentQueue (lib/agent.js:495-500). */
    method EnsureQueue(site: string) returns (queue: seq<C.Row>)
      modifies this`agentCommandQueue
      ensures queue == if site == "" then [] else C.QueueOf(old(Commands()), site)
      ensures agentCommandQueue == if site == "" then old(agentCommandQueue) else old(agentCommandQueue)[site := queue]
    {
      if site == "" { return []; }
      if site !in agentCommandQueue { agentCommandQueue := agentCommandQueue[site := []]; }
      return agentCommandQueue[site];
    }

    /** removeCollectorAgentQueuedCommand (lib/agent.js:502-509). */
    method RemoveQueuedCommand(site: string, id: string)
      modifies this`agentCommandQueue
      ensures agentCommandQueue
           == if site == "" || id == "" then old(agentCommandQueue)
              else old(agentCommandQueue)[site := C.RemoveRow(C.QueueOf(old(Commands()), site), id)]
    {
      if site == "" || id == "" { return; }
      var queue := EnsureQueue(site);
      var idx := 0;
      while idx < |queue| && queue[idx].id != id
        invariant idx <= |queue| && forall j :: 0 <= j < idx ==> queue[j].id != id
      {
        idx := idx + 1;
      }
      RemoveRowFound(queue, id, idx);
      if idx < |queue| {
        agentCommandQueue := agentCommandQueue[site := queue[..idx] + queue[idx + 1..]];
      }
    }

    /** dequeueCollectorAgentCommandForPoll (lib/agent.js:511-522). */
    method DequeueCommandForPoll(site: string, now: int) returns (row: Option<C.Row>)
      modifies this`agentCommandQueue, this`log, this`commandClock
      ensures (row, Commands()) == C.Dequeue(old(Commands()), site, now)
    {
      commandClock := now;
      var queue := EnsureQueue(site);
      for i := 0 to |queue|
        invariant forall j :: 0 <= j < i ==> queue[j].leaseUntil > now
        invariant agentCommandQueue == if site == "" then old(agentCommandQueue) else old(agentCommandQueue)[site := queue]
        invariant log == old(log)
      {
        if queue[i].leaseUntil <= now {
          FirstFreeFound(queue, now, i);
          var item := C.Lease(queue[i], now);
          assert agentCommandQueue[site := queue[i := item]] == old(agentCommandQueue)[site := queue[i := item]];
          agentCommandQueue := agentCommandQueue[site := queue[i := item]];
          log := log + [C.Issued(site, item.id, now)];
          return Some(item);
        }
      }
      FirstFreeFound(queue, now, |queue|);
      return None;
    }

    /** resolveCollectorCommandWaiter (lib/agent.js:554-566). */
    method ResolveWaiter(site: string, id: string) returns (taken: bool)
      modifies this`agentCommandQueue, this`agentPending, this`log
      ensures (taken, Commands()) == C.Resolve(old(Commands()), site, id)
    {
      if id == "" || id !in agentPending { return false; }
      var expectedSiteId := agentPending[id].siteId;
      if expectedSiteId != "" && expectedSiteId != site { return false; }
      agentPending := agentPending - {id};
      var owner := if expectedSiteId != "" then expectedSiteId else site;
      RemoveQueuedCommand(owner, id);
      log := log + [C.Settled(owner, id, C.Answered)];
      return true;
    }

    /** rejectCollectorCommandWaiter (lib/agent.js:568-577). */
    method RejectWaiter(id: string, ghost how: C.Outcome)
      modifies this`agentCommandQueue, this`agentPending, this`log
      ensures Commands() == C.Reject(old(Commands()), id, how)
    {
      if id == "" || id !in agentPending { return; }
      var pending := agentPending[id];
      agentPending := agentPending - {id};
      RemoveQueuedCommand(pending.siteId, id);
      log := log + [C.Settled(pending.siteId, id, how)];
    }

    /** queueCollectorAgentCommand (lib/agent.js:579-609). */
    method QueueAgentCommand(site: string, id: string, command: string, now: int) returns (accepted: bool)
      modifies this`agentCommandQueue, this`agentPending, this`log, this`commandClock
      ensures accepted <==> site != "" && command != ""
      ensures Commands() == C.Enqueue(old(Commands()), site, id, command, now)
    {
      if site == "" || command == "" { return false; }
      var row := C.Row(id, command, now, 0, 0, 0);
      var queue := EnsureQueue(site);
      agentCommandQueue := agentCommandQueue[site := queue + [row]];
      agentPending := agentPending[id := C.Waiter(site, command, now)];
      log := log + [C.Enqueued(site, id, command, now)];
      commandClock := now;
      return true;
    }

    /** clearCollectorAgentSiteRuntime (lib/agent.js:632-641). `order` is the order in which the
        waiters were met. */
    method ClearSiteRuntime(site: string) returns (ghost order: seq<string>)
      requires Inv(View())
      modifies this
      ensures Sessions() == S.Revoke(old(Sessions()), site)
      ensures site == "" ==> order == []
      ensures site != "" ==> C.ClearOrder(old(Commands()), site, order)
      ensures Commands() == C.ClearSite(old(Commands()), site, order)
    {
      order := [];
      if site == "" {
        ClearStarts(Commands(), site);
        return;
      }
      ghost var before := Commands();
      ClearStarts(before, site);
      WaitersAreNamed(before);
      RevokeSiteSessions(site);
      agentCommandQueue := agentCommandQueue - {site};
      order := RejectSiteWaiters(site, before);
    }

    /** The loop of clearCollectorAgentSiteRuntime (lib/agent.js:637-640). */
    method RejectSiteWaiters(site: string, ghost before: C.Commands) returns (ghost order: seq<string>)
      requires site != "" && Commands() == C.ClearSite(before, site, [])
      requires forall id :: id in before.pending ==> id != ""
      modifies this`agentCommandQueue, this`agentPending, this`log
      ensures C.ClearOrder(before, site, order)
      ensures Commands() == C.ClearSite(before, site, order)
    {
      hide C.ClearSite, C.Reject, C.ClearOrder, OrderSoFar;
      order := [];
      ClearStarts(before, site);
      var ids := agentPending.Keys;
      OrderStarts(before, site, ids);
      while ids != {}
        invariant ids <= before.pending.Keys && OrderSoFar(before, site, ids, order)
        invariant Commands() == C.ClearSite(before, site, order)
        decreases |ids|
      {
        var id :| id in ids;
        OrderGrows(before, site, ids, order, id);
        ids := ids - {id};
        ClearedFacts(before, site, order, id);
        if agentPending[id].siteId == site {
          ClearOneMore(before, site, order, id);
          RejectWaiter(id, C.Cleared);
          order := order + [id];
        }
      }
      OrderEnds(before, site, order);
    }

    // ---- handlers and timers ----

    /** POST /api/agent/register, once password and install are accepted (lib/routes/agent.js:200). */
    method HandleRegister(site: string, token: string, info: string, now: int)
      requires Inv(View()) && Admissible(View(), RegisterAgent(site, token, info, now))
      modifies this
      ensures View() == Serve(old(View()), RegisterAgent(site, token, info, now)) && Inv(View())
    {
      hide Inv, S.Register;
      ServeKeepsInv(View(), RegisterAgent(site, token, info, now));
      IssueSession(site, token, info, now);
      sessionClock := now;
    }

    /** POST /api/agent/poll (lib/routes/agent.js:235-260). */
    method HandlePoll(token: string, sites: set<string>, now: int) returns (response: Response)
      requires Inv(View()) && Admissible(View(), Poll(token, sites, now))
      modifies this
      ensures View() == Serve(old(View()), Poll(token, sites, now)) && Inv(View())
      ensures response == Answer(old(View()), Poll(token, sites, now)).0
    {
      hide Inv, S.Get, S.Touch, C.Dequeue;
      ServeKeepsInv(View(), Poll(token, sites, now));
      GetKeepsSession(Sessions(), token, now);
      var found := GetSession(token, now);
      if found.None? {
        sessionClock := now;
        return Unauthorized;
      }
      var session := found.value;
      TouchSession(token, session, now);
      sessionClock := now;
      if session.siteId !in sites { return NotFound; }
      var row := DequeueCommandForPoll(session.siteId, now);
      return Command(row);
    }

    /** POST /api/agent/result (lib/routes/agent.js:262-310). */
    method HandleResult(token: string, id: string, now: int) returns (response: Response)
      requires Inv(View()) && Admissible(View(), PostResult(token, id, now))
      modifies this
      ensures View() == Serve(old(View()), PostResult(token, id, now)) && Inv(View())
      ensures response == Answer(old(View()), PostResult(token, id, now)).0
    {
      hide Inv, S.Get, S.Touch, C.Resolve;
      ServeKeepsInv(View(), PostResult(token, id, now));
      GetKeepsSession(Sessions(), token, now);
      var found := GetSession(token, now);
      if found.None? {
        sessionClock := now;
        return Unauthorized;
      }
      TouchSession(token, found.value, now);
      sessionClock := now;
      if id == "" { return BadRequest; }
      var taken := ResolveWaiter(found.value.siteId, id);
      return if taken then Accepted else NotFound;
    }

    /** The timer that queueCollectorAgentCommand sets (lib/agent.js:597-599). */
    method HandleTimer(id: string, now: int)
      requires Inv(View()) && Admissible(View(), TimerFires(id, now))
      modifies this
      ensures View() == Serve(old(View()), TimerFires(id, now)) && Inv(View())
    {
      hide Inv, C.Reject;
      ServeKeepsInv(View(), TimerFires(id, now));
      RejectWaiter(id, C.TimedOut);
      sessionClock := now;
    }

    /** The minute timer (server.js:1025). */
    method HandlePrune(now: int)
      requires Inv(View()) && Admissible(View(), PruneSessions(now))
      modifies this
      ensures View() == Serve(old(View()), PruneSessions(now)) && Inv(View())
    {
      hide Inv, S.Prune;
      ServeKeepsInv(View(), PruneSessions(now));
      PruneAgentSessions(now);
      sessionClock := now;
    }

    /** Removing a site, changing its role or its agent password (lib/routes/sites.js:102, 160, 220). */
    method HandleClear(site: string, now: int) returns (ghost order: seq<string>)
      requires Inv(View()) && View().sessions.clock <= now && View().commands.clock <= now
      modifies this
      ensures C.ClearOrder(old(Commands()), site, order)
      ensures View() == Serve(old(View()), ClearRuntime(site, order, now)) && Inv(View())
    {
      hide C.Inv, S.Inv, S.Revoke, C.ClearSite, C.ClearOrder;
      NoUnnamedSite(Commands());
      ghost var before := View();
      order := ClearSiteRuntime(site);
      sessionClock := now;
      ServeKeepsInv(before, ClearRuntime(site, order, now));
    }
  }

  /** Rejecting one more waiter of the site is clearing with one more entry of the order. */
  lemma ClearOneMore(before: C.Commands, site: string, order: seq<string>, id: string)
    requires site != "" && id != "" && id in before.pending && before.pending[id].siteId == site && id !in order
    ensures C.Reject(C.ClearSite(before, site, order), id, C.Cleared) == C.ClearSite(before, site, order + [id])
  {
    assert (order + [id])[..|order|] == order;
    var cleared := C.ClearSite(before, site, order);
    assert C.QueueOf(cleared, site) == [];
    var a, b := C.Reject(cleared, id, C.Cleared), C.ClearSite(before, site, order + [id]);
    assert a.pending == b.pending;
  }

  lemma NoUnnamedSite(st: C.Commands)
    requires C.Inv(st)
    ensures C.ClearOrder(st, "", [])
  {
    assert forall id :: id in st.pending ==> C.WaiterAgrees(st, id);
  }

  /** `order` lists the waiters of the site met so far; `ids` are still to be met. */
  ghost predicate OrderSoFar(before: C.Commands, site: string, ids: set<string>, order: seq<string>) {
    && (forall i, j :: 0 <= i < j < |order| ==> order[i] != order[j])
    && (forall id :: id in order <==> id in before.pending && id !in ids && before.pending[id].siteId == site)
  }

  lemma OrderStarts(before: C.Commands, site: string, ids: set<string>)
    requires ids == before.pending.Keys
    ensures OrderSoFar(before, site, ids, [])
  {
  }

  lemma OrderGrows(before: C.Commands, site: string, ids: set<string>, order: seq<string>, id: string)
    requires OrderSoFar(before, site, ids, order) && id in ids && id in before.pending
    ensures id !in order
    ensures OrderSoFar(before, site, ids - {id}, if before.pending[id].siteId == site then order + [id] else order)
  {
  }

  lemma OrderEnds(before: C.Commands, site: string, order: seq<string>)
    requires OrderSoFar(before, site, {}, order)
    ensures C.ClearOrder(before, site, order)
  {
  }

  lemma WaitersAreNamed(st: C.Commands)
    requires C.Inv(st)
    ensures forall id :: id in st.pending ==> id != ""
  {
    assert forall id :: id in st.pending ==> C.WaiterAgrees(st, id);
  }

  lemma ClearStarts(before: C.Commands, site: string)
    ensures C.ClearSite(before, site, []) == if site == "" then before else before.(queues := before.queues - {site})
  {
    var cleared := C.ClearSite(before, site, []);
    assert cleared.pending == before.pending;
  }

  lemma ClearedFacts(before: C.Commands, site: string, order: seq<string>, id: string)
    requires site != ""
    ensures
      var cleared := C.ClearSite(before, site, order);
      && (id in cleared.pending <==> id in before.pending && id !in order)
      && (id in cleared.pending ==> cleared.pending[id] == before.pending[id])
  {
  }

  lemma GetKeepsSession(st: S.Sessions, token: string, now: int)
    ensures S.Get(st, token, now).0.Some? ==> S.Get(st, token, now).1 == st
  {
  }
}
