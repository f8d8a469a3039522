/** What the agent of a site is answered by the whole runtime: whom it serves, and what a poll, a result
    and a queued command give. */
module AgentDelivery {
  import opened Shared
  import opened AgentRuntime
  import S = AgentSessions
  import L = AgentSessionLife
  import C = AgentCommands
  import R = AgentCommandRuns
  import A = AgentAnswers

  /** The token has a session whose time is not over. */
  predicate Live(sys: System, token: string, now: int) {
    token in sys.sessions.byToken && now < sys.sessions.byToken[token].expiresAt
  }

  lemma FoundIffLive(sys: System, token: string, now: int)
    requires S.Inv(sys.sessions)
    ensures S.Get(sys.sessions, token, now).0 == if Live(sys, token, now) then Some(sys.sessions.byToken[token]) else None
    ensures token in sys.sessions.byToken ==> sys.sessions.byToken[token].siteId != ""
  {
    hide S.LastToken;
    if token in sys.sessions.byToken { assert S.SessionAgrees(sys.sessions, token); }
  }

  /** Every poll is answered: "unauthorized" without a live session, "not found" when the site is gone, and
      otherwise with the next command of the site, or with none when a lease runs for every open one. */
  lemma PollAnswer(sys: System, token: string, sites: set<string>, now: int)
    requires Inv(sys) && Admissible(sys, Poll(token, sites, now))
    ensures
      var (response, commands) := Answer(sys, Poll(token, sites, now));
      if !Live(sys, token, now) then response == Unauthorized && commands == sys.commands
      else
        var site := sys.sessions.byToken[token].siteId;
        if site !in sites then response == NotFound && commands == sys.commands
        else response.Command? && A.AnswersPoll(sys.commands.log, site, now, response.row, commands.log)
  {
    FoundIffLive(sys, token, now);
    hide S.Inv, S.Get, C.Dequeue, A.AnswersPoll, C.QueueAgrees, C.Legal, C.Open;
    if Live(sys, token, now) { A.PollIsAnswered(sys.commands, sys.sessions.byToken[token].siteId, now); }
  }

  /** Every result is answered: it is accepted exactly when its command is open at the site of a live
      session, and then settles it, once, as answered; nothing else changes any command. */
  lemma ResultAnswer(sys: System, token: string, id: string, now: int)
    requires Inv(sys) && Admissible(sys, PostResult(token, id, now))
    ensures
      var (response, commands) := Answer(sys, PostResult(token, id, now));
      if !Live(sys, token, now) then response == Unauthorized && commands == sys.commands
      else if id == "" then response == BadRequest && commands == sys.commands
      else
        var site := sys.sessions.byToken[token].siteId;
        if id in C.Open(sys.commands.log, site) then
          response == Accepted && A.SettledAs(sys.commands, commands, site, id, C.Answered)
        else response == NotFound && commands == sys.commands
  {
    FoundIffLive(sys, token, now);
    hide S.Inv, S.Get, C.Resolve, A.SettledAs, C.QueueAgrees, C.Legal, C.Open;
    if Live(sys, token, now) { A.ResultSettles(sys.commands, sys.sessions.byToken[token].siteId, id); }
  }

  /** A command that is queued for a site that has no other open one is what the next poll of the site's
      agent is answered with, word for word. */
  lemma QueuedCommandIsDelivered(sys: System, site: string, id: string, command: string, now: int,
                                 token: string, sites: set<string>, later: int)
    requires Inv(sys) && Admissible(sys, QueueCommand(site, id, command, now)) && command != "" && site in sites
    requires C.Open(sys.commands.log, site) == [] && now <= later
    requires Live(sys, token, later) && sys.sessions.byToken[token].siteId == site
    ensures
      var next := Serve(sys, QueueCommand(site, id, command, now));
      var response := Answer(next, Poll(token, sites, later)).0;
      response.Command? && response.row.Some? && response.row.value.id == id && response.row.value.command == command
  {
    FoundIffLive(sys, token, later);
    var next := Serve(sys, QueueCommand(site, id, command, now));
    ServeKeepsInv(sys, QueueCommand(site, id, command, now));
    QueuedIsNext(sys.commands, site, id, command, now, later);
    EnqueuedClock(sys.commands, site, id, command, now);
    QueuedCommands(sys, site, id, command, now);
    hide C.Enqueue, C.Open, A.Leased, A.EnqueuedAs, A.AnswersPoll, A.IsNext, Inv, Answer, Serve;
    PollAnswer(next, token, sites, later);
    OnlyAnswer(next.commands.log, site, later, Answer(next, Poll(token, sites, later)).0.row, Answer(next, Poll(token, sites, later)).1.log, id, command);
  }

  /** The answer of a poll when one command is open and not leased. */
  lemma OnlyAnswer(log: seq<C.Event>, site: string, now: int, row: Option<C.Row>, log': seq<C.Event>, id: string, command: string)
    requires A.AnswersPoll(log, site, now, row, log') && C.Open(log, site) == [id] && !A.Leased(log, id, now)
    requires forall text :: A.EnqueuedAs(log, site, id, text) ==> text == command
    ensures row.Some? && row.value.id == id && row.value.command == command
  {
    hide C.Open, A.Leased, A.EnqueuedAs;
    assert C.Open(log, site)[0] == id;
  }

  lemma QueuedCommands(sys: System, site: string, id: string, command: string, now: int)
    ensures
      var next := Serve(sys, QueueCommand(site, id, command, now));
      && next.commands == C.Enqueue(sys.commands, site, id, command, now)
      && next.sessions == sys.sessions.(clock := now)
  {
    hide C.Enqueue;
  }

  /** A command that is queued where none is open is the only open one, and not leased. */
  lemma QueuedIsNext(st: C.Commands, site: string, id: string, command: string, now: int, later: int)
    requires C.Inv(st) && site != "" && command != "" && !C.WasEnqueued(st.log, id) && C.Open(st.log, site) == []
    ensures
      var log := C.Enqueue(st, site, id, command, now).log;
      && C.Open(log, site) == [id] && !A.Leased(log, id, later)
      && forall text :: A.EnqueuedAs(log, site, id, text) ==> text == command
  {
    hide C.Open, C.Legal, C.QueueAgrees, A.Leased;
    A.EnqueueIsLogged(st, site, id, command, now);
    C.NeverIssued(st.log, id);
    C.LogStep(st.log, C.Enqueued(site, id, command, now), site, id);
    NotLeased(C.Enqueue(st, site, id, command, now).log, id, later);
    NoOtherText(st.log, site, id, command, now);
  }

  lemma EnqueuedClock(st: C.Commands, site: string, id: string, command: string, now: int)
    requires site != "" && command != ""
    ensures C.Enqueue(st, site, id, command, now).clock == now
  {
  }

  lemma NotLeased(log: seq<C.Event>, id: string, now: int)
    requires C.IssueCount(log, id) == 0
    ensures !A.Leased(log, id, now)
  {
  }

  lemma NoOtherText(log: seq<C.Event>, site: string, id: string, command: string, now: int)
    requires !C.WasEnqueued(log, id)
    ensures forall text :: A.EnqueuedAs(log + [C.Enqueued(site, id, command, now)], site, id, text) ==> text == command
  {
    var log' := log + [C.Enqueued(site, id, command, now)];
    assert forall i :: 0 <= i < |log| ==> log'[i] == log[i];
  }

  // ---------- whole runs ----------

  /** What a run of requests does to the sessions. */
  function AllSessionSteps(requests: seq<Request>): seq<S.Step> {
    seq(|requests|, i requires 0 <= i < |requests| => SessionStep(requests[i]))
  }

  lemma {:induction false} RunIsSessionRun(sys: System, requests: seq<Request>)
    requires ValidRun(sys, requests)
    ensures S.ValidRun(sys.sessions, AllSessionSteps(requests))
    ensures S.Run(sys.sessions, AllSessionSteps(requests)) == Run(sys, requests).sessions
    decreases |requests|
  {
    hide S.Apply, Answer, S.WasRegistered, C.WasEnqueued, C.ClearOrder;
    if requests != [] {
      var steps, rest := AllSessionSteps(requests), AllSessionSteps(requests[1..]);
      assert steps[0] == SessionStep(requests[0]) && steps[1..] == rest;
      RunIsSessionRun(Serve(sys, requests[0]), requests[1..]);
    }
  }

  predicate FromAgent(r: Request, token: string) {
    (r.Poll? || r.PostResult?) && r.token == token
  }

  /** After any run of requests, a poll or a result is refused as unauthorized exactly when its token was
      never registered, or its site was revoked or given to another token since, or SESSION_TTL_MS has
      passed since the token was registered or last used in time. */
  lemma UnauthorizedIff(clock: int, requests: seq<Request>, r: Request, token: string)
    requires clock > 0 && ValidRun(Start(clock), requests) && Admissible(Run(Start(clock), requests), r) && FromAgent(r, token)
    ensures
      var life := L.LifeAfter(None, AllSessionSteps(requests), token);
      Answer(Run(Start(clock), requests), r).0 == Unauthorized <==>
        life.None? || r.now >= life.value.last + S.SESSION_TTL_MS
  {
    hide ValidRun, Run, S.Run, S.ValidRun, L.LifeAfter, S.Connection, S.Get, C.Dequeue, C.Resolve, S.WasRegistered, C.WasEnqueued;
    RunIsSessionRun(Start(clock), requests);
    L.ServedWhileItLives(clock, AllSessionSteps(requests), token, r.now);
  }

  /** What is queued is accepted exactly with a site and a text, and then is the last open command. */
  lemma QueueAnswer(sys: System, site: string, id: string, command: string, now: int)
    ensures
      var (response, commands) := Answer(sys, QueueCommand(site, id, command, now));
      if site == "" || command == "" then response == BadRequest && commands == sys.commands
      else
        && response == Accepted && commands.log == sys.commands.log + [C.Enqueued(site, id, command, now)]
        && C.Open(commands.log, site) == C.Open(sys.commands.log, site) + [id]
  {
    hide C.Enqueue, C.Open;
    A.EnqueueIsLogged(sys.commands, site, id, command, now);
  }
}
