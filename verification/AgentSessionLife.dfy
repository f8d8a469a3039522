/** How long a session lives, told by the registrations, uses and revocations alone: a token is served
    exactly while less than SESSION_TTL_MS has passed since its registration or its last use in time,
    and its site was not given to another token and not revoked since. Prunes, reports and the business
    of other tokens do not matter.
 */
module AgentSessionLife {
  import opened AgentSessions
  import opened Shared

  /** What is to be known of one token: the site it was registered for, what the agent told about itself,
      and when it was registered or last used in time. */
  datatype Life = Life(site: string, info: string, last: int)

  function Lives(life: Option<Life>, step: Step, token: string): Option<Life> {
    match step
    case DoRegister(site, t, info, now) =>
      if site == "" then life
      else if t == token then Some(Life(site, info, now))
      else if life.Some? && life.value.site == site then None
      else life
    case DoUse(t, now) =>
      if life.Some? && t == token && now < life.value.last + SESSION_TTL_MS then Some(life.value.(last := now)) else life
    case DoRevoke(site, _) => if life.Some? && site != "" && life.value.site == site then None else life
    case DoPrune(_) => life
    case DoReport(_, _) => life
  }

  function LifeAfter(life: Option<Life>, steps: seq<Step>, token: string): Option<Life>
    decreases |steps|
  {
    if steps == [] then life else LifeAfter(Lives(life, steps[0], token), steps[1..], token)
  }

  /** The session that the life of a token calls for. */
  function SessionOf(life: Life): Session {
    Session(life.site, life.info, life.last, life.last + SESSION_TTL_MS)
  }

  /** What the maps hold is what the life of the token says; a session past its time may be gone. */
  ghost predicate Follows(st: Sessions, life: Option<Life>, token: string) {
    match life
    case None => token !in st.byToken
    case Some(x) =>
      && (token in st.byToken ==> st.byToken[token] == SessionOf(x))
      && (st.clock < x.last + SESSION_TTL_MS ==> token in st.byToken)
      && x.site != ""
  }

  /** In a state that follows, a token is served exactly while its life says so, with its session, and
      its site is reported connected under it, except that the report lasts for one more instant. */
  predicate Served(st: Sessions, life: Option<Life>, token: string, now: int) {
    && Get(st, token, now).0 == (if life.Some? && now < life.value.last + SESSION_TTL_MS then Some(SessionOf(life.value)) else None)
    && (life.Some? && now < life.value.last + SESSION_TTL_MS ==>
          Connection(st, life.value.site, now).0 == Some(Report(life.value.site, token, life.value.info, life.value.last)))
  }

  lemma FollowsIsServed(st: Sessions, life: Option<Life>, token: string, now: int)
    requires Inv(st) && Follows(st, life, token) && st.clock <= now
    ensures Served(st, life, token, now)
  {
    hide LastToken;
    if token in st.byToken { assert SessionAgrees(st, token); }
  }

  lemma RegisterFollows(st: Sessions, life: Option<Life>, site: string, t: string, info: string, now: int, token: string)
    requires Inv(st) && Enabled(st, DoRegister(site, t, info, now)) && Follows(st, life, token)
    ensures Follows(Apply(st, DoRegister(site, t, info, now)), Lives(life, DoRegister(site, t, info, now), token), token)
  {
    hide LastToken, WasRegistered, Inv;
    if site != "" { RevokedFacts(st, site); }
    hide Revoke;
  }

  lemma RevokeFollows(st: Sessions, life: Option<Life>, site: string, now: int, token: string)
    requires Inv(st) && Enabled(st, DoRevoke(site, now)) && Follows(st, life, token)
    ensures Follows(Apply(st, DoRevoke(site, now)), Lives(life, DoRevoke(site, now), token), token)
  {
    hide LastToken, Inv;
    if site != "" { RevokedFacts(st, site); }
    hide Revoke;
  }

  lemma UseFollows(st: Sessions, life: Option<Life>, t: string, now: int, token: string)
    requires Inv(st) && Enabled(st, DoUse(t, now)) && Follows(st, life, token)
    ensures Follows(Apply(st, DoUse(t, now)), Lives(life, DoUse(t, now), token), token)
  {
    hide LastToken;
    if t in st.byToken { assert SessionAgrees(st, t); }
    hide Inv;
  }

  lemma StepFollows(st: Sessions, life: Option<Life>, step: Step, token: string)
    requires Inv(st) && Enabled(st, step) && Follows(st, life, token)
    ensures Follows(Apply(st, step), Lives(life, step, token), token)
  {
    match step
    case DoRegister(site, t, info, now) => RegisterFollows(st, life, site, t, info, now, token);
    case DoUse(t, now) => UseFollows(st, life, t, now, token);
    case DoRevoke(site, now) => RevokeFollows(st, life, site, now, token);
    case DoPrune(now) => hide Inv, Active;
    case DoReport(site, now) =>
      ReportChangesNothing(st, site, now);
      hide Inv, Connection;
  }

  lemma {:induction false} RunFollows(st: Sessions, life: Option<Life>, steps: seq<Step>, token: string)
    requires Inv(st) && ValidRun(st, steps) && Follows(st, life, token)
    ensures Follows(Run(st, steps), LifeAfter(life, steps, token), token)
    decreases |steps|
  {
    hide Inv, Apply, Enabled, Follows, Lives;
    if steps != [] {
      StepKeepsInv(st, steps[0]);
      StepFollows(st, life, steps[0], token);
      RunFollows(Apply(st, steps[0]), Lives(life, steps[0], token), steps[1..], token);
    }
  }

  /** After any run from the start, at any later time. */
  lemma ServedWhileItLives(clock: int, steps: seq<Step>, token: string, now: int)
    requires clock > 0 && ValidRun(Start(clock), steps) && Run(Start(clock), steps).clock <= now
    ensures Served(Run(Start(clock), steps), LifeAfter(None, steps, token), token, now)
  {
    hide Inv, Run, ValidRun, Served, LifeAfter;
    StartInv(clock);
    RunKeepsInv(Start(clock), steps);
    RunFollows(Start(clock), None, steps, token);
    FollowsIsServed(Run(Start(clock), steps), LifeAfter(None, steps, token), token, now);
  }

  /** A registration serves its token for the next SESSION_TTL_MS and no longer, and leaves the sessions
      of other sites alone. */
  lemma RegistrationServes(st: Sessions, site: string, token: string, info: string, now: int, later: int)
    requires Inv(st) && Enabled(st, DoRegister(site, token, info, now)) && site != "" && now <= later
    ensures
      var st' := Apply(st, DoRegister(site, token, info, now));
      && Served(st', Some(Life(site, info, now)), token, later)
      && (forall t :: t in st.byToken && st.byToken[t].siteId != site ==> t in st'.byToken && st'.byToken[t] == st.byToken[t])
      && (forall t :: t in st'.byToken && st'.byToken[t].siteId == site ==> t == token)
  {
    var step := DoRegister(site, token, info, now);
    if token in st.byToken { KnownWasRegistered(st, token); }
    RevokedFacts(st, site);
    hide Inv, LastToken, WasRegistered, Served, Revoke;
    StepKeepsInv(st, step);
    FollowsIsServed(Apply(st, step), Some(Life(site, info, now)), token, later);
  }

  /** A poll or result of a token that is served renews its session for the next SESSION_TTL_MS, and
      leaves all other sessions alone. */
  lemma UseRenews(st: Sessions, token: string, now: int, later: int)
    requires Inv(st) && Enabled(st, DoUse(token, now)) && token in st.byToken && now < st.byToken[token].expiresAt && now <= later
    ensures
      var s, st' := st.byToken[token], Apply(st, DoUse(token, now));
      && Served(st', Some(Life(s.siteId, s.info, now)), token, later)
      && (forall t :: t in st.byToken && t != token ==> t in st'.byToken && st'.byToken[t] == st.byToken[t])
  {
    assert SessionAgrees(st, token);
    hide LastToken, Served;
    StepKeepsInv(st, DoUse(token, now));
    hide Inv;
    FollowsIsServed(Apply(st, DoUse(token, now)), Some(Life(st.byToken[token].siteId, st.byToken[token].info, now)), token, later);
  }

  /** The minute timer drops exactly the sessions whose time is over, and their presences. */
  lemma PruneDropsExpired(st: Sessions, now: int)
    requires Inv(st) && st.clock <= now
    ensures
      var st' := Prune(st, now);
      && (forall t :: t in st'.byToken <==> t in st.byToken && now < st.byToken[t].expiresAt)
      && (forall t :: t in st'.byToken ==> st'.byToken[t] == st.byToken[t])
      && (forall s :: s in st'.bySite <==> s in st.bySite && st.bySite[s].token in st'.byToken)
      && (forall s :: s in st'.bySite ==> st'.bySite[s] == st.bySite[s])
  {
    hide LastToken;
    var st' := Prune(st, now);
    forall t | t in st.byToken ensures t in st'.byToken <==> now < st.byToken[t].expiresAt { assert SessionAgrees(st, t); }
    forall s | s in st.bySite ensures s in st'.bySite <==> st.bySite[s].token in st'.byToken {
      assert PresenceAgrees(st, s);
      if s in st'.bySite {
        var t :| t in st.byToken && st.byToken[t].siteId == s && !Expired(st.byToken[t], now);
        OneSessionPerSite(st, t, st.bySite[s].token);
      }
    }
  }

  // ---------- an agent that keeps polling ----------

  /** The token is used within SESSION_TTL_MS of its last use, every time, and its site is neither revoked
      nor given to another token. */
  predicate Diligent(steps: seq<Step>, token: string, site: string, last: int)
    decreases |steps|
  {
    steps == []
    || match steps[0]
       case DoRegister(s, _, _, _) => s != site && Diligent(steps[1..], token, site, last)
       case DoRevoke(s, _) => s != site && Diligent(steps[1..], token, site, last)
       case DoUse(t, now) =>
         if t == token then now < last + SESSION_TTL_MS && Diligent(steps[1..], token, site, now)
         else Diligent(steps[1..], token, site, last)
       case _ => Diligent(steps[1..], token, site, last)
  }

  /** Every poll and result of the token finds its session. */
  predicate NeverRefused(st: Sessions, steps: seq<Step>, token: string)
    decreases |steps|
  {
    steps == []
    || ((steps[0].DoUse? && steps[0].token == token ==> Use(st, token, steps[0].now).0.Some?)
        && NeverRefused(Apply(st, steps[0]), steps[1..], token))
  }

  /** An agent that keeps polling in time is never refused, whatever else happens. */
  lemma {:induction false} DiligentIsNeverRefused(st: Sessions, steps: seq<Step>, token: string, life: Life)
    requires Inv(st) && ValidRun(st, steps) && Follows(st, Some(life), token) && WasRegistered(st, token)
    requires Diligent(steps, token, life.site, life.last)
    ensures NeverRefused(st, steps, token)
    decreases |steps|
  {
    hide Inv, Apply, Follows, WasRegistered, Get, Connection;
    if steps != [] {
      var step := steps[0];
      StepKeepsInv(st, step);
      StepFollows(st, Some(life), step, token);
      RegisteredStays(st, step, token);
      if step.DoUse? { FollowsIsServed(st, Some(life), token, step.now); }
      assert step.DoRegister? ==> step.token != token;
      DiligentIsNeverRefused(Apply(st, step), steps[1..], token, Lives(Some(life), step, token).value);
    }
  }

  lemma RegisteredStays(st: Sessions, step: Step, token: string)
    requires WasRegistered(st, token)
    ensures WasRegistered(Apply(st, step), token)
  {
    hide Active;
    var i :| 0 <= i < |st.registered| && st.registered[i].token == token;
    assert Apply(st, step).registered[i] == st.registered[i];
  }

  /** From its registration on. */
  lemma RegisteredIsNeverRefused(st: Sessions, site: string, token: string, info: string, now: int, steps: seq<Step>)
    requires Inv(st) && Enabled(st, DoRegister(site, token, info, now)) && site != ""
    requires ValidRun(Apply(st, DoRegister(site, token, info, now)), steps) && Diligent(steps, token, site, now)
    ensures NeverRefused(Apply(st, DoRegister(site, token, info, now)), steps, token)
  {
    var step := DoRegister(site, token, info, now);
    var st' := Apply(st, step);
    StepKeepsInv(st, step);
    assert st'.registered[|st.registered|].token == token;
    hide Inv, Revoke, LastToken;
    DiligentIsNeverRefused(st', steps, token, Life(site, info, now));
  }
}
