/** Collector-agent sessions and the presence index of their sites (lib/agent.js:429-493, 612-696).

    `registered` lists the registrations so far; it is history and no operation reads it.
 */
module AgentSessions {
  import opened Shared

  // CAJAL_AGENT_SESSION_TTL_MS (120000 unless set), lib/constants.js:248.
  const SESSION_TTL_MS: Duration

  /** `info` stands for what the agent tells about itself: host name, platform, version, addresses. */
  datatype Session = Session(siteId: string, info: string, lastSeenAt: int, expiresAt: int)
  datatype Presence = Presence(token: string, info: string, lastSeenAt: int)
  datatype Report = Report(siteId: string, token: string, info: string, lastSeenAt: int)
  datatype Registration = Registration(site: string, token: string)

  datatype Sessions = Sessions(
    byToken: map<string, Session>,
    bySite: map<string, Presence>,
    registered: seq<Registration>,
    clock: int)

  function Start(clock: int): Sessions {
    Sessions(map[], map[], [], clock)
  }

  // ---------- the operations ----------

  function SetPresence(st: Sessions, token: string, session: Session, now: int): Sessions {
    if session.siteId == "" || token == "" then st
    else st.(bySite := st.bySite[session.siteId := Presence(token, session.info, now)])
  }

  function Touch(st: Sessions, token: string, session: Session, now: int): Sessions {
    if token == "" then st
    else
      var touched := session.(lastSeenAt := now, expiresAt := now + SESSION_TTL_MS);
      SetPresence(st.(byToken := st.byToken[token := touched]), token, touched, now)
  }

  function Revoke(st: Sessions, site: string): Sessions {
    if site == "" then st
    else st.(byToken := map t | t in st.byToken && st.byToken[t].siteId != site :: st.byToken[t],
             bySite := st.bySite - {site})
  }

  function Register(st: Sessions, site: string, token: string, info: string, now: int): Sessions {
    if site == "" then st
    else
      var revoked := Revoke(st, site);
      var session := Session(site, info, now, now + SESSION_TTL_MS);
      SetPresence(revoked.(byToken := revoked.byToken[token := session],
                           registered := st.registered + [Registration(site, token)]),
                  token, session, now)
  }

  predicate Expired(session: Session, now: int) {
    session.expiresAt == 0 || session.expiresAt <= now
  }

  /** The session of a token; an expired one is dropped together with the presence of its site. */
  function Get(st: Sessions, token: string, now: int): (Option<Session>, Sessions) {
    if token == "" || token !in st.byToken then (None, st)
    else
      var session := st.byToken[token];
      if Expired(session, now) then
        (None, st.(byToken := st.byToken - {token},
                   bySite := if session.siteId != "" then st.bySite - {session.siteId} else st.bySite))
      else (Some(session), st)
  }

  predicate Active(st: Sessions, site: string, now: int) {
    exists t :: t in st.byToken && st.byToken[t].siteId == site && !Expired(st.byToken[t], now)
  }

  function Prune(st: Sessions, now: int): Sessions {
    st.(byToken := map t | t in st.byToken && !Expired(st.byToken[t], now) :: st.byToken[t],
        bySite := map s | s in st.bySite && s != "" && Active(st, s, now) :: st.bySite[s])
  }

  /** Whether a site's agent is reported connected; a presence without a session is dropped. */
  function Connection(st: Sessions, site: string, now: int): (Option<Report>, Sessions) {
    if site == "" || site !in st.bySite then (None, st)
    else
      var current := st.bySite[site];
      if current.token == "" || current.token !in st.byToken then (None, st.(bySite := st.bySite - {site}))
      else
        var session := st.byToken[current.token];
        var lastSeenAt := if session.lastSeenAt != 0 then session.lastSeenAt else current.lastSeenAt;
        if lastSeenAt > 0 && now - lastSeenAt <= SESSION_TTL_MS then
          (Some(Report(site, current.token, if session.info != "" then session.info else current.info, lastSeenAt)), st)
        else (None, st)
  }

  // ---------- the invariant ----------

  function LastToken(registered: seq<Registration>, site: string): string {
    if registered == [] then ""
    else
      var r := registered[|registered| - 1];
      if r.site == site then r.token else LastToken(registered[..|registered| - 1], site)
  }

  predicate WasRegistered(st: Sessions, token: string) {
    exists i :: 0 <= i < |st.registered| && st.registered[i].token == token
  }

  /** A session is the one its site's presence names, and the one the site registered last. */
  predicate SessionAgrees(st: Sessions, token: string)
    requires token in st.byToken
  {
    var s := st.byToken[token];
    && token != "" && s.siteId != ""
    && s.siteId in st.bySite && st.bySite[s.siteId] == Presence(token, s.info, s.lastSeenAt)
    && 0 < s.lastSeenAt <= st.clock && s.expiresAt == s.lastSeenAt + SESSION_TTL_MS
    && LastToken(st.registered, s.siteId) == token
  }

  predicate PresenceAgrees(st: Sessions, site: string)
    requires site in st.bySite
  {
    var token := st.bySite[site].token;
    site != "" && token in st.byToken && st.byToken[token].siteId == site
  }

  ghost predicate Inv(st: Sessions) {
    && st.clock > 0
    && (forall t :: t in st.byToken ==> SessionAgrees(st, t))
    && (forall s :: s in st.bySite ==> PresenceAgrees(st, s))
    && (forall i, j :: 0 <= i < j < |st.registered| ==> st.registered[i].token != st.registered[j].token)
  }

  /** At most one session per site, and the presence of the site names it. */
  lemma OneSessionPerSite(st: Sessions, t: string, u: string)
    requires Inv(st) && t in st.byToken && u in st.byToken && st.byToken[t].siteId == st.byToken[u].siteId
    ensures t == u && st.bySite[st.byToken[t].siteId].token == t
  {
    hide LastToken;
    assert SessionAgrees(st, t) && SessionAgrees(st, u);
  }

  // ---------- steps and runs ----------

  /** `Use` is what a poll or a result does first: look the session up and, if it is there, touch it. */
  datatype Step =
    | DoRegister(site: string, token: string, info: string, now: int)
    | DoUse(token: string, now: int)
    | DoPrune(now: int)
    | DoRevoke(site: string, now: int)
    | DoReport(site: string, now: int)

  function Use(st: Sessions, token: string, now: int): (Option<Session>, Sessions) {
    var (found, st') := Get(st, token, now);
    match found
    case None => (None, st')
    case Some(session) => (Some(session), Touch(st', token, session, now))
  }

  predicate Enabled(st: Sessions, step: Step) {
    && st.clock <= step.now
    && (step.DoRegister? ==> step.token != "" && !WasRegistered(st, step.token))
  }

  function Apply(st: Sessions, step: Step): Sessions {
    var st' :=
      match step
      case DoRegister(site, token, info, now) => Register(st, site, token, info, now)
      case DoUse(token, now) => Use(st, token, now).1
      case DoPrune(now) => Prune(st, now)
      case DoRevoke(site, _) => Revoke(st, site)
      case DoReport(site, now) => Connection(st, site, now).1;
    st'.(clock := step.now)
  }

  predicate ValidRun(st: Sessions, steps: seq<Step>)
    decreases |steps|
  {
    steps == [] || (Enabled(st, steps[0]) && ValidRun(Apply(st, steps[0]), steps[1..]))
  }

  function Run(st: Sessions, steps: seq<Step>): Sessions
    decreases |steps|
  {
    if steps == [] then st else Run(Apply(st, steps[0]), steps[1..])
  }

  lemma LastTokenStep(registered: seq<Registration>, r: Registration, site: string)
    ensures LastToken(registered + [r], site) == if r.site == site then r.token else LastToken(registered, site)
  {
    assert (registered + [r])[..|registered|] == registered;
  }

  /** Dropping sessions, each with the presence that names it, keeps the agreement. */
  lemma DroppingKeepsInv(st: Sessions, st': Sessions)
    requires Inv(st) && st.clock <= st'.clock && st'.registered == st.registered
    requires forall t :: t in st'.byToken ==> t in st.byToken && st'.byToken[t] == st.byToken[t] && st.byToken[t].siteId in st'.bySite
    requires forall s :: s in st'.bySite ==> s in st.bySite && st'.bySite[s] == st.bySite[s] && st.bySite[s].token in st'.byToken
    ensures Inv(st')
  {
    hide LastToken;
    forall t | t in st'.byToken ensures SessionAgrees(st', t) { assert SessionAgrees(st, t); }
    forall s | s in st'.bySite ensures PresenceAgrees(st', s) { assert PresenceAgrees(st, s); }
  }

  lemma ClockKeepsInv(st: Sessions, now: int)
    requires Inv(st) && st.clock <= now
    ensures Inv(st.(clock := now))
  {
    hide LastToken;
    forall t | t in st.byToken ensures SessionAgrees(st.(clock := now), t) { assert SessionAgrees(st, t); }
    forall s | s in st.bySite ensures PresenceAgrees(st.(clock := now), s) { assert PresenceAgrees(st, s); }
  }

  lemma {:induction false} LastTokenWasRegistered(registered: seq<Registration>, site: string)
    requires LastToken(registered, site) != ""
    ensures Registration(site, LastToken(registered, site)) in registered
  {
    var n := |registered| - 1;
    if registered[n].site != site { LastTokenWasRegistered(registered[..n], site); }
  }

  /** A session was registered, for its site. */
  lemma KnownWasRegistered(st: Sessions, token: string)
    requires Inv(st) && token in st.byToken
    ensures WasRegistered(st, token) && Registration(st.byToken[token].siteId, token) in st.registered
  {
    hide LastToken;
    assert SessionAgrees(st, token);
    LastTokenWasRegistered(st.registered, st.byToken[token].siteId);
  }

  /** What is left after a revocation. */
  lemma RevokedFacts(st: Sessions, site: string)
    requires site != ""
    ensures
      var st' := Revoke(st, site);
      && st'.registered == st.registered && st'.clock == st.clock
      && (forall t :: t in st'.byToken <==> t in st.byToken && st.byToken[t].siteId != site)
      && (forall t :: t in st'.byToken ==> st'.byToken[t] == st.byToken[t])
      && (forall s :: s in st'.bySite <==> s in st.bySite && s != site)
      && (forall s :: s in st'.bySite ==> st'.bySite[s] == st.bySite[s])
  {
  }

  lemma RevokeKeepsInv(st: Sessions, site: string, now: int)
    requires Inv(st) && st.clock <= now
    ensures Inv(Revoke(st, site).(clock := now))
  {
    hide LastToken;
    if site == "" {
      ClockKeepsInv(st, now);
    } else {
      RevokedFacts(st, site);
      hide Revoke;
      var st' := Revoke(st, site).(clock := now);
      forall t | t in st'.byToken ensures st.byToken[t].siteId in st'.bySite { assert SessionAgrees(st, t); }
      forall s | s in st'.bySite ensures st.bySite[s].token in st'.byToken { assert PresenceAgrees(st, s); }
      DroppingKeepsInv(st, st');
    }
  }

  lemma RegisterKeepsInv(st: Sessions, site: string, token: string, info: string, now: int)
    requires Inv(st) && st.clock <= now && token != "" && !WasRegistered(st, token)
    ensures Inv(Register(st, site, token, info, now).(clock := now))
  {
    hide LastToken, Revoke;
    var st' := Register(st, site, token, info, now).(clock := now);
    RevokeKeepsInv(st, site, now);
    if site == "" {
      ClockKeepsInv(st, now);
    } else {
      if token in st.byToken { KnownWasRegistered(st, token); }
      var mid := Revoke(st, site).(clock := now);
      var r := Registration(site, token);
      RevokedFacts(st, site);
      hide Revoke;
      RegisteredAgree(mid, st', r, info, now);
    }
  }

  /** A new session, the only one of its site, agrees, and the others stay as they were. */
  lemma RegisteredAgree(mid: Sessions, st': Sessions, r: Registration, info: string, now: int)
    requires Inv(mid) && r.site != "" && r.token != "" && mid.clock == now
    requires r.site !in mid.bySite && r.token !in mid.byToken && !WasRegistered(mid, r.token)
    requires forall t :: t in mid.byToken ==> mid.byToken[t].siteId != r.site
    requires st' == Sessions(mid.byToken[r.token := Session(r.site, info, now, now + SESSION_TTL_MS)],
                             mid.bySite[r.site := Presence(r.token, info, now)], mid.registered + [r], now)
    ensures Inv(st')
  {
    hide LastToken;
    forall t | t in st'.byToken ensures SessionAgrees(st', t) {
      LastTokenStep(mid.registered, r, st'.byToken[t].siteId);
      if t != r.token { assert SessionAgrees(mid, t); }
    }
    forall s | s in st'.bySite ensures PresenceAgrees(st', s) {
      if s != r.site { assert PresenceAgrees(mid, s); }
    }
    forall i, j | 0 <= i < j < |st'.registered| ensures st'.registered[i].token != st'.registered[j].token {
      assert st'.registered[i] == mid.registered[i];
    }
  }

  lemma UseKeepsInv(st: Sessions, token: string, now: int)
    requires Inv(st) && st.clock <= now
    ensures Inv(Use(st, token, now).1.(clock := now))
  {
    hide LastToken;
    var st' := Use(st, token, now).1.(clock := now);
    if token in st.byToken { assert SessionAgrees(st, token); }
    if token != "" && token in st.byToken && !Expired(st.byToken[token], now) {
      forall t | t in st'.byToken ensures SessionAgrees(st', t) {
        assert SessionAgrees(st, t);
        if t != token && st.byToken[t].siteId == st.byToken[token].siteId { OneSessionPerSite(st, t, token); }
      }
      forall s | s in st'.bySite ensures PresenceAgrees(st', s) {
        if s in st.bySite { assert PresenceAgrees(st, s); }
      }
    } else {
      forall t | t in st'.byToken ensures st.byToken[t].siteId in st'.bySite {
        assert SessionAgrees(st, t);
        if token in st.byToken && st.byToken[t].siteId == st.byToken[token].siteId { OneSessionPerSite(st, t, token); }
      }
      forall s | s in st'.bySite ensures st.bySite[s].token in st'.byToken { assert PresenceAgrees(st, s); }
      DroppingKeepsInv(st, st');
    }
  }

  lemma PruneKeepsInv(st: Sessions, now: int)
    requires Inv(st) && st.clock <= now
    ensures Inv(Prune(st, now).(clock := now))
  {
    hide LastToken;
    var st' := Prune(st, now).(clock := now);
    forall t | t in st'.byToken ensures st.byToken[t].siteId in st'.bySite { assert SessionAgrees(st, t); }
    forall s | s in st'.bySite ensures st.bySite[s].token in st'.byToken {
      assert PresenceAgrees(st, s);
      var t :| t in st.byToken && st.byToken[t].siteId == s && !Expired(st.byToken[t], now);
      OneSessionPerSite(st, t, st.bySite[s].token);
    }
    DroppingKeepsInv(st, st');
  }

  /** In a state that agrees, asking whether a site is connected changes nothing. */
  lemma ReportChangesNothing(st: Sessions, site: string, now: int)
    requires Inv(st)
    ensures Connection(st, site, now).1 == st
  {
    hide LastToken;
    if site in st.bySite {
      assert PresenceAgrees(st, site);
      assert SessionAgrees(st, st.bySite[site].token);
    }
  }

  lemma StepKeepsInv(st: Sessions, step: Step)
    requires Inv(st) && Enabled(st, step)
    ensures Inv(Apply(st, step))
  {
    hide Register, Use, Prune, Revoke, Connection, WasRegistered, LastToken;
    match step
    case DoRegister(site, token, info, now) => RegisterKeepsInv(st, site, token, info, now);
    case DoUse(token, now) => UseKeepsInv(st, token, now);
    case DoPrune(now) => PruneKeepsInv(st, now);
    case DoRevoke(site, now) => RevokeKeepsInv(st, site, now);
    case DoReport(site, now) =>
      ReportChangesNothing(st, site, now);
      ClockKeepsInv(st, now);
  }

  lemma {:induction false} RunKeepsInv(st: Sessions, steps: seq<Step>)
    requires Inv(st) && ValidRun(st, steps)
    ensures Inv(Run(st, steps))
    decreases |steps|
  {
    hide Inv, Apply, Enabled;
    if steps != [] {
      StepKeepsInv(st, steps[0]);
      RunKeepsInv(Apply(st, steps[0]), steps[1..]);
    }
  }

  // ---------- what the index is for ----------

  /** A site is reported connected exactly when it has a session that has not passed its expiry; the
      session is still usable except at the very instant of its expiry. */
  lemma ConnectedIffSession(st: Sessions, site: string, now: int)
    requires Inv(st) && st.clock <= now
    ensures Connection(st, site, now).0.Some? <==>
              exists t :: t in st.byToken && st.byToken[t].siteId == site && now <= st.byToken[t].expiresAt
    ensures Connection(st, site, now).0.Some? ==>
              var t := Connection(st, site, now).0.value.token;
              && t in st.byToken && st.byToken[t].siteId == site
              && (Get(st, t, now).0.Some? <==> now != st.byToken[t].expiresAt)
  {
    hide LastToken;
    if site in st.bySite {
      var t := st.bySite[site].token;
      assert PresenceAgrees(st, site) && SessionAgrees(st, t);
    }
    forall t | t in st.byToken && st.byToken[t].siteId == site
      ensures site in st.bySite && site != "" && st.bySite[site].token == t && t != "" {
      assert SessionAgrees(st, t);
    }
  }

  /** A usable session is always reported connected. */
  lemma UsableIsConnected(st: Sessions, token: string, now: int)
    requires Inv(st) && st.clock <= now && Get(st, token, now).0.Some?
    ensures Connection(st, st.byToken[token].siteId, now).0.Some?
    ensures Connection(st, st.byToken[token].siteId, now).0.value.token == token
  {
    hide LastToken;
    assert SessionAgrees(st, token);
  }

  /** A token that is no longer known stays unknown, whatever happens. */
  lemma GoneStaysGone(st: Sessions, step: Step, token: string)
    requires Inv(st) && Enabled(st, step) && WasRegistered(st, token) && token !in st.byToken
    ensures token !in Apply(st, step).byToken && WasRegistered(Apply(st, step), token)
  {
    hide LastToken, Active;
    var i :| 0 <= i < |st.registered| && st.registered[i].token == token;
    var st' := Apply(st, step);
    assert st'.registered[i] == st.registered[i];
  }

  lemma {:induction false} GoneForever(st: Sessions, steps: seq<Step>, token: string)
    requires Inv(st) && ValidRun(st, steps) && WasRegistered(st, token) && token !in st.byToken
    ensures token !in Run(st, steps).byToken
    decreases |steps|
  {
    hide Inv, Apply, Enabled, WasRegistered;
    if steps != [] {
      StepKeepsInv(st, steps[0]);
      GoneStaysGone(st, steps[0], token);
      GoneForever(Apply(st, steps[0]), steps[1..], token);
    }
  }

  lemma StartInv(clock: int)
    requires clock > 0
    ensures Inv(Start(clock))
  {
  }

  /** In every reachable state, an agent that registered before another agent of its site has no
      session any more. */
  lemma SupersededHasNoSession(clock: int, steps: seq<Step>, i: nat, j: nat)
    requires clock > 0 && ValidRun(Start(clock), steps)
    requires i < j < |Run(Start(clock), steps).registered|
    requires Run(Start(clock), steps).registered[i].site == Run(Start(clock), steps).registered[j].site
    ensures
      var st := Run(Start(clock), steps);
      st.registered[i].token !in st.byToken
  {
    hide Run, ValidRun, LastToken;
    StartInv(clock);
    RunKeepsInv(Start(clock), steps);
    var st := Run(Start(clock), steps);
    var token, site := st.registered[i].token, st.registered[i].site;
    if token in st.byToken {
      assert SessionAgrees(st, token);
      KnownWasRegistered(st, token);
      var k :| 0 <= k < |st.registered| && st.registered[k] == Registration(st.byToken[token].siteId, token);
      assert k == i;
      LastTokenIsLate(st.registered, site, j);
    }
  }

  lemma {:induction false} LastTokenIsLate(registered: seq<Registration>, site: string, j: nat)
    requires j < |registered| && registered[j].site == site
    ensures exists k :: j <= k < |registered| && registered[k].token == LastToken(registered, site)
  {
    var n := |registered| - 1;
    if registered[n].site == site {
      assert registered[n].token == LastToken(registered, site);
    } else {
      LastTokenIsLate(registered[..n], site, j);
      var k :| j <= k < n && registered[..n][k].token == LastToken(registered[..n], site);
      assert registered[k].token == LastToken(registered, site);
    }
  }
}
