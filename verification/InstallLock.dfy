/** Which install of the collector agent may register for a site (lib/auth.js:335-383,
    lib/routes/agent.js:189-202). Identities are normalised: an unreadable timestamp is 0. */
module InstallLock {
  type Slack = x: int | x >= 0

  // lib/constants.js:252; 1000 unless set.
  const COLLECTOR_AGENT_INSTALL_TIE_EPSILON_MS: Slack

  datatype Install = Install(installId: string, installedAtMs: nat)
  datatype Lock = Lock(install: Install, lockedAtMs: int)

  /** What a site without a lock counts as. */
  const NO_LOCK := Lock(Install("", 0), 0)

  datatype Reason =
    | NoInstallLock
    | MissingInstallMetadata
    | OlderInstall
    | NewerInstall
    | InstallIdMismatch
    | MissingInstallId
    | SameInstall

  datatype Verdict = Verdict(allowed: bool, reason: Reason)

  function Evaluate(current: Install, incoming: Install): Verdict {
    if current.installedAtMs == 0 then Verdict(true, NoInstallLock)
    else if incoming.installedAtMs == 0 then Verdict(false, MissingInstallMetadata)
    else if incoming.installedAtMs + COLLECTOR_AGENT_INSTALL_TIE_EPSILON_MS < current.installedAtMs then
      Verdict(false, OlderInstall)
    else if incoming.installedAtMs > current.installedAtMs + COLLECTOR_AGENT_INSTALL_TIE_EPSILON_MS then
      Verdict(true, NewerInstall)
    else if current.installId != "" && incoming.installId != "" && current.installId != incoming.installId then
      Verdict(false, InstallIdMismatch)
    else if current.installId != "" && incoming.installId == "" then Verdict(false, MissingInstallId)
    else Verdict(true, SameInstall)
  }

  function Updated(current: Lock, incoming: Install, now: int): Lock {
    if incoming == Install("", 0) || incoming == current.install then current else Lock(incoming, now)
  }

  /** One registration whose site and password are in order. */
  function Register(current: Lock, incoming: Install, now: int): Lock {
    if Evaluate(current.install, incoming).allowed then Updated(current, incoming, now) else current
  }

  class Site {
    var agentInstallLock: Lock

    constructor ()
      ensures agentInstallLock == NO_LOCK
    {
      agentInstallLock := NO_LOCK;
    }

    /** updateCollectorAgentInstallLock (lib/auth.js:365-383). */
    method UpdateInstallLock(incoming: Install, now: int) returns (changed: bool)
      modifies this
      ensures agentInstallLock == Updated(old(agentInstallLock), incoming, now)
      ensures changed <==> agentInstallLock.install != old(agentInstallLock.install)
    {
      if incoming.installId == "" && incoming.installedAtMs == 0 { return false; }
      var current, next := agentInstallLock.install, Lock(incoming, now);
      changed := current.installId != next.install.installId || current.installedAtMs != next.install.installedAtMs;
      if changed { agentInstallLock := next; }
    }

    /** The install check and the update of one registration (lib/routes/agent.js:189-202). */
    method RegisterAgent(incoming: Install, now: int) returns (accepted: bool)
      modifies this
      ensures accepted == Evaluate(old(agentInstallLock.install), incoming).allowed
      ensures agentInstallLock == Register(old(agentInstallLock), incoming, now)
    {
      accepted := Evaluate(agentInstallLock.install, incoming).allowed;
      if accepted { var _ := UpdateInstallLock(incoming, now); }
    }
  }

  // ---------- any run of registrations ----------

  datatype Attempt = Attempt(incoming: Install, now: int)

  function Run(lock: Lock, attempts: seq<Attempt>): Lock
    decreases |attempts|
  {
    if attempts == [] then lock else Run(Register(lock, attempts[0].incoming, attempts[0].now), attempts[1..])
  }

  function Accepted(lock: Lock, attempts: seq<Attempt>): nat
    decreases |attempts|
  {
    if attempts == [] then 0
    else
      (if Evaluate(lock.install, attempts[0].incoming).allowed then 1 else 0)
      + Accepted(Register(lock, attempts[0].incoming, attempts[0].now), attempts[1..])
  }

  /** Once a lock has a timestamp it always has one, and each accepted registration lowers it by at
      most the tie epsilon. */
  lemma {:induction false} TimestampStays(lock: Lock, attempts: seq<Attempt>)
    requires lock.install.installedAtMs > 0
    ensures Run(lock, attempts).install.installedAtMs > 0
    ensures Run(lock, attempts).install.installedAtMs
         >= lock.install.installedAtMs - Accepted(lock, attempts) * COLLECTOR_AGENT_INSTALL_TIE_EPSILON_MS
    decreases |attempts|
  {
    if attempts != [] {
      var next := Register(lock, attempts[0].incoming, attempts[0].now);
      var accepted := if Evaluate(lock.install, attempts[0].incoming).allowed then 1 else 0;
      assert next.install.installedAtMs >= lock.install.installedAtMs - accepted * COLLECTOR_AGENT_INSTALL_TIE_EPSILON_MS;
      hide Evaluate, Updated;
      TimestampStays(next, attempts[1..]);
      Distribute(accepted, Accepted(next, attempts[1..]), COLLECTOR_AGENT_INSTALL_TIE_EPSILON_MS);
    }
  }

  lemma Distribute(a: int, b: int, c: int)
    ensures (a + b) * c == a * c + b * c
  {
  }

  /** Registrations of one install, each an epsilon older than the one before. */
  function Drifting(id: string, from: int, n: nat): seq<Attempt>
    requires from - n * COLLECTOR_AGENT_INSTALL_TIE_EPSILON_MS >= 0
    decreases n
  {
    if n == 0 then []
    else
      Distribute(1, n - 1, COLLECTOR_AGENT_INSTALL_TIE_EPSILON_MS);
      [Attempt(Install(id, from - COLLECTOR_AGENT_INSTALL_TIE_EPSILON_MS), 0)]
      + Drifting(id, from - COLLECTOR_AGENT_INSTALL_TIE_EPSILON_MS, n - 1)
  }

  /** The bound is reached: an agent whose timestamp drifts lowers the lock by the epsilon each time. */
  lemma {:induction false} DriftReachesTheBound(lock: Lock, n: nat)
    requires lock.install.installId != ""
    requires lock.install.installedAtMs - n * COLLECTOR_AGENT_INSTALL_TIE_EPSILON_MS > 0
    ensures
      var attempts := Drifting(lock.install.installId, lock.install.installedAtMs, n);
      && Accepted(lock, attempts) == n
      && Run(lock, attempts).install.installedAtMs == lock.install.installedAtMs - n * COLLECTOR_AGENT_INSTALL_TIE_EPSILON_MS
    decreases n
  {
    if n > 0 {
      Distribute(1, n - 1, COLLECTOR_AGENT_INSTALL_TIE_EPSILON_MS);
      var older := Install(lock.install.installId, lock.install.installedAtMs - COLLECTOR_AGENT_INSTALL_TIE_EPSILON_MS);
      var next := Register(lock, older, 0);
      assert next.install == older;
      DriftReachesTheBound(next, n - 1);
    }
  }

  // ---------- agents with an identity of their own ----------

  /** The install timestamp of each agent, by its id. */
  type Agents = map<string, nat>

  predicate OwnIdentities(agents: Agents) {
    forall id :: id in agents ==> id != "" && agents[id] > 0
  }

  predicate Honest(agents: Agents, attempts: seq<Attempt>) {
    forall i :: 0 <= i < |attempts| ==> IsAgent(agents, attempts[i].incoming)
  }

  predicate IsAgent(agents: Agents, install: Install) {
    install.installId in agents && install.installedAtMs == agents[install.installId]
  }

  /** Among such agents the lock passes from one to another only if the other is newer by more than
      the epsilon; nobody else is accepted but the agent that holds the lock. */
  lemma AcceptedIffHolderOrNewer(agents: Agents, lock: Lock, incoming: Install, now: int)
    requires OwnIdentities(agents) && IsAgent(agents, lock.install) && IsAgent(agents, incoming)
    ensures Evaluate(lock.install, incoming).allowed
       <==> incoming == lock.install
            || incoming.installedAtMs > lock.install.installedAtMs + COLLECTOR_AGENT_INSTALL_TIE_EPSILON_MS
    ensures Evaluate(lock.install, incoming).allowed ==> Register(lock, incoming, now).install == incoming
  {
  }

  /** Every agent but the holder of the lock that is at most the epsilon newer stays refused. */
  predicate Behind(agents: Agents, lock: Lock, id: string) {
    id in agents && id != lock.install.installId
    && agents[id] + COLLECTOR_AGENT_INSTALL_TIE_EPSILON_MS < lock.install.installedAtMs
  }

  lemma {:induction false} BehindStaysBehind(agents: Agents, lock: Lock, attempts: seq<Attempt>, id: string)
    requires OwnIdentities(agents) && IsAgent(agents, lock.install) && Honest(agents, attempts)
    requires Behind(agents, lock, id)
    ensures IsAgent(agents, Run(lock, attempts).install) && Behind(agents, Run(lock, attempts), id)
    decreases |attempts|
  {
    if attempts != [] {
      var first := attempts[0];
      assert IsAgent(agents, first.incoming);
      AcceptedIffHolderOrNewer(agents, lock, first.incoming, first.now);
      hide Evaluate;
      BehindStaysBehind(agents, Register(lock, first.incoming, first.now), attempts[1..], id);
    }
  }

  /** A lock that another agent took over is ahead of the one that held it before. */
  lemma {:induction false} TakenOver(agents: Agents, lock: Lock, attempts: seq<Attempt>)
    requires OwnIdentities(agents) && IsAgent(agents, lock.install) && Honest(agents, attempts)
    ensures
      var after := Run(lock, attempts);
      && IsAgent(agents, after.install)
      && (after.install.installId == lock.install.installId || Behind(agents, after, lock.install.installId))
    decreases |attempts|
  {
    if attempts != [] {
      var first := attempts[0];
      assert IsAgent(agents, first.incoming);
      AcceptedIffHolderOrNewer(agents, lock, first.incoming, first.now);
      var next := Register(lock, first.incoming, first.now);
      hide Evaluate;
      if next.install == lock.install {
        TakenOver(agents, next, attempts[1..]);
      } else {
        BehindStaysBehind(agents, next, attempts[1..], lock.install.installId);
      }
    }
  }

  /** Once another install has taken the lock over, the agent that held it is refused as an older
      install for ever, whatever registrations follow. */
  lemma SupersededStaysOut(agents: Agents, lock: Lock, before: seq<Attempt>, later: seq<Attempt>)
    requires OwnIdentities(agents) && IsAgent(agents, lock.install) && Honest(agents, before) && Honest(agents, later)
    requires Run(lock, before).install.installId != lock.install.installId
    ensures Evaluate(Run(Run(lock, before), later).install, lock.install) == Verdict(false, OlderInstall)
  {
    TakenOver(agents, lock, before);
    BehindStaysBehind(agents, Run(lock, before), later, lock.install.installId);
  }

  /** From a site without a lock, the holder after any run is an agent that registered, and every
      agent that was refused was not newer than it by more than the epsilon. */
  lemma {:induction false} HolderIsNewest(agents: Agents, lock: Lock, attempts: seq<Attempt>, i: nat)
    requires OwnIdentities(agents) && (lock == NO_LOCK || IsAgent(agents, lock.install)) && Honest(agents, attempts)
    requires i < |attempts|
    ensures
      var holder := Run(lock, attempts).install;
      IsAgent(agents, holder)
      && attempts[i].incoming.installedAtMs <= holder.installedAtMs + COLLECTOR_AGENT_INSTALL_TIE_EPSILON_MS
    decreases |attempts|
  {
    var first := attempts[0];
    assert IsAgent(agents, first.incoming);
    var next := Register(lock, first.incoming, first.now);
    if lock != NO_LOCK { AcceptedIffHolderOrNewer(agents, lock, first.incoming, first.now); }
    assert IsAgent(agents, next.install);
    assert first.incoming.installedAtMs <= next.install.installedAtMs + COLLECTOR_AGENT_INSTALL_TIE_EPSILON_MS;
    hide Evaluate, Updated, Register;
    if i > 0 {
      HolderIsNewest(agents, next, attempts[1..], i - 1);
    } else {
      NeverOlder(agents, next, attempts[1..]);
    }
  }

  lemma {:induction false} NeverOlder(agents: Agents, lock: Lock, attempts: seq<Attempt>)
    requires OwnIdentities(agents) && IsAgent(agents, lock.install) && Honest(agents, attempts)
    ensures IsAgent(agents, Run(lock, attempts).install)
    ensures Run(lock, attempts).install.installedAtMs >= lock.install.installedAtMs
    decreases |attempts|
  {
    if attempts != [] {
      var first := attempts[0];
      assert IsAgent(agents, first.incoming);
      AcceptedIffHolderOrNewer(agents, lock, first.incoming, first.now);
      hide Evaluate;
      NeverOlder(agents, Register(lock, first.incoming, first.now), attempts[1..]);
    }
  }

  // ---------- every verdict ----------

  /** The timestamps are so close that only the ids tell the installs apart. */
  predicate Tie(current: Install, incoming: Install) {
    incoming.installedAtMs > 0 && current.installedAtMs > 0
    && current.installedAtMs - COLLECTOR_AGENT_INSTALL_TIE_EPSILON_MS <= incoming.installedAtMs
    && incoming.installedAtMs <= current.installedAtMs + COLLECTOR_AGENT_INSTALL_TIE_EPSILON_MS
  }

  /** For any installs, with or without id and timestamp: who is accepted, and which reason is given. */
  lemma VerdictIff(current: Install, incoming: Install)
    ensures
      var at, now, eps := current.installedAtMs, incoming.installedAtMs, COLLECTOR_AGENT_INSTALL_TIE_EPSILON_MS;
      var v := Evaluate(current, incoming);
      && (v.allowed <==> at == 0 || now > at + eps || (Tie(current, incoming) && (current.installId == "" || incoming.installId == current.installId)))
      && (v.reason == NoInstallLock <==> at == 0)
      && (v.reason == MissingInstallMetadata <==> at > 0 && now == 0)
      && (v.reason == OlderInstall <==> 0 < now < at - eps)
      && (v.reason == NewerInstall <==> at > 0 && now > at + eps)
      && (v.reason == InstallIdMismatch <==> Tie(current, incoming) && current.installId != "" && incoming.installId !in [current.installId, ""])
      && (v.reason == MissingInstallId <==> Tie(current, incoming) && current.installId != "" && incoming.installId == "")
      && (v.reason == SameInstall <==> Tie(current, incoming) && (current.installId == "" || incoming.installId == current.installId))
  {
  }

  /** The lock passes to an accepted install that has an id or a timestamp and is not the one that holds
      it, as of that time, and stays as it is otherwise. */
  lemma PassesIff(current: Lock, incoming: Install, now: int)
    ensures
      var passes := && Evaluate(current.install, incoming).allowed && incoming != current.install
                    && (incoming.installId != "" || incoming.installedAtMs != 0);
      Register(current, incoming, now) == if passes then Lock(incoming, now) else current
  {
    hide Evaluate;
  }
}
