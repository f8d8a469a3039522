/** What the stored status of a site says, word by word: "down" when its last ping failed, "up" when the
    ping got through and every configured protocol was seen within its timeout, "warn" otherwise.
 */
module StatusWords {
  import opened JsText
  import opened SiteStatus

  /** The protocol was last seen no longer ago than its own timeout. */
  predicate SeenInTime(flows: Flows, id: string, p: Protocol, now: int) {
    var ago := now - if (id, p) in flows.lastSeen then flows.lastSeen[(id, p)] else 0;
    && (p == Syslog ==> ago <= flows.syslogMs)
    && (p == Snmp ==> ago <= flows.snmpMs)
    && (p == Netflow ==> ago <= flows.netflowMs)
  }

  predicate AllSeen(flows: Flows, site: Site, now: int) {
    forall p: Protocol :: p in site.enabled ==> SeenInTime(flows, site.id, p, now)
  }

  lemma FlowingIsSeen(flows: Flows, id: string, p: Protocol, now: int)
    ensures Flowing(flows, id, p, now) <==> SeenInTime(flows, id, p, now)
  {
  }

  /** Sites keep their identity, and what is configured for them. */
  lemma {:induction false} FlowKeepsSites(m: Monitor, i: nat, flows: Flows, now: int, silenced: bool, j: nat)
    requires i <= |m.sites| && j < |m.sites|
    ensures
      var n := ApplyFlowStatus(m, i, flows, now, silenced);
      && |n.sites| == |m.sites| && n.pingState == m.pingState
      && n.sites[j].id == m.sites[j].id && n.sites[j].enabled == m.sites[j].enabled
      && (j < i ==> n.sites[j] == m.sites[j])
    decreases |m.sites| - i
  {
    hide FlowStatus, Normalized, TelemetryIs, Agrees;
    if i < |m.sites| {
      FlowStatusSets(m, i, flows, now, silenced);
      FlowKeepsSites(FlowStatus(m, i, flows, now, silenced), i + 1, flows, now, silenced, j);
    }
  }

  lemma UnpingedStays(m: Monitor, i: nat, silenced: bool)
    requires i < |m.sites| && m.sites[i].id !in m.pingState
    ensures Reconciled(m, i, silenced) == m
  {
  }

  lemma ProtocolKeepsUnpinged(m: Monitor, i: nat, p: Protocol, flows: Flows, now: int, silenced: bool)
    requires i < |m.sites| && m.sites[i].id !in m.pingState
    ensures
      var n := ProtocolStatus(m, i, p, flows, now, silenced);
      && |n.sites| == |m.sites| && n.pingState == m.pingState
      && n.sites[i].id == m.sites[i].id && n.sites[i].status == m.sites[i].status
  {
    UnpingedStays(SetTelemetry(m, i, p, Flowing(flows, m.sites[i].id, p, now)), i, silenced);
    hide Reconciled, Flowing;
  }

  lemma {:induction false} FlowKeepsUnpinged(m: Monitor, i: nat, flows: Flows, now: int, silenced: bool, j: nat)
    requires i <= |m.sites| && j < |m.sites| && m.sites[j].id !in m.pingState
    ensures
      var n := ApplyFlowStatus(m, i, flows, now, silenced);
      |n.sites| == |m.sites| && n.sites[j].status == m.sites[j].status
    decreases |m.sites| - i
  {
    hide ProtocolStatus, Reconciled, TelemetryIs, Agrees;
    if i < |m.sites| {
      FlowStatusSets(m, i, flows, now, silenced);
      if i == j {
        ProtocolKeepsUnpinged(m, i, Syslog, flows, now, silenced);
        var m1 := ProtocolStatus(m, i, Syslog, flows, now, silenced);
        ProtocolKeepsUnpinged(m1, i, Snmp, flows, now, silenced);
        var m2 := ProtocolStatus(m1, i, Snmp, flows, now, silenced);
        ProtocolKeepsUnpinged(m2, i, Netflow, flows, now, silenced);
        UnpingedStays(ProtocolStatus(m2, i, Netflow, flows, now, silenced), i, silenced);
      }
      var next := FlowStatus(m, i, flows, now, silenced);
      hide FlowStatus;
      FlowKeepsUnpinged(next, i + 1, flows, now, silenced, j);
    }
  }

  /** The word that the last ping and the protocols call for; without a ping result it stays what it was. */
  predicate WordIs(word: string, before: string, pinged: bool, ok: bool, seen: bool) {
    && (!pinged ==> word == before)
    && (pinged && !ok ==> word == "down")
    && (pinged && ok && seen ==> word == "up")
    && (pinged && ok && !seen ==> word == "warn")
  }

  lemma AgreesIsWord(m: Monitor, j: nat, seen: bool, before: string)
    requires j < |m.sites| && Agrees(m, j) && (seen <==> m.sites[j].enabled <= m.sites[j].telemetry)
    requires m.sites[j].id !in m.pingState ==> Normalized(m.sites[j].status) == before
    ensures
      var id := m.sites[j].id;
      WordIs(Normalized(m.sites[j].status), before, id in m.pingState, id in m.pingState && m.pingState[id], seen)
  {
    hide Normalized;
  }

  /** After applyFlowStatus, for every site. */
  lemma FlowStoresWord(m: Monitor, flows: Flows, now: int, silenced: bool, j: nat)
    requires j < |m.sites|
    ensures
      var n, id := ApplyFlowStatus(m, 0, flows, now, silenced), m.sites[j].id;
      && |n.sites| == |m.sites|
      && WordIs(Normalized(n.sites[j].status), Normalized(m.sites[j].status), id in m.pingState,
                id in m.pingState && m.pingState[id], AllSeen(flows, m.sites[j], now))
      && forall p: Protocol :: p in n.sites[j].telemetry <==> p in m.sites[j].enabled && SeenInTime(flows, id, p, now)
  {
    hide ApplyFlowStatus, Normalized, Agrees, Flowing, SeenInTime;
    FlowStatusAgrees(m, 0, flows, now, silenced, j);
    FlowKeepsSites(m, 0, flows, now, silenced, j);
    var n := ApplyFlowStatus(m, 0, flows, now, silenced);
    forall p: Protocol ensures p in n.sites[j].telemetry <==> p in m.sites[j].enabled && SeenInTime(flows, m.sites[j].id, p, now) {
      FlowingIsSeen(flows, m.sites[j].id, p, now);
    }
    if m.sites[j].id !in m.pingState { FlowKeepsUnpinged(m, 0, flows, now, silenced, j); }
    AgreesIsWord(n, j, AllSeen(flows, m.sites[j], now), Normalized(m.sites[j].status));
  }

  /** After a ping result, with the protocols as they were seen last. */
  lemma PingStoresWord(m: Monitor, i: nat, ok: bool, silenced: bool)
    requires i < |m.sites|
    ensures
      var n := PingResult(m, i, ok, silenced);
      && |n.sites| == |m.sites|
      && WordIs(Normalized(n.sites[i].status), Normalized(m.sites[i].status), true, ok, m.sites[i].enabled <= m.sites[i].telemetry)
  {
    PingAgrees(m, i, ok, silenced);
    PingKeepsSite(m, i, ok, silenced);
    var n := PingResult(m, i, ok, silenced);
    hide PingResult, Normalized, Agrees;
    AgreesIsWord(n, i, m.sites[i].enabled <= m.sites[i].telemetry, Normalized(m.sites[i].status));
  }

  lemma PingKeepsSite(m: Monitor, i: nat, ok: bool, silenced: bool)
    requires i < |m.sites|
    ensures
      var n := PingResult(m, i, ok, silenced);
      |n.sites| == |m.sites| && n.sites[i].id == m.sites[i].id && n.sites[i].enabled == m.sites[i].enabled
      && forall j :: 0 <= j < |m.sites| && j != i ==> n.sites[j] == m.sites[j]
  {
    ReconciledKeepsSites(m, i, silenced);
    var id := m.sites[i].id;
    var m1 := if id in m.pingState && m.pingState[id] != ok then Reconciled(m, i, silenced) else m;
    ReconciledKeepsSites(m1.(pingState := m1.pingState[id := ok]), i, silenced);
    hide Reconciled;
  }

  // ---------- stored texts ----------

  /** The text has no white space at its ends. */
  predicate Tight(s: string) {
    s == "" || (!Space(s[0]) && !Space(s[|s| - 1]))
  }

  predicate AllSpace(s: string) {
    forall i :: 0 <= i < |s| ==> Space(s[i])
  }

  lemma {:induction false} TrimIs(a: string, core: string, b: string)
    requires AllSpace(a) && AllSpace(b) && Tight(core)
    ensures JsText.Trim(a + core + b) == core
    decreases |a| + |b|
  {
    hide Space;
    var s := a + core + b;
    if a != "" {
      assert s[0] == a[0] && s[1..] == a[1..] + core + b;
      TrimIs(a[1..], core, b);
    } else if b != "" {
      var n := |b| - 1;
      assert s[|s| - 1] == b[n] && s[..|s| - 1] == a + core + b[..n];
      if core == "" {
        assert s == b && s[0] == b[0] && s[1..] == a + core + b[1..];
        TrimIs(a, core, b[1..]);
      } else {
        assert s[0] == core[0];
        TrimIs(a, core, b[..n]);
      }
    } else {
      assert s == core;
    }
  }

  lemma {:induction false} LowerIs(s: string)
    ensures |JsText.Lower(s)| == |s|
    ensures forall i :: 0 <= i < |s| ==>
              JsText.Lower(s)[i] == if 'A' <= s[i] <= 'Z' then (s[i] as int + 32) as char else s[i]
  {
    if s != "" { LowerIs(s[1..]); }
  }

  /** An empty status counts as down; any other is read without the white space around it, in lower case. */
  lemma StoredTextIs(a: string, core: string, b: string)
    requires AllSpace(a) && AllSpace(b) && Tight(core)
    ensures Normalized("") == "down"
    ensures a + core + b != "" ==> Normalized(a + core + b) == JsText.Lower(core)
  {
    TrimIs(a, core, b);
  }
}
