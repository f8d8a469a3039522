/** How a site's status follows its ping and its flows (lib/sites.js:631-669,
    lib/notifications.js:563-605, lib/monitoring.js:714-725, lib/monitoring.js:1659-1682). */
module SiteStatus {
  import opened EventLog
  import opened JsText

  datatype Protocol = Syslog | Snmp | Netflow

  /** A site: the status as it is stored, the protocols that are configured and those that flow. */
  datatype Site = Site(id: string, status: string, enabled: set<Protocol>, telemetry: set<Protocol>)

  /** A site_status_change record and an alert name the site by its place in the list; for the proofs
      they also say whether alerting was silenced. */
  datatype Change = Change(site: nat, previous: string, next: string, silenced: bool)

  /** The monitoring state, with every change and every alert there ever was. */
  datatype Monitor = Monitor(
    sites: seq<Site>,
    pingState: map<string, bool>,
    flowState: map<(string, Protocol), bool>,
    alerts: seq<Change>,
    changes: seq<Change>,
    raised: seq<Change>)

  const ALERTS := 100

  // ---------- one reconciliation ----------

  /** String(status || 'down').trim().toLowerCase(). */
  function Normalized(status: string): string {
    if status == "" then "down" else Lower(Trim(status))
  }

  function DeriveSiteStatus(m: Monitor, site: Site): string {
    if site.id !in m.pingState then Normalized(site.status)
    else if !m.pingState[site.id] then "down"
    else if site.enabled <= site.telemetry then "up"
    else "warn"
  }

  predicate Alarming(status: string) { status == "down" || status == "warn" }

  function Reconciled(m: Monitor, i: nat, silenced: bool): Monitor
    requires i < |m.sites|
  {
    var previous, next := Normalized(m.sites[i].status), DeriveSiteStatus(m, m.sites[i]);
    if previous == next then m
    else
      var change := Change(i, previous, next, silenced);
      var alerted := !silenced && (Alarming(next) || Alarming(previous));
      m.(sites := m.sites[i := m.sites[i].(status := next)],
         changes := m.changes + [change],
         raised := if alerted then m.raised + [change] else m.raised,
         alerts := if alerted then Newest(m.raised + [change], ALERTS) else m.alerts)
  }

  // ---------- the steps ----------

  /** One ping result: a change is reconciled before the new result is stored and again after. */
  function PingResult(m: Monitor, i: nat, ok: bool, silenced: bool): Monitor
    requires i < |m.sites|
  {
    var id := m.sites[i].id;
    var changed := id in m.pingState && m.pingState[id] != ok;
    var m1 := if changed then Reconciled(m, i, silenced) else m;
    Reconciled(m1.(pingState := m1.pingState[id := ok]), i, silenced)
  }

  /** When each site's protocols were last seen, and how long that counts. */
  datatype Flows = Flows(lastSeen: map<(string, Protocol), int>, syslogMs: int, snmpMs: int, netflowMs: int) {
    function TimeoutMs(p: Protocol): int {
      match p
      case Syslog => syslogMs
      case Snmp => snmpMs
      case Netflow => netflowMs
    }
  }

  predicate Flowing(flows: Flows, id: string, p: Protocol, now: int) {
    var last := if (id, p) in flows.lastSeen then flows.lastSeen[(id, p)] else 0;
    now - last <= flows.TimeoutMs(p)
  }

  function SetTelemetry(m: Monitor, i: nat, p: Protocol, up: bool): Monitor
    requires i < |m.sites|
  {
    var site := m.sites[i];
    m.(sites := m.sites[i := site.(telemetry := if up then site.telemetry + {p} else site.telemetry - {p})])
  }

  function ProtocolStatus(m: Monitor, i: nat, p: Protocol, flows: Flows, now: int, silenced: bool): Monitor
    requires i < |m.sites|
  {
    var id := m.sites[i].id;
    if p !in m.sites[i].enabled then SetTelemetry(m, i, p, false)
    else
      var up := Flowing(flows, id, p, now);
      var m1 := SetTelemetry(m, i, p, up);
      var m2 := if (id, p) in m.flowState && m.flowState[(id, p)] != up then Reconciled(m1, i, silenced) else m1;
      m2.(flowState := m2.flowState[(id, p) := up])
  }

  lemma ReconciledKeepsSites(m: Monitor, i: nat, silenced: bool)
    requires i < |m.sites|
    ensures
      var n := Reconciled(m, i, silenced);
      && |n.sites| == |m.sites| && n.pingState == m.pingState && n.flowState == m.flowState
      && (forall j :: 0 <= j < |m.sites| ==> n.sites[j] == m.sites[j].(status := n.sites[j].status))
      && (forall j :: 0 <= j < |m.sites| && j != i ==> n.sites[j] == m.sites[j])
  {
    hide Normalized, DeriveSiteStatus, Newest;
  }

  /** What a protocol's check leaves: its telemetry says whether it flows, all else but the status of
      the site stays. */
  lemma ProtocolStatusSets(m: Monitor, i: nat, p: Protocol, flows: Flows, now: int, silenced: bool)
    requires i < |m.sites|
    ensures
      var n := ProtocolStatus(m, i, p, flows, now, silenced);
      && |n.sites| == |m.sites| && n.pingState == m.pingState
      && n.flowState == (if p in m.sites[i].enabled then m.flowState[(m.sites[i].id, p) := Flowing(flows, m.sites[i].id, p, now)]
                         else m.flowState)
      && n.sites[i].id == m.sites[i].id && n.sites[i].enabled == m.sites[i].enabled
      && (p in n.sites[i].telemetry <==> p in m.sites[i].enabled && Flowing(flows, m.sites[i].id, p, now))
      && (forall q :: q != p ==> (q in n.sites[i].telemetry <==> q in m.sites[i].telemetry))
      && (forall j :: 0 <= j < |m.sites| && j != i ==> n.sites[j] == m.sites[j])
  {
    ReconciledKeepsSites(SetTelemetry(m, i, p, Flowing(flows, m.sites[i].id, p, now)), i, silenced);
    hide Reconciled, Flowing;
  }

  /** The three protocols of a site, then its status. */
  function FlowStatus(m: Monitor, i: nat, flows: Flows, now: int, silenced: bool): Monitor
    requires i < |m.sites|
  {
    ProtocolStatusSets(m, i, Syslog, flows, now, silenced);
    var m1 := ProtocolStatus(m, i, Syslog, flows, now, silenced);
    ProtocolStatusSets(m1, i, Snmp, flows, now, silenced);
    var m2 := ProtocolStatus(m1, i, Snmp, flows, now, silenced);
    ProtocolStatusSets(m2, i, Netflow, flows, now, silenced);
    Reconciled(ProtocolStatus(m2, i, Netflow, flows, now, silenced), i, silenced)
  }

  /** Every site in turn, from site i on. */
  function ApplyFlowStatus(m: Monitor, i: nat, flows: Flows, now: int, silenced: bool): Monitor
    requires i <= |m.sites|
    decreases |m.sites| - i
  {
    if i == |m.sites| then m
    else
      FlowStatusSets(m, i, flows, now, silenced);
      ApplyFlowStatus(FlowStatus(m, i, flows, now, silenced), i + 1, flows, now, silenced)
  }

  /** The stored status is the one that the ping and the flows call for. */
  predicate Agrees(m: Monitor, i: nat)
    requires i < |m.sites|
  {
    Normalized(m.sites[i].status) == DeriveSiteStatus(m, m.sites[i])
  }

  lemma {:induction false} LowerStays(s: string)
    requires forall i :: 0 <= i < |s| ==> !('A' <= s[i] <= 'Z')
    ensures Lower(s) == s
  {
    if s != "" { LowerStays(s[1..]); }
  }

  lemma NormalStays(s: string)
    requires s != "" && !Space(s[0]) && !Space(s[|s| - 1]) && forall i :: 0 <= i < |s| ==> !('A' <= s[i] <= 'Z')
    ensures Normalized(s) == s
  {
    LowerStays(s);
    hide Space, Lower;
  }

  lemma StatusesAreNormalized()
    ensures Normalized("up") == "up" && Normalized("down") == "down" && Normalized("warn") == "warn"
  {
    hide Normalized;
    NormalStays("up");
    NormalStays("down");
    NormalStays("warn");
  }

  lemma ReconciledAgrees(m: Monitor, i: nat, silenced: bool)
    requires i < |m.sites|
    ensures
      var n := Reconciled(m, i, silenced);
      |n.sites| == |m.sites| && Agrees(n, i)
      && Normalized(n.sites[i].status) == DeriveSiteStatus(m, m.sites[i])
  {
    StatusesAreNormalized();
    hide Normalized, Newest;
  }

  /** The telemetry of a site says exactly which configured protocols flow. */
  predicate TelemetryIs(site: Site, flows: Flows, now: int) {
    forall p: Protocol :: p in site.telemetry <==> p in site.enabled && Flowing(flows, site.id, p, now)
  }

  lemma FlowStatusSets(m: Monitor, i: nat, flows: Flows, now: int, silenced: bool)
    requires i < |m.sites|
    ensures
      var n := FlowStatus(m, i, flows, now, silenced);
      && |n.sites| == |m.sites| && n.pingState == m.pingState
      && Agrees(n, i) && TelemetryIs(n.sites[i], flows, now)
      && (forall j :: 0 <= j < |m.sites| && j != i ==> n.sites[j] == m.sites[j])
      && n.sites[i].id == m.sites[i].id && n.sites[i].enabled == m.sites[i].enabled
  {
    ProtocolStatusSets(m, i, Syslog, flows, now, silenced);
    var m1 := ProtocolStatus(m, i, Syslog, flows, now, silenced);
    ProtocolStatusSets(m1, i, Snmp, flows, now, silenced);
    var m2 := ProtocolStatus(m1, i, Snmp, flows, now, silenced);
    ProtocolStatusSets(m2, i, Netflow, flows, now, silenced);
    var m3 := ProtocolStatus(m2, i, Netflow, flows, now, silenced);
    ReconciledKeepsSites(m3, i, silenced);
    ReconciledAgrees(m3, i, silenced);
    hide ProtocolStatus, Reconciled, Flowing, Agrees;
    assert TelemetryIs(m3.sites[i], flows, now) by {
      forall p: Protocol ensures p in m3.sites[i].telemetry <==> p in m.sites[i].enabled && Flowing(flows, m.sites[i].id, p, now) {
        assert p == Syslog || p == Snmp || p == Netflow;
      }
    }
  }

  /** After applyFlowStatus every site's telemetry says which of its protocols flow, and its stored
      status is the derived one. */
  lemma {:induction false} FlowStatusAgrees(m: Monitor, i: nat, flows: Flows, now: int, silenced: bool, j: nat)
    requires i <= |m.sites| && j < |m.sites|
    requires j < i ==> Agrees(m, j) && TelemetryIs(m.sites[j], flows, now)
    ensures
      var n := ApplyFlowStatus(m, i, flows, now, silenced);
      |n.sites| == |m.sites| && Agrees(n, j) && TelemetryIs(n.sites[j], flows, now)
    decreases |m.sites| - i
  {
    hide FlowStatus, TelemetryIs, Normalized;
    if i < |m.sites| {
      FlowStatusSets(m, i, flows, now, silenced);
      FlowStatusAgrees(FlowStatus(m, i, flows, now, silenced), i + 1, flows, now, silenced, j);
    }
  }

  /** After a ping result the site's stored status is the derived one. */
  lemma PingAgrees(m: Monitor, i: nat, ok: bool, silenced: bool)
    requires i < |m.sites|
    ensures
      var n := PingResult(m, i, ok, silenced);
      && |n.sites| == |m.sites| && Agrees(n, i) && n.pingState == m.pingState[m.sites[i].id := ok]
      && n.sites[i].telemetry == m.sites[i].telemetry
  {
    ReconciledKeepsSites(m, i, silenced);
    var id := m.sites[i].id;
    var changed := id in m.pingState && m.pingState[id] != ok;
    var m1 := if changed then Reconciled(m, i, silenced) else m;
    var m2 := m1.(pingState := m1.pingState[id := ok]);
    ReconciledAgrees(m2, i, silenced);
    ReconciledKeepsSites(m2, i, silenced);
    hide Reconciled, Agrees;
  }

  // ---------- the history of changes ----------

  /** The status of a site after its recorded changes. */
  function StatusAfter(changes: seq<Change>, i: nat, start: string): string {
    if changes == [] then start
    else if changes[|changes| - 1].site == i then changes[|changes| - 1].next
    else StatusAfter(changes[..|changes| - 1], i, start)
  }

  lemma OneMoreChange(changes: seq<Change>, c: Change, i: nat, start: string)
    ensures StatusAfter(changes + [c], i, start) == if c.site == i then c.next else StatusAfter(changes, i, start)
  {
    assert (changes + [c])[..|changes|] == changes;
  }

  /** Each record of a site starts at the status where the record before it ended, and changes it. */
  ghost predicate Chain(changes: seq<Change>, starts: seq<string>) {
    forall k :: 0 <= k < |changes| ==>
      && changes[k].site < |starts|
      && changes[k].previous == StatusAfter(changes[..k], changes[k].site, starts[changes[k].site])
      && changes[k].previous != changes[k].next
      && changes[k].next in ["up", "down", "warn"]
  }

  /** Into or out of down or warn, while alerting is not silenced. */
  predicate CallsForAlert(c: Change) {
    !c.silenced && (c.previous == "down" || c.previous == "warn" || c.next == "down" || c.next == "warn")
  }

  /** The changes that call for an alert. */
  function Alerting(changes: seq<Change>): seq<Change> {
    if changes == [] then []
    else
      var c := changes[|changes| - 1];
      Alerting(changes[..|changes| - 1]) + if CallsForAlert(c) then [c] else []
  }

  lemma OneMoreAlert(changes: seq<Change>, c: Change)
    ensures Alerting(changes + [c])
         == Alerting(changes) + if CallsForAlert(c) then [c] else []
  {
    assert (changes + [c])[..|changes|] == changes;
  }

  /** The changes recorded so far lead from the first statuses to the stored ones; the alerts are the
      newest hundred of those that called for one. */
  ghost predicate Inv(m: Monitor, starts: seq<string>) {
    && |starts| == |m.sites|
    && Chain(m.changes, starts)
    && (forall i :: 0 <= i < |m.sites| ==> Normalized(m.sites[i].status) == StatusAfter(m.changes, i, starts[i]))
    && m.raised == Alerting(m.changes) && m.alerts == Newest(m.raised, ALERTS)
  }

  lemma ChainGrows(changes: seq<Change>, starts: seq<string>, c: Change)
    requires Chain(changes, starts) && c.site < |starts|
    requires c.previous == StatusAfter(changes, c.site, starts[c.site]) && c.previous != c.next
    requires c.next in ["up", "down", "warn"]
    ensures Chain(changes + [c], starts)
  {
    hide StatusAfter;
    forall k | 0 <= k < |changes| + 1 ensures (changes + [c])[..k] == changes[..k] { }
    assert changes[..|changes|] == changes;
  }

  lemma AlarmIff(c: Change)
    ensures CallsForAlert(c) <==> !c.silenced && (Alarming(c.next) || Alarming(c.previous))
  {
  }

  lemma ReconciledKeepsInv(m: Monitor, i: nat, silenced: bool, starts: seq<string>)
    requires Inv(m, starts) && i < |m.sites|
    ensures Inv(Reconciled(m, i, silenced), starts)
  {
    var n := Reconciled(m, i, silenced);
    var previous, next := Normalized(m.sites[i].status), DeriveSiteStatus(m, m.sites[i]);
    ReconciledAgrees(m, i, silenced);
    ReconciledKeepsSites(m, i, silenced);
    AlarmIff(Change(i, previous, next, silenced));
    hide Normalized, Newest, StatusAfter, Chain, Alerting, Alarming, CallsForAlert;
    if previous != next {
      ChainGrows(m.changes, starts, Change(i, previous, next, silenced));
      OneMoreAlert(m.changes, Change(i, previous, next, silenced));
      forall j | 0 <= j < |m.sites| ensures Normalized(n.sites[j].status) == StatusAfter(n.changes, j, starts[j]) {
        OneMoreChange(m.changes, Change(i, previous, next, silenced), j, starts[j]);
      }
    }
  }

  lemma SameStatusesKeepInv(m: Monitor, n: Monitor, starts: seq<string>)
    requires Inv(m, starts) && |n.sites| == |m.sites|
    requires n.changes == m.changes && n.raised == m.raised && n.alerts == m.alerts
    requires forall i :: 0 <= i < |m.sites| ==> n.sites[i].status == m.sites[i].status
    ensures Inv(n, starts)
  {
    hide Chain, StatusAfter, Normalized, Newest, Alerting;
  }

  lemma PingKeepsInv(m: Monitor, i: nat, ok: bool, silenced: bool, starts: seq<string>)
    requires Inv(m, starts) && i < |m.sites|
    ensures Inv(PingResult(m, i, ok, silenced), starts)
  {
    ReconciledKeepsSites(m, i, silenced);
    ReconciledKeepsInv(m, i, silenced, starts);
    hide Reconciled, Inv;
    var id := m.sites[i].id;
    var changed := id in m.pingState && m.pingState[id] != ok;
    var m1 := if changed then Reconciled(m, i, silenced) else m;
    var m2 := m1.(pingState := m1.pingState[id := ok]);
    SameStatusesKeepInv(m1, m2, starts);
    ReconciledKeepsInv(m2, i, silenced, starts);
  }

  lemma ProtocolKeepsInv(m: Monitor, i: nat, p: Protocol, flows: Flows, now: int, silenced: bool, starts: seq<string>)
    requires Inv(m, starts) && i < |m.sites|
    ensures Inv(ProtocolStatus(m, i, p, flows, now, silenced), starts)
  {
    hide Reconciled, Inv, Flowing;
    var id := m.sites[i].id;
    var up := p in m.sites[i].enabled && Flowing(flows, id, p, now);
    var m1 := SetTelemetry(m, i, p, up);
    SameStatusesKeepInv(m, m1, starts);
    ReconciledKeepsSites(m1, i, silenced);
    ReconciledKeepsInv(m1, i, silenced, starts);
    var m2 := if (id, p) in m.flowState && m.flowState[(id, p)] != up then Reconciled(m1, i, silenced) else m1;
    SameStatusesKeepInv(m2, m2.(flowState := m2.flowState[(id, p) := up]), starts);
  }

  lemma {:induction false} FlowStatusKeepsInv(m: Monitor, i: nat, flows: Flows, now: int, silenced: bool, starts: seq<string>)
    requires Inv(m, starts) && i <= |m.sites|
    ensures Inv(ApplyFlowStatus(m, i, flows, now, silenced), starts)
    decreases |m.sites| - i
  {
    hide ProtocolStatus, Reconciled, Inv;
    if i < |m.sites| {
      ProtocolStatusSets(m, i, Syslog, flows, now, silenced);
      ProtocolKeepsInv(m, i, Syslog, flows, now, silenced, starts);
      var m1 := ProtocolStatus(m, i, Syslog, flows, now, silenced);
      ProtocolStatusSets(m1, i, Snmp, flows, now, silenced);
      ProtocolKeepsInv(m1, i, Snmp, flows, now, silenced, starts);
      var m2 := ProtocolStatus(m1, i, Snmp, flows, now, silenced);
      ProtocolStatusSets(m2, i, Netflow, flows, now, silenced);
      ProtocolKeepsInv(m2, i, Netflow, flows, now, silenced, starts);
      ReconciledKeepsInv(ProtocolStatus(m2, i, Netflow, flows, now, silenced), i, silenced, starts);
      FlowStatusSets(m, i, flows, now, silenced);
      FlowStatusKeepsInv(FlowStatus(m, i, flows, now, silenced), i + 1, flows, now, silenced, starts);
    }
  }

  // ---------- whole runs ----------

  datatype Step = Ping(i: nat, ok: bool, silenced: bool) | Flow(flows: Flows, now: int, silenced: bool)

  function Apply(m: Monitor, step: Step): (n: Monitor)
    ensures |n.sites| == |m.sites|
  {
    match step
    case Ping(i, ok, silenced) =>
      if i < |m.sites| then
        PingAgrees(m, i, ok, silenced);
        PingResult(m, i, ok, silenced)
      else m
    case Flow(flows, now, silenced) =>
      FlowKeepsLength(m, 0, flows, now, silenced);
      ApplyFlowStatus(m, 0, flows, now, silenced)
  }

  lemma FlowKeepsLength(m: Monitor, i: nat, flows: Flows, now: int, silenced: bool)
    requires i <= |m.sites|
    ensures |ApplyFlowStatus(m, i, flows, now, silenced).sites| == |m.sites|
    decreases |m.sites| - i
  {
    if i < |m.sites| {
      FlowStatusSets(m, i, flows, now, silenced);
      hide FlowStatus;
      FlowKeepsLength(FlowStatus(m, i, flows, now, silenced), i + 1, flows, now, silenced);
    }
  }

  function Run(m: Monitor, steps: seq<Step>): (n: Monitor)
    ensures |n.sites| == |m.sites|
    decreases |steps|
  {
    if steps == [] then m else Run(Apply(m, steps[0]), steps[1..])
  }

  lemma {:induction false} RunKeepsInv(m: Monitor, steps: seq<Step>, starts: seq<string>)
    requires Inv(m, starts)
    ensures Inv(Run(m, steps), starts)
    decreases |steps|
  {
    hide PingResult, ApplyFlowStatus, Inv;
    if steps != [] {
      match steps[0] {
        case Ping(i, ok, silenced) =>
          if i < |m.sites| { PingKeepsInv(m, i, ok, silenced, starts); }
        case Flow(flows, now, silenced) =>
          SitesMatch(m, starts);
          FlowStatusKeepsInv(m, 0, flows, now, silenced, starts);
      }
      RunKeepsInv(Apply(m, steps[0]), steps[1..], starts);
    }
  }

  lemma SitesMatch(m: Monitor, starts: seq<string>)
    requires Inv(m, starts)
    ensures |starts| == |m.sites|
  {
  }

  function Starts(sites: seq<Site>): seq<string> {
    seq(|sites|, i requires 0 <= i < |sites| => Normalized(sites[i].status))
  }

  /** In every run of ping results and flow checks, silenced or not, the change records of each site
      form a chain without self-transitions from its first status to the stored one, and the alert
      list is the newest hundred changes that called for an alert. */
  lemma HistoryIsChain(m: Monitor, steps: seq<Step>)
    requires m.changes == [] && m.raised == [] && m.alerts == []
    ensures
      var n := Run(m, steps);
      && Chain(n.changes, Starts(m.sites))
      && (forall i :: 0 <= i < |n.sites| ==> Normalized(n.sites[i].status) == StatusAfter(n.changes, i, Starts(m.sites)[i]))
      && n.alerts == Newest(Alerting(n.changes), 100)
  {
    assert Inv(m, Starts(m.sites));
    RunKeepsInv(m, steps, Starts(m.sites));
    hide Run, Chain, StatusAfter, Normalized, Alerting;
  }

  /** The two records that follow one another for a site: the later starts where the earlier ended. */
  lemma {:induction false} RecordsLink(changes: seq<Change>, starts: seq<string>, a: nat, b: nat)
    requires Chain(changes, starts) && a < b < |changes| && changes[a].site == changes[b].site
    requires forall k :: a < k < b ==> changes[k].site != changes[a].site
    ensures changes[b].previous == changes[a].next
  {
    SkipOthers(changes[..b], a, starts[changes[b].site]);
  }

  lemma {:induction false} SkipOthers(changes: seq<Change>, a: nat, start: string)
    requires a < |changes| && forall k :: a < k < |changes| ==> changes[k].site != changes[a].site
    ensures StatusAfter(changes, changes[a].site, start) == changes[a].next
    decreases |changes|
  {
    if a < |changes| - 1 { SkipOthers(changes[..|changes| - 1], a, start); }
  }

  // ---------- the monitor as the server keeps it ----------

  class StatusMonitor {
    var sites: seq<Site>
    var pingState: map<string, bool>
    var flowState: map<(string, Protocol), bool>
    var alerts: seq<Change>
    var alertSilenceUntilMs: int
    ghost var changes: seq<Change>
    ghost var raised: seq<Change>

    ghost function State(): Monitor
      reads this
    {
      Monitor(sites, pingState, flowState, alerts, changes, raised)
    }

    ghost predicate Valid()
      reads this
    {
      alerts == Newest(raised, ALERTS)
    }

    constructor (sites: seq<Site>)
      ensures Valid() && State() == Monitor(sites, map[], map[], [], [], [])
    {
      this.sites, pingState, flowState, alerts, alertSilenceUntilMs := sites, map[], map[], [], 0;
      changes, raised := [], [];
    }

    /** isAlertingSilenced (lib/notifications.js:248-297): an expired silence is cleared. */
    method IsAlertingSilenced(now: int) returns (active: bool)
      requires now >= 0
      modifies this`alertSilenceUntilMs
      ensures active == (old(alertSilenceUntilMs) > now) == (alertSilenceUntilMs > now)
      ensures alertSilenceUntilMs == if active then old(alertSilenceUntilMs) else 0
    {
      active := alertSilenceUntilMs > now;
      if !active { alertSilenceUntilMs := 0; }
    }

    /** deriveSiteStatus (lib/monitoring.js:714-725). */
    method DeriveStatus(site: Site) returns (status: string)
      ensures status == DeriveSiteStatus(State(), site)
    {
      if site.id !in pingState { return Normalized(site.status); }
      if !pingState[site.id] { return "down"; }
      var configured := site.enabled;
      if configured == {} { return "up"; }
      var flowing := set p | p in configured && p in site.telemetry;
      assert flowing <= configured;
      return if flowing == configured then "up" else "warn";
    }

    /** reconcileSiteStatus (lib/notifications.js:563-605). */
    method Reconcile(i: nat, now: int)
      requires Valid() && i < |sites| && now >= 0
      modifies this
      ensures Valid() && |sites| == |old(sites)|
      ensures State() == Reconciled(old(State()), i, old(alertSilenceUntilMs) > now)
      ensures (alertSilenceUntilMs > now) == (old(alertSilenceUntilMs) > now)
    {
      hide Normalized, DeriveSiteStatus;
      var previousStatus := Normalized(sites[i].status);
      var site := sites[i];
      var nextStatus := DeriveStatus(site);
      if previousStatus == nextStatus { return; }
      sites := sites[i := site.(status := nextStatus)];
      var silenced := IsAlertingSilenced(now);
      ghost var change := Change(i, previousStatus, nextStatus, silenced);
      changes := changes + [change];
      if !silenced && (Alarming(nextStatus) || Alarming(previousStatus)) {
        PushKeepsNewest(raised, ALERTS, change);
        alerts := [Change(i, previousStatus, nextStatus, false)] + alerts;
        if |alerts| > ALERTS { alerts := alerts[..ALERTS]; }
        raised := raised + [change];
      }
    }

    /** One ping result (lib/monitoring.js:1659-1682). */
    method OnPing(i: nat, ok: bool, now: int)
      requires Valid() && i < |sites| && now >= 0
      modifies this
      ensures Valid() && State() == PingResult(old(State()), i, ok, old(alertSilenceUntilMs) > now)
    {
      hide Reconciled, Newest;
      var id := sites[i].id;
      if id in pingState && pingState[id] != ok { Reconcile(i, now); }
      pingState := pingState[id := ok];
      Reconcile(i, now);
    }

    /** The check of one protocol of one site (lib/sites.js:637-666). */
    method CheckProtocol(i: nat, p: Protocol, flows: Flows, now: int)
      requires Valid() && i < |sites| && now >= 0
      modifies this
      ensures Valid() && |sites| == |old(sites)|
      ensures State() == ProtocolStatus(old(State()), i, p, flows, now, old(alertSilenceUntilMs) > now)
      ensures (alertSilenceUntilMs > now) == (old(alertSilenceUntilMs) > now)
    {
      hide Reconciled, Newest;
      var site := sites[i];
      if p !in site.enabled {
        sites := sites[i := site.(telemetry := site.telemetry - {p})];
        return;
      }
      var last := if (site.id, p) in flows.lastSeen then flows.lastSeen[(site.id, p)] else 0;
      var isUp := now - last <= flows.TimeoutMs(p);
      sites := sites[i := site.(telemetry := if isUp then site.telemetry + {p} else site.telemetry - {p})];
      if (site.id, p) in flowState && flowState[(site.id, p)] != isUp { Reconcile(i, now); }
      flowState := flowState[(site.id, p) := isUp];
    }

    /** applyFlowStatus (lib/sites.js:631-669). */
    method ApplyFlows(flows: Flows, now: int)
      requires Valid() && now >= 0
      modifies this
      ensures Valid() && State() == ApplyFlowStatus(old(State()), 0, flows, now, old(alertSilenceUntilMs) > now)
    {
      hide ProtocolStatus, Reconciled, Newest;
      ghost var silenced := alertSilenceUntilMs > now;
      var i := 0;
      while i < |sites|
        invariant i <= |sites| && Valid() && (alertSilenceUntilMs > now) == silenced
        invariant ApplyFlowStatus(State(), i, flows, now, silenced) == ApplyFlowStatus(old(State()), 0, flows, now, silenced)
        decreases |sites| - i
      {
        ghost var m := State();
        ghost var count := |sites|;
        CheckProtocol(i, Syslog, flows, now);
        CheckProtocol(i, Snmp, flows, now);
        CheckProtocol(i, Netflow, flows, now);
        Reconcile(i, now);
        assert State() == FlowStatus(m, i, flows, now, silenced);
        i := i + 1;
      }
    }
  }
}
