/** The windowed traffic store behind the top talkers of a site (lib/monitoring.js:95-135, 1228-1240,
    server.js:1040-1051).

    Two loops prune the store, at every refresh and once a minute. What is shown is nevertheless what
    the full, never pruned history says about the window.
 */
module TopTalkers {
  import opened Shared

  // CAJAL_NETFLOW_TOP_WINDOW_MS (1800000 unless set), lib/constants.js:170.
  const NETFLOW_TOP_WINDOW_MS: Duration

  datatype Sample = Sample(ts: int, upBytes: nat, downBytes: nat)

  /** The samples of every address, oldest first. */
  type Talkers = map<string, seq<Sample>>

  datatype FlowRecord = FlowRecord(srcAddr: string, dstAddr: string, bytes: int)
  datatype Talker = Talker(ip: string, upMbps: real, downMbps: real, mbps: real, totalMb: real)

  // ---------- the window ----------

  function Recent(series: seq<Sample>, now: int): seq<Sample> {
    if series == [] then []
    else
      var n := |series| - 1;
      Recent(series[..n], now) + if series[n].ts >= now - NETFLOW_TOP_WINDOW_MS then [series[n]] else []
  }

  function At(m: Talkers, ip: string): seq<Sample> {
    if ip in m then m[ip] else []
  }

  /** The store restricted to the window that ends at `now`. */
  function InWindow(m: Talkers, now: int): Talkers {
    map ip | ip in m && Recent(m[ip], now) != [] :: Recent(m[ip], now)
  }

  function Push(m: Talkers, ip: string, s: Sample): Talkers {
    m[ip := At(m, ip) + [s]]
  }

  function Account(m: Talkers, r: FlowRecord, now: int): Talkers {
    if r.bytes <= 0 then m
    else Push(Push(m, r.srcAddr, Sample(now, r.bytes, 0)), r.dstAddr, Sample(now, 0, r.bytes))
  }

  function AccountAll(m: Talkers, records: seq<FlowRecord>, now: int): Talkers {
    if records == [] then m
    else Account(AccountAll(m, records[..|records| - 1], now), records[|records| - 1], now)
  }

  // ---------- rates ----------

  function SumUp(series: seq<Sample>): nat {
    if series == [] then 0 else SumUp(series[..|series| - 1]) + series[|series| - 1].upBytes
  }

  function SumDown(series: seq<Sample>): nat {
    if series == [] then 0 else SumDown(series[..|series| - 1]) + series[|series| - 1].downBytes
  }

  function Oldest(series: seq<Sample>, start: int): int {
    if series == [] then start else Min(Oldest(series[..|series| - 1], start), series[|series| - 1].ts)
  }

  function Newest(series: seq<Sample>, start: int): int {
    if series == [] then start else Max(Newest(series[..|series| - 1], start), series[|series| - 1].ts)
  }

  function EffectiveWindowMs(series: seq<Sample>, now: int): (ms: int)
    ensures ms >= 60000
  {
    var oldest := Oldest(series, now);
    var observed := Max(1000, Newest(series, oldest) - oldest);
    Max(60 * 1000, Min(NETFLOW_TOP_WINDOW_MS, observed))
  }

  function Mbps(bytes: nat, ms: int): real
    requires ms > 0
  {
    (bytes * 8) as real / (ms as real / 1000.0) / 1000000.0
  }

  /** toFixed(6) and toFixed(2): the nearest multiple, the larger of two. */
  function ToFixed6(x: real): real { (x * 1000000.0 + 0.5).Floor as real / 1000000.0 }

  function ToFixed2(x: real): real { (x * 100.0 + 0.5).Floor as real / 100.0 }

  function TalkerOf(ip: string, series: seq<Sample>, now: int): Talker {
    var ms := EffectiveWindowMs(series, now);
    var up, down := SumUp(series), SumDown(series);
    Talker(ip, ToFixed6(Mbps(up, ms)), ToFixed6(Mbps(down, ms)), ToFixed6(Mbps(up + down, ms)),
           ToFixed2(((up + down) * 8) as real / 1000000.0))
  }

  // ---------- rankings ----------

  predicate Descending(ranked: seq<Talker>) {
    forall i, j :: 0 <= i < j < |ranked| ==> ranked[i].mbps >= ranked[j].mbps
  }

  predicate DistinctIps(ranked: seq<Talker>) {
    forall i, j :: 0 <= i < j < |ranked| ==> ranked[i].ip != ranked[j].ip
  }

  function Ips(ranked: seq<Talker>): set<string> {
    set t | t in ranked :: t.ip
  }

  /** One talker per address of the store. */
  predicate Lists(ranked: seq<Talker>, m: Talkers, now: int) {
    && Ips(ranked) == m.Keys && |ranked| == |m|
    && (forall t :: t in ranked ==> t.ip in m && t == TalkerOf(t.ip, m[t.ip], now))
  }

  /** Every address of the store once, by falling rate; ties may stand in any order, since the order
      in which the map yields them depends on its past. */
  predicate IsRanking(ranked: seq<Talker>, m: Talkers, now: int) {
    Lists(ranked, m, now) && Descending(ranked)
  }

  predicate IsTop(top: seq<Talker>, m: Talkers, now: int, ranked: seq<Talker>) {
    IsRanking(ranked, m, now) && top == ranked[..if |ranked| < 3 then |ranked| else 3]
  }

  lemma IpsPush(head: seq<Talker>, t: Talker)
    ensures Ips(head + [t]) == Ips(head) + {t.ip}
    ensures DistinctIps(head + [t]) <==> DistinctIps(head) && t.ip !in Ips(head)
  {
    var ranked := head + [t];
    forall i | 0 <= i < |head| ensures head[i].ip in Ips(head) { assert head[i] in head; }
    if t.ip in Ips(head) {
      var i :| 0 <= i < |head| && head[i].ip == t.ip;
      assert ranked[i].ip == ranked[|head|].ip;
    }
    if DistinctIps(ranked) {
      forall i, j | 0 <= i < j < |head| ensures head[i].ip != head[j].ip { assert ranked[i].ip != ranked[j].ip; }
    }
  }

  lemma {:induction false} IpsCount(ranked: seq<Talker>)
    ensures |Ips(ranked)| <= |ranked|
    ensures |Ips(ranked)| == |ranked| <==> DistinctIps(ranked)
    decreases |ranked|
  {
    if ranked != [] {
      var n := |ranked| - 1;
      IpsCount(ranked[..n]);
      IpsPush(ranked[..n], ranked[n]);
      assert ranked == ranked[..n] + [ranked[n]];
      hide Ips, DistinctIps;
      if ranked[n].ip in Ips(ranked[..n]) { assert Ips(ranked) == Ips(ranked[..n]); }
    }
  }

  lemma SmallerSet(a: set<string>, b: set<string>)
    requires a <= b
    ensures |a| <= |b|
  {
    assert b == a + (b - a);
  }

  /** A talker whose rate is above that of place i of a ranking stands before place i in it. */
  lemma StandsBefore(t: Talker, b: seq<Talker>, m: Talkers, now: int, i: nat)
    requires Lists(b, m, now) && Descending(b) && i < |b| && t.ip in m && t == TalkerOf(t.ip, m[t.ip], now)
    requires t.mbps > b[i].mbps
    ensures t.ip in Ips(b[..i])
  {
    hide TalkerOf;
    assert t.ip in Ips(b);
    var y :| 0 <= y < |b| && b[y].ip == t.ip;
    assert b[y] in b && t == b[y];
    assert b[..i][y] in b[..i];
  }

  /** What stands at or before place i in one ranking stands before it in another one whose rate at
      that place is lower. */
  lemma HigherStandsBefore(a: seq<Talker>, b: seq<Talker>, m: Talkers, now: int, i: nat)
    requires Lists(a, m, now) && Lists(b, m, now) && Descending(a) && Descending(b) && i < |a| && i < |b|
    requires a[i].mbps > b[i].mbps
    ensures Ips(a[..i + 1]) <= Ips(b[..i])
  {
    hide TalkerOf;
    forall t | t in a[..i + 1] ensures t.ip in Ips(b[..i]) {
      var x :| 0 <= x < i + 1 && a[..i + 1][x] == t;
      assert a[x] in a && a[x] == t;
      StandsBefore(t, b, m, now, i);
    }
  }

  lemma RateAtMost(a: seq<Talker>, b: seq<Talker>, m: Talkers, now: int, i: nat)
    requires IsRanking(a, m, now) && IsRanking(b, m, now) && i < |a|
    ensures a[i].mbps <= b[i].mbps
  {
    hide TalkerOf;
    if a[i].mbps > b[i].mbps {
      IpsCount(a);
      IpsCount(b);
      hide Ips;
      IpsCount(a[..i + 1]);
      IpsCount(b[..i]);
      HigherStandsBefore(a, b, m, now, i);
      SmallerSet(Ips(a[..i + 1]), Ips(b[..i]));
    }
  }

  /** Two rankings of one store differ at most in the order of ties. */
  lemma RankingsAgree(a: seq<Talker>, b: seq<Talker>, m: Talkers, now: int)
    requires IsRanking(a, m, now) && IsRanking(b, m, now)
    ensures |a| == |b| && forall i :: 0 <= i < |a| ==> a[i].mbps == b[i].mbps
  {
    forall i | 0 <= i < |a| ensures a[i].mbps == b[i].mbps {
      RateAtMost(a, b, m, now, i);
      RateAtMost(b, a, m, now, i);
    }
  }

  // ---------- pruning loses nothing the window needs ----------

  lemma {:induction false} RecentTwice(series: seq<Sample>, t: int, now: int)
    requires t <= now
    ensures Recent(Recent(series, t), now) == Recent(series, now)
  {
    if series != [] {
      var n := |series| - 1;
      RecentTwice(series[..n], t, now);
      var before := Recent(series[..n], t);
      if series[n].ts >= t - NETFLOW_TOP_WINDOW_MS {
        assert (before + [series[n]])[..|before|] == before;
      } else {
        assert before + [] == before;
      }
    }
  }

  lemma RecentPush(series: seq<Sample>, s: Sample, now: int)
    ensures Recent(series + [s], now)
         == Recent(series, now) + if s.ts >= now - NETFLOW_TOP_WINDOW_MS then [s] else []
  {
    assert (series + [s])[..|series|] == series;
  }

  /** From time t on, the two stores show the same samples in the window. */
  ghost predicate SameWindow(a: Talkers, b: Talkers, t: int) {
    forall ip, now :: t <= now ==> Recent(At(a, ip), now) == Recent(At(b, ip), now)
  }

  lemma PruneKeepsWindow(a: Talkers, b: Talkers, t: int, now: int)
    requires SameWindow(a, b, t) && t <= now
    ensures SameWindow(InWindow(a, now), b, now)
  {
    hide Recent;
    forall ip, u | now <= u ensures Recent(At(InWindow(a, now), ip), u) == Recent(At(b, ip), u) {
      RecentTwice(At(a, ip), now, u);
      RecentOfNothing(u);
      if ip in a && Recent(a[ip], now) == [] { assert Recent(Recent(a[ip], now), u) == []; }
    }
  }

  lemma RecentOfNothing(now: int)
    ensures Recent([], now) == []
  {
  }

  lemma PushKeepsWindow(a: Talkers, b: Talkers, t: int, ip: string, s: Sample)
    requires SameWindow(a, b, t)
    ensures SameWindow(Push(a, ip, s), Push(b, ip, s), t)
  {
    hide Recent;
    forall x, now | t <= now ensures Recent(At(Push(a, ip, s), x), now) == Recent(At(Push(b, ip, s), x), now) {
      assert Recent(At(a, x), now) == Recent(At(b, x), now);
      RecentPush(At(a, x), s, now);
      RecentPush(At(b, x), s, now);
    }
  }

  lemma {:induction false} AccountKeepsWindow(a: Talkers, b: Talkers, t: int, records: seq<FlowRecord>, now: int)
    requires SameWindow(a, b, t)
    ensures SameWindow(AccountAll(a, records, now), AccountAll(b, records, now), t)
  {
    hide SameWindow, Push;
    if records != [] {
      var n := |records| - 1;
      var r := records[n];
      AccountKeepsWindow(a, b, t, records[..n], now);
      var a', b' := AccountAll(a, records[..n], now), AccountAll(b, records[..n], now);
      if r.bytes > 0 {
        PushKeepsWindow(a', b', t, r.srcAddr, Sample(now, r.bytes, 0));
        PushKeepsWindow(Push(a', r.srcAddr, Sample(now, r.bytes, 0)), Push(b', r.srcAddr, Sample(now, r.bytes, 0)), t,
                        r.dstAddr, Sample(now, 0, r.bytes));
      }
    }
  }

  /** Stores that show the same samples are the same store once restricted to the window. */
  lemma SameWindowSameStore(a: Talkers, b: Talkers, t: int, now: int)
    requires SameWindow(a, b, t) && t <= now
    ensures InWindow(a, now) == InWindow(b, now)
  {
    hide Recent;
    RecentOfNothing(now);
    var x, y := InWindow(a, now), InWindow(b, now);
    forall ip ensures (ip in x <==> ip in y) && (ip in x ==> x[ip] == y[ip]) {
      assert Recent(At(a, ip), now) == Recent(At(b, ip), now);
    }
  }

  // ---------- runs ----------

  datatype Step =
    | Ingest(records: seq<FlowRecord>, now: int)
    | Refresh(now: int)
    | MinutePrune(now: int)

  function Apply(m: Talkers, step: Step): Talkers {
    match step
    case Ingest(records, now) => InWindow(AccountAll(m, records, now), now)
    case Refresh(now) => InWindow(m, now)
    case MinutePrune(now) => InWindow(m, now)
  }

  /** The history only grows. */
  function Remember(m: Talkers, step: Step): Talkers {
    if step.Ingest? then AccountAll(m, step.records, step.now) else m
  }

  predicate Monotone(t: int, steps: seq<Step>)
    decreases |steps|
  {
    steps == [] || (t <= steps[0].now && Monotone(steps[0].now, steps[1..]))
  }

  function Run(m: Talkers, steps: seq<Step>): Talkers
    decreases |steps|
  {
    if steps == [] then m else Run(Apply(m, steps[0]), steps[1..])
  }

  function History(m: Talkers, steps: seq<Step>): Talkers
    decreases |steps|
  {
    if steps == [] then m else History(Remember(m, steps[0]), steps[1..])
  }

  function LastTime(t: int, steps: seq<Step>): int
    decreases |steps|
  {
    if steps == [] then t else LastTime(steps[0].now, steps[1..])
  }

  lemma StepKeepsWindow(a: Talkers, b: Talkers, t: int, step: Step)
    requires SameWindow(a, b, t) && t <= step.now
    ensures SameWindow(Apply(a, step), Remember(b, step), step.now)
  {
    hide SameWindow, InWindow;
    match step
    case Ingest(records, now) =>
      AccountKeepsWindow(a, b, t, records, now);
      PruneKeepsWindow(AccountAll(a, records, now), AccountAll(b, records, now), t, now);
    case Refresh(now) => PruneKeepsWindow(a, b, t, now);
    case MinutePrune(now) => PruneKeepsWindow(a, b, t, now);
  }

  lemma {:induction false} RunKeepsWindow(a: Talkers, b: Talkers, t: int, steps: seq<Step>)
    requires SameWindow(a, b, t) && Monotone(t, steps)
    ensures SameWindow(Run(a, steps), History(b, steps), LastTime(t, steps))
    decreases |steps|
  {
    hide SameWindow, Apply, Remember;
    if steps != [] {
      StepKeepsWindow(a, b, t, steps[0]);
      RunKeepsWindow(Apply(a, steps[0]), Remember(b, steps[0]), steps[0].now, steps[1..]);
    }
  }

  /** However ingest, refresh and the minute timer interleave, what the pruned store says about the
      window at any later time is what the full history says: the same addresses with the same samples.
      A ranking of either has the same rates at every place. */
  lemma PrunedStoreRefinesHistory(steps: seq<Step>, t: int, now: int, pruned: seq<Talker>, full: seq<Talker>)
    requires Monotone(t, steps) && LastTime(t, steps) <= now
    ensures InWindow(Run(map[], steps), now) == InWindow(History(map[], steps), now)
    ensures IsRanking(pruned, InWindow(Run(map[], steps), now), now) && IsRanking(full, InWindow(History(map[], steps), now), now) ==>
              |pruned| == |full| && forall i :: 0 <= i < |full| ==> pruned[i].mbps == full[i].mbps
  {
    hide Run, History, IsRanking, InWindow, Recent;
    RunKeepsWindow(map[], map[], t, steps);
    SameWindowSameStore(Run(map[], steps), History(map[], steps), LastTime(t, steps), now);
    var m := InWindow(History(map[], steps), now);
    if IsRanking(pruned, m, now) && IsRanking(full, m, now) { RankingsAgree(pruned, full, m, now); }
  }

  // ---------- the code ----------

  lemma RecentStep(series: seq<Sample>, k: nat, now: int)
    requires k < |series|
    ensures Recent(series[..k + 1], now)
         == Recent(series[..k], now) + if series[k].ts >= now - NETFLOW_TOP_WINDOW_MS then [series[k]] else []
  {
    assert series[..k + 1] == series[..k] + [series[k]];
    RecentPush(series[..k], series[k], now);
  }

  /** series.filter((s) => s.ts >= cutoff). */
  method Filter(series: seq<Sample>, now: int) returns (recent: seq<Sample>)
    ensures recent == Recent(series, now)
  {
    recent := [];
    for k := 0 to |series|
      invariant recent == Recent(series[..k], now)
    {
      RecentStep(series, k, now);
      if series[k].ts >= now - NETFLOW_TOP_WINDOW_MS { recent := recent + [series[k]]; }
    }
    assert series[..|series|] == series;
  }

  /** The four reductions of refreshNetflowTopTalkers (lib/monitoring.js:106-116). */
  method Measure(recent: seq<Sample>, now: int) returns (up: nat, down: nat, oldest: int, newest: int)
    ensures up == SumUp(recent) && down == SumDown(recent)
    ensures oldest == Oldest(recent, now) && newest == Newest(recent, oldest)
  {
    up, down, oldest := 0, 0, now;
    for k := 0 to |recent|
      invariant up == SumUp(recent[..k]) && down == SumDown(recent[..k]) && oldest == Oldest(recent[..k], now)
    {
      assert recent[..k + 1][..k] == recent[..k];
      up, down, oldest := up + recent[k].upBytes, down + recent[k].downBytes, Min(oldest, recent[k].ts);
    }
    assert recent[..|recent|] == recent;
    newest := oldest;
    for k := 0 to |recent|
      invariant newest == Newest(recent[..k], oldest)
    {
      assert recent[..k + 1][..k] == recent[..k];
      newest := Max(newest, recent[k].ts);
    }
  }

  /** Puts an item behind all that rate at least as high. */
  method InsertByRate(sorted: seq<Talker>, item: Talker) returns (longer: seq<Talker>)
    requires Descending(sorted)
    ensures Descending(longer) && multiset(longer) == multiset(sorted) + multiset{item}
  {
    var i := 0;
    while i < |sorted| && sorted[i].mbps >= item.mbps
      invariant i <= |sorted| && forall j :: 0 <= j < i ==> sorted[j].mbps >= item.mbps
    {
      i := i + 1;
    }
    assert sorted == sorted[..i] + sorted[i..];
    longer := sorted[..i] + [item] + sorted[i..];
  }

  /** ranked.sort((a, b) => b.mbps - a.mbps), by insertion. */
  method SortByRate(items: seq<Talker>) returns (sorted: seq<Talker>)
    ensures Descending(sorted) && multiset(sorted) == multiset(items)
  {
    hide Descending;
    NothingDescends();
    sorted := [];
    for k := 0 to |items|
      invariant Descending(sorted) && multiset(sorted) == multiset(items[..k])
    {
      assert items[..k + 1] == items[..k] + [items[k]];
      sorted := InsertByRate(sorted, items[k]);
    }
    assert items[..|items|] == items;
  }

  lemma NothingDescends()
    ensures Descending([])
  {
  }

  lemma SortedLists(ranked: seq<Talker>, sorted: seq<Talker>, m: Talkers, now: int)
    requires Lists(ranked, m, now) && multiset(sorted) == multiset(ranked)
    ensures Lists(sorted, m, now)
  {
    hide TalkerOf;
    forall t ensures t in sorted <==> t in ranked {
      assert t in multiset(sorted) <==> t in multiset(ranked);
    }
    assert |multiset(sorted)| == |multiset(ranked)|;
  }

  /** The talkers of one site. */
  class Store {
    var talkers: Talkers
    var topTalkers: seq<Talker>
    ghost var history: Talkers
    ghost var clock: int

    ghost predicate Valid()
      reads this
    {
      SameWindow(talkers, history, clock)
    }

    constructor (ghost t: int)
      ensures Valid() && talkers == map[] && history == map[] && clock == t
    {
      talkers, topTalkers, history, clock := map[], [], map[], t;
    }

    /** The ingest loop of the NetFlow collector (lib/monitoring.js:1228-1240). */
    method IngestPacket(records: seq<FlowRecord>, now: int) returns (ghost ranked: seq<Talker>)
      requires Valid() && clock <= now
      modifies this
      ensures Valid() && clock == now
      ensures talkers == Apply(old(talkers), Ingest(records, now))
      ensures history == Remember(old(history), Ingest(records, now))
      ensures IsTop(topTalkers, InWindow(history, now), now, ranked)
    {
      hide SameWindow, InWindow, IsRanking;
      for k := 0 to |records|
        invariant talkers == AccountAll(old(talkers), records[..k], now)
        invariant unchanged(this`history) && unchanged(this`clock)
      {
        assert records[..k + 1][..k] == records[..k];
        var rec := records[k];
        if rec.bytes <= 0 { continue; }
        var srcEvents := if rec.srcAddr in talkers then talkers[rec.srcAddr] else [];
        talkers := talkers[rec.srcAddr := srcEvents + [Sample(now, rec.bytes, 0)]];
        var dstEvents := if rec.dstAddr in talkers then talkers[rec.dstAddr] else [];
        talkers := talkers[rec.dstAddr := dstEvents + [Sample(now, 0, rec.bytes)]];
      }
      assert records[..|records|] == records;
      AccountKeepsWindow(old(talkers), old(history), old(clock), records, now);
      history := AccountAll(history, records, now);
      ranked := RefreshTopTalkers(now);
    }

    /** refreshNetflowTopTalkers (lib/monitoring.js:95-135). */
    method RefreshTopTalkers(now: int) returns (ghost ranked: seq<Talker>)
      requires Valid() && clock <= now
      modifies this
      ensures Valid() && clock == now && history == old(history)
      ensures talkers == InWindow(old(talkers), now)
      ensures IsTop(topTalkers, InWindow(history, now), now, ranked)
    {
      hide SameWindow, IsRanking;
      PruneKeepsWindow(talkers, history, clock, now);
      SameWindowSameStore(talkers, history, clock, now);
      var found := CollectTalkers(now);
      clock := now;
      var sorted := SortByRate(found);
      SortedLists(found, sorted, talkers, now);
      SortedIsRanking(sorted, talkers, now);
      topTalkers := sorted[..if |sorted| < 3 then |sorted| else 3];
      ranked := sorted;
    }

    /** The loop over the addresses (lib/monitoring.js:99-129). */
    method CollectTalkers(now: int) returns (ranked: seq<Talker>)
      modifies this`talkers
      ensures talkers == InWindow(old(talkers), now)
      ensures Lists(ranked, talkers, now)
    {
      hide TalkerOf, Recent, Lists, PruneSoFar;
      ranked := [];
      ghost var before := talkers;
      ghost var kept: Talkers := map[];
      var ips := talkers.Keys;
      PruneStarts(before, now);
      while ips != {}
        invariant ips <= before.Keys && PruneSoFar(before, talkers, kept, ips, now)
        invariant Lists(ranked, kept, now)
        decreases |ips|
      {
        var ip :| ip in ips;
        PruneNext(before, talkers, kept, ips, now, ip);
        ips := ips - {ip};
        var recent := Filter(talkers[ip], now);
        if recent == [] {
          talkers := talkers - {ip};
          continue;
        }
        talkers := talkers[ip := recent];
        var talker := MeasureTalker(ip, recent, now);
        ListsGrow(ranked, kept, now, talker, recent);
        ranked := ranked + [talker];
        kept := kept[ip := recent];
      }
      PruneEnds(before, talkers, kept, now);
    }

    /** The minute timer of the server, for a site that still exists (server.js:1046-1050). */
    method PruneEveryMinute(now: int)
      requires Valid() && clock <= now
      modifies this
      ensures Valid() && clock == now && history == old(history)
      ensures talkers == InWindow(old(talkers), now)
    {
      PruneKeepsWindow(talkers, history, clock, now);
      hide SameWindow, Recent, PruneSoFar;
      ghost var before := talkers;
      ghost var kept: Talkers := map[];
      clock := now;
      var ips := talkers.Keys;
      PruneStarts(before, now);
      while ips != {}
        invariant ips <= before.Keys && history == old(history) && clock == now
        invariant PruneSoFar(before, talkers, kept, ips, now)
        decreases |ips|
      {
        var ip :| ip in ips;
        PruneNext(before, talkers, kept, ips, now, ip);
        ips := ips - {ip};
        var recent := Filter(talkers[ip], now);
        if recent == [] {
          talkers := talkers - {ip};
        } else {
          talkers := talkers[ip := recent];
          kept := kept[ip := recent];
        }
      }
      PruneEnds(before, talkers, kept, now);
    }
  }

  method MeasureTalker(ip: string, recent: seq<Sample>, now: int) returns (t: Talker)
    ensures t == TalkerOf(ip, recent, now) && t.ip == ip
  {
    var upBytes, downBytes, oldestTs, newestTs := Measure(recent, now);
    var observedWindowMs := Max(1000, newestTs - oldestTs);
    var effectiveWindowMs := Max(60 * 1000, Min(NETFLOW_TOP_WINDOW_MS, observedWindowMs));
    var upMbps, downMbps := Mbps(upBytes, effectiveWindowMs), Mbps(downBytes, effectiveWindowMs);
    var mbps := Mbps(upBytes + downBytes, effectiveWindowMs);
    t := Talker(ip, ToFixed6(upMbps), ToFixed6(downMbps), ToFixed6(mbps),
                ToFixed2(((upBytes + downBytes) * 8) as real / 1000000.0));
  }

  lemma OneMoreKey(m: Talkers, ip: string, series: seq<Sample>)
    requires ip !in m
    ensures m[ip := series].Keys == m.Keys + {ip} && |m[ip := series]| == |m| + 1
  {
    assert m[ip := series].Keys == m.Keys + {ip};
    assert |m[ip := series].Keys| == |m.Keys| + 1;
  }

  lemma ListsGrow(ranked: seq<Talker>, kept: Talkers, now: int, talker: Talker, recent: seq<Sample>)
    requires Lists(ranked, kept, now) && talker.ip !in kept && talker == TalkerOf(talker.ip, recent, now)
    ensures Lists(ranked + [talker], kept[talker.ip := recent], now)
  {
    hide TalkerOf;
    var more := kept[talker.ip := recent];
    IpsPush(ranked, talker);
    hide Ips;
    OneMoreKey(kept, talker.ip, recent);
    forall t | t in ranked + [talker] ensures t.ip in more && t == TalkerOf(t.ip, more[t.ip], now) {
      if t != talker { assert t in ranked; }
    }
  }

  /** Of the addresses of `before`, those in `ips` are still to be met; of the others, `kept` holds
      those with samples in the window. */
  ghost predicate PruneSoFar(before: Talkers, m: Talkers, kept: Talkers, ips: set<string>, now: int) {
    && (forall ip :: ip in kept <==> ip in before && ip !in ips && Recent(before[ip], now) != [])
    && (forall ip :: ip in kept ==> kept[ip] == Recent(before[ip], now))
    && (forall ip :: ip in m <==> (ip in before && ip in ips) || ip in kept)
    && (forall ip :: ip in m ==> m[ip] == if ip in ips then before[ip] else kept[ip])
  }

  lemma PruneStarts(before: Talkers, now: int)
    ensures PruneSoFar(before, before, map[], before.Keys, now)
    ensures Lists([], map[], now)
  {
  }

  lemma PruneNext(before: Talkers, m: Talkers, kept: Talkers, ips: set<string>, now: int, ip: string)
    requires PruneSoFar(before, m, kept, ips, now) && ip in ips && ip in before
    ensures ip in m && m[ip] == before[ip] && ip !in kept
    ensures
      var recent := Recent(before[ip], now);
      if recent == [] then PruneSoFar(before, m - {ip}, kept, ips - {ip}, now)
      else PruneSoFar(before, m[ip := recent], kept[ip := recent], ips - {ip}, now)
  {
    hide Recent;
  }

  lemma PruneEnds(before: Talkers, m: Talkers, kept: Talkers, now: int)
    requires PruneSoFar(before, m, kept, {}, now)
    ensures m == kept == InWindow(before, now)
  {
    hide Recent;
  }

  lemma SortedIsRanking(sorted: seq<Talker>, m: Talkers, now: int)
    requires Lists(sorted, m, now) && Descending(sorted)
    ensures IsRanking(sorted, m, now)
  {
  }
}
