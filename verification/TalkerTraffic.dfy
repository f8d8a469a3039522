/** What traffic the top talkers of a site stand for, told by the records that were ingested: an address
    is charged as a sender for the bytes of records that name it as source, and as a receiver for those
    that name it as destination, within the window that ends at the time of the report.
 */
module TalkerTraffic {
  import opened TopTalkers
  import opened Shared

  // ---------- what the records say ----------

  /** The bytes that records charge to an address as their source; records without bytes do not count. */
  function Sent(records: seq<FlowRecord>, ip: string): nat {
    if records == [] then 0
    else
      var r := records[|records| - 1];
      Sent(records[..|records| - 1], ip) + if r.srcAddr == ip && r.bytes > 0 then r.bytes else 0
  }

  function Received(records: seq<FlowRecord>, ip: string): nat {
    if records == [] then 0
    else
      var r := records[|records| - 1];
      Received(records[..|records| - 1], ip) + if r.dstAddr == ip && r.bytes > 0 then r.bytes else 0
  }

  /** Over a run: the packets that were ingested at time `since` or later. */
  function SentSince(steps: seq<Step>, ip: string, since: int): nat {
    if steps == [] then 0
    else (if steps[0].Ingest? && steps[0].now >= since then Sent(steps[0].records, ip) else 0) + SentSince(steps[1..], ip, since)
  }

  function ReceivedSince(steps: seq<Step>, ip: string, since: int): nat {
    if steps == [] then 0
    else (if steps[0].Ingest? && steps[0].now >= since then Received(steps[0].records, ip) else 0) + ReceivedSince(steps[1..], ip, since)
  }

  predicate Names(records: seq<FlowRecord>, ip: string) {
    exists i :: 0 <= i < |records| && records[i].bytes > 0 && (records[i].srcAddr == ip || records[i].dstAddr == ip)
  }

  /** A packet that names the address was ingested at that time. */
  predicate SeenAt(steps: seq<Step>, ip: string, ts: int) {
    exists k :: 0 <= k < |steps| && steps[k].Ingest? && steps[k].now == ts && Names(steps[k].records, ip)
  }

  // ---------- what a series says ----------

  predicate HasTime(series: seq<Sample>, ts: int) {
    exists i :: 0 <= i < |series| && series[i].ts == ts
  }

  predicate Positive(series: seq<Sample>) {
    forall i :: 0 <= i < |series| ==> series[i].upBytes + series[i].downBytes > 0
  }

  lemma SumsPush(series: seq<Sample>, s: Sample)
    ensures SumUp(series + [s]) == SumUp(series) + s.upBytes
    ensures SumDown(series + [s]) == SumDown(series) + s.downBytes
    ensures forall ts :: HasTime(series + [s], ts) <==> HasTime(series, ts) || s.ts == ts
    ensures Positive(series + [s]) <==> Positive(series) && s.upBytes + s.downBytes > 0
  {
    var more := series + [s];
    assert more[..|series|] == series && more[|series|] == s;
    forall ts ensures HasTime(more, ts) <==> HasTime(series, ts) || s.ts == ts {
      if HasTime(series, ts) {
        var i :| 0 <= i < |series| && series[i].ts == ts;
        assert more[i].ts == ts;
      }
    }
    assert forall i :: 0 <= i < |series| ==> more[i] == series[i];
  }

  lemma {:induction false} SumOfPositive(series: seq<Sample>)
    requires Positive(series)
    ensures SumUp(series) + SumDown(series) > 0 <==> series != []
  {
    if series != [] { SumOfPositive(series[..|series| - 1]); }
  }

  /** What is in the window that ends at `now`: sums, times and whether there is anything. */
  function Shown(m: Talkers, ip: string, now: int): seq<Sample> {
    Recent(At(m, ip), now)
  }

  /** One sample more for `to`. */
  lemma PushShows(m: Talkers, to: string, s: Sample, ip: string, now: int)
    requires Positive(Shown(m, ip, now)) && s.upBytes + s.downBytes > 0
    ensures
      var before, after := Shown(m, ip, now), Shown(Push(m, to, s), ip, now);
      var counts := to == ip && s.ts >= now - NETFLOW_TOP_WINDOW_MS;
      && SumUp(after) == SumUp(before) + (if counts then s.upBytes else 0)
      && SumDown(after) == SumDown(before) + (if counts then s.downBytes else 0)
      && (forall ts :: HasTime(after, ts) <==> HasTime(before, ts) || (counts && s.ts == ts))
      && Positive(after)
  {
    hide Recent, SumUp, SumDown, HasTime, Positive;
    RecentPush(At(m, ip), s, now);
    var before := Shown(m, ip, now);
    assert before + [] == before;
    SumsPush(before, s);
  }

  /** The records of one packet. */
  lemma {:induction false} PacketShows(m: Talkers, records: seq<FlowRecord>, t: int, ip: string, now: int)
    requires Positive(Shown(m, ip, now))
    ensures
      var before, after := Shown(m, ip, now), Shown(AccountAll(m, records, t), ip, now);
      var counts := t >= now - NETFLOW_TOP_WINDOW_MS;
      && SumUp(after) == SumUp(before) + (if counts then Sent(records, ip) else 0)
      && SumDown(after) == SumDown(before) + (if counts then Received(records, ip) else 0)
      && (forall ts :: HasTime(after, ts) <==> HasTime(before, ts) || (counts && t == ts && Names(records, ip)))
      && Positive(after)
  {
    hide SumUp, SumDown, HasTime, Positive, Push, Shown, Names;
    if records == [] {
      NamesNothing(ip);
    } else {
      var n := |records| - 1;
      var r, mid := records[n], AccountAll(m, records[..n], t);
      PacketShows(m, records[..n], t, ip, now);
      NamesOneMore(records, ip);
      if r.bytes > 0 {
        PushShows(mid, r.srcAddr, Sample(t, r.bytes, 0), ip, now);
        PushShows(Push(mid, r.srcAddr, Sample(t, r.bytes, 0)), r.dstAddr, Sample(t, 0, r.bytes), ip, now);
      }
    }
  }

  lemma NamesNothing(ip: string)
    ensures !Names([], ip)
  {
  }

  lemma NamesOneMore(records: seq<FlowRecord>, ip: string)
    requires records != []
    ensures
      var r := records[|records| - 1];
      Names(records, ip) <==> Names(records[..|records| - 1], ip) || (r.bytes > 0 && (r.srcAddr == ip || r.dstAddr == ip))
  {
    var n := |records| - 1;
    if Names(records[..n], ip) {
      var i :| 0 <= i < n && records[..n][i].bytes > 0 && (records[..n][i].srcAddr == ip || records[..n][i].dstAddr == ip);
      assert records[i].bytes > 0;
    }
    if Names(records, ip) {
      var i :| 0 <= i < |records| && records[i].bytes > 0 && (records[i].srcAddr == ip || records[i].dstAddr == ip);
      if i < n { assert records[..n][i].bytes > 0; }
    }
  }

  lemma SeenStep(steps: seq<Step>, ip: string, ts: int)
    requires steps != []
    ensures SeenAt(steps, ip, ts) <==>
              (steps[0].Ingest? && steps[0].now == ts && Names(steps[0].records, ip)) || SeenAt(steps[1..], ip, ts)
  {
    hide Names;
    if SeenAt(steps[1..], ip, ts) {
      var k :| 0 <= k < |steps| - 1 && steps[1..][k].Ingest? && steps[1..][k].now == ts && Names(steps[1..][k].records, ip);
      assert steps[k + 1].Ingest?;
    }
    if SeenAt(steps, ip, ts) {
      var k :| 0 <= k < |steps| && steps[k].Ingest? && steps[k].now == ts && Names(steps[k].records, ip);
      if k > 0 { assert steps[1..][k - 1].Ingest?; }
    }
  }

  /** The history over a run. */
  lemma {:induction false} HistoryShows(m: Talkers, steps: seq<Step>, ip: string, now: int)
    requires Positive(Shown(m, ip, now))
    ensures
      var before, after, since := Shown(m, ip, now), Shown(History(m, steps), ip, now), now - NETFLOW_TOP_WINDOW_MS;
      && SumUp(after) == SumUp(before) + SentSince(steps, ip, since)
      && SumDown(after) == SumDown(before) + ReceivedSince(steps, ip, since)
      && (forall ts :: HasTime(after, ts) <==> HasTime(before, ts) || (ts >= since && SeenAt(steps, ip, ts)))
      && Positive(after)
    decreases |steps|
  {
    hide SumUp, SumDown, HasTime, Positive, Shown, Names, AccountAll, Sent, Received, SeenAt;
    if steps == [] {
      SeenNever(ip);
    } else {
      if steps[0].Ingest? { PacketShows(m, steps[0].records, steps[0].now, ip, now); }
      HistoryShows(Remember(m, steps[0]), steps[1..], ip, now);
      forall ts ensures SeenAt(steps, ip, ts) <==>
          (steps[0].Ingest? && steps[0].now == ts && Names(steps[0].records, ip)) || SeenAt(steps[1..], ip, ts) {
        SeenStep(steps, ip, ts);
      }
    }
  }

  lemma SeenNever(ip: string)
    ensures forall ts :: !SeenAt([], ip, ts)
  {
  }

  /** After any run, what the pruned store holds of an address in the window are the bytes that the
      records ingested in the window charge to it, and it holds something exactly when one of them
      names the address. */
  lemma StoreShowsTraffic(steps: seq<Step>, t: int, ip: string, now: int)
    requires Monotone(t, steps) && LastTime(t, steps) <= now
    ensures
      var series, since := Shown(Run(map[], steps), ip, now), now - NETFLOW_TOP_WINDOW_MS;
      && series == Shown(History(map[], steps), ip, now)
      && SumUp(series) == SentSince(steps, ip, since) && SumDown(series) == ReceivedSince(steps, ip, since)
      && (forall ts :: HasTime(series, ts) <==> ts >= since && SeenAt(steps, ip, ts))
      && (series != [] <==> SentSince(steps, ip, since) + ReceivedSince(steps, ip, since) > 0)
  {
    NothingShown(ip, now);
    hide Run, History, Recent, SumUp, SumDown, HasTime, Positive, SentSince, ReceivedSince, SeenAt, Monotone;
    RunKeepsWindow(map[], map[], t, steps);
    HistoryShows(map[], steps, ip, now);
    SumOfPositive(Shown(History(map[], steps), ip, now));
  }

  lemma NothingShown(ip: string, now: int)
    ensures Shown(map[], ip, now) == [] && Positive([]) && SumUp([]) == 0 && SumDown([]) == 0 && forall ts :: !HasTime([], ts)
  {
  }

  // ---------- rates ----------

  /** x is the nearest multiple of 1 / scale to y. */
  predicate Near(x: real, y: real, scale: real)
    requires scale > 0.0
  {
    -0.5 <= (x - y) * scale <= 0.5
  }

  lemma FixedIsNear(y: real)
    ensures Near(ToFixed6(y), y, 1000000.0) && Near(ToFixed2(y), y, 100.0)
  {
    var f6, f2 := (y * 1000000.0 + 0.5).Floor as real, (y * 100.0 + 0.5).Floor as real;
    assert ToFixed6(y) * 1000000.0 == f6 && ToFixed2(y) * 100.0 == f2;
  }

  lemma MbpsIs(bytes: nat, ms: int)
    requires ms > 0
    ensures Mbps(bytes, ms) * ms as real * 1000.0 == (8 * bytes) as real
  {
    var b, s := (bytes * 8) as real, ms as real / 1000.0;
    assert b / s * s == b;
    assert Mbps(bytes, ms) * 1000000.0 == b / s;
    assert ms as real * 1000.0 == s * 1000000.0;
    calc {
      Mbps(bytes, ms) * ms as real * 1000.0;
      Mbps(bytes, ms) * (ms as real * 1000.0);
      Mbps(bytes, ms) * (s * 1000000.0);
      (Mbps(bytes, ms) * 1000000.0) * s;
      b;
    }
  }

  /** Eight bits a byte over ms milliseconds, in megabits a second, to the nearest of six digits. */
  predicate RateIs(rate: real, bytes: nat, ms: int) {
    -(ms as real) / 2000.0 <= rate * ms as real * 1000.0 - (8 * bytes) as real <= ms as real / 2000.0
  }

  lemma RateOfMbps(bytes: nat, ms: int)
    requires ms > 0
    ensures RateIs(ToFixed6(Mbps(bytes, ms)), bytes, ms)
  {
    FixedIsNear(Mbps(bytes, ms));
    MbpsIs(bytes, ms);
    hide Mbps, ToFixed6, ToFixed2, Near;
    RateBound(ToFixed6(Mbps(bytes, ms)), Mbps(bytes, ms), ms as real, (8 * bytes) as real);
  }

  lemma RateBound(x: real, y: real, w: real, b: real)
    requires Near(x, y, 1000000.0) && w > 0.0 && y * w * 1000.0 == b
    ensures -w / 2000.0 <= x * w * 1000.0 - b <= w / 2000.0
  {
    NotNegative(x - y + 0.0000005, w);
    NotNegative(y - x + 0.0000005, w);
  }

  lemma NotNegative(a: real, b: real)
    requires a >= 0.0 && b >= 0.0
    ensures a * b >= 0.0
  {
  }

  /** The time over which rates are taken: from the first to the last time the address was seen in the
      window, not less than a minute and not more than the window. */
  function SpanMs(first: int, last: int): int {
    Max(60000, Min(NETFLOW_TOP_WINDOW_MS, last - first))
  }

  lemma {:induction false} OldestIs(series: seq<Sample>, now: int, first: int)
    requires (HasTime(series, first) || first == now) && first <= now && forall i :: 0 <= i < |series| ==> first <= series[i].ts
    ensures Oldest(series, now) == first
  {
    if series != [] {
      var n := |series| - 1;
      if HasTime(series[..n], first) || first == now {
        OldestIs(series[..n], now, first);
      } else {
        SumsPush(series[..n], series[n]);
        assert series == series[..n] + [series[n]];
        OldestAtLeast(series[..n], now, first);
      }
    }
  }

  lemma {:induction false} OldestAtLeast(series: seq<Sample>, now: int, first: int)
    requires first <= now && forall i :: 0 <= i < |series| ==> first <= series[i].ts
    ensures first <= Oldest(series, now)
  {
    if series != [] { OldestAtLeast(series[..|series| - 1], now, first); }
  }

  lemma {:induction false} NewestIs(series: seq<Sample>, start: int, last: int)
    requires (HasTime(series, last) || last == start) && start <= last && forall i :: 0 <= i < |series| ==> series[i].ts <= last
    ensures Newest(series, start) == last
  {
    if series != [] {
      var n := |series| - 1;
      if HasTime(series[..n], last) || last == start {
        NewestIs(series[..n], start, last);
      } else {
        SumsPush(series[..n], series[n]);
        assert series == series[..n] + [series[n]];
        NewestAtMost(series[..n], start, last);
      }
    }
  }

  lemma {:induction false} NewestAtMost(series: seq<Sample>, start: int, last: int)
    requires start <= last && forall i :: 0 <= i < |series| ==> series[i].ts <= last
    ensures Newest(series, start) <= last
  {
    if series != [] { NewestAtMost(series[..|series| - 1], start, last); }
  }

  ghost predicate Spans(series: seq<Sample>, first: int, last: int) {
    HasTime(series, first) && HasTime(series, last) && forall ts :: HasTime(series, ts) ==> first <= ts <= last
  }

  lemma WindowSpan(series: seq<Sample>, first: int, last: int, now: int)
    requires Spans(series, first, last) && last <= now
    ensures EffectiveWindowMs(series, now) == SpanMs(first, last)
  {
    forall i | 0 <= i < |series| ensures first <= series[i].ts <= last { assert HasTime(series, series[i].ts); }
    OldestIs(series, now, first);
    NewestIs(series, first, last);
  }

  // ---------- what is shown ----------

  /** What a talker shows for so many bytes sent and received over ms milliseconds. */
  predicate TalkerShows(x: Talker, sent: nat, received: nat, ms: int) {
    && RateIs(x.upMbps, sent, ms) && RateIs(x.downMbps, received, ms) && RateIs(x.mbps, sent + received, ms)
    && -5000.0 <= x.totalMb * 1000000.0 - (8 * (sent + received)) as real <= 5000.0
  }

  lemma TalkerIs(ip: string, series: seq<Sample>, now: int)
    ensures TalkerShows(TalkerOf(ip, series, now), SumUp(series), SumDown(series), EffectiveWindowMs(series, now))
  {
    var ms, up, down := EffectiveWindowMs(series, now), SumUp(series), SumDown(series);
    RateOfMbps(up, ms);
    RateOfMbps(down, ms);
    RateOfMbps(up + down, ms);
    FixedIsNear(((up + down) * 8) as real / 1000000.0);
    hide RateIs, ToFixed6, ToFixed2, Mbps, EffectiveWindowMs;
  }

  /** Of what is shown after any run: an address is in the ranking exactly when a record of the window
      charges it, with the bytes sent and received of the window, over the time between the first and
      the last time it was seen there. */
  lemma RankingShowsTraffic(steps: seq<Step>, t: int, now: int, ranked: seq<Talker>, ip: string)
    requires Monotone(t, steps) && LastTime(t, steps) <= now
    requires IsRanking(ranked, InWindow(History(map[], steps), now), now)
    ensures
      var since := now - NETFLOW_TOP_WINDOW_MS;
      (exists x :: x in ranked && x.ip == ip) <==> SentSince(steps, ip, since) + ReceivedSince(steps, ip, since) > 0
    ensures forall x, first, last ::
      x in ranked && x.ip == ip && FirstAndLast(steps, ip, now, first, last) ==>
        TalkerShows(x, SentSince(steps, ip, now - NETFLOW_TOP_WINDOW_MS), ReceivedSince(steps, ip, now - NETFLOW_TOP_WINDOW_MS),
                    SpanMs(first, last))
  {
    var m, series := InWindow(History(map[], steps), now), Shown(Run(map[], steps), ip, now);
    StoreShowsTraffic(steps, t, ip, now);
    InRanking(ranked, m, now, ip);
    assert ip in m <==> series != [] by { NothingShown(ip, now); hide Run, History, HasTime, SeenAt, Recent; }
    assert ip in m ==> m[ip] == series;
    hide Run, History, Recent, SumUp, SumDown, SentSince, ReceivedSince, Monotone, IsRanking, TalkerShows, TalkerOf, SpanMs, EffectiveWindowMs, SeenAt;
    forall x, first, last | x in ranked && x.ip == ip && FirstAndLast(steps, ip, now, first, last)
      ensures TalkerShows(x, SentSince(steps, ip, now - NETFLOW_TOP_WINDOW_MS), ReceivedSince(steps, ip, now - NETFLOW_TOP_WINDOW_MS),
                          SpanMs(first, last)) {
      TalkerIs(ip, series, now);
      WindowSpan(series, first, last, now);
    }
  }

  /** The first and the last time in the window at which the address was seen. */
  ghost predicate FirstAndLast(steps: seq<Step>, ip: string, now: int, first: int, last: int) {
    && now - NETFLOW_TOP_WINDOW_MS <= first <= last <= now && SeenAt(steps, ip, first) && SeenAt(steps, ip, last)
    && forall ts :: ts >= now - NETFLOW_TOP_WINDOW_MS && SeenAt(steps, ip, ts) ==> first <= ts <= last
  }

  lemma InRanking(ranked: seq<Talker>, m: Talkers, now: int, ip: string)
    requires IsRanking(ranked, m, now)
    ensures (exists x :: x in ranked && x.ip == ip) <==> ip in m
    ensures forall x :: x in ranked && x.ip == ip ==> x == TalkerOf(ip, m[ip], now)
  {
    hide TalkerOf;
    assert ip in Ips(ranked) <==> ip in m;
  }

  /** Three talkers are shown, or all of them, in falling order of rate, each once; and no address that is
      not shown has a higher rate. */
  lemma ShownAreHighest(top: seq<Talker>, m: Talkers, now: int, ranked: seq<Talker>)
    requires IsTop(top, m, now, ranked)
    ensures |top| <= 3 && (|top| < 3 ==> |top| == |m|) && DistinctIps(top)
    ensures forall i, j :: 0 <= i < j < |top| ==> top[i].mbps >= top[j].mbps
    ensures forall x, i :: x in ranked && x !in top && 0 <= i < |top| ==> x.mbps <= top[i].mbps
  {
    IpsCount(ranked);
    hide TalkerOf, Ips;
    forall x, i | x in ranked && x !in top && 0 <= i < |top| ensures x.mbps <= top[i].mbps {
      assert ranked == top + ranked[|top|..];
      var k :| 0 <= k < |ranked| - |top| && ranked[|top|..][k] == x;
    }
  }
}
