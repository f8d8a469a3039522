/** The fixed-window rate limiter (lib/ratelimit.js:20-54). */
module RateLimit {
  import opened Shared

  datatype Bucket = Bucket(count: nat, resetAtMs: int)
  datatype Decision = Decision(allowed: bool, limit: int, remaining: int, resetAtMs: int, retryAfterSec: int)

  type Buckets = map<string, Bucket>

  // ---------- one call ----------

  function LimitOf(max: int): (limit: int)
    ensures limit >= 1
  {
    if max < 1 then 1 else max
  }

  function DurationOf(windowMs: int): (ms: int)
    ensures ms >= 1000
  {
    if windowMs < 1000 then 1000 else windowMs
  }

  /** A token taken from a key's bucket: a bucket whose window is over starts again. */
  function Take(b: Option<Bucket>, duration: int, now: int): Bucket {
    if b.None? || now >= b.value.resetAtMs then Bucket(1, now + duration)
    else Bucket(b.value.count + 1, b.value.resetAtMs)
  }

  function At(m: Buckets, key: string): Option<Bucket> {
    if key in m then Some(m[key]) else None
  }

  function Decide(b: Bucket, limit: int, now: int): Decision {
    Decision(b.count <= limit, limit, if limit < b.count then 0 else limit - b.count, b.resetAtMs,
             if b.count <= limit then 0 else RetryAfter(b.resetAtMs - now))
  }

  function Consume(m: Buckets, key: string, max: int, windowMs: int, now: int): (Decision, Buckets) {
    var limit, duration := LimitOf(max), DurationOf(windowMs);
    if key == "" then (Decision(true, limit, limit, now + duration, 0), m)
    else
      var b := Take(At(m, key), duration, now);
      (Decide(b, limit, now), m[key := b])
  }

  /** The buckets whose window still runs. */
  function Live(m: Buckets, now: int): Buckets {
    map k | k in m && now < m[k].resetAtMs :: m[k]
  }

  class Limiter {
    var rateLimitBuckets: Buckets

    constructor ()
      ensures rateLimitBuckets == map[]
    {
      rateLimitBuckets := map[];
    }

    /** consumeRateLimitToken (lib/ratelimit.js:20-48). */
    method ConsumeToken(key: string, max: int, windowMs: int, now: int) returns (decision: Decision)
      modifies this
      ensures (decision, rateLimitBuckets) == Consume(old(rateLimitBuckets), key, max, windowMs, now)
    {
      var limit, durationMs := LimitOf(max), DurationOf(windowMs);
      if key == "" { return Decision(true, limit, limit, now + durationMs, 0); }
      var bucket := Bucket(0, now + durationMs);
      if key in rateLimitBuckets && now < rateLimitBuckets[key].resetAtMs { bucket := rateLimitBuckets[key]; }
      bucket := bucket.(count := bucket.count + 1);
      rateLimitBuckets := rateLimitBuckets[key := bucket];
      var allowed := bucket.count <= limit;
      var retryAfterSec := if allowed then 0 else RetryAfter(bucket.resetAtMs - now);
      return Decision(allowed, limit, if limit < bucket.count then 0 else limit - bucket.count, bucket.resetAtMs, retryAfterSec);
    }

    /** pruneRateLimitBuckets (lib/ratelimit.js:50-54). */
    method Prune(now: int)
      modifies this
      ensures rateLimitBuckets == Live(old(rateLimitBuckets), now)
      ensures forall k :: k in rateLimitBuckets <==> k in old(rateLimitBuckets) && now < old(rateLimitBuckets)[k].resetAtMs
      ensures forall k :: k in rateLimitBuckets ==> rateLimitBuckets[k] == old(rateLimitBuckets)[k]
    {
      ghost var before := rateLimitBuckets;
      var keys := rateLimitBuckets.Keys;
      while keys != {}
        invariant keys <= before.Keys
        invariant forall k :: k in rateLimitBuckets <==> k in before && (k in keys || now < before[k].resetAtMs)
        invariant forall k :: k in rateLimitBuckets ==> rateLimitBuckets[k] == before[k]
        decreases |keys|
      {
        var key :| key in keys;
        keys := keys - {key};
        if now >= rateLimitBuckets[key].resetAtMs { rateLimitBuckets := rateLimitBuckets - {key}; }
      }
      assert rateLimitBuckets == Live(before, now);
    }
  }

  // ---------- pruning changes no decision ----------

  datatype Step =
    | Call(key: string, max: int, windowMs: int, now: int)
    | PruneAt(now: int)

  predicate Monotone(t: int, steps: seq<Step>)
    decreases |steps|
  {
    steps == [] || (t <= steps[0].now && Monotone(steps[0].now, steps[1..]))
  }

  function Decisions(m: Buckets, steps: seq<Step>): seq<Decision>
    decreases |steps|
  {
    if steps == [] then []
    else
      match steps[0]
      case PruneAt(now) => Decisions(Live(m, now), steps[1..])
      case Call(key, max, windowMs, now) =>
        var (d, m') := Consume(m, key, max, windowMs, now);
        [d] + Decisions(m', steps[1..])
  }

  function WithoutPrunes(steps: seq<Step>): seq<Step> {
    if steps == [] then []
    else (if steps[0].PruneAt? then [] else [steps[0]]) + WithoutPrunes(steps[1..])
  }

  lemma LiveLater(a: Buckets, b: Buckets, t: int, now: int)
    requires Live(a, t) == Live(b, t) && t <= now
    ensures Live(a, now) == Live(b, now) == Live(Live(a, now), now)
  {
    forall k ensures (k in Live(a, now) <==> k in Live(b, now)) && (k in Live(a, now) ==> a[k] == b[k]) {
      assert k in Live(a, t) <==> k in Live(b, t);
    }
    assert Live(a, now) == Live(b, now);
    assert Live(a, now) == Live(Live(a, now), now);
  }

  lemma ConsumeAlike(a: Buckets, b: Buckets, key: string, max: int, windowMs: int, now: int)
    requires Live(a, now) == Live(b, now)
    ensures Consume(a, key, max, windowMs, now).0 == Consume(b, key, max, windowMs, now).0
    ensures Live(Consume(a, key, max, windowMs, now).1, now) == Live(Consume(b, key, max, windowMs, now).1, now)
  {
    assert key in Live(a, now) <==> key in Live(b, now);
    assert key in Live(a, now) ==> a[key] == b[key];
    var a', b' := Consume(a, key, max, windowMs, now).1, Consume(b, key, max, windowMs, now).1;
    forall k ensures (k in Live(a', now) <==> k in Live(b', now)) && (k in Live(a', now) ==> a'[k] == b'[k]) {
      assert k in Live(a, now) <==> k in Live(b, now);
      assert k in Live(a, now) ==> a[k] == b[k];
    }
  }

  lemma {:induction false} AlikeDecideAlike(a: Buckets, b: Buckets, t: int, steps: seq<Step>)
    requires Live(a, t) == Live(b, t) && Monotone(t, steps)
    ensures Decisions(a, steps) == Decisions(b, WithoutPrunes(steps))
    decreases |steps|
  {
    hide Live, Consume;
    if steps != [] {
      var step, rest := steps[0], WithoutPrunes(steps[1..]);
      LiveLater(a, b, t, step.now);
      match step
      case PruneAt(now) =>
        assert [] + rest == rest;
        AlikeDecideAlike(Live(a, now), b, now, steps[1..]);
      case Call(key, max, windowMs, now) =>
        ConsumeAlike(a, b, key, max, windowMs, now);
        assert ([step] + rest)[1..] == rest;
        AlikeDecideAlike(Consume(a, key, max, windowMs, now).1, Consume(b, key, max, windowMs, now).1, now, steps[1..]);
    }
  }

  /** Pruning at any moments of a run changes none of its decisions. */
  lemma PruningChangesNoDecision(m: Buckets, t: int, steps: seq<Step>)
    requires Monotone(t, steps)
    ensures Decisions(m, steps) == Decisions(m, WithoutPrunes(steps))
  {
    AlikeDecideAlike(m, m, t, steps);
  }

  // ---------- how many calls are admitted ----------

  /** The number of admitted calls of one key at the given times. */
  function Admitted(b: Option<Bucket>, limit: int, duration: int, times: seq<int>): nat
    decreases |times|
  {
    if times == [] then 0
    else
      var b' := Take(b, duration, times[0]);
      (if b'.count <= limit then 1 else 0) + Admitted(Some(b'), limit, duration, times[1..])
  }

  function After(b: Option<Bucket>, duration: int, times: seq<int>): Option<Bucket>
    decreases |times|
  {
    if times == [] then b else After(Some(Take(b, duration, times[0])), duration, times[1..])
  }

  predicate Rising(times: seq<int>) {
    forall i, j :: 0 <= i < j < |times| ==> times[i] <= times[j]
  }

  /** While a window runs, what is left of the limit is admitted, and no more. */
  lemma {:induction false} RunningWindowAdmits(b: Bucket, limit: int, duration: int, times: seq<int>)
    requires forall i :: 0 <= i < |times| ==> times[i] < b.resetAtMs
    ensures Admitted(Some(b), limit, duration, times) == if b.count >= limit then 0 else Min(|times|, limit - b.count)
    ensures After(Some(b), duration, times).Some? && After(Some(b), duration, times).value.resetAtMs == b.resetAtMs
    decreases |times|
  {
    if times != [] {
      RunningWindowAdmits(Take(Some(b), duration, times[0]), limit, duration, times[1..]);
    }
  }

  predicate Over(b: Option<Bucket>, now: int) {
    b.None? || now >= b.value.resetAtMs
  }

  /** A window admits exactly min(calls, limit). */
  lemma WindowAdmits(b: Option<Bucket>, limit: int, duration: int, times: seq<int>)
    requires times != [] && Over(b, times[0]) && limit >= 1 && duration > 0
    requires forall i :: 0 <= i < |times| ==> times[i] < times[0] + duration
    ensures Admitted(b, limit, duration, times) == Min(|times|, limit)
    ensures After(b, duration, times).Some? && After(b, duration, times).value.resetAtMs == times[0] + duration
  {
    RunningWindowAdmits(Bucket(1, times[0] + duration), limit, duration, times[1..]);
  }

  /** What a decision reports as remaining is how many further calls of its window are admitted. */
  lemma RemainingCallsAreAdmitted(m: Buckets, key: string, max: int, windowMs: int, now: int, times: seq<int>)
    requires key != ""
    requires forall i :: 0 <= i < |times| ==> times[i] < Consume(m, key, max, windowMs, now).0.resetAtMs
    ensures
      var (d, m') := Consume(m, key, max, windowMs, now);
      Admitted(At(m', key), LimitOf(max), DurationOf(windowMs), times) == Min(|times|, d.remaining)
  {
    RunningWindowAdmits(Take(At(m, key), DurationOf(windowMs), now), LimitOf(max), DurationOf(windowMs), times);
  }

  lemma {:induction false} AdmittedSplits(b: Option<Bucket>, limit: int, duration: int, xs: seq<int>, ys: seq<int>)
    ensures Admitted(b, limit, duration, xs + ys)
         == Admitted(b, limit, duration, xs) + Admitted(After(b, duration, xs), limit, duration, ys)
    decreases |xs|
  {
    if xs == [] {
      assert xs + ys == ys;
    } else {
      assert (xs + ys)[1..] == xs[1..] + ys;
      AdmittedSplits(Some(Take(b, duration, xs[0])), limit, duration, xs[1..], ys);
    }
  }

  /** How many of the calls come before t. */
  function CountBefore(times: seq<int>, t: int): (n: nat)
    ensures n <= |times|
    ensures Rising(times) ==> (forall i :: 0 <= i < n ==> times[i] < t) && (forall i :: n <= i < |times| ==> times[i] >= t)
  {
    if times == [] || times[0] >= t then 0 else 1 + CountBefore(times[1..], t)
  }

  /** From a bucket whose window is over, calls within `duration` of the first fill one window; calls
      at the very end of the interval may open a second one. */
  lemma OneWindowAndItsEnd(b: Option<Bucket>, limit: int, duration: int, times: seq<int>)
    requires Rising(times) && limit >= 1 && duration > 0 && times != [] && Over(b, times[0])
    requires forall i :: 0 <= i < |times| ==> times[i] <= times[0] + duration
    ensures Admitted(b, limit, duration, times) <= 2 * limit
    ensures (forall i :: 0 <= i < |times| ==> times[i] < times[0] + duration) ==>
              Admitted(b, limit, duration, times) <= limit
  {
    hide Admitted, After;
    var end := times[0] + duration;
    var n := CountBefore(times, end);
    var xs, ys := times[..n], times[n..];
    assert n > 0 && xs + ys == times;
    WindowAdmits(b, limit, duration, xs);
    AdmittedSplits(b, limit, duration, xs, ys);
    if ys != [] {
      WindowAdmits(After(b, duration, xs), limit, duration, ys);
    } else {
      NoCalls(After(b, duration, xs), limit, duration);
    }
  }

  lemma NoCalls(b: Option<Bucket>, limit: int, duration: int)
    ensures Admitted(b, limit, duration, []) == 0 && After(b, duration, []) == b
  {
  }

  /** Any interval of one window length admits at most twice the limit, whatever went before. */
  lemma IntervalAdmitsAtMostTwice(b: Option<Bucket>, limit: int, duration: int, times: seq<int>, start: int)
    requires Rising(times) && limit >= 1 && duration > 0
    requires forall i :: 0 <= i < |times| ==> start <= times[i] <= start + duration
    ensures Admitted(b, limit, duration, times) <= 2 * limit
  {
    hide Admitted, After;
    if times == [] {
      NoCalls(b, limit, duration);
    } else if Over(b, times[0]) {
      OneWindowAndItsEnd(b, limit, duration, times);
    } else {
      var n := CountBefore(times, b.value.resetAtMs);
      var xs, ys := times[..n], times[n..];
      assert n > 0 && xs + ys == times;
      RunningWindowAdmits(b.value, limit, duration, xs);
      AdmittedSplits(b, limit, duration, xs, ys);
      if ys != [] {
        OneWindowAndItsEnd(After(b, duration, xs), limit, duration, ys);
      } else {
        NoCalls(After(b, duration, xs), limit, duration);
      }
    }
  }

  // ---------- one key within a run over all keys ----------

  function TimesOf(steps: seq<Step>, key: string): seq<int> {
    if steps == [] then []
    else (if steps[0].Call? && steps[0].key == key then [steps[0].now] else []) + TimesOf(steps[1..], key)
  }

  function AdmittedInRun(m: Buckets, steps: seq<Step>, key: string): nat
    decreases |steps|
  {
    if steps == [] then 0
    else
      match steps[0]
      case PruneAt(now) => AdmittedInRun(Live(m, now), steps[1..], key)
      case Call(k, max, windowMs, now) =>
        var (d, m') := Consume(m, k, max, windowMs, now);
        (if k == key && d.allowed then 1 else 0) + AdmittedInRun(m', steps[1..], key)
  }

  /** The calls of the key all use this limit and this window. */
  predicate FixedLimit(steps: seq<Step>, key: string, limit: int, duration: int) {
    forall i :: 0 <= i < |steps| && steps[i].Call? && steps[i].key == key ==>
      LimitOf(steps[i].max) == limit && DurationOf(steps[i].windowMs) == duration
  }

  predicate SameBucket(b: Option<Bucket>, c: Option<Bucket>, t: int) {
    b == c || (Over(b, t) && Over(c, t))
  }

  lemma PruneKeepsBucket(m: Buckets, b: Option<Bucket>, key: string, t: int, now: int)
    requires SameBucket(At(m, key), b, t) && t <= now
    ensures SameBucket(At(Live(m, now), key), b, now)
  {
  }

  lemma CallOfTheKey(m: Buckets, b: Option<Bucket>, key: string, max: int, windowMs: int, t: int, now: int)
    requires key != "" && SameBucket(At(m, key), b, t) && t <= now
    ensures
      var (d, m') := Consume(m, key, max, windowMs, now);
      var b' := Take(b, DurationOf(windowMs), now);
      d.allowed == (b'.count <= LimitOf(max)) && At(m', key) == Some(b')
  {
  }

  lemma CallOfAnother(m: Buckets, b: Option<Bucket>, key: string, other: string, max: int, windowMs: int, t: int, now: int)
    requires other != key && SameBucket(At(m, key), b, t) && t <= now
    ensures SameBucket(At(Consume(m, other, max, windowMs, now).1, key), b, now)
  {
  }

  /** The admissions of a key in a run are those of its own calls. */
  lemma {:induction false} RunAdmitsOwnCalls(m: Buckets, b: Option<Bucket>, t: int, steps: seq<Step>, key: string, limit: int, duration: int)
    requires key != "" && Monotone(t, steps) && FixedLimit(steps, key, limit, duration) && SameBucket(At(m, key), b, t)
    ensures AdmittedInRun(m, steps, key) == Admitted(b, limit, duration, TimesOf(steps, key))
    decreases |steps|
  {
    hide Consume, Take, At, Live, LimitOf, DurationOf;
    if steps != [] {
      var rest, now := TimesOf(steps[1..], key), steps[0].now;
      if steps[0].PruneAt? {
        assert [] + rest == rest;
        PruneKeepsBucket(m, b, key, t, now);
        RunAdmitsOwnCalls(Live(m, now), b, now, steps[1..], key, limit, duration);
      } else {
        var k, max, windowMs := steps[0].key, steps[0].max, steps[0].windowMs;
        var m' := Consume(m, k, max, windowMs, now).1;
        if k == key {
          assert ([now] + rest)[1..] == rest;
          CallOfTheKey(m, b, key, max, windowMs, t, now);
          RunAdmitsOwnCalls(m', Some(Take(b, duration, now)), now, steps[1..], key, limit, duration);
        } else {
          assert [] + rest == rest;
          CallOfAnother(m, b, key, k, max, windowMs, t, now);
          RunAdmitsOwnCalls(m', b, now, steps[1..], key, limit, duration);
        }
      }
    }
  }

  lemma {:induction false} TimesRise(t: int, steps: seq<Step>, key: string)
    requires Monotone(t, steps)
    ensures Rising(TimesOf(steps, key))
    ensures forall i :: 0 <= i < |TimesOf(steps, key)| ==> t <= TimesOf(steps, key)[i]
    decreases |steps|
  {
    if steps != [] { TimesRise(steps[0].now, steps[1..], key); }
  }

  /** In a run over any keys, with pruning anywhere, a key with a fixed limit and window is admitted at
      most 2 * limit times within one window length, whatever the buckets at its beginning. */
  lemma RunAdmitsAtMostTwice(m: Buckets, t: int, steps: seq<Step>, key: string, limit: int, duration: int)
    requires key != "" && Monotone(t, steps) && FixedLimit(steps, key, limit, duration) && limit >= 1 && duration > 0
    requires forall i :: 0 <= i < |steps| ==> steps[i].now <= t + duration
    ensures AdmittedInRun(m, steps, key) <= 2 * limit
  {
    hide AdmittedInRun, Admitted, TimesOf;
    RunAdmitsOwnCalls(m, At(m, key), t, steps, key, limit, duration);
    TimesRise(t, steps, key);
    TimesBounded(steps, key, t + duration);
    IntervalAdmitsAtMostTwice(At(m, key), limit, duration, TimesOf(steps, key), t);
  }

  lemma {:induction false} TimesBounded(steps: seq<Step>, key: string, end: int)
    requires forall i :: 0 <= i < |steps| ==> steps[i].now <= end
    ensures forall i :: 0 <= i < |TimesOf(steps, key)| ==> TimesOf(steps, key)[i] <= end
  {
    if steps != [] { TimesBounded(steps[1..], key, end); }
  }

  // ---------- waiting as told ----------

  /** A refused caller who waits as long as told finds a new window and is admitted; the time told is less
      than a second too long. */
  lemma WaitingReachesNewWindow(m: Buckets, key: string, max: int, windowMs: int, now: int, later: int)
    requires !Consume(m, key, max, windowMs, now).0.allowed
    requires later >= now + 1000 * Consume(m, key, max, windowMs, now).0.retryAfterSec
    ensures Consume(m, key, max, windowMs, now).0.retryAfterSec >= 1
    ensures
      var d := Consume(m, key, max, windowMs, now).0;
      now < d.resetAtMs && 1000 * (d.retryAfterSec - 1) < d.resetAtMs - now
    ensures Consume(Consume(m, key, max, windowMs, now).1, key, max, windowMs, later).0.allowed
  {
    var b := Take(At(m, key), DurationOf(windowMs), now);
    var ms := b.resetAtMs - now;
    assert ms <= 1000 * (-((-ms) / 1000)) < ms + 1000;
  }

  // ---------- what the caller asked for ----------

  lemma LimitsAre(max: int, windowMs: int)
    ensures LimitOf(max) == Max(1, max) && DurationOf(windowMs) == Max(1000, windowMs)
  {
  }

  /** In a run over any keys, with pruning anywhere: of the calls of a key that come within windowMs (but
      at least a second) of the first, exactly max (but at least one) are admitted, if its last window
      is over when they begin. */
  lemma RunAdmitsMax(m: Buckets, t: int, steps: seq<Step>, key: string, max: int, windowMs: int)
    requires key != "" && Monotone(t, steps) && TimesOf(steps, key) != []
    requires key in m ==> m[key].resetAtMs <= TimesOf(steps, key)[0]
    requires forall i :: 0 <= i < |steps| && steps[i].Call? && steps[i].key == key ==> steps[i].max == max && steps[i].windowMs == windowMs
    requires forall i :: 0 <= i < |TimesOf(steps, key)| ==> TimesOf(steps, key)[i] < TimesOf(steps, key)[0] + Max(1000, windowMs)
    ensures AdmittedInRun(m, steps, key) == Min(|TimesOf(steps, key)|, Max(1, max))
  {
    hide AdmittedInRun, Admitted, TimesOf;
    LimitsAre(max, windowMs);
    RunAdmitsOwnCalls(m, At(m, key), t, steps, key, Max(1, max), Max(1000, windowMs));
    WindowAdmits(At(m, key), Max(1, max), Max(1000, windowMs), TimesOf(steps, key));
  }

  /** The first call of a window is admitted, and told when the window ends and what is left; a call
      without a key is always admitted and leaves no trace. */
  lemma FirstCallIsTold(m: Buckets, key: string, max: int, windowMs: int, now: int)
    requires key in m ==> m[key].resetAtMs <= now
    ensures
      var (d, m') := Consume(m, key, max, windowMs, now);
      && d == Decision(true, Max(1, max), if key == "" then Max(1, max) else Max(1, max) - 1, now + Max(1000, windowMs), 0)
      && m' == if key == "" then m else m[key := Bucket(1, now + Max(1000, windowMs))]
  {
    LimitsAre(max, windowMs);
    hide LimitOf, DurationOf;
  }
}
