/** The event list and the throttled logging of repeated events (lib/events.js:79-84,
    lib/events.js:148-162). */
module EventLog {
  type Retention = x: int | x > 0 witness 1

  // lib/constants.js:228; 5000 unless set.
  const EVENT_RETENTION: Retention

  /** An event, logged under a throttle key or directly; `suppressed` is the count appended to its
      detail text, 0 when nothing is appended. */
  datatype Event = Throttled(key: string, at: int, suppressed: nat) | Direct(at: int)

  datatype Window = Window(lastAt: int, suppressed: nat)

  /** The newest n of a history, newest first. */
  function Newest<T>(history: seq<T>, n: nat): (list: seq<T>)
    ensures |list| <= n
    ensures |list| <= |history| && forall i :: 0 <= i < |list| ==> list[i] == history[|history| - 1 - i]
  {
    var len := if n < |history| then n else |history|;
    seq(len, i requires 0 <= i < len => history[|history| - 1 - i])
  }

  /** unshift followed by cutting the list to n keeps the newest n. */
  lemma PushKeepsNewest<T>(history: seq<T>, n: nat, e: T)
    requires n > 0
    ensures
      var pushed := [e] + Newest(history, n);
      Newest(history + [e], n) == if |pushed| > n then pushed[..n] else pushed
  {
    var pushed := [e] + Newest(history, n);
    var cut := if |pushed| > n then pushed[..n] else pushed;
    assert |cut| == |Newest(history + [e], n)|;
    forall i | 0 <= i < |cut| ensures cut[i] == Newest(history + [e], n)[i] { }
  }

  /** The events, the throttle windows and, for the proofs, every event ever logged. */
  datatype Store = Store(events: seq<Event>, eventThrottle: map<string, Window>, logged: seq<Event>)

  const EMPTY := Store([], map[], [])

  function WindowOf(s: Store, key: string): Window {
    if key in s.eventThrottle then s.eventThrottle[key] else Window(0, 0)
  }

  function Log(s: Store, e: Event): Store {
    s.(events := Newest(s.logged + [e], EVENT_RETENTION), logged := s.logged + [e])
  }

  function LogThrottled(s: Store, key: string, minIntervalMs: int, now: int): Store {
    var w := WindowOf(s, key);
    if now - w.lastAt < minIntervalMs then
      s.(eventThrottle := s.eventThrottle[key := Window(w.lastAt, w.suppressed + 1)])
    else Log(s.(eventThrottle := s.eventThrottle[key := Window(now, 0)]), Throttled(key, now, w.suppressed))
  }

  class EventState {
    var events: seq<Event>
    var eventThrottle: map<string, Window>
    ghost var logged: seq<Event>

    ghost function State(): Store
      reads this
    {
      Store(events, eventThrottle, logged)
    }

    /** The list holds the newest events of all that were logged. */
    ghost predicate Valid()
      reads this
    {
      events == Newest(logged, EVENT_RETENTION)
    }

    constructor ()
      ensures Valid() && State() == EMPTY
    {
      events, eventThrottle, logged := [], map[], [];
    }

    /** logEvent (lib/events.js:79-84). */
    method LogEvent(e: Event)
      requires Valid()
      modifies this
      ensures Valid() && State() == Log(old(State()), e)
    {
      PushKeepsNewest(logged, EVENT_RETENTION, e);
      events := [e] + events;
      if |events| > EVENT_RETENTION { events := events[..EVENT_RETENTION]; }
      logged := logged + [e];
    }

    /** logEventThrottled (lib/events.js:148-162). */
    method LogEventThrottled(key: string, minIntervalMs: int, now: int)
      requires Valid()
      modifies this
      ensures Valid() && State() == LogThrottled(old(State()), key, minIntervalMs, now)
    {
      var window := if key in eventThrottle then eventThrottle[key] else Window(0, 0);
      if now - window.lastAt < minIntervalMs {
        window := window.(suppressed := window.suppressed + 1);
        eventThrottle := eventThrottle[key := window];
        return;
      }
      var e := Throttled(key, now, if window.suppressed > 0 then window.suppressed else 0);
      eventThrottle := eventThrottle[key := Window(now, 0)];
      LogEvent(e);
    }
  }

  // ---------- whole runs ----------

  /** A throttled call, or an event logged without a key. */
  datatype Call = Repeated(key: string, minIntervalMs: int, now: int) | Once(now: int)

  function Apply(s: Store, c: Call): Store {
    match c
    case Repeated(key, minIntervalMs, now) => LogThrottled(s, key, minIntervalMs, now)
    case Once(now) => Log(s, Direct(now))
  }

  function Run(s: Store, calls: seq<Call>): Store
    decreases |calls|
  {
    if calls == [] then s else Run(Apply(s, calls[0]), calls[1..])
  }

  function CallsOf(calls: seq<Call>, key: string): nat {
    if calls == [] then 0
    else (if calls[0].Repeated? && calls[0].key == key then 1 else 0) + CallsOf(calls[1..], key)
  }

  predicate Under(e: Event, key: string) { e.Throttled? && e.key == key }

  /** The events of a key, and the suppressed calls they report. */
  function EventsOf(logged: seq<Event>, key: string): (events: seq<Event>)
    ensures forall i :: 0 <= i < |events| ==> events[i].Throttled?
  {
    if logged == [] then []
    else
      EventsOf(logged[..|logged| - 1], key)
      + if Under(logged[|logged| - 1], key) then [logged[|logged| - 1]] else []
  }

  function Reported(events: seq<Event>): nat
    requires forall i :: 0 <= i < |events| ==> events[i].Throttled?
  {
    if events == [] then 0 else Reported(events[..|events| - 1]) + events[|events| - 1].suppressed
  }

  lemma LoggedOne(logged: seq<Event>, e: Event, key: string)
    ensures EventsOf(logged + [e], key) == EventsOf(logged, key) + if Under(e, key) then [e] else []
    ensures Reported(EventsOf(logged + [e], key)) == Reported(EventsOf(logged, key)) + if Under(e, key) then e.suppressed else 0
  {
    var before := EventsOf(logged, key);
    assert (logged + [e])[..|logged|] == logged;
    assert before + [] == before;
    assert (before + [e])[..|before|] == before;
  }

  /** The event that a call would log. */
  function EventLogged(s: Store, c: Call): Event {
    if c.Once? then Direct(c.now) else Throttled(c.key, c.now, WindowOf(s, c.key).suppressed)
  }

  /** The calls of a key that a store accounts for: logged, reported as suppressed, and suppressed
      since the last report. */
  function AccountedFor(s: Store, key: string): nat {
    |EventsOf(s.logged, key)| + Reported(EventsOf(s.logged, key)) + WindowOf(s, key).suppressed
  }

  lemma CallIsAccountedFor(s: Store, c: Call, key: string)
    ensures AccountedFor(Apply(s, c), key) == AccountedFor(s, key) + if c.Repeated? && c.key == key then 1 else 0
  {
    hide EventsOf, Reported, Newest;
    LoggedOne(s.logged, EventLogged(s, c), key);
  }

  /** No call is lost, in any run: per key, calls are events logged, plus suppressed calls reported,
      plus those suppressed since. */
  lemma {:induction false} ThrottleConserves(s: Store, calls: seq<Call>, key: string)
    ensures AccountedFor(Run(s, calls), key) == AccountedFor(s, key) + CallsOf(calls, key)
    decreases |calls|
  {
    hide AccountedFor, Apply;
    if calls != [] {
      CallIsAccountedFor(s, calls[0], key);
      ThrottleConserves(Apply(s, calls[0]), calls[1..], key);
    }
  }

  predicate FixedInterval(calls: seq<Call>, key: string, minIntervalMs: int) {
    forall i :: 0 <= i < |calls| && calls[i].Repeated? && calls[i].key == key ==> calls[i].minIntervalMs == minIntervalMs
  }

  /** Consecutive events are at least the interval apart. */
  predicate Spaced(events: seq<Event>, minIntervalMs: int) {
    forall i :: 0 < i < |events| ==> events[i].at - events[i - 1].at >= minIntervalMs
  }

  predicate Paced(s: Store, key: string, minIntervalMs: int) {
    var es := EventsOf(s.logged, key);
    Spaced(es, minIntervalMs) && (es != [] ==> es[|es| - 1].at == WindowOf(s, key).lastAt)
  }

  lemma CallKeepsPace(s: Store, c: Call, key: string, minIntervalMs: int)
    requires Paced(s, key, minIntervalMs)
    requires c.Repeated? && c.key == key ==> c.minIntervalMs == minIntervalMs
    ensures Paced(Apply(s, c), key, minIntervalMs)
  {
    hide EventsOf, Reported, Newest;
    LoggedOne(s.logged, EventLogged(s, c), key);
  }

  lemma {:induction false} RunKeepsPace(s: Store, calls: seq<Call>, key: string, minIntervalMs: int)
    requires FixedInterval(calls, key, minIntervalMs) && Paced(s, key, minIntervalMs)
    ensures Paced(Run(s, calls), key, minIntervalMs)
    decreases |calls|
  {
    hide Paced, Apply;
    if calls != [] {
      CallKeepsPace(s, calls[0], key, minIntervalMs);
      RunKeepsPace(Apply(s, calls[0]), calls[1..], key, minIntervalMs);
    }
  }

  /** With a fixed interval, the events of a key are at least that interval apart, in every run. */
  lemma ThrottleSpaces(calls: seq<Call>, key: string, minIntervalMs: int)
    requires FixedInterval(calls, key, minIntervalMs)
    ensures Spaced(EventsOf(Run(EMPTY, calls).logged, key), minIntervalMs)
  {
    RunKeepsPace(EMPTY, calls, key, minIntervalMs);
  }

  // ---------- when a call is logged ----------

  /** When the newest event of a key was logged; 0 before the first. */
  function LastLogged(events: seq<Event>): int {
    if events == [] then 0 else events[|events| - 1].at
  }

  lemma CallMovesWindow(s: Store, c: Call, key: string)
    requires WindowOf(s, key).lastAt == LastLogged(EventsOf(s.logged, key))
    ensures WindowOf(Apply(s, c), key).lastAt == LastLogged(EventsOf(Apply(s, c).logged, key))
  {
    hide EventsOf, Reported, Newest;
    LoggedOne(s.logged, EventLogged(s, c), key);
  }

  lemma {:induction false} RunMovesWindow(s: Store, calls: seq<Call>, key: string)
    requires WindowOf(s, key).lastAt == LastLogged(EventsOf(s.logged, key))
    ensures WindowOf(Run(s, calls), key).lastAt == LastLogged(EventsOf(Run(s, calls).logged, key))
    decreases |calls|
  {
    hide Apply, EventsOf, LastLogged, WindowOf;
    if calls != [] {
      CallMovesWindow(s, calls[0], key);
      RunMovesWindow(Apply(s, calls[0]), calls[1..], key);
    }
  }

  /** After any run a throttled call is logged exactly when the interval has passed since the last event
      of its key, and then says how many calls of the key were neither logged nor reported so far. */
  lemma CallIsLoggedIff(calls: seq<Call>, key: string, minIntervalMs: int, now: int)
    ensures
      var s := Run(EMPTY, calls);
      var es, logged := EventsOf(s.logged, key), LogThrottled(s, key, minIntervalMs, now).logged;
      && CallsOf(calls, key) >= |es| + Reported(es)
      && if now - LastLogged(es) < minIntervalMs then logged == s.logged
         else logged == s.logged + [Throttled(key, now, CallsOf(calls, key) - |es| - Reported(es))]
  {
    RunMovesWindow(EMPTY, calls, key);
    ThrottleConserves(EMPTY, calls, key);
    hide Run, EventsOf, Reported, Newest, LastLogged, CallsOf;
  }

  /** The list shows the newest events of all that were logged, and every event logged without a key is
      among them. */
  lemma {:induction false} EventsAreNewest(s: Store, calls: seq<Call>)
    requires s.events == Newest(s.logged, EVENT_RETENTION)
    ensures Run(s, calls).events == Newest(Run(s, calls).logged, EVENT_RETENTION)
    ensures DirectTimes(Run(s, calls).logged) == DirectTimes(s.logged) + OnceTimes(calls)
    decreases |calls|
  {
    hide Newest, DirectTimes;
    if calls == [] {
      assert DirectTimes(s.logged) + [] == DirectTimes(s.logged);
    } else {
      var next := Apply(s, calls[0]);
      LoggedDirect(s.logged, EventLogged(s, calls[0]));
      EventsAreNewest(next, calls[1..]);
      var before, rest := DirectTimes(s.logged), OnceTimes(calls[1..]);
      assert before + [calls[0].now] + rest == before + ([calls[0].now] + rest);
      assert [] + rest == rest;
    }
  }

  /** The times of the events logged without a key, and of the calls that log them. */
  function DirectTimes(logged: seq<Event>): seq<int> {
    if logged == [] then []
    else
      DirectTimes(logged[..|logged| - 1])
      + if logged[|logged| - 1].Direct? then [logged[|logged| - 1].at] else []
  }

  function OnceTimes(calls: seq<Call>): seq<int> {
    if calls == [] then [] else (if calls[0].Once? then [calls[0].now] else []) + OnceTimes(calls[1..])
  }

  lemma LoggedDirect(logged: seq<Event>, e: Event)
    ensures DirectTimes(logged + [e]) == if e.Direct? then DirectTimes(logged) + [e.at] else DirectTimes(logged)
  {
    assert (logged + [e])[..|logged|] == logged;
    var before := DirectTimes(logged);
    assert before + [] == before;
  }
}
