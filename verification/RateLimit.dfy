/** The sliding-window rate limiter of src/rate_limit.rs. It forgets old attempts lazily, key by key,
    and in sweeps; the results below compare it with a limiter that never forgets. */
module RateLimit {

  /** `Vec::retain(|t| t > cutoff)` */
  function Retain(timestamps: seq<int>, cutoff: int): seq<int> {
    if timestamps == [] then []
    else (if timestamps[0] > cutoff then [timestamps[0]] else []) + Retain(timestamps[1..], cutoff)
  }

  type Hits = map<string, seq<int>>

  datatype Limits = Limits(windowMs: int, maxHits: int)

  /** `max` */
  function Most(a: int, b: int): (m: int)
    ensures m >= a && m >= b && (m == a || m == b)
  {
    if a < b then b else a
  }

  /** The clamps of the constructor. */
  function MakeLimits(maxHits: int, windowMs: int): Limits {
    Limits(Most(windowMs, 1), Most(maxHits, 1))
  }

  predicate ValidLimits(l: Limits) { l.windowMs >= 1 && l.maxHits >= 1 }

  function Bucket(hits: Hits, key: string): seq<int> {
    if key in hits then hits[key] else []
  }

  /** The buckets a sweep at time `now` leaves, each without its expired attempts. */
  function Swept(l: Limits, hits: Hits, now: int): Hits {
    map key | key in hits && Retain(hits[key], now - l.windowMs) != [] :: Retain(hits[key], now - l.windowMs)
  }

  datatype Event = Attempt(key: string, now: int) | Sweep(now: int)

  function Accepts(l: Limits, hits: Hits, key: string, now: int): bool {
    |Retain(Bucket(hits, key), now - l.windowMs)| < l.maxHits
  }

  function After(l: Limits, hits: Hits, e: Event): Hits {
    match e
    case Sweep(now) => Swept(l, hits, now)
    case Attempt(key, now) =>
      var live := Retain(Bucket(hits, key), now - l.windowMs);
      hits[key := if Accepts(l, hits, key, now) then live + [now] else live]
  }

  class RateLimiter {
    const limits: Limits
    var hits: Hits

    constructor (maxHits: int, windowMs: int)
      ensures limits == MakeLimits(maxHits, windowMs) && hits == map[]
      ensures limits.maxHits == Most(1, maxHits) && limits.windowMs == Most(1, windowMs)
    {
      limits := MakeLimits(maxHits, windowMs);
      hits := map[];
    }

    method CheckAndRecord(key: string, now: int) returns (allowed: bool)
      modifies this
      ensures allowed == Accepts(limits, old(hits), key, now)
      ensures hits == After(limits, old(hits), Attempt(key, now))
    {
      var cutoff := now - limits.windowMs;
      var entry := Retain(if key in hits then hits[key] else [], cutoff);
      hits := hits[key := entry];
      if |entry| >= limits.maxHits {
        return false;
      }
      hits := hits[key := entry + [now]];
      return true;
    }

    method Prune(now: int)
      modifies this
      ensures hits == After(limits, old(hits), Sweep(now))
    {
      var cutoff := now - limits.windowMs;
      var keys := hits.Keys;
      ghost var was := hits;
      hide Retain;
      while keys != {}
        invariant keys <= was.Keys
        invariant forall key | key in keys :: key in hits && hits[key] == was[key]
        invariant forall key | key in was && key !in keys ::
                    if Retain(was[key], cutoff) == [] then key !in hits
                    else key in hits && hits[key] == Retain(was[key], cutoff)
        invariant hits.Keys <= was.Keys
        decreases |keys|
      {
        var key :| key in keys;
        keys := keys - {key};
        var live := Retain(hits[key], cutoff);
        hits := if live == [] then hits - {key} else hits[key := live];
      }
    }
  }

  // ---------------------------------------------------------------------------
  // The limiter that never forgets
  // ---------------------------------------------------------------------------

  datatype Hit = Hit(key: string, time: int)

  /** Accepted attempts for `key` later than `cutoff` and no later than `until`. */
  function CountBetween(log: seq<Hit>, key: string, cutoff: int, until: int): nat {
    if log == [] then 0
    else
      var last := log[|log| - 1];
      CountBetween(log[..|log| - 1], key, cutoff, until)
      + if last.key == key && cutoff < last.time <= until then 1 else 0
  }

  predicate ReferenceAccepts(l: Limits, log: seq<Hit>, key: string, now: int) {
    CountBetween(log, key, now - l.windowMs, now) < l.maxHits
  }

  function ReferenceAfter(l: Limits, log: seq<Hit>, e: Event): seq<Hit> {
    if e.Attempt? && ReferenceAccepts(l, log, e.key, e.now) then log + [Hit(e.key, e.now)] else log
  }

  /** The answers over a run that starts in `hits`; sweeps answer nothing. */
  function Answers(l: Limits, hits: Hits, events: seq<Event>): seq<bool>
    decreases |events|
  {
    if events == [] then []
    else
      var e := events[0];
      (if e.Attempt? then [Accepts(l, hits, e.key, e.now)] else []) + Answers(l, After(l, hits, e), events[1..])
  }

  function ReferenceAnswers(l: Limits, log: seq<Hit>, events: seq<Event>): seq<bool>
    decreases |events|
  {
    if events == [] then []
    else
      var e := events[0];
      (if e.Attempt? then [ReferenceAccepts(l, log, e.key, e.now)] else [])
      + ReferenceAnswers(l, ReferenceAfter(l, log, e), events[1..])
  }

  /** The log of accepted attempts a run leaves. */
  function ReferenceLog(l: Limits, log: seq<Hit>, events: seq<Event>): seq<Hit>
    decreases |events|
  {
    if events == [] then log else ReferenceLog(l, ReferenceAfter(l, log, events[0]), events[1..])
  }

  predicate ClockFrom(events: seq<Event>, start: int) {
    events == [] || (start <= events[0].now && ClockFrom(events[1..], events[0].now))
  }

  // ---------------------------------------------------------------------------
  // Simulation
  // ---------------------------------------------------------------------------

  /** From time `now` on, what the limiter still remembers counts the same as the full log. */
  ghost predicate Agrees(l: Limits, hits: Hits, log: seq<Hit>, now: int) {
    && (forall key, cutoff: int | cutoff >= now - l.windowMs ::
          |Retain(Bucket(hits, key), cutoff)| == CountBetween(log, key, cutoff, now))
    && forall h | h in log :: h.time <= now
  }

  lemma {:induction false} RetainTwice(ts: seq<int>, low: int, high: int)
    requires low <= high
    ensures Retain(Retain(ts, low), high) == Retain(ts, high)
  {
    if ts != [] {
      RetainTwice(ts[1..], low, high);
      var rest := Retain(ts[1..], low);
      if ts[0] > low {
        assert ([ts[0]] + rest)[1..] == rest;
      } else {
        assert [] + rest == rest;
      }
    }
  }

  lemma {:induction false} RetainAppended(ts: seq<int>, t: int, cutoff: int)
    ensures Retain(ts + [t], cutoff) == Retain(ts, cutoff) + if t > cutoff then [t] else []
  {
    if ts == [] {
      assert [] + [t] == [t] && [t][1..] == [];
    } else {
      assert (ts + [t])[0] == ts[0] && (ts + [t])[1..] == ts[1..] + [t];
      RetainAppended(ts[1..], t, cutoff);
    }
  }

  lemma {:induction false} CountUntilLater(log: seq<Hit>, key: string, cutoff: int, until: int, later: int)
    requires until <= later && forall h | h in log :: h.time <= until
    ensures CountBetween(log, key, cutoff, until) == CountBetween(log, key, cutoff, later)
  {
    if log != [] {
      assert log[|log| - 1] in log;
      CountUntilLater(log[..|log| - 1], key, cutoff, until, later);
    }
  }

  lemma CountAppended(log: seq<Hit>, h: Hit, key: string, cutoff: int, until: int)
    ensures CountBetween(log + [h], key, cutoff, until)
         == CountBetween(log, key, cutoff, until) + if h.key == key && cutoff < h.time <= until then 1 else 0
  {
    assert (log + [h])[..|log|] == log;
  }

  lemma AgreementStep(l: Limits, hits: Hits, log: seq<Hit>, now: int, e: Event)
    requires ValidLimits(l) && Agrees(l, hits, log, now) && now <= e.now
    ensures Agrees(l, After(l, hits, e), ReferenceAfter(l, log, e), e.now)
    ensures e.Attempt? ==> Accepts(l, hits, e.key, e.now) == ReferenceAccepts(l, log, e.key, e.now)
  {
    hide Retain, CountBetween;
    var hits', log' := After(l, hits, e), ReferenceAfter(l, log, e);
    var low := e.now - l.windowMs;
    forall key, cutoff: int | cutoff >= low
      ensures |Retain(Bucket(hits, key), cutoff)| == CountBetween(log, key, cutoff, e.now)
    {
      CountUntilLater(log, key, cutoff, now, e.now);
    }
    forall key, cutoff: int | cutoff >= low
      ensures |Retain(Bucket(hits', key), cutoff)| == CountBetween(log', key, cutoff, e.now)
    {
      var live := Retain(Bucket(hits, key), low);
      RetainTwice(Bucket(hits, key), low, cutoff);
      RetainNothing(cutoff);
      if e.Attempt? {
        if key == e.key { RetainAppended(live, e.now, cutoff); }
        CountAppended(log, Hit(e.key, e.now), key, cutoff, e.now);
      }
    }
  }

  lemma RetainNothing(cutoff: int)
    ensures Retain([], cutoff) == []
  {
  }

  lemma {:induction false} AnswersAgree(l: Limits, hits: Hits, log: seq<Hit>, now: int, events: seq<Event>)
    requires ValidLimits(l) && Agrees(l, hits, log, now) && ClockFrom(events, now)
    ensures Answers(l, hits, events) == ReferenceAnswers(l, log, events)
    decreases |events|
  {
    if events != [] {
      var e := events[0];
      AgreementStep(l, hits, log, now, e);
      AnswersAgree(l, After(l, hits, e), ReferenceAfter(l, log, e), e.now, events[1..]);
    }
  }

  /** Forgetting, lazily and in sweeps at any moment, never changes an answer: over every run with a
      clock that does not step back the limiter answers as the one that keeps its full history. */
  lemma ForgettingIsInvisible(maxHits: int, windowMs: int, start: int, events: seq<Event>)
    requires ClockFrom(events, start)
    ensures var l := MakeLimits(maxHits, windowMs);
            Answers(l, map[], events) == ReferenceAnswers(l, [], events)
  {
    AnswersAgree(MakeLimits(maxHits, windowMs), map[], [], start, events);
  }

  // ---------------------------------------------------------------------------
  // The promise of the window
  // ---------------------------------------------------------------------------

  ghost predicate WithinQuota(l: Limits, log: seq<Hit>) {
    forall key, t: int :: CountInWindow(l, log, key, t) <= l.maxHits
  }

  /** Attempts accepted for `key` in (t - windowMs, t]. */
  function CountInWindow(l: Limits, log: seq<Hit>, key: string, t: int): nat {
    CountBetween(log, key, t - l.windowMs, t)
  }

  lemma {:induction false} NarrowerCountsLess(log: seq<Hit>, key: string, low: int, high: int, until: int, later: int)
    requires low <= high && until <= later
    ensures CountBetween(log, key, high, until) <= CountBetween(log, key, low, later)
  {
    if log != [] { NarrowerCountsLess(log[..|log| - 1], key, low, high, until, later); }
  }

  lemma QuotaStep(l: Limits, log: seq<Hit>, now: int, e: Event)
    requires ValidLimits(l) && WithinQuota(l, log) && now <= e.now && forall h | h in log :: h.time <= now
    ensures WithinQuota(l, ReferenceAfter(l, log, e))
  {
    var log' := ReferenceAfter(l, log, e);
    if log' != log {
      assert log'[..|log'| - 1] == log;
      forall key, t: int ensures CountInWindow(l, log', key, t) <= l.maxHits {
        assert CountInWindow(l, log, key, t) <= l.maxHits;
        if key == e.key && t >= e.now {
          NarrowerCountsLess(log, key, e.now - l.windowMs, t - l.windowMs, t, t);
          CountUntilLater(log, key, e.now - l.windowMs, now, e.now);
          CountUntilLater(log, key, e.now - l.windowMs, now, t);
        }
      }
    }
  }

  lemma {:induction false} QuotaOverRun(l: Limits, log: seq<Hit>, now: int, events: seq<Event>)
    requires ValidLimits(l) && WithinQuota(l, log) && ClockFrom(events, now) && forall h | h in log :: h.time <= now
    ensures WithinQuota(l, ReferenceLog(l, log, events))
    decreases |events|
  {
    if events != [] {
      QuotaStep(l, log, now, events[0]);
      QuotaOverRun(l, ReferenceAfter(l, log, events[0]), events[0].now, events[1..]);
    }
  }

  // ---------------------------------------------------------------------------
  // What the limiter itself lets through
  // ---------------------------------------------------------------------------

  /** The table after a run. */
  function TableAfter(l: Limits, hits: Hits, events: seq<Event>): Hits
    decreases |events|
  {
    if events == [] then hits else TableAfter(l, After(l, hits, events[0]), events[1..])
  }

  /** The attempts the limiter accepts over a run, after those in `log`. */
  function AcceptedLog(l: Limits, hits: Hits, log: seq<Hit>, events: seq<Event>): seq<Hit>
    decreases |events|
  {
    if events == [] then log
    else
      var e := events[0];
      var log' := if e.Attempt? && Accepts(l, hits, e.key, e.now) then log + [Hit(e.key, e.now)] else log;
      AcceptedLog(l, After(l, hits, e), log', events[1..])
  }

  function EndTime(events: seq<Event>, start: int): int {
    if events == [] then start else events[|events| - 1].now
  }

  /** The limiter accepts what the one that never forgets accepts, and ends a run remembering enough. */
  lemma {:induction false} LogsAgree(l: Limits, hits: Hits, log: seq<Hit>, now: int, events: seq<Event>)
    requires ValidLimits(l) && Agrees(l, hits, log, now) && ClockFrom(events, now)
    ensures AcceptedLog(l, hits, log, events) == ReferenceLog(l, log, events)
    ensures Agrees(l, TableAfter(l, hits, events), AcceptedLog(l, hits, log, events), EndTime(events, now))
    decreases |events|
  {
    if events != [] {
      hide Agrees, Accepts, ReferenceAccepts, After;
      var e := events[0];
      AgreementStep(l, hits, log, now, e);
      LogsAgree(l, After(l, hits, e), ReferenceAfter(l, log, e), e.now, events[1..]);
    }
  }

  lemma StartAgrees(l: Limits, start: int)
    ensures Agrees(l, map[], [], start)
  {
  }

  lemma NothingAccepted(l: Limits)
    requires ValidLimits(l)
    ensures WithinQuota(l, [])
  {
  }

  /** Over every run, in every window (t - windowMs, t] and for every key a limiter made with these arguments
      accepts at most maxHits attempts; arguments below 1 count as 1. */
  lemma NeverMoreThanMaxHitsPerWindow(maxHits: int, windowMs: int, start: int, events: seq<Event>, key: string, t: int)
    requires ClockFrom(events, start)
    ensures var accepted := AcceptedLog(MakeLimits(maxHits, windowMs), map[], [], events);
            CountBetween(accepted, key, t - Most(1, windowMs), t) <= Most(1, maxHits)
  {
    hide AcceptedLog, ReferenceLog, CountBetween, ClockFrom, Agrees;
    var l := MakeLimits(maxHits, windowMs);
    NothingAccepted(l);
    QuotaOverRun(l, [], start, events);
    StartAgrees(l, start);
    LogsAgree(l, map[], [], start, events);
    assert CountInWindow(l, ReferenceLog(l, [], events), key, t) <= l.maxHits;
  }

  /** After any run an attempt is refused exactly when the limiter has accepted the full quota in the
      window that ends with it, not fewer. */
  lemma RefusedOnlyWhenSaturated(maxHits: int, windowMs: int, start: int, events: seq<Event>, key: string, now: int)
    requires ClockFrom(events, start) && EndTime(events, start) <= now
    ensures var l := MakeLimits(maxHits, windowMs);
            !Accepts(l, TableAfter(l, map[], events), key, now)
            <==> CountBetween(AcceptedLog(l, map[], [], events), key, now - Most(1, windowMs), now) == Most(1, maxHits)
  {
    hide AcceptedLog, ReferenceLog, TableAfter, After, ReferenceAfter, Retain, CountBetween, ClockFrom, EndTime, Agrees;
    var l := MakeLimits(maxHits, windowMs);
    NeverMoreThanMaxHitsPerWindow(maxHits, windowMs, start, events, key, now);
    StartAgrees(l, start);
    LogsAgree(l, map[], [], start, events);
    AgreementStep(l, TableAfter(l, map[], events), AcceptedLog(l, map[], [], events), EndTime(events, start),
      Attempt(key, now));
  }

  /** The clock must not step back: a sweep far in the future forgets an attempt that an earlier
      instant still has to count. */
  lemma ClockStepsBackForgets()
    ensures var l := MakeLimits(1, 10);
            var run := [Attempt("k", 100), Sweep(200), Attempt("k", 101)];
            Answers(l, map[], run) == [true, true] && ReferenceAnswers(l, [], run) == [true, false]
  {
    var l := MakeLimits(1, 10);
    var run := [Attempt("k", 100), Sweep(200), Attempt("k", 101)];
    var h1 := After(l, map[], run[0]);
    assert Retain([], 90) == [] && h1 == map["k" := [100]] by { assert [] + [100] == [100]; }
    assert Retain([100], 190) == [] by { assert [100][1..] == []; }
    var h2 := After(l, h1, run[1]);
    assert h2 == map[];
    assert run[1..] == [Sweep(200), Attempt("k", 101)] && run[1..][1..] == [Attempt("k", 101)];
    assert Answers(l, h2, [Attempt("k", 101)]) == [true];
    var log := [Hit("k", 100)];
    assert log[..0] == [];
    assert ReferenceAfter(l, [], run[0]) == log;
    assert CountBetween(log, "k", 91, 101) == 1;
    assert ReferenceAnswers(l, log, [Attempt("k", 101)]) == [false];
  }
}
