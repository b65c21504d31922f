/** The token-bucket rate limiter and its janitor, over exact arithmetic. */
module RateLimit {

  type Client = string

  datatype Bucket = Bucket(tokens: real, lastSeen: real)

  type Buckets = map<Client, Bucket>

  datatype Policy = Policy(limit: int, burst: int, window: real)

  /** A burst that is absent or beyond the limit becomes the limit. */
  function NewPolicy(limit: int, window: real, burst: int): Policy {
    Policy(limit, if burst <= 0 || burst > limit then limit else burst, window)
  }

  /** The policies NewRateLimiter makes; its janitor's ticker demands a positive window. */
  predicate Made(p: Policy) {
    p.window > 0.0 && (p.burst == p.limit || 0 < p.burst < p.limit)
  }

  function Rate(p: Policy): real
    requires p.window > 0.0
  {
    p.limit as real / p.window
  }

  /** What a span of time refills. */
  function Gain(p: Policy, span: real): real
    requires p.window > 0.0
  {
    span * Rate(p)
  }

  function AtMost(x: real, cap: real): real {
    if x > cap then cap else x
  }

  /** The tokens a client would find at the given time. */
  function Level(p: Policy, buckets: Buckets, c: Client, now: real): real
    requires p.window > 0.0
  {
    if c !in buckets then p.burst as real
    else AtMost(buckets[c].tokens + Gain(p, now - buckets[c].lastSeen), p.burst as real)
  }

  /** A first request is admitted whatever the burst. */
  predicate Admits(p: Policy, buckets: Buckets, c: Client, now: real)
    requires p.window > 0.0
  {
    c !in buckets || Level(p, buckets, c, now) >= 1.0
  }

  function Price(p: Policy, buckets: Buckets, c: Client, now: real): nat
    requires p.window > 0.0
  {
    if Admits(p, buckets, c, now) then 1 else 0
  }

  function Charged(p: Policy, buckets: Buckets, c: Client, now: real): Buckets
    requires p.window > 0.0
  {
    buckets[c := Bucket(Level(p, buckets, c, now) - Price(p, buckets, c, now) as real, now)]
  }

  predicate Stale(p: Policy, b: Bucket, now: real) {
    b.lastSeen < now - 2.0 * p.window
  }

  function Swept(p: Policy, buckets: Buckets, now: real): Buckets {
    map c | c in buckets && !Stale(p, buckets[c], now) :: buckets[c]
  }

  class RateLimiter {
    const policy: Policy
    var buckets: Buckets

    constructor (limit: int, window: real, burst: int)
      requires window > 0.0
      ensures policy == Policy(limit, if 0 < burst <= limit then burst else limit, window) && Made(policy)
      ensures policy == NewPolicy(limit, window, burst) && buckets == map[]
    {
      policy := NewPolicy(limit, window, burst);
      buckets := map[];
    }

    method Allow(c: Client, now: real) returns (admitted: bool)
      requires policy.window > 0.0
      modifies this
      ensures admitted == Admits(policy, old(buckets), c, now)
      ensures buckets == Charged(policy, old(buckets), c, now)
    {
      if c !in buckets {
        buckets := buckets[c := Bucket(policy.burst as real - 1.0, now)];
        return true;
      }
      var b := buckets[c];
      var tokens := b.tokens + Gain(policy, now - b.lastSeen);
      if tokens > policy.burst as real {
        tokens := policy.burst as real;
      }
      if tokens < 1.0 {
        buckets := buckets[c := Bucket(tokens, now)];
        return false;
      }
      buckets := buckets[c := Bucket(tokens - 1.0, now)];
      admitted := true;
    }

    method EvictStale(now: real)
      modifies this
      ensures buckets == Swept(policy, old(buckets), now)
      ensures forall c :: c in buckets <==> c in old(buckets) && old(buckets)[c].lastSeen >= now - 2.0 * policy.window
      ensures forall c | c in buckets :: buckets[c] == old(buckets)[c]
    {
      var rest := buckets.Keys;
      while rest != {}
        invariant rest <= old(buckets).Keys
        invariant buckets == map c | c in old(buckets) && (c in rest || !Stale(policy, old(buckets)[c], now)) :: old(buckets)[c]
        decreases |rest|
      {
        var c :| c in rest;
        if Stale(policy, buckets[c], now) {
          buckets := buckets - {c};
        }
        rest := rest - {c};
      }
    }
  }

  // ---------------------------------------------------------------- runs

  datatype Event = Request(client: Client, at: real) | Evict(at: real)

  function Step(p: Policy, buckets: Buckets, e: Event): Buckets
    requires p.window > 0.0
  {
    match e
    case Request(c, now) => Charged(p, buckets, c, now)
    case Evict(now) => Swept(p, buckets, now)
  }

  function Run(p: Policy, buckets: Buckets, events: seq<Event>): Buckets
    requires p.window > 0.0
    decreases |events|
  {
    if events == [] then buckets else Run(p, Step(p, buckets, events[0]), events[1..])
  }

  /** What the requests of a run are told, in order. */
  function Answers(p: Policy, buckets: Buckets, events: seq<Event>): seq<bool>
    requires p.window > 0.0
    decreases |events|
  {
    if events == [] then []
    else
      (if events[0].Request? then [Admits(p, buckets, events[0].client, events[0].at)] else []) +
      Answers(p, Step(p, buckets, events[0]), events[1..])
  }

  /** The clock never runs backwards. */
  predicate Timely(clock: real, events: seq<Event>)
    decreases |events|
  {
    events == [] || (clock <= events[0].at && Timely(events[0].at, events[1..]))
  }

  function End(clock: real, events: seq<Event>): real
    decreases |events|
  {
    if events == [] then clock else End(events[0].at, events[1..])
  }

  function Cost(p: Policy, buckets: Buckets, e: Event, c: Client): nat
    requires p.window > 0.0
  {
    if e == Request(c, e.at) then Price(p, buckets, c, e.at) else 0
  }

  /** How many of the client's requests a run admits. */
  function Admitted(p: Policy, buckets: Buckets, events: seq<Event>, c: Client): nat
    requires p.window > 0.0
    decreases |events|
  {
    if events == [] then 0
    else
      Cost(p, buckets, events[0], c) + Admitted(p, Step(p, buckets, events[0]), events[1..], c)
  }

  /** Tokens stay between nothing and the burst. */
  ghost predicate InRange(p: Policy, buckets: Buckets, clock: real) {
    forall c | c in buckets :: 0.0 <= buckets[c].tokens <= p.burst as real && buckets[c].lastSeen <= clock
  }

  lemma Grows(p: Policy, span: real)
    requires Made(p) && p.limit >= 1 && span >= 0.0
    ensures Gain(p, span) >= 0.0
  {
  }

  lemma Spans(p: Policy, a: real, b: real, c: real)
    requires p.window > 0.0
    ensures Gain(p, b - a) + Gain(p, c - b) == Gain(p, c - a)
  {
  }

  /** Waiting adds what the rate gives, and never more. */
  lemma LevelRises(p: Policy, buckets: Buckets, c: Client, a: real, b: real)
    requires Made(p) && p.limit >= 1 && InRange(p, buckets, a) && a <= b
    ensures 0.0 <= Level(p, buckets, c, a) <= Level(p, buckets, c, b) <= p.burst as real
    ensures Level(p, buckets, c, b) <= Level(p, buckets, c, a) + Gain(p, b - a)
  {
    Grows(p, b - a);
    if c in buckets {
      Grows(p, a - buckets[c].lastSeen);
      Spans(p, buckets[c].lastSeen, a, b);
    }
  }

  /** A bucket that was idle for two windows is full again, so nothing is lost when it goes. */
  lemma StaleMeansFull(p: Policy, b: Bucket, now: real)
    requires Made(p) && p.limit >= 1 && 0.0 <= b.tokens && Stale(p, b, now)
    ensures b.tokens + Gain(p, now - b.lastSeen) >= p.burst as real
  {
    var since, full := b.lastSeen, b.lastSeen + 2.0 * p.window;
    Spans(p, since, full, now);
    Grows(p, now - full);
    TwoWindows(p);
    assert full - since == 2.0 * p.window;
  }

  lemma TwoWindows(p: Policy)
    requires p.window > 0.0
    ensures Gain(p, 2.0 * p.window) == 2.0 * p.limit as real
    ensures Gain(p, 0.0) == 0.0
  {
    assert p.window * Rate(p) == p.limit as real;
  }

  lemma LevelNow(p: Policy, buckets: Buckets, c: Client, tokens: real, now: real)
    requires p.window > 0.0
    ensures Level(p, buckets[c := Bucket(tokens, now)], c, now) == AtMost(tokens, p.burst as real)
  {
    TwoWindows(p);
    assert now - now == 0.0;
  }

  lemma LevelAfter(p: Policy, buckets: Buckets, e: Event, clock: real, c: Client)
    requires Made(p) && p.limit >= 1 && InRange(p, buckets, clock) && clock <= e.at
    ensures InRange(p, Step(p, buckets, e), e.at)
    ensures Level(p, Step(p, buckets, e), c, e.at) ==
            Level(p, buckets, c, e.at) - Cost(p, buckets, e, c) as real
  {
    match e
    case Request(d, now) =>
      LevelRises(p, buckets, d, clock, now);
      LevelNow(p, buckets, d, Level(p, buckets, d, now) - Price(p, buckets, d, now) as real, now);
    case Evict(now) =>
      if c in buckets && Stale(p, buckets[c], now) {
        StaleMeansFull(p, buckets[c], now);
      }
  }

  lemma {:induction false} RunStaysInRange(p: Policy, buckets: Buckets, events: seq<Event>, clock: real)
    requires Made(p) && p.limit >= 1 && InRange(p, buckets, clock) && Timely(clock, events)
    ensures InRange(p, Run(p, buckets, events), End(clock, events)) && clock <= End(clock, events)
    decreases |events|
  {
    if events != [] {
      LevelAfter(p, buckets, events[0], clock, "");
      RunStaysInRange(p, Step(p, buckets, events[0]), events[1..], events[0].at);
    }
  }

  /** What a run admits is paid for: by the tokens at its start and by those the time brings. */
  lemma {:induction false} AdmittedIsPaidFor(p: Policy, buckets: Buckets, events: seq<Event>, clock: real, c: Client)
    requires Made(p) && p.limit >= 1 && InRange(p, buckets, clock) && Timely(clock, events)
    ensures Admitted(p, buckets, events, c) as real + Level(p, Run(p, buckets, events), c, End(clock, events))
         <= Level(p, buckets, c, clock) + Gain(p, End(clock, events) - clock)
    decreases |events|
  {
    if events == [] {
      TwoWindows(p);
      assert clock - clock == 0.0;
    } else {
      var e := events[0];
      OneStepIsPaidFor(p, buckets, e, clock, c);
      AdmittedIsPaidFor(p, Step(p, buckets, e), events[1..], e.at, c);
      Spans(p, clock, e.at, End(clock, events));
    }
  }

  lemma OneStepIsPaidFor(p: Policy, buckets: Buckets, e: Event, clock: real, c: Client)
    requires Made(p) && p.limit >= 1 && InRange(p, buckets, clock) && clock <= e.at
    ensures InRange(p, Step(p, buckets, e), e.at)
    ensures Cost(p, buckets, e, c) as real + Level(p, Step(p, buckets, e), c, e.at)
         <= Level(p, buckets, c, clock) + Gain(p, e.at - clock)
  {
    LevelRises(p, buckets, c, clock, e.at);
    LevelAfter(p, buckets, e, clock, c);
  }

  lemma StretchIsPaidFor(p: Policy, buckets: Buckets, lo: real, stretch: seq<Event>, c: Client)
    requires Made(p) && p.limit >= 1 && InRange(p, buckets, lo) && Timely(lo, stretch)
    ensures Admitted(p, buckets, stretch, c) as real <= p.burst as real + Gain(p, End(lo, stretch) - lo)
    ensures lo <= End(lo, stretch)
  {
    var end := End(lo, stretch);
    AdmittedIsPaidFor(p, buckets, stretch, lo, c);
    RunStaysInRange(p, buckets, stretch, lo);
    LevelRises(p, buckets, c, lo, lo);
    LevelRises(p, Run(p, buckets, stretch), c, end, end);
  }

  lemma GainGrows(p: Policy, a: real, b: real, c: real)
    requires Made(p) && p.limit >= 1 && b <= c
    ensures Gain(p, b - a) <= Gain(p, c - a)
  {
    Spans(p, a, b, c);
    Grows(p, c - b);
  }

  /**
   * After any run, in any interval that begins at lo, whenever that is, and ends at hi, a client
   * gets through at most burst + (hi - lo) * limit / window times: Gain is that product.
   */
  lemma AtMostBurstPlusRate(p: Policy, before: seq<Event>, start: real, lo: real, stretch: seq<Event>, hi: real, c: Client)
    requires Made(p) && p.limit >= 1 && Timely(start, before) && End(start, before) <= lo
    requires Timely(lo, stretch) && End(lo, stretch) <= hi
    ensures Admitted(p, Run(p, map[], before), stretch, c) as real <= p.burst as real + Gain(p, hi - lo)
  {
    var buckets := Run(p, map[], before);
    RunStaysInRange(p, map[], before, start);
    assert InRange(p, buckets, lo);
    StretchIsPaidFor(p, buckets, lo, stretch, c);
    GainGrows(p, lo, End(lo, stretch), hi);
  }

  // ---------------------------------------------------------------- exactly who gets in

  lemma {:induction false} RunSnoc(p: Policy, buckets: Buckets, events: seq<Event>, e: Event, c: Client)
    requires p.window > 0.0
    ensures Run(p, buckets, events + [e]) == Step(p, Run(p, buckets, events), e)
    ensures Admitted(p, buckets, events + [e], c) == Admitted(p, buckets, events, c) + Cost(p, Run(p, buckets, events), e, c)
    decreases |events|
  {
    if events == [] {
      assert events + [e] == [e];
    } else {
      RunSnoc(p, Step(p, buckets, events[0]), events[1..], e, c);
      assert (events + [e])[1..] == events[1..] + [e];
    }
  }

  lemma {:induction false} TimelySnoc(clock: real, events: seq<Event>, e: Event)
    ensures Timely(clock, events + [e]) <==> Timely(clock, events) && End(clock, events) <= e.at
    ensures End(clock, events + [e]) == e.at
    decreases |events|
  {
    if events == [] {
      assert events + [e] == [e];
    } else {
      TimelySnoc(events[0].at, events[1..], e);
      assert (events + [e])[1..] == events[1..] + [e];
    }
  }

  /** A level only refills between two times, up to the burst. */
  lemma LevelLater(p: Policy, buckets: Buckets, c: Client, a: real, b: real)
    requires Made(p) && p.limit >= 1 && InRange(p, buckets, a) && a <= b
    ensures Level(p, buckets, c, b) == AtMost(Level(p, buckets, c, a) + Gain(p, b - a), p.burst as real)
  {
    Grows(p, b - a);
    if c in buckets {
      Spans(p, buckets[c].lastSeen, a, b);
    }
  }

  /** What the k-th event of a run on leaves to a client: a full burst and the refill since, less what it got. */
  function Allowance(p: Policy, events: seq<Event>, k: nat, c: Client, now: real): real
    requires p.window > 0.0 && k < |events|
  {
    p.burst as real + Gain(p, now - events[k].at) - Admitted(p, Run(p, map[], events[..k]), events[k..], c) as real
  }

  lemma AdmittedSinceSnoc(p: Policy, front: seq<Event>, e: Event, k: nat, c: Client)
    requires p.window > 0.0 && k <= |front|
    ensures var events := front + [e];
            Admitted(p, Run(p, map[], events[..k]), events[k..], c) ==
              Admitted(p, Run(p, map[], front[..k]), front[k..], c) + Cost(p, Run(p, map[], front), e, c)
  {
    hide Run, Admitted, Cost, Step;
    var events := front + [e];
    assert events[..k] == front[..k] && events[k..] == front[k..] + [e];
    assert front[..k] + front[k..] == front;
    RunParts(p, map[], front[..k], front[k..]);
    RunSnoc(p, Run(p, map[], front[..k]), front[k..], e, c);
  }

  lemma AllowanceSnoc(p: Policy, front: seq<Event>, e: Event, k: nat, c: Client, now: real)
    requires p.window > 0.0 && k <= |front|
    ensures Allowance(p, front + [e], k, c, now) ==
            (if k < |front| then Allowance(p, front, k, c, e.at) else p.burst as real)
            - Cost(p, Run(p, map[], front), e, c) as real + Gain(p, now - e.at)
  {
    hide Gain, Run, Admitted, Cost;
    AdmittedSinceSnoc(p, front, e, k, c);
    assert (front + [e])[k] == if k < |front| then front[k] else e;
    if k < |front| {
      Spans(p, front[k].at, e.at, now);
    } else {
      assert front[k..] == [];
      NothingAdmitted(p, Run(p, map[], front[..k]), c);
    }
  }

  lemma NothingAdmitted(p: Policy, buckets: Buckets, c: Client)
    requires p.window > 0.0
    ensures Admitted(p, buckets, [], c) == 0
  {
  }

  lemma {:induction false} RunParts(p: Policy, buckets: Buckets, xs: seq<Event>, ys: seq<Event>)
    requires p.window > 0.0
    ensures Run(p, buckets, xs + ys) == Run(p, Run(p, buckets, xs), ys)
    decreases |xs|
  {
    if xs == [] {
      assert xs + ys == ys;
    } else {
      RunParts(p, Step(p, buckets, xs[0]), xs[1..], ys);
      assert (xs + ys)[1..] == xs[1..] + ys;
    }
  }

  /** The level is the smallest allowance, and never more than the burst. */
  ghost predicate Tightest(p: Policy, events: seq<Event>, c: Client, now: real)
    requires p.window > 0.0
  {
    var level := Level(p, Run(p, map[], events), c, now);
    && level <= p.burst as real
    && (forall k | 0 <= k < |events| :: level <= Allowance(p, events, k, c, now))
    && (level == p.burst as real || exists k :: 0 <= k < |events| && level == Allowance(p, events, k, c, now))
  }

  lemma {:induction false} LevelIsTightest(p: Policy, events: seq<Event>, start: real, c: Client, now: real)
    requires Made(p) && p.limit >= 1 && Timely(start, events) && End(start, events) <= now
    ensures Tightest(p, events, c, now)
    decreases |events|
  {
    if events == [] {
      NoEvents(p, c, now);
    } else {
      hide Gain, Run, Level, Cost, Tightest;
      var n := |events| - 1;
      var front, e := events[..n], events[n];
      assert events == front + [e];
      TimelySnoc(start, front, e);
      LevelIsTightest(p, front, start, c, e.at);
      RunStaysInRange(p, map[], front, start);
      RunSnoc(p, map[], front, e, c);
      LevelAfter(p, Run(p, map[], front), e, End(start, front), c);
      LevelLater(p, Run(p, map[], events), c, e.at, now);
      Grows(p, now - e.at);
      TightestSnoc(p, front, e, c, now);
    }
  }

  lemma NoEvents(p: Policy, c: Client, now: real)
    requires p.window > 0.0
    ensures Tightest(p, [], c, now)
  {
  }

  lemma TightestSnoc(p: Policy, front: seq<Event>, e: Event, c: Client, now: real)
    requires p.window > 0.0 && Tightest(p, front, c, e.at) && Gain(p, now - e.at) >= 0.0
    requires var before := Level(p, Run(p, map[], front), c, e.at);
             Level(p, Run(p, map[], front + [e]), c, now) ==
               AtMost(before - Cost(p, Run(p, map[], front), e, c) as real + Gain(p, now - e.at), p.burst as real)
    ensures Tightest(p, front + [e], c, now)
  {
    hide Allowance, Level, Run, Cost, Gain;
    var events := front + [e];
    var level, before := Level(p, Run(p, map[], events), c, now), Level(p, Run(p, map[], front), c, e.at);
    forall k | 0 <= k < |events|
      ensures level <= Allowance(p, events, k, c, now)
    {
      AllowanceSnoc(p, front, e, k, c, now);
    }
    if level != p.burst as real {
      AllowanceSnoc(p, front, e, |front|, c, now);
      if before == p.burst as real {
        assert level == Allowance(p, events, |front|, c, now);
      } else {
        var k :| 0 <= k < |front| && before == Allowance(p, front, k, c, e.at);
        AllowanceSnoc(p, front, e, k, c, now);
        assert level == Allowance(p, events, k, c, now);
      }
    }
  }

  /**
   * A request is admitted exactly when, counted from every earlier event on, the client has had
   * at most burst + elapsed * limit / window - 1 requests admitted. Nothing else can refuse it.
   */
  lemma AdmittedExactly(p: Policy, events: seq<Event>, start: real, c: Client, now: real)
    requires Made(p) && p.limit >= 1 && Timely(start, events) && End(start, events) <= now
    ensures Admits(p, Run(p, map[], events), c, now) <==>
            forall k | 0 <= k < |events| ::
              Admitted(p, Run(p, map[], events[..k]), events[k..], c) as real + 1.0
              <= p.burst as real + (now - events[k].at) * (p.limit as real / p.window)
  {
    LevelIsTightest(p, events, start, c, now);
    forall k | 0 <= k < |events|
      ensures Allowance(p, events, k, c, now) >= 1.0 <==>
              Admitted(p, Run(p, map[], events[..k]), events[k..], c) as real + 1.0
              <= p.burst as real + (now - events[k].at) * (p.limit as real / p.window)
    {
      AllowanceInNumbers(p, events, k, c, now);
    }
    AdmitsByLevel(p, Run(p, map[], events), c, now);
    hide Allowance, Level, Run, Admitted, Admits;
  }

  lemma AllowanceInNumbers(p: Policy, events: seq<Event>, k: nat, c: Client, now: real)
    requires p.window > 0.0 && k < |events|
    ensures Allowance(p, events, k, c, now) ==
            p.burst as real + (now - events[k].at) * (p.limit as real / p.window)
            - Admitted(p, Run(p, map[], events[..k]), events[k..], c) as real
  {
    hide Gain, Run, Admitted;
    GainInNumbers(p, now - events[k].at);
  }

  lemma GainInNumbers(p: Policy, span: real)
    requires p.window > 0.0
    ensures Gain(p, span) == span * (p.limit as real / p.window)
  {
  }

  lemma AdmitsByLevel(p: Policy, buckets: Buckets, c: Client, now: real)
    requires Made(p) && p.limit >= 1
    ensures Admits(p, buckets, c, now) <==> Level(p, buckets, c, now) >= 1.0
  {
  }

  /** So a client that has had fewer than burst requests admitted gets the next one. */
  lemma BurstIsGranted(p: Policy, events: seq<Event>, start: real, c: Client, now: real)
    requires Made(p) && p.limit >= 1 && Timely(start, events) && End(start, events) <= now
    requires Admitted(p, map[], events, c) < p.burst
    ensures Admits(p, Run(p, map[], events), c, now)
  {
    LevelIsTightest(p, events, start, c, now);
    forall k | 0 <= k < |events|
      ensures Allowance(p, events, k, c, now) >= 1.0
    {
      assert events == events[..k] + events[k..];
      AdmittedParts(p, map[], events[..k], events[k..], c);
      NeverInTheFuture(start, events, k);
      Grows(p, now - events[k].at);
    }
  }

  lemma {:induction false} AdmittedParts(p: Policy, buckets: Buckets, xs: seq<Event>, ys: seq<Event>, c: Client)
    requires p.window > 0.0
    ensures Admitted(p, buckets, xs + ys, c) == Admitted(p, buckets, xs, c) + Admitted(p, Run(p, buckets, xs), ys, c)
    decreases |xs|
  {
    if xs == [] {
      assert xs + ys == ys;
    } else {
      AdmittedParts(p, Step(p, buckets, xs[0]), xs[1..], ys, c);
      assert (xs + ys)[1..] == xs[1..] + ys;
    }
  }

  lemma {:induction false} NeverInTheFuture(clock: real, events: seq<Event>, k: nat)
    requires Timely(clock, events) && k < |events|
    ensures clock <= events[k].at <= End(clock, events)
    decreases k
  {
    if k > 0 {
      NeverInTheFuture(events[0].at, events[1..], k - 1);
    } else {
      EndIsLate(events[0].at, events[1..]);
    }
  }

  lemma {:induction false} EndIsLate(clock: real, events: seq<Event>)
    requires Timely(clock, events)
    ensures clock <= End(clock, events)
    decreases |events|
  {
    if events != [] {
      EndIsLate(events[0].at, events[1..]);
    }
  }

  // ---------------------------------------------------------------- a patient client gets in

  predicate Silent(events: seq<Event>, c: Client) {
    forall i | 0 <= i < |events| :: !(events[i].Request? && events[i].client == c)
  }

  lemma {:induction false} SilenceKeepsBucket(p: Policy, buckets: Buckets, events: seq<Event>, c: Client)
    requires p.window > 0.0 && Silent(events, c)
    ensures c in Run(p, buckets, events) ==> c in buckets && Run(p, buckets, events)[c] == buckets[c]
    decreases |events|
  {
    if events != [] {
      assert Silent(events[1..], c);
      assert !(events[0].Request? && events[0].client == c);
      SilenceKeepsBucket(p, Step(p, buckets, events[0]), events[1..], c);
    }
  }

  /** A client that kept quiet for window/limit since its last request is admitted. */
  lemma IdleClientIsAdmitted(p: Policy, before: seq<Event>, c: Client, last: real, quiet: seq<Event>, start: real, now: real)
    requires Made(p) && p.limit >= 1 && Timely(start, before) && End(start, before) <= last && Timely(last, quiet)
    requires Silent(quiet, c) && End(last, quiet) <= now && now - last >= p.window / p.limit as real
    ensures Admits(p, Run(p, Charged(p, Run(p, map[], before), c, last), quiet), c, now)
  {
    var buckets := Run(p, map[], before);
    RunStaysInRange(p, map[], before, start);
    LevelAfter(p, buckets, Request(c, last), End(start, before), c);
    SilenceKeepsBucket(p, Charged(p, buckets, c, last), quiet, c);
    OneTokenComes(p, now - last);
  }

  lemma OneTokenComes(p: Policy, span: real)
    requires Made(p) && p.limit >= 1 && span >= p.window / p.limit as real
    ensures Gain(p, span) >= 1.0
  {
    var token := p.window / p.limit as real;
    assert token * Rate(p) == 1.0;
    Grows(p, span - token);
    Spans(p, 0.0, token, span);
  }

  // ---------------------------------------------------------------- eviction cannot be seen

  function Requests(events: seq<Event>): seq<Event> {
    if events == [] then []
    else (if events[0].Request? then [events[0]] else []) + Requests(events[1..])
  }

  /** Buckets agree, or the one side has dropped a bucket that is full on the other. */
  ghost predicate Alike(p: Policy, evicting: Buckets, keeping: Buckets, now: real)
    requires p.window > 0.0
  {
    && (forall c | c in evicting :: c in keeping && keeping[c] == evicting[c])
    && (forall c | c in keeping && c !in evicting ::
          keeping[c].tokens + Gain(p, now - keeping[c].lastSeen) >= p.burst as real)
  }

  lemma AlikeLater(p: Policy, evicting: Buckets, keeping: Buckets, now: real, later: real)
    requires Made(p) && p.limit >= 1 && Alike(p, evicting, keeping, now) && now <= later
    ensures Alike(p, evicting, keeping, later)
  {
    Grows(p, later - now);
    forall c | c in keeping && c !in evicting
      ensures keeping[c].tokens + Gain(p, later - keeping[c].lastSeen) >= p.burst as real
    {
      Spans(p, keeping[c].lastSeen, now, later);
    }
  }

  lemma AlikeAnswersAlike(p: Policy, evicting: Buckets, keeping: Buckets, c: Client, now: real)
    requires Made(p) && p.limit >= 1 && Alike(p, evicting, keeping, now)
    ensures Admits(p, evicting, c, now) == Admits(p, keeping, c, now)
    ensures Alike(p, Charged(p, evicting, c, now), Charged(p, keeping, c, now), now)
  {
    assert Level(p, evicting, c, now) == Level(p, keeping, c, now);
  }

  lemma SweepKeepsAlike(p: Policy, evicting: Buckets, keeping: Buckets, now: real)
    requires Made(p) && p.limit >= 1 && Alike(p, evicting, keeping, now) && InRange(p, evicting, now)
    ensures Alike(p, Swept(p, evicting, now), keeping, now)
  {
    forall c | c in evicting && Stale(p, evicting[c], now)
      ensures keeping[c].tokens + Gain(p, now - keeping[c].lastSeen) >= p.burst as real
    {
      StaleMeansFull(p, evicting[c], now);
    }
  }

  lemma {:induction false} EvictionIsUnseen(p: Policy, evicting: Buckets, keeping: Buckets, events: seq<Event>, clock: real)
    requires Made(p) && p.limit >= 1 && Timely(clock, events)
    requires Alike(p, evicting, keeping, clock) && InRange(p, evicting, clock)
    ensures Answers(p, evicting, events) == Answers(p, keeping, Requests(events))
    decreases |events|
  {
    if events != [] {
      hide Alike, Level, Gain, Stale;
      var e := events[0];
      AlikeLater(p, evicting, keeping, clock, e.at);
      LevelAfter(p, evicting, e, clock, "");
      if e.Request? {
        AlikeAnswersAlike(p, evicting, keeping, e.client, e.at);
        EvictionIsUnseen(p, Step(p, evicting, e), Step(p, keeping, e), events[1..], e.at);
        assert Requests(events) == [e] + Requests(events[1..]);
      } else {
        SweepKeepsAlike(p, evicting, keeping, e.at);
        EvictionIsUnseen(p, Step(p, evicting, e), keeping, events[1..], e.at);
        assert Requests(events) == Requests(events[1..]);
      }
    }
  }

  /** The limiter that evicts answers every run as the one that never does. */
  ghost predicate Transparent(p: Policy)
    requires p.window > 0.0
  {
    forall start: real, events: seq<Event> | Timely(start, events) ::
      Answers(p, map[], events) == Answers(p, map[], Requests(events))
  }

  lemma Front(p: Policy, buckets: Buckets, e: Event, rest: seq<Event>)
    requires p.window > 0.0
    ensures Answers(p, buckets, [e] + rest) ==
            (if e.Request? then [Admits(p, buckets, e.client, e.at)] else []) + Answers(p, Step(p, buckets, e), rest)
    ensures Requests([e] + rest) == (if e.Request? then [e] else []) + Requests(rest)
    ensures forall clock :: Timely(clock, [e] + rest) <==> clock <= e.at && Timely(e.at, rest)
  {
    assert ([e] + rest)[1..] == rest;
  }

  /** With no limit to give, waiting brings nothing. */
  lemma NoSecondRequest(p: Policy, c: Client, now: real)
    requires Made(p) && p.limit <= 0 && now >= 0.0
    ensures !Admits(p, Charged(p, map[], c, 0.0), c, now)
  {
    assert Rate(p) <= 0.0;
    assert Gain(p, now - 0.0) <= 0.0;
  }

  /** With no limit to give, a first request gets in, the second does not, and eviction makes it a first one again. */
  lemma EvictionShows(p: Policy, c: Client)
    requires Made(p) && p.limit <= 0
    ensures !Transparent(p)
  {
    var later := 3.0 * p.window;
    var first, sweep, second := Request(c, 0.0), Evict(later), Request(c, later);
    var b := Charged(p, map[], c, 0.0);
    NoSecondRequest(p, c, later);
    Front(p, map[], first, [sweep] + ([second] + []));
    Front(p, b, sweep, [second] + []);
    Front(p, map[], second, []);
    Front(p, map[], first, [second] + []);
    Front(p, b, second, []);
    assert Swept(p, b, later) == map[];
    var events := [first] + ([sweep] + ([second] + []));
    assert Timely(0.0, events);
    assert Answers(p, map[], events) == [true, true];
    assert Requests(events) == [first] + ([second] + []);
    assert Answers(p, map[], Requests(events)) == [true, false];
  }

  lemma EvictionIsUnobservableExactlyWithALimit(p: Policy)
    requires Made(p)
    ensures Transparent(p) <==> p.limit >= 1
  {
    if p.limit >= 1 {
      forall start: real, events: seq<Event> | Timely(start, events)
        ensures Answers(p, map[], events) == Answers(p, map[], Requests(events))
      {
        EvictionIsUnseen(p, map[], map[], events, start);
      }
    } else {
      EvictionShows(p, "");
    }
  }
}
