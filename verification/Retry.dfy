/** Bounded retries with truncated, capped exponential backoff, through the circuit breaker. */
module Retry {
  import opened Options
  import opened Breaker

  type SecretData = map<string, string>

  /** multiplier is a float64 in the source; round is its rounding, and overflow says what the float-to-integer
      conversion yields out of range, which Go leaves to the implementation. */
  datatype RetryConfig = RetryConfig(initial: int, cap: int, multiplier: real, maxRetries: int,
                                     round: real -> real, overflow: real -> int)

  /** Up to here every integer is a float64. */
  const EXACT := 0x20_0000_0000_0000

  predicate SmallInteger(x: real) {
    0.0 <= x <= EXACT as real && x == x.Floor as real
  }

  ghost predicate RoundsLikeFloat64(rnd: real -> real) {
    && (forall x, y :: x <= y ==> rnd(x) <= rnd(y))
    && (forall x :: SmallInteger(x) ==> rnd(x) == x)
  }

  lemma RoundsUp(rnd: real -> real, x: real, y: real)
    requires RoundsLikeFloat64(rnd) && x <= y
    ensures rnd(x) <= rnd(y)
  {
  }

  lemma RoundsExactly(rnd: real -> real, n: int)
    requires RoundsLikeFloat64(rnd) && 0 <= n <= EXACT
    ensures rnd(n as real) == n as real
  {
    assert SmallInteger(n as real);
  }

  // ----- One attempt -----

  /** Vault's answer to a read: outer is the secret's data, inner the nested data of a KV v2 secret. */
  datatype Response = ReadError | NilSecret | Found(outer: Option<SecretData>, inner: Option<SecretData>)

  /** Whether the breaker's expiry passes before the request or during it. */
  datatype Timing = Timing(expired: bool, expiredDuring: bool)

  datatype Attempt = Attempt(cancelled: bool, timing: Timing, response: Response)

  function Decode(response: Response, kvVersion: string): Option<SecretData> {
    if !response.Found? || response.outer.None? then None
    else if kvVersion == "v2" then response.inner
    else response.outer
  }

  /** called says whether the request reached Vault. */
  datatype Outcome = Outcome(breaker: Option<Breaker>, called: bool, data: Option<SecretData>)

  /** A request through the breaker; without a breaker it always goes out. */
  function Through(breaker: Option<Breaker>, maxRequests: nat, timing: Timing, ok: bool): (Option<Breaker>, bool) {
    if breaker.None? then (None, true)
    else
      var b := if timing.expired then Expire(breaker.value) else breaker.value;
      if !Admits(b, maxRequests) then (Some(b), false)
      else
        var admitted := Admit(b);
        var later := if timing.expiredDuring then Expire(admitted) else admitted;
        (Some(Settle(later, b.generation, ok, maxRequests)), true)
  }

  function Fetch(breaker: Option<Breaker>, maxRequests: nat, kvVersion: string, a: Attempt): Outcome {
    var (b, called) := Through(breaker, maxRequests, a.timing, !a.response.ReadError?);
    Outcome(b, called, if called then Decode(a.response, kvVersion) else None)
  }

  /** When a request goes out: there is no breaker, it is closed, it is open but its timeout has passed, or it is
      half-open with room for another probe. An interval that ends before the request makes it the first of a new count;
      one that ends during the request makes its outcome count for nothing. */
  predicate LetsThrough(breaker: Option<Breaker>, maxRequests: nat, timing: Timing) {
    || breaker.None? || breaker.value.state.Closed?
    || (breaker.value.state.Open? && timing.expired)
    || (breaker.value.state.HalfOpen? && breaker.value.counts.requests < if maxRequests == 0 then 1 else maxRequests)
  }

  lemma ThroughIff(breaker: Option<Breaker>, maxRequests: nat, timing: Timing, ok: bool)
    ensures var (b, called) := Through(breaker, maxRequests, timing, ok);
      && (called <==> LetsThrough(breaker, maxRequests, timing))
      && (!called ==> b == breaker) && (breaker.None? <==> b.None?)
      && (called && breaker.Some? && timing == Timing(false, false) ==>
            b.value == Settle(Admit(breaker.value), breaker.value.generation, ok, maxRequests))
      && (breaker.Some? && breaker.value.state.Closed? && timing == Timing(true, false) && ok ==>
            b.value == Breaker(Closed, Counts(1, 1, 0, 1), breaker.value.generation + 1))
      && (breaker.Some? && breaker.value.state.Closed? && timing == Timing(false, true) ==>
            b.value == Breaker(Closed, Counts(0, 0, 0, 0), breaker.value.generation + 1))
  {
  }

  /** How Vault stores data: as it is, or, for version 2 of the engine, inside another layer. */
  function Stored(data: SecretData, kvVersion: string, other: Option<SecretData>): Response {
    if kvVersion == "v2" then Found(Some(map[]), Some(data)) else Found(Some(data), other)
  }

  /** A fetch that goes out returns what Vault stores, and nothing if the secret or its layer is missing; to the breaker
      only a failed read is a failure. */
  lemma FetchReturnsStored(breaker: Option<Breaker>, maxRequests: nat, kvVersion: string, timing: Timing,
                           data: SecretData, other: Option<SecretData>)
    requires LetsThrough(breaker, maxRequests, timing)
    ensures Fetch(breaker, maxRequests, kvVersion, Attempt(false, timing, Stored(data, kvVersion, other))).data == Some(data)
    ensures forall r :: r in [ReadError, NilSecret, Found(None, other)] ==>
      Fetch(breaker, maxRequests, kvVersion, Attempt(false, timing, r)).data == None
    ensures Fetch(breaker, maxRequests, "v2", Attempt(false, timing, Found(Some(data), None))).data == None
    ensures breaker.Some? && timing == Timing(false, false) ==>
      forall r :: r in [ReadError, NilSecret, Found(None, other), Found(Some(data), other)] ==>
        Fetch(breaker, maxRequests, kvVersion, Attempt(false, timing, r)).breaker
        == Some(if r.ReadError? then Fail(breaker.value, maxRequests) else Succeed(breaker.value, maxRequests))
  {
    ThroughIff(breaker, maxRequests, timing, true);
    ThroughIff(breaker, maxRequests, timing, false);
  }

  // ----- Backoff -----

  function Trunc(x: real): int {
    if x >= 0.0 then x.Floor else -(-x).Floor
  }

  /** Truncation is towards zero. */
  lemma TruncIs(x: real)
    requires x >= 0.0
    ensures Trunc(x) as real <= x < Trunc(x) as real + 1.0 && Trunc(-x) == -Trunc(x)
  {
  }

  predicate InRange(x: real) {
    -9223372036854775808.0 <= x < 9223372036854775808.0
  }

  function ToDuration(config: RetryConfig, scaled: real): int {
    var next := if InRange(scaled) then Trunc(scaled) else config.overflow(scaled);
    if next > config.cap then config.cap else next
  }

  /** float64(backoff) * multiplier: the conversion and the product each round. */
  function Scale(config: RetryConfig, backoff: int): real {
    config.round(Times(config.round(backoff as real), config.multiplier))
  }

  function Times(x: real, y: real): real {
    x * y
  }

  /** The next backoff: truncated to an integer, then capped. */
  function NextBackoff(config: RetryConfig, backoff: int): int {
    ToDuration(config, Scale(config, backoff))
  }

  /** The wait before retry k, counted from 1. */
  function Wait(config: RetryConfig, k: nat): int
    requires k >= 1
  {
    if k == 1 then config.initial else NextBackoff(config, Wait(config, k - 1))
  }

  function Pow(m: nat, e: nat): nat {
    if e == 0 then 1 else m * Pow(m, e - 1)
  }

  function Min(a: int, b: int): int {
    if a <= b then a else b
  }

  /** Every wait but the first is capped; all of them are exactly when the first one is. */
  lemma WaitsAreCapped(config: RetryConfig, k: nat)
    requires k >= 1
    ensures k >= 2 ==> Wait(config, k) <= config.cap
    ensures (forall j :: 1 <= j <= k ==> Wait(config, j) <= config.cap) <==> config.initial <= config.cap
  {
    if config.initial > config.cap { assert Wait(config, 1) > config.cap; }
  }

  lemma DurationOfInt(config: RetryConfig, n: int)
    requires 0 <= n < 0x8000_0000_0000_0000
    ensures ToDuration(config, n as real) == Min(n, config.cap)
  {
    assert (n as real).Floor == n;
    assert n as real < 9223372036854775808.0;
  }

  lemma TimesGrows(a: nat, b: nat, m: nat)
    requires a <= b
    ensures a * m <= b * m && (m >= 1 ==> a <= a * m)
  {
    assert (b - a) * m >= 0;
    if m >= 1 { assert a * (m - 1) >= 0; }
  }

  lemma DurationAtLeast(config: RetryConfig, x: real, b: nat)
    requires b <= config.cap && b as real <= x < 9223372036854775808.0
    ensures b <= ToDuration(config, x) <= config.cap
  {
    assert x.Floor >= b;
  }

  lemma TimesReal(x: real, y: real, m: real)
    requires 0.0 <= x <= y && m >= 1.0
    ensures x <= Times(x, m) <= Times(y, m)
  {
    assert x * (m - 1.0) >= 0.0;
    assert (y - x) * m >= 0.0;
  }

  lemma ScaleGrows(config: RetryConfig, b: int, c: int)
    requires RoundsLikeFloat64(config.round) && 0 <= b <= c <= EXACT && config.multiplier >= 1.0
    ensures b as real <= Scale(config, b) <= Scale(config, c)
  {
    hide RoundsLikeFloat64, Times;
    var x, y, m := b as real, c as real, config.multiplier;
    RoundsExactly(config.round, b);
    RoundsExactly(config.round, c);
    TimesReal(x, y, m);
    RoundsUp(config.round, x, Times(x, m));
    RoundsUp(config.round, Times(x, m), Times(y, m));
  }

  lemma ProductOfInts(b: int, m: int)
    ensures Times(b as real, m as real) == (b * m) as real
  {
  }

  /** An integer product that is not a float64 is beyond the cap, and rounding keeps it there. */
  lemma ScaleInt(config: RetryConfig, b: nat, m: nat)
    requires RoundsLikeFloat64(config.round) && config.multiplier == m as real && b <= config.cap <= EXACT
    requires Scale(config, b) < 9223372036854775808.0
    ensures NextBackoff(config, b) == Min(b * m, config.cap)
  {
    hide RoundsLikeFloat64, ToDuration, Times;
    RoundsExactly(config.round, b);
    ProductOfInts(b, m);
    if b * m <= EXACT {
      RoundsExactly(config.round, b * m);
      DurationOfInt(config, b * m);
    } else {
      RoundsExactly(config.round, EXACT);
      RoundsUp(config.round, EXACT as real, (b * m) as real);
      DurationAtLeast(config, Scale(config, b), config.cap);
    }
  }

  /** With an integer multiplier the backoff is the capped geometric sequence, rounding notwithstanding. */
  lemma {:induction false} WaitIsGeometric(config: RetryConfig, m: nat, k: nat)
    requires RoundsLikeFloat64(config.round) && k >= 1 && 0 <= config.initial <= config.cap <= EXACT
    requires m >= 1 && config.multiplier == m as real && Scale(config, config.cap) < 9223372036854775808.0
    ensures Wait(config, k) == Min(config.initial * Pow(m, k - 1), config.cap)
  {
    hide Scale, RoundsLikeFloat64, NextBackoff;
    if k > 1 {
      WaitIsGeometric(config, m, k - 1);
      var before: nat := config.initial * Pow(m, k - 2);
      var wait: nat := Min(before, config.cap);
      ScaleGrows(config, wait, config.cap);
      ScaleInt(config, wait, m);
      Reassociate(config.initial, m, Pow(m, k - 2));
      TimesGrows(config.cap, if before > config.cap then before else config.cap, m);
    }
  }

  lemma Reassociate(a: nat, m: nat, p: nat)
    ensures a * (m * p) == a * p * m
  {
  }

  // ----- When the waits never shrink -----

  lemma TimesOrdered(x: real, y: real, m: real)
    requires 0.0 <= x <= y
    ensures m >= 0.0 ==> 0.0 <= Times(x, m) <= Times(y, m)
    ensures m < 0.0 ==> Times(y, m) <= Times(x, m) <= 0.0
  {
    if m >= 0.0 {
      assert x * m >= 0.0 && (y - x) * m >= 0.0;
    } else {
      assert x * m <= 0.0 && (y - x) * m <= 0.0;
    }
  }

  /** Whatever the multiplier, the scaled backoffs lie in order on its side of zero. */
  lemma ScaleOrdered(config: RetryConfig, b: int, c: int)
    requires RoundsLikeFloat64(config.round) && 0 <= b <= c
    ensures config.multiplier >= 0.0 ==> 0.0 <= Scale(config, b) <= Scale(config, c)
    ensures config.multiplier < 0.0 ==> Scale(config, c) <= Scale(config, b) <= 0.0
  {
    hide RoundsLikeFloat64, Times;
    var rnd, m := config.round, config.multiplier;
    RoundsExactly(rnd, 0);
    RoundsUp(rnd, 0.0, b as real);
    RoundsUp(rnd, b as real, c as real);
    var x, y := rnd(b as real), rnd(c as real);
    TimesOrdered(x, y, m);
    if m >= 0.0 {
      RoundsUp(rnd, 0.0, Times(x, m));
      RoundsUp(rnd, Times(x, m), Times(y, m));
    } else {
      RoundsUp(rnd, Times(y, m), Times(x, m));
      RoundsUp(rnd, Times(x, m), 0.0);
    }
  }

  /** No backoff up to the cap overflows. */
  predicate NeverOverflows(config: RetryConfig) {
    InRange(Scale(config, config.cap))
  }

  lemma NextOrdered(config: RetryConfig, b: int, c: int)
    requires RoundsLikeFloat64(config.round) && NeverOverflows(config) && 0 <= b <= c <= config.cap
    ensures config.multiplier >= 0.0 ==> 0 <= NextBackoff(config, b) <= NextBackoff(config, c) <= config.cap
    ensures config.multiplier < 0.0 ==> NextBackoff(config, b) <= 0
  {
    hide RoundsLikeFloat64, Scale;
    ScaleOrdered(config, b, c);
    ScaleOrdered(config, c, config.cap);
  }

  /** The first step up decides: the truncated product reaches an integer exactly when the product does. */
  lemma FirstStep(config: RetryConfig)
    requires RoundsLikeFloat64(config.round) && NeverOverflows(config) && 0 <= config.initial
    ensures Wait(config, 1) <= Wait(config, 2) <==>
      config.initial <= config.cap && config.initial as real <= Scale(config, config.initial)
  {
    hide RoundsLikeFloat64, Scale;
    assert Wait(config, 1) == config.initial;
    if config.initial <= config.cap {
      ScaleOrdered(config, config.initial, config.cap);
      ScaleOrdered(config, 0, config.initial);
      ZeroStaysZero(config);
    }
  }

  lemma ZeroStaysZero(config: RetryConfig)
    requires RoundsLikeFloat64(config.round)
    ensures Scale(config, 0) == 0.0
  {
    RoundsExactly(config.round, 0);
    assert Times(0.0, config.multiplier) == 0.0;
  }

  lemma {:induction false} LaterSteps(config: RetryConfig, k: nat)
    requires RoundsLikeFloat64(config.round) && NeverOverflows(config) && 0 <= config.initial && k >= 1
    requires Wait(config, 1) <= Wait(config, 2)
    ensures 0 <= Wait(config, k) <= Wait(config, k + 1) <= config.cap
  {
    hide RoundsLikeFloat64, NeverOverflows, NextBackoff;
    WaitsAreCapped(config, k + 1);
    if k == 1 {
      assert Wait(config, 1) == config.initial;
    } else {
      LaterSteps(config, k - 1);
      NextOrdered(config, Wait(config, k - 1), Wait(config, k));
    }
  }

  /** The waits never shrink exactly when the first one is within the cap and not above its own multiple. */
  lemma WaitsNeverShrinkIff(config: RetryConfig)
    requires RoundsLikeFloat64(config.round) && NeverOverflows(config) && 0 <= config.initial
    ensures (forall k :: k >= 1 ==> Wait(config, k) <= Wait(config, k + 1)) <==>
      config.initial <= config.cap && config.initial as real <= Scale(config, config.initial)
  {
    hide RoundsLikeFloat64, NeverOverflows, Scale, NextBackoff;
    FirstStep(config);
    if Wait(config, 1) <= Wait(config, 2) {
      forall k | k >= 1 ensures Wait(config, k) <= Wait(config, k + 1) { LaterSteps(config, k); }
    } else {
      assert !(Wait(config, 1) <= Wait(config, 1 + 1));
    }
  }

  /** In particular they never shrink with a multiplier of at least one, if every backoff is a float64. */
  lemma WaitsGrow(config: RetryConfig, k: nat)
    requires RoundsLikeFloat64(config.round) && NeverOverflows(config) && k >= 1
    requires 0 <= config.initial <= config.cap <= EXACT && config.multiplier >= 1.0
    ensures 0 <= Wait(config, k) <= Wait(config, k + 1) <= config.cap
  {
    hide RoundsLikeFloat64, NeverOverflows, Scale;
    ScaleGrows(config, config.initial, config.cap);
    FirstStep(config);
    LaterSteps(config, k);
  }

  /** A multiplier that the environment may set, below one: the second wait is half the first. */
  lemma HalvedWaitsShrink(config: RetryConfig)
    requires RoundsLikeFloat64(config.round) && config.multiplier == 0.5 && config.initial == 4 <= config.cap
    ensures Wait(config, 1) == 4 && Wait(config, 2) == 2
  {
    RoundsExactly(config.round, 4);
    RoundsExactly(config.round, 2);
    assert Times(4.0, 0.5) == 2.0;
    assert Wait(config, 1) == 4;
    DurationOfInt(config, 2);
  }

  /** With a multiplier of one a wait beyond 2^53 ns, over 100 days, may shrink too: without the bound on the cap the
      geometric sequence is missed. */
  lemma BeyondExactABackoffMayShrink(config: RetryConfig)
    requires RoundsLikeFloat64(config.round) && config.multiplier == 1.0
    requires config.initial == EXACT + 1 <= config.cap && config.round((EXACT + 1) as real) == EXACT as real
    ensures Wait(config, 2) < Wait(config, 1) == Min(config.initial * Pow(1, 1), config.cap)
  {
    RoundsExactly(config.round, EXACT);
    assert Wait(config, 1) == config.initial;
    DurationOfInt(config, EXACT);
  }

  function TotalWait(config: RetryConfig, k: nat): int {
    if k == 0 then 0 else TotalWait(config, k - 1) + Wait(config, k)
  }

  lemma {:induction false} TotalWaitIsCapped(config: RetryConfig, k: nat)
    requires config.initial <= config.cap
    ensures TotalWait(config, k) <= k * config.cap
  {
    if k > 0 {
      TotalWaitIsCapped(config, k - 1);
      WaitsAreCapped(config, k);
      assert k * config.cap == (k - 1) * config.cap + config.cap;
    }
  }

  lemma {:induction false} TotalWaitIsPositive(config: RetryConfig, k: nat)
    requires RoundsLikeFloat64(config.round) && NeverOverflows(config)
    requires 0 <= config.initial <= config.cap && config.multiplier >= 0.0
    ensures 0 <= TotalWait(config, k) && (k > 0 ==> 0 <= Wait(config, k) <= config.cap)
  {
    hide RoundsLikeFloat64, NeverOverflows, NextBackoff;
    if k > 0 {
      TotalWaitIsPositive(config, k - 1);
      if k > 1 { NextOrdered(config, Wait(config, k - 1), config.cap); }
    }
  }

  // ----- The retry loop as a function -----

  /** waits are the completed waits, fetches the attempts made, calls those that reached Vault. */
  datatype Result = Result(breaker: Option<Breaker>, data: Option<SecretData>, waits: seq<int>, fetches: nat, calls: nat)

  function Run(config: RetryConfig, maxRequests: nat, kvVersion: string, env: nat -> Attempt,
               breaker: Option<Breaker>, attempt: nat, backoff: int): (r: Result)
    decreases config.maxRetries + 1 - attempt
  {
    if attempt > config.maxRetries then Result(breaker, None, [], 0, 0)
    else if attempt > 0 && env(attempt).cancelled then Result(breaker, None, [], 0, 0)
    else
      var waited := if attempt > 0 then [backoff] else [];
      var next := if attempt > 0 then NextBackoff(config, backoff) else backoff;
      var o := Fetch(breaker, maxRequests, kvVersion, env(attempt));
      var calls := if o.called then 1 else 0;
      if o.data.Some? then Result(o.breaker, o.data, waited, 1, calls)
      else
        Extend(waited, 1, calls, Run(config, maxRequests, kvVersion, env, o.breaker, attempt + 1, next))
  }

  /** The loop body once, or not at all. */
  lemma RunUnfolds(config: RetryConfig, maxRequests: nat, kvVersion: string, env: nat -> Attempt,
                   breaker: Option<Breaker>, attempt: nat, backoff: int)
    ensures var r := Run(config, maxRequests, kvVersion, env, breaker, attempt, backoff);
      var o := Fetch(breaker, maxRequests, kvVersion, env(attempt));
      var waited := if attempt > 0 then [backoff] else [];
      var next := if attempt > 0 then NextBackoff(config, backoff) else backoff;
      var calls := if o.called then 1 else 0;
      r == if attempt > config.maxRetries || (attempt > 0 && env(attempt).cancelled) then Result(breaker, None, [], 0, 0)
           else if o.data.Some? then Result(o.breaker, o.data, waited, 1, calls)
           else Extend(waited, 1, calls, Run(config, maxRequests, kvVersion, env, o.breaker, attempt + 1, next))
  {
  }

  /** Puts work already done in front of a result. */
  function Extend(waits: seq<int>, fetches: nat, calls: nat, r: Result): Result {
    Result(r.breaker, r.data, waits + r.waits, fetches + r.fetches, calls + r.calls)
  }

  lemma ExtendTwice(w: seq<int>, f: nat, c: nat, w': seq<int>, f': nat, c': nat, r: Result)
    ensures Extend(w, f, c, Extend(w', f', c', r)) == Extend(w + w', f + f', c + c', r)
  {
  }

  function RetryFetch(config: RetryConfig, maxRequests: nat, kvVersion: string, env: nat -> Attempt,
                      breaker: Option<Breaker>): Result {
    Run(config, maxRequests, kvVersion, env, breaker, 0, config.initial)
  }

  /** The breaker before attempt j, when no earlier attempt was skipped. */
  function BreakerAt(maxRequests: nat, kvVersion: string, env: nat -> Attempt, start: Option<Breaker>, j: nat): Option<Breaker> {
    if j == 0 then start
    else Fetch(BreakerAt(maxRequests, kvVersion, env, start, j - 1), maxRequests, kvVersion, env(j - 1)).breaker
  }

  /** What attempt j yields, when no earlier attempt was skipped. */
  function Answer(maxRequests: nat, kvVersion: string, env: nat -> Attempt, start: Option<Breaker>, j: nat): Option<SecretData> {
    Fetch(BreakerAt(maxRequests, kvVersion, env, start, j), maxRequests, kvVersion, env(j)).data
  }

  lemma {:induction false} RunIsBounded(config: RetryConfig, maxRequests: nat, kvVersion: string, env: nat -> Attempt,
                                        breaker: Option<Breaker>, attempt: nat, backoff: int)
    requires backoff == Wait(config, Max(1, attempt))
    ensures var r := Run(config, maxRequests, kvVersion, env, breaker, attempt, backoff);
      && r.calls <= r.fetches <= Max(0, config.maxRetries + 1 - attempt)
      && |r.waits| == (if attempt == 0 && r.fetches > 0 then r.fetches - 1 else r.fetches)
      && (forall i :: 0 <= i < |r.waits| ==> r.waits[i] == Wait(config, Max(1, attempt) + i))
    decreases config.maxRetries + 1 - attempt
  {
    hide Scale, ToDuration, Through, Decode;
    if attempt <= config.maxRetries && !(attempt > 0 && env(attempt).cancelled) {
      var o := Fetch(breaker, maxRequests, kvVersion, env(attempt));
      if o.data.None? {
        var next := if attempt > 0 then NextBackoff(config, backoff) else backoff;
        RunIsBounded(config, maxRequests, kvVersion, env, o.breaker, attempt + 1, next);
      }
    }
  }

  lemma {:induction false} RunStopsAtFirstSuccess(config: RetryConfig, maxRequests: nat, kvVersion: string, env: nat -> Attempt,
                                                  start: Option<Breaker>, attempt: nat, backoff: int)
    ensures var r := Run(config, maxRequests, kvVersion, env, BreakerAt(maxRequests, kvVersion, env, start, attempt), attempt, backoff);
      var end := attempt + r.fetches;
      && r.breaker == BreakerAt(maxRequests, kvVersion, env, start, end)
      && (forall j: nat :: attempt <= j < end - 1 ==> Answer(maxRequests, kvVersion, env, start, j).None?)
      && r.data == (if r.fetches > 0 then Answer(maxRequests, kvVersion, env, start, end - 1) else None)
      && (r.data.Some? || end > config.maxRetries || (end > 0 && env(end).cancelled))
    decreases config.maxRetries + 1 - attempt
  {
    hide NextBackoff, Through, Decode;
    if attempt <= config.maxRetries && !(attempt > 0 && env(attempt).cancelled) {
      var b := BreakerAt(maxRequests, kvVersion, env, start, attempt);
      var o := Fetch(b, maxRequests, kvVersion, env(attempt));
      assert BreakerAt(maxRequests, kvVersion, env, start, attempt + 1) == o.breaker;
      if o.data.None? {
        var next := if attempt > 0 then NextBackoff(config, backoff) else backoff;
        RunStopsAtFirstSuccess(config, maxRequests, kvVersion, env, start, attempt + 1, next);
      }
    }
  }

  /** At most MaxRetries + 1 fetches and one wait between two of them, following the backoff sequence. */
  lemma RetriesAreBounded(config: RetryConfig, maxRequests: nat, kvVersion: string, env: nat -> Attempt,
                          breaker: Option<Breaker>)
    ensures var r := RetryFetch(config, maxRequests, kvVersion, env, breaker);
      && r.calls <= r.fetches <= Max(0, config.maxRetries + 1)
      && |r.waits| == Max(0, r.fetches - 1)
      && (forall i :: 0 <= i < |r.waits| ==> r.waits[i] == Wait(config, i + 1))
  {
    RunIsBounded(config, maxRequests, kvVersion, env, breaker, 0, config.initial);
  }

  /** The run ends at the first fetch that yields data, and before that only when the retries are used up or the
      context is cancelled. */
  lemma RetriesStopAtFirstSuccess(config: RetryConfig, maxRequests: nat, kvVersion: string, env: nat -> Attempt,
                                  breaker: Option<Breaker>)
    ensures var r := RetryFetch(config, maxRequests, kvVersion, env, breaker);
      && (forall j: nat :: j < r.fetches - 1 ==> Answer(maxRequests, kvVersion, env, breaker, j).None?)
      && r.data == (if r.fetches > 0 then Answer(maxRequests, kvVersion, env, breaker, r.fetches - 1) else None)
      && r.breaker == BreakerAt(maxRequests, kvVersion, env, breaker, r.fetches)
      && (r.data.Some? || r.fetches == Max(0, config.maxRetries + 1) || (r.fetches > 0 && env(r.fetches).cancelled))
  {
    RetriesAreBounded(config, maxRequests, kvVersion, env, breaker);
    RunStopsAtFirstSuccess(config, maxRequests, kvVersion, env, breaker, 0, config.initial);
  }

  function Sum(waits: seq<int>): int {
    if waits == [] then 0 else Sum(waits[..|waits| - 1]) + waits[|waits| - 1]
  }

  lemma {:induction false} SumOfWaits(config: RetryConfig, waits: seq<int>)
    requires forall i :: 0 <= i < |waits| ==> waits[i] == Wait(config, i + 1)
    ensures Sum(waits) == TotalWait(config, |waits|)
  {
    if waits != [] { SumOfWaits(config, waits[..|waits| - 1]); }
  }

  /** A retry run waits at most MaxRetries times the cap in all, whatever the multiplier, its rounding and overflow;
      with a multiplier of at least zero and no overflow the total is no less than zero. */
  lemma RetryWaitIsBounded(config: RetryConfig, maxRequests: nat, kvVersion: string, env: nat -> Attempt,
                           breaker: Option<Breaker>)
    requires config.initial <= config.cap && 0 <= config.cap
    ensures var total := Sum(RetryFetch(config, maxRequests, kvVersion, env, breaker).waits);
      && total <= Max(0, config.maxRetries) * config.cap
      && (RoundsLikeFloat64(config.round) && NeverOverflows(config) && 0 <= config.initial && config.multiplier >= 0.0 ==>
            0 <= total)
  {
    hide RoundsLikeFloat64, NeverOverflows, RetryFetch;
    var waits := RetryFetch(config, maxRequests, kvVersion, env, breaker).waits;
    RetriesAreBounded(config, maxRequests, kvVersion, env, breaker);
    SumOfWaits(config, waits);
    TotalWaitIsCapped(config, |waits|);
    TimesGrows(|waits|, Max(0, config.maxRetries), config.cap);
    if RoundsLikeFloat64(config.round) && NeverOverflows(config) && 0 <= config.initial && config.multiplier >= 0.0 {
      TotalWaitIsPositive(config, |waits|);
    }
  }

  // ----- Failing reads against a breaker -----

  /** Every read fails, nothing is cancelled, and the breaker's expiry does not pass. */
  ghost predicate AllFail(env: nat -> Attempt) {
    forall i: nat :: env(i) == Attempt(false, Timing(false, false), ReadError)
  }

  lemma {:induction false} OpenStopsCalls(config: RetryConfig, maxRequests: nat, kvVersion: string, env: nat -> Attempt,
                                          b: Breaker, attempt: nat, backoff: int)
    requires AllFail(env) && b.state.Open?
    ensures var r := Run(config, maxRequests, kvVersion, env, Some(b), attempt, backoff);
      r.calls == 0 && r.breaker == Some(b) && r.data == None
    decreases config.maxRetries + 1 - attempt
  {
    if attempt <= config.maxRetries {
      var next := if attempt > 0 then NextBackoff(config, backoff) else backoff;
      OpenStopsCalls(config, maxRequests, kvVersion, env, b, attempt + 1, next);
    }
  }

  lemma {:induction false} FailingRun(config: RetryConfig, maxRequests: nat, kvVersion: string, env: nat -> Attempt,
                                      start: Breaker, attempt: nat, backoff: int)
    requires AllFail(env) && config.maxRetries >= 0
    requires start.state.Closed? && start.counts.requests == start.counts.successes + start.counts.failures
    requires attempt < TripPoint(start.counts.successes, start.counts.failures)
    requires attempt <= config.maxRetries + 1
    ensures var k := TripPoint(start.counts.successes, start.counts.failures);
      var r := Run(config, maxRequests, kvVersion, env, Some(FailTimes(start, attempt, maxRequests)), attempt, backoff);
      && r.calls == Min(config.maxRetries + 1, k) - attempt
      && r.breaker == Some(FailTimes(start, Min(config.maxRetries + 1, k), maxRequests))
      && r.data == None
    decreases config.maxRetries + 1 - attempt
  {
    hide Scale, ToDuration, TripPoint;
    if attempt <= config.maxRetries {
      var k := TripPoint(start.counts.successes, start.counts.failures);
      var b := FailTimes(start, attempt, maxRequests);
      var next := if attempt > 0 then NextBackoff(config, backoff) else backoff;
      FailuresTripExactly(start, attempt, maxRequests);
      FailuresTripExactly(start, attempt + 1, maxRequests);
      assert env(attempt) == Attempt(false, Timing(false, false), ReadError);
      assert FailTimes(start, attempt + 1, maxRequests) == Fail(b, maxRequests);
      if attempt + 1 == k {
        OpenStopsCalls(config, maxRequests, kvVersion, env, Fail(b, maxRequests), attempt + 1, next);
      } else {
        FailingRun(config, maxRequests, kvVersion, env, start, attempt + 1, next);
      }
    }
  }

  /** A retry run of failing reads reaches Vault min(MaxRetries + 1, trip point) times, and leaves the breaker open
      exactly when the trip point is within its attempts. */
  lemma FailingRetriesReachVaultBoundedly(config: RetryConfig, maxRequests: nat, kvVersion: string,
                                          env: nat -> Attempt, start: Breaker)
    requires AllFail(env) && config.maxRetries >= 0
    requires start.state.Closed? && start.counts.requests == start.counts.successes + start.counts.failures
    ensures var k := TripPoint(start.counts.successes, start.counts.failures);
      var r := RetryFetch(config, maxRequests, kvVersion, env, Some(start));
      && r.data == None
      && r.calls == Min(config.maxRetries + 1, k)
      && r.breaker.Some? && (r.breaker.value.state.Open? <==> k <= config.maxRetries + 1)
  {
    var k := TripPoint(start.counts.successes, start.counts.failures);
    FailingRun(config, maxRequests, kvVersion, env, start, 0, config.initial);
    FailuresTripExactly(start, Min(config.maxRetries + 1, k), maxRequests);
  }
}
