/** The circuit breaker: the repository's trip rule inside the state machine of the breaker library. */
module Breaker {

  datatype State = Closed | HalfOpen | Open

  /** streak counts consecutive successes. */
  datatype Counts = Counts(requests: nat, successes: nat, failures: nat, streak: nat)

  datatype Breaker = Breaker(state: State, counts: Counts, generation: nat)

  const NONE := Counts(0, 0, 0, 0)
  const NEW := Breaker(Closed, NONE, 0)

  // ----- The trip rule -----

  /** At least three requests, at least 60 percent of them failed. */
  predicate ReadyToTrip(c: Counts) {
    c.requests >= 3 && 5 * c.failures >= 3 * c.requests
  }

  /** Rounding to a double on [0, 1]: monotone, off by at most 2^-53. */
  ghost predicate RoundsToDouble(rnd: real -> real) {
    && (forall x, y :: x <= y ==> rnd(x) <= rnd(y))
    && (forall x :: 0.0 <= x <= 1.0 ==> -1.0 <= 9007199254740992.0 * (rnd(x) - x) <= 1.0)
  }

  lemma TimesPositive(a: real, b: real, c: real)
    requires c > 0.0
    ensures a * c <= b * c <==> a <= b
  {
    if a <= b { assert (b - a) * c >= 0.0; }
    if a > b { assert (a - b) * c > 0.0; }
  }

  lemma RatioInUnit(f: real, r: real, x: real)
    requires 0.0 < r && 0.0 <= f <= r && f == x * r
    ensures 0.0 <= x <= 1.0
  {
    TimesPositive(0.0, x, r);
    TimesPositive(x, 1.0, r);
  }

  /** A ratio of integers below 3/5 is below it by at least 1/(5r). */
  lemma RatioGap(f: real, r: real, x: real)
    requires 3.0 <= r <= 4294967296.0 && f == x * r
    ensures 5.0 * f >= 3.0 * r ==> x >= 0.6
    ensures 3.0 * r - 5.0 * f >= 1.0 ==> 21474836480.0 * (0.6 - x) >= 1.0
  {
    TimesPositive(0.6, x, r);
    if 3.0 * r - 5.0 * f >= 1.0 {
      var gap := 0.6 - x;
      assert gap * r == 0.6 * r - f;
      TimesPositive(0.0, gap, r);
      assert gap > 0.0;
      TimesPositive(r, 4294967296.0, gap);
      assert gap * r <= 4294967296.0 * gap;
    }
  }

  /** The source divides in floating point and compares with 0.6; up to 2^32 requests that is the integer test. */
  lemma TripTestIsExact(rnd: real -> real, c: Counts)
    requires RoundsToDouble(rnd) && c.failures <= c.requests < 0x1_0000_0000
    ensures c.requests >= 3 && rnd(if c.requests == 0 then 0.0 else c.failures as real / c.requests as real) >= rnd(0.6)
      <==> ReadyToTrip(c)
  {
    if c.requests >= 3 {
      var f, r := c.failures as real, c.requests as real;
      var x := f / r;
      assert f == x * r;
      RatioInUnit(f, r, x);
      RatioGap(f, r, x);
      if 5 * c.failures < 3 * c.requests {
        assert 3.0 * r - 5.0 * f == (3 * c.requests - 5 * c.failures) as real;
      } else {
        assert 5.0 * f - 3.0 * r == (5 * c.failures - 3 * c.requests) as real;
      }
    }
  }

  // ----- The state machine -----

  function Limit(maxRequests: nat): nat {
    if maxRequests == 0 then 1 else maxRequests
  }

  function Enter(b: Breaker, state: State): Breaker {
    Breaker(state, NONE, b.generation + 1)
  }

  /** The interval of a closed breaker or the timeout of an open one has passed. */
  function Expire(b: Breaker): Breaker {
    match b.state
    case Closed => Enter(b, Closed)
    case Open => Enter(b, HalfOpen)
    case HalfOpen => b
  }

  predicate Admits(b: Breaker, maxRequests: nat) {
    b.state.Closed? || (b.state.HalfOpen? && b.counts.requests < Limit(maxRequests))
  }

  function Admit(b: Breaker): Breaker {
    b.(counts := b.counts.(requests := b.counts.requests + 1))
  }

  /** The outcome of a request admitted in the given generation. */
  function Settle(b: Breaker, generation: nat, ok: bool, maxRequests: nat): Breaker {
    if generation != b.generation || b.state.Open? then b
    else if ok then
      var counted := b.(counts := b.counts.(successes := b.counts.successes + 1, streak := b.counts.streak + 1));
      if b.state.HalfOpen? && counted.counts.streak >= Limit(maxRequests) then Enter(b, Closed) else counted
    else
      var counted := b.(counts := b.counts.(failures := b.counts.failures + 1, streak := 0));
      if b.state.HalfOpen? || ReadyToTrip(counted.counts) then Enter(b, Open) else counted
  }

  // ----- Any number of requests in flight -----

  /** inflight holds the generation of every request still outstanding. */
  datatype Sys = Sys(b: Breaker, inflight: multiset<nat>)

  datatype Action = Start | Finish(generation: nat, ok: bool) | Expiry

  predicate Enabled(s: Sys, a: Action, maxRequests: nat) {
    match a
    case Start => Admits(s.b, maxRequests)
    case Finish(generation, _) => generation in s.inflight
    case Expiry => true
  }

  function Apply(s: Sys, a: Action, maxRequests: nat): Sys {
    match a
    case Start => Sys(Admit(s.b), s.inflight + multiset{s.b.generation})
    case Finish(generation, ok) => Sys(Settle(s.b, generation, ok, maxRequests), s.inflight - multiset{generation})
    case Expiry => s.(b := Expire(s.b))
  }

  /** The states any interleaving of requests, outcomes and expiries can lead to. */
  ghost predicate Reaches(s: Sys, actions: seq<Action>, maxRequests: nat, end: Sys)
    decreases |actions|
  {
    if actions == [] then end == s
    else Enabled(s, actions[0], maxRequests) && Reaches(Apply(s, actions[0], maxRequests), actions[1..], maxRequests, end)
  }

  ghost predicate Consistent(s: Sys, maxRequests: nat) {
    var c := s.b.counts;
    && (forall g :: g in s.inflight ==> g <= s.b.generation)
    && c.requests == c.successes + c.failures + s.inflight[s.b.generation]
    && (s.b.state.Closed? && c.failures >= 3 ==> 5 * c.failures < 3 * c.requests)
    && (s.b.state.HalfOpen? ==> c.requests <= Limit(maxRequests) && c.failures == 0 && c.streak == c.successes < Limit(maxRequests))
    && (s.b.state.Open? ==> c == NONE)
  }

  lemma EnterIsConsistent(s: Sys, state: State, inflight: multiset<nat>, maxRequests: nat)
    requires forall g :: g in inflight ==> g <= s.b.generation
    ensures Consistent(Sys(Enter(s.b, state), inflight), maxRequests)
  {
  }

  lemma FinishKeepsConsistent(s: Sys, generation: nat, ok: bool, maxRequests: nat)
    requires Consistent(s, maxRequests) && generation in s.inflight
    ensures Consistent(Apply(s, Finish(generation, ok), maxRequests), maxRequests)
  {
    var rest := s.inflight - multiset{generation};
    assert forall g :: g in rest ==> g in s.inflight;
    EnterIsConsistent(s, Closed, rest, maxRequests);
    EnterIsConsistent(s, Open, rest, maxRequests);
  }

  lemma StepKeepsConsistent(s: Sys, a: Action, maxRequests: nat)
    requires Consistent(s, maxRequests) && Enabled(s, a, maxRequests)
    ensures Consistent(Apply(s, a, maxRequests), maxRequests)
  {
    match a
    case Start =>
    case Finish(generation, ok) => FinishKeepsConsistent(s, generation, ok, maxRequests);
    case Expiry =>
      EnterIsConsistent(s, Closed, s.inflight, maxRequests);
      EnterIsConsistent(s, HalfOpen, s.inflight, maxRequests);
  }

  lemma {:induction false} RunKeepsConsistent(s: Sys, actions: seq<Action>, maxRequests: nat, end: Sys)
    requires Consistent(s, maxRequests) && Reaches(s, actions, maxRequests, end)
    ensures Consistent(end, maxRequests)
    decreases |actions|
  {
    if actions != [] {
      StepKeepsConsistent(s, actions[0], maxRequests);
      RunKeepsConsistent(Apply(s, actions[0], maxRequests), actions[1..], maxRequests, end);
    }
  }

  /** While closed, three or more counted failures are under 60 percent of the requests admitted, however many
      requests are in flight; while half-open, at most the configured number of probes is let through. */
  lemma ReachableBreaker(actions: seq<Action>, maxRequests: nat, end: Sys)
    requires Reaches(Sys(NEW, multiset{}), actions, maxRequests, end)
    ensures end.b.state.Closed? && end.b.counts.failures >= 3 ==> 5 * end.b.counts.failures < 3 * end.b.counts.requests
    ensures end.b.state.HalfOpen? ==> end.inflight[end.b.generation] <= end.b.counts.requests <= Limit(maxRequests)
    ensures end.b.state.Open? ==> end.inflight[end.b.generation] == 0
  {
    RunKeepsConsistent(Sys(NEW, multiset{}), actions, maxRequests, end);
  }

  // ----- Opening and recovering -----

  /** One admitted request that succeeds, with no expiry in between. */
  function Succeed(b: Breaker, maxRequests: nat): Breaker {
    Settle(Admit(b), b.generation, true, maxRequests)
  }

  function SucceedTimes(b: Breaker, k: nat, maxRequests: nat): Breaker {
    if k == 0 then b else Succeed(SucceedTimes(b, k - 1, maxRequests), maxRequests)
  }

  /** An open breaker lets nothing through until it expires; then as many successful probes as configured, at least
      one, close it with a clean slate, and any failing probe before that opens it again. */
  lemma {:induction false} ProbesDecide(open: Breaker, k: nat, maxRequests: nat)
    requires open.state.Open? && k <= (if maxRequests == 0 then 1 else maxRequests)
    ensures !Admits(open, maxRequests)
    ensures var probed := SucceedTimes(Expire(open), k, maxRequests);
      if k == (if maxRequests == 0 then 1 else maxRequests) then
        probed == Breaker(Closed, Counts(0, 0, 0, 0), open.generation + 2)
      else
        && probed == Breaker(HalfOpen, Counts(k, k, 0, k), open.generation + 1) && Admits(probed, maxRequests)
        && Settle(Admit(probed), probed.generation, false, maxRequests)
           == Breaker(Open, Counts(0, 0, 0, 0), open.generation + 2)
  {
    if k > 0 { ProbesDecide(open, k - 1, maxRequests); }
  }

  /** A closed breaker admits everything, its interval only resets the counts, a success is counted, and the outcome of
      a request from an earlier generation is not. */
  lemma ClosedBreaker(b: Breaker, generation: nat, ok: bool, maxRequests: nat)
    requires b.state.Closed?
    ensures Admits(b, maxRequests) && Expire(b) == Breaker(Closed, Counts(0, 0, 0, 0), b.generation + 1)
    ensures Succeed(b, maxRequests) == Breaker(Closed,
      Counts(b.counts.requests + 1, b.counts.successes + 1, b.counts.failures, b.counts.streak + 1), b.generation)
    ensures generation != b.generation ==> Settle(b, generation, ok, maxRequests) == b
    ensures Fail(b, maxRequests).state.Closed? ==> Fail(b, maxRequests) == Breaker(Closed,
      Counts(b.counts.requests + 1, b.counts.successes, b.counts.failures + 1, 0), b.generation)
  {
  }

  // ----- Consecutive failures -----

  /** After k more failures a closed breaker with s successes and f failures meets the trip rule. */
  predicate TripsAfter(s: nat, f: nat, k: nat) {
    s + f + k >= 3 && 2 * (f + k) >= 3 * s
  }

  function Max(a: int, b: int): int {
    if a >= b then a else b
  }

  function TripPoint(s: nat, f: nat): (k: nat)
    ensures k >= 1 && TripsAfter(s, f, k)
    ensures forall j :: 1 <= j < k ==> !TripsAfter(s, f, j)
  {
    Max(1, Max(3 - s - f, (3 * s + 1) / 2 - f))
  }

  /** One admitted request that fails, with no expiry in between. */
  function Fail(b: Breaker, maxRequests: nat): Breaker {
    Settle(Admit(b), b.generation, false, maxRequests)
  }

  function FailTimes(b: Breaker, k: nat, maxRequests: nat): Breaker {
    if k == 0 then b else Fail(FailTimes(b, k - 1, maxRequests), maxRequests)
  }

  /** A closed breaker with nothing in flight opens at exactly the trip point. */
  lemma {:induction false} FailuresTripExactly(b: Breaker, k: nat, maxRequests: nat)
    requires b.state.Closed? && b.counts.requests == b.counts.successes + b.counts.failures
    requires k <= TripPoint(b.counts.successes, b.counts.failures)
    ensures var after := FailTimes(b, k, maxRequests);
      if k == TripPoint(b.counts.successes, b.counts.failures) then after == Enter(b, Open)
      else
        && after.state.Closed? && after.generation == b.generation
        && after.counts.successes == b.counts.successes && after.counts.failures == b.counts.failures + k
        && after.counts.requests == b.counts.requests + k
  {
    if k > 0 {
      FailuresTripExactly(b, k - 1, maxRequests);
      assert TripsAfter(b.counts.successes, b.counts.failures, k) <==>
        k == TripPoint(b.counts.successes, b.counts.failures);
    }
  }
}
