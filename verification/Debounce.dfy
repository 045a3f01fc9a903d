/** The reload sidecar's debouncer over a sequence of file events. */
module Debounce {

  /** should_reload: fires when the clock has advanced by at least the debounce interval since the last firing. */
  predicate ShouldReload(now: int, last: int, interval: int) {
    now - last >= interval
  }

  /** The clock reading that counts as the last reload after the first n events; 0 before any firing. */
  function LastReload(times: seq<int>, interval: int, n: nat): int
    requires n <= |times|
  {
    if n == 0 then 0
    else
      var last := LastReload(times, interval, n - 1);
      if ShouldReload(times[n - 1], last, interval) then times[n - 1] else last
  }

  /** The events among the first n that trigger a reload. */
  function Fired(times: seq<int>, interval: int, n: nat): (f: seq<nat>)
    requires n <= |times|
    ensures |f| <= n && forall k :: 0 <= k < |f| ==> f[k] < n
  {
    if n == 0 then []
    else
      var before := Fired(times, interval, n - 1);
      if ShouldReload(times[n - 1], LastReload(times, interval, n - 1), interval) then before + [n - 1] else before
  }

  /** The event loop. */
  method Watch(times: seq<int>, interval: int) returns (fired: seq<nat>)
    ensures fired == Fired(times, interval, |times|)
  {
    fired := [];
    var lastReload := 0;
    for i := 0 to |times|
      invariant lastReload == LastReload(times, interval, i)
      invariant fired == Fired(times, interval, i)
    {
      var timeDiff := times[i] - lastReload;
      if timeDiff >= interval {
        lastReload := times[i];
        fired := fired + [i];
      }
    }
  }

  /** The clock never goes back. */
  ghost predicate NonDecreasing(times: seq<int>) {
    forall i, j :: 0 <= i < j < |times| ==> times[i] <= times[j]
  }

  /** Events in order, the first at least an interval after time 0, neighbours at least an interval apart. */
  ghost predicate Spaced(times: seq<int>, interval: int, choice: seq<nat>) {
    && (forall k :: 0 <= k < |choice| ==> choice[k] < |times|)
    && (forall k :: 0 < k < |choice| ==> choice[k - 1] < choice[k])
    && (|choice| > 0 ==> times[choice[0]] >= interval)
    && (forall k :: 0 < k < |choice| ==> times[choice[k]] - times[choice[k - 1]] >= interval)
  }

  lemma {:induction false} LastReloadIsLastFired(times: seq<int>, interval: int, n: nat)
    requires n <= |times|
    ensures var f := Fired(times, interval, n);
      LastReload(times, interval, n) == if f == [] then 0 else times[f[|f| - 1]]
  {
    if n > 0 { LastReloadIsLastFired(times, interval, n - 1); }
  }

  /** The debouncer's own choice is spaced. */
  lemma {:induction false} FiredIsSpaced(times: seq<int>, interval: int, n: nat)
    requires n <= |times|
    ensures Spaced(times, interval, Fired(times, interval, n))
  {
    if n > 0 {
      FiredIsSpaced(times, interval, n - 1);
      LastReloadIsLastFired(times, interval, n - 1);
    }
  }

  /** Greedy stays ahead: the k-th firing is no later than the k-th event of any spaced choice. */
  lemma {:induction false} FiredStaysAhead(times: seq<int>, interval: int, choice: seq<nat>, n: nat)
    requires NonDecreasing(times) && Spaced(times, interval, choice) && n <= |choice|
    ensures n > 0 ==> n <= |Fired(times, interval, choice[n - 1] + 1)|
  {
    if n > 0 {
      FiredStaysAhead(times, interval, choice, n - 1);
      var c := choice[n - 1];
      LastReloadIsLastFired(times, interval, c);
      if n > 1 {
        FiredGrows(times, interval, choice[n - 2] + 1, c);
        var f := Fired(times, interval, c);
        if |f| < n {
          FiredWithin(times, interval, choice[n - 2] + 1, c);
          assert f == Fired(times, interval, choice[n - 2] + 1);
          assert f[|f| - 1] <= choice[n - 2];
        }
      }
    }
  }

  lemma {:induction false} FiredGrows(times: seq<int>, interval: int, m: nat, n: nat)
    requires m <= n <= |times|
    ensures Fired(times, interval, m) <= Fired(times, interval, n)
  {
    if m < n { FiredGrows(times, interval, m, n - 1); }
  }

  lemma FiredWithin(times: seq<int>, interval: int, m: nat, n: nat)
    requires m <= n <= |times| && |Fired(times, interval, n)| <= |Fired(times, interval, m)|
    ensures Fired(times, interval, n) == Fired(times, interval, m)
  {
  }

  /** No spaced choice of events is larger than the set the debouncer fires on. */
  lemma DebouncerIsOptimal(times: seq<int>, interval: int, choice: seq<nat>)
    requires NonDecreasing(times) && Spaced(times, interval, choice)
    ensures |choice| <= |Fired(times, interval, |times|)|
  {
    if |choice| > 0 {
      var c := choice[|choice| - 1];
      FiredStaysAhead(times, interval, choice, |choice|);
      FiredGrows(times, interval, c + 1, |times|);
    }
  }

  /** Firings i to j are at least (j - i) intervals apart, whatever the clock does in between. */
  lemma {:induction false} FiringRate(times: seq<int>, interval: int, i: nat, j: nat)
    requires i <= j < |Fired(times, interval, |times|)|
    ensures var f := Fired(times, interval, |times|);
      (j - i) * interval <= times[f[j]] - times[f[i]]
    decreases j - i
  {
    FiredIsSpaced(times, interval, |times|);
    if i < j {
      FiringRate(times, interval, i, j - 1);
      assert (j - i) * interval == (j - 1 - i) * interval + interval;
    }
  }

  /** A suppressed event comes less than an interval after the last firing before it, or after time 0. */
  lemma {:induction false} SuppressedIsRecent(times: seq<int>, interval: int, e: nat, n: nat)
    requires e < n <= |times|
    ensures e !in Fired(times, interval, n) <==>
      var f := Fired(times, interval, e);
      times[e] - (if f == [] then 0 else times[f[|f| - 1]]) < interval
  {
    LastReloadIsLastFired(times, interval, e);
    if e + 1 < n {
      SuppressedIsRecent(times, interval, e, n - 1);
    } else {
      assert e !in Fired(times, interval, e);
    }
  }
}
