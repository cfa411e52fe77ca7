/** `RetryPolicy.Do`: which attempt ends the loop, what is returned and what is slept, stated
    over arbitrary call results, sleep results and jitter draws. */
module Retry {
  import opened Basics
  import opened Powers
  import opened Backoff

  datatype Policy = Policy(maxAttempts: int, curve: Curve, jitter: real, retryable: Option<Error -> bool>)

  /** Results of the sleeps and of the random source, by attempt index. */
  datatype Env = Env(sleeps: nat -> Option<Error>, draws: nat -> real)

  /** What attempt `k` would return, for every k. */
  type Results = nat -> Option<Error>

  function Attempts(p: Policy): nat {
    if p.maxAttempts <= 0 then 1 else p.maxAttempts
  }

  predicate Retries(p: Policy, e: Error) {
    p.retryable.None? || p.retryable.value(e)
  }

  // ---- Jitter ------------------------------------------------------------------------------

  /** Go's conversion of a float to an integer, on exact reals. */
  function Trunc(x: real): int {
    if x < 0.0 then -((-x).Floor) else x.Floor
  }

  function JitterFraction(p: Policy): real {
    if p.jitter > 1.0 then 1.0 else p.jitter
  }

  function ApplyJitter(p: Policy, d: int, draw: real): int {
    Trunc(Jittered(d as real, JitterFraction(p), draw))
  }

  function Jittered(x: real, f: real, draw: real): real {
    x - x * f * (1.0 - draw)
  }

  /** The wait after attempt `k`, with this draw. */
  function WaitFor(p: Policy, k: nat, draw: real): int {
    var d := Delay(p.curve, k);
    if p.jitter > 0.0 then ApplyJitter(p, d, draw) else d
  }

  function Wait(p: Policy, env: Env, k: nat): int {
    WaitFor(p, k, env.draws(k))
  }

  /** The lower end of the band for a delay `d`; Jitter counts as at most 1. */
  function BandLow(p: Policy, d: int): (low: real)
    ensures p.jitter >= 1.0 ==> low == 0.0
  {
    d as real * (1.0 - if p.jitter < 1.0 then p.jitter else 1.0)
  }

  /** What applyJitter is to give for a positive delay: the integer part of the point of the band
      [d * (1 - Jitter), d] that the draw selects. */
  lemma JitterStaysInBand(p: Policy, d: int, draw: real)
    requires d > 0 && p.jitter > 0.0 && 0.0 <= draw <= 1.0
    ensures var low, wait := BandLow(p, d), ApplyJitter(p, d, draw);
            && wait as real <= low + draw * (d as real - low) < wait as real + 1.0
            && 0 <= wait <= d && low < wait as real + 1.0
            && (wait == d <==> draw == 1.0)
  {
    var x, f := d as real, JitterFraction(p);
    JitteredInBand(x, f, draw);
    TruncIsBelow(Jittered(x, f, draw));
  }

  lemma PartOf(x: real, f: real)
    requires 0.0 < x && 0.0 <= f <= 1.0
    ensures 0.0 <= x * f <= x
    ensures 0.0 < f ==> 0.0 < x * f
    ensures f == 0.0 ==> x * f == 0.0
  {
  }

  lemma Complement(x: real, f: real)
    ensures x * (1.0 - f) == x - x * f
  {
  }

  lemma JitteredInBand(x: real, f: real, draw: real)
    requires 0.0 < x && 0.0 < f <= 1.0 && 0.0 <= draw <= 1.0
    ensures 0.0 <= x * (1.0 - f) <= Jittered(x, f, draw) <= x
    ensures Jittered(x, f, draw) == x * (1.0 - f) + draw * (x - x * (1.0 - f))
    ensures Jittered(x, f, draw) == x <==> draw == 1.0
  {
    PartOf(x, f);
    Complement(x, f);
    var part := x * f;
    PartOf(part, 1.0 - draw);
    Complement(part, draw);
    assert Jittered(x, f, draw) == x - part * (1.0 - draw);
    assert x * (1.0 - f) == x - part;
    assert x - x * (1.0 - f) == part;
    assert draw * part == part * draw;
  }

  lemma TruncIsBelow(x: real)
    requires 0.0 <= x
    ensures 0 <= Trunc(x) && Trunc(x) as real <= x < Trunc(x) as real + 1.0
  {
  }

  /** A larger draw never waits less. */
  lemma JitterGrowsWithDraw(p: Policy, d: int, draw: real, more: real)
    requires d > 0 && p.jitter > 0.0 && 0.0 <= draw <= more <= 1.0
    ensures ApplyJitter(p, d, draw) <= ApplyJitter(p, d, more)
  {
    var x, f := d as real, JitterFraction(p);
    PartOf(x, f);
    SmallerPart(x * f, 1.0 - more, 1.0 - draw);
    TruncKeepsOrder(Jittered(x, f, draw), Jittered(x, f, more));
  }

  lemma SmallerPart(x: real, f: real, g: real)
    requires 0.0 <= x && f <= g
    ensures x * f <= x * g
  {
  }

  lemma TruncKeepsOrder(x: real, y: real)
    requires x <= y
    ensures Trunc(x) <= Trunc(y)
  {
  }

  /** Every whole wait of the band below the delay itself is the wait of some draw in [0, 1). */
  lemma JitterFillsBand(p: Policy, d: int, wait: int) returns (draw: real)
    requires d > 0 && p.jitter > 0.0 && wait < d && BandLow(p, d) < wait as real + 1.0
    ensures 0.0 <= draw < 1.0 && ApplyJitter(p, d, draw) == wait
  {
    var part := BandWidth(p, d);
    draw := DrawFor(d as real, part, wait as real);
    TruncAt(d as real - part * (1.0 - draw), wait);
  }

  /** Where the draw's share of the band is taken off. */
  lemma BandWidth(p: Policy, d: int) returns (part: real)
    requires d > 0 && p.jitter > 0.0
    ensures 0.0 < part == d as real - BandLow(p, d) <= d as real
    ensures forall draw :: ApplyJitter(p, d, draw) == Trunc(d as real - part * (1.0 - draw))
  {
    var x, f := d as real, JitterFraction(p);
    part := x * f;
    PartOf(x, f);
    Complement(x, f);
    forall draw ensures ApplyJitter(p, d, draw) == Trunc(x - part * (1.0 - draw)) {
    }
  }

  lemma DrawFor(x: real, part: real, n: real) returns (draw: real)
    requires 0.0 < part <= x && x - part < n + 1.0 && n < x
    ensures 0.0 <= draw < 1.0 && n <= x - part * (1.0 - draw) < n + 1.0
  {
    if n <= x - part {
      draw := 0.0;
    } else {
      var q := QuotientInUnit(x - n, part);
      draw := 1.0 - q;
      assert 1.0 - draw == q;
    }
  }

  lemma QuotientInUnit(y: real, part: real) returns (q: real)
    requires 0.0 < y < part
    ensures 0.0 < q < 1.0 && part * q == y
  {
    q := y / part;
    assert part * q == y;
    if q >= 1.0 {
      SmallerPart(part, 1.0, q);
    } else if q <= 0.0 {
      SmallerPart(part, q, 0.0);
    }
  }

  lemma TruncAt(x: real, n: int)
    requires 0.0 <= x && n as real <= x < n as real + 1.0
    ensures Trunc(x) == n
  {
  }

  // ---- Where the loop stops ----------------------------------------------------------------

  /** Attempt `k` failed, may be retried, and is followed by a positive delay. */
  predicate Sleeps(p: Policy, out: Results, k: nat) {
    out(k).Some? && Retries(p, out(k).value) && k + 1 < Attempts(p) && Delay(p.curve, k) > 0
  }

  predicate Stops(p: Policy, out: Results, env: Env, k: nat) {
    || out(k).None?
    || !Retries(p, out(k).value)
    || k + 1 >= Attempts(p)
    || (Delay(p.curve, k) > 0 && env.sleeps(k).Some?)
  }

  /** The first attempt at or after `i` that ends the loop. */
  function StopFrom(p: Policy, out: Results, env: Env, i: nat): (n: nat)
    requires i < Attempts(p)
    ensures i <= n < Attempts(p) && Stops(p, out, env, n)
    ensures forall k: nat :: i <= k < n ==> !Stops(p, out, env, k)
    decreases Attempts(p) - i
  {
    if Stops(p, out, env, i) then i else StopFrom(p, out, env, i + 1)
  }

  function Returned(p: Policy, out: Results, env: Env, n: nat): Option<Error> {
    if out(n).None? || !Retries(p, out(n).value) || n + 1 >= Attempts(p) then out(n) else env.sleeps(n)
  }

  /** The sleeps after the first `n` attempts: a non-positive delay is not slept at all, so the
      context is not consulted there. */
  function Waits(p: Policy, env: Env, n: nat): seq<int> {
    if n == 0 then []
    else Waits(p, env, n - 1) + if Delay(p.curve, n - 1) > 0 then [Wait(p, env, n - 1)] else []
  }

  lemma {:induction false} WaitsNeedOnlyDraws(p: Policy, env: Env, other: Env, n: nat)
    requires forall k: nat :: k < n ==> env.draws(k) == other.draws(k)
    ensures Waits(p, env, n) == Waits(p, other, n)
    decreases n
  {
    if n > 0 {
      WaitsNeedOnlyDraws(p, env, other, n - 1);
    }
  }

  datatype Outcome = Outcome(calls: nat, waits: seq<int>, returned: Option<Error>)

  function Run(p: Policy, out: Results, env: Env): Outcome {
    var n := StopFrom(p, out, env, 0);
    Outcome(n + 1, Waits(p, env, if Sleeps(p, out, n) then n + 1 else n), Returned(p, out, env, n))
  }

  /** The first `n` attempts all lead on. */
  ghost predicate Continues(p: Policy, out: Results, env: Env, n: nat) {
    forall k: nat :: k < n ==> !Stops(p, out, env, k)
  }

  lemma ContinuesOn(p: Policy, out: Results, env: Env, n: nat)
    requires Continues(p, out, env, n) && !Stops(p, out, env, n)
    ensures Continues(p, out, env, n + 1)
  {
  }

  /** The first attempt that satisfies Stops is where the run ends. */
  lemma RunEndsAt(p: Policy, out: Results, env: Env, n: nat)
    requires n < Attempts(p) && Stops(p, out, env, n) && Continues(p, out, env, n)
    ensures Run(p, out, env) ==
            Outcome(n + 1, Waits(p, env, if Sleeps(p, out, n) then n + 1 else n), Returned(p, out, env, n))
  {
  }

  // ---- The contract, in the policy's own fields --------------------------------------------

  /** Call `k` failed, with an error that Retryable accepts, and no sleep after it failed. */
  predicate LedOn(p: Policy, out: Results, env: Env, k: nat) {
    && out(k).Some? && (p.retryable.Some? ==> p.retryable.value(out(k).value))
    && (Delay(p.curve, k) > 0 ==> env.sleeps(k).None?)
  }

  /** What a caller may rely on after `calls` calls: there are at least one and at most MaxAttempts;
      every call but the last led on; the last one succeeded, or failed for good, or was followed by
      a sleep whose error is returned. */
  ghost predicate Kept(p: Policy, out: Results, env: Env, calls: nat, returned: Option<Error>) {
    && 1 <= calls <= Max(1, p.maxAttempts)
    && (forall k: nat :: k + 1 < calls ==> LedOn(p, out, env, k))
    && if out(calls - 1).None? then returned.None?
       else if calls == Max(1, p.maxAttempts) || (p.retryable.Some? && !p.retryable.value(out(calls - 1).value))
       then returned == out(calls - 1)
       else Delay(p.curve, calls - 1) > 0 && env.sleeps(calls - 1).Some? && returned == env.sleeps(calls - 1)
  }

  /** For every policy, outcome sequence and sleep behaviour the contract holds of the run, and of
      nothing else. */
  lemma RetryContract(p: Policy, out: Results, env: Env, calls: nat, returned: Option<Error>)
    ensures Kept(p, out, env, calls, returned) <==>
            Run(p, out, env).calls == calls && Run(p, out, env).returned == returned
  {
    var n := StopFrom(p, out, env, 0);
    RunIsKept(p, out, env);
    if Kept(p, out, env, calls, returned) {
      KeptStops(p, out, env, calls, returned);
      RunEndsAt(p, out, env, calls - 1);
    }
  }

  lemma RunIsKept(p: Policy, out: Results, env: Env)
    ensures Kept(p, out, env, Run(p, out, env).calls, Run(p, out, env).returned)
  {
    var n := StopFrom(p, out, env, 0);
    forall k: nat | k < n
      ensures LedOn(p, out, env, k)
    {
      assert !Stops(p, out, env, k);
    }
  }

  /** Nil is returned exactly for a success, and a success ends the run. */
  lemma RunSucceedsIff(p: Policy, out: Results, env: Env, k: nat)
    requires k < Run(p, out, env).calls
    ensures var run := Run(p, out, env);
            (run.returned.None? <==> out(run.calls - 1).None?) && (out(k).None? ==> k == run.calls - 1)
  {
    RunIsKept(p, out, env);
    assert k + 1 < Run(p, out, env).calls ==> LedOn(p, out, env, k);
  }

  lemma KeptStops(p: Policy, out: Results, env: Env, calls: nat, returned: Option<Error>)
    requires Kept(p, out, env, calls, returned)
    ensures Stops(p, out, env, calls - 1) && Continues(p, out, env, calls - 1)
    ensures returned == Returned(p, out, env, calls - 1)
  {
    forall k: nat | k < calls - 1 ensures !Stops(p, out, env, k) {
      assert LedOn(p, out, env, k);
    }
  }

  // ---- The sleeps --------------------------------------------------------------------------

  /** How many of the first `n` delays are positive. */
  function PositiveDelays(c: Curve, n: nat): nat {
    if n == 0 then 0 else PositiveDelays(c, n - 1) + if Delay(c, n - 1) > 0 then 1 else 0
  }

  /** After how many attempts the loop turns to its delay: all but the last, and also the last if it
      failed with attempts left and an error worth retrying. */
  function Pauses(p: Policy, out: Results, calls: nat): nat
    requires calls >= 1
  {
    var last := out(calls - 1);
    if last.None? || calls == Max(1, p.maxAttempts) || (p.retryable.Some? && !p.retryable.value(last.value))
    then calls - 1 else calls
  }

  /** The sleep after attempt `k` has its place among `waits`, and the right length. */
  ghost predicate SleptAfter(p: Policy, env: Env, waits: seq<int>, k: nat) {
    var i, d := PositiveDelays(p.curve, k), Delay(p.curve, k);
    i < |waits| && waits[i] == if p.jitter > 0.0 then ApplyJitter(p, d, env.draws(k)) else d
  }

  /** It sleeps once for each of those pauses that has a positive delay, in order, for that delay
      or its jittered form, and never after the last possible attempt. */
  lemma RetrySleeps(p: Policy, out: Results, env: Env)
    ensures var r := Run(p, out, env);
            var pauses := Pauses(p, out, r.calls);
            && pauses < Max(1, p.maxAttempts)
            && |r.waits| == PositiveDelays(p.curve, pauses)
            && forall k: nat :: k < pauses && Delay(p.curve, k) > 0 ==> SleptAfter(p, env, r.waits, k)
  {
    var r := Run(p, out, env);
    var pauses := Pauses(p, out, r.calls);
    WaitsAreThosePauses(p, out, env);
    WaitsCounted(p, env, pauses);
    forall k: nat | k < pauses && Delay(p.curve, k) > 0 ensures SleptAfter(p, env, r.waits, k) {
      WaitsPlaced(p, env, pauses, k);
    }
  }

  lemma WaitsAreThosePauses(p: Policy, out: Results, env: Env)
    ensures var r := Run(p, out, env);
            var pauses := Pauses(p, out, r.calls);
            r.waits == Waits(p, env, pauses) && pauses < Max(1, p.maxAttempts)
  {
  }

  lemma {:induction false} WaitsCounted(p: Policy, env: Env, n: nat)
    ensures |Waits(p, env, n)| == PositiveDelays(p.curve, n)
    decreases n
  {
    if n > 0 {
      WaitsCounted(p, env, n - 1);
    }
  }

  lemma {:induction false} WaitsPlaced(p: Policy, env: Env, n: nat, k: nat)
    requires k < n && Delay(p.curve, k) > 0
    ensures SleptAfter(p, env, Waits(p, env, n), k)
    decreases n
  {
    WaitsCounted(p, env, n - 1);
    if k < n - 1 {
      WaitsPlaced(p, env, n - 1, k);
    }
  }

  lemma {:induction false} WaitsNoMore(p: Policy, env: Env, n: nat)
    ensures |Waits(p, env, n)| <= n
  {
    if n > 0 {
      WaitsNoMore(p, env, n - 1);
    }
  }

  // ---- Jitter does not change the course of a run ------------------------------------------

  ghost predicate InBand(p: Policy, wait: int, d: int) {
    0 <= wait <= d && BandLow(p, d) < wait as real + 1.0
  }

  ghost predicate AllInBand(p: Policy, waits: seq<int>, delays: seq<int>) {
    |waits| == |delays| && forall i :: 0 <= i < |waits| ==> InBand(p, waits[i], delays[i])
  }

  lemma {:induction false} JitteredWaits(p: Policy, env: Env, n: nat)
    requires p.jitter > 0.0 && forall k: nat :: 0.0 <= env.draws(k) <= 1.0
    ensures AllInBand(p, Waits(p, env, n), Waits(p.(jitter := 0.0), env, n))
  {
    if n > 0 {
      JitteredWaits(p, env, n - 1);
      var d := Delay(p.curve, n - 1);
      if d > 0 {
        JitterStaysInBand(p, d, env.draws(n - 1));
        BandAppend(p, Waits(p, env, n - 1), Waits(p.(jitter := 0.0), env, n - 1), Wait(p, env, n - 1), d);
      }
    }
  }

  lemma BandAppend(p: Policy, waits: seq<int>, delays: seq<int>, wait: int, d: int)
    requires AllInBand(p, waits, delays) && InBand(p, wait, d)
    ensures AllInBand(p, waits + [wait], delays + [d])
  {
  }

  lemma {:induction false} SameStop(p: Policy, q: Policy, out: Results, env: Env, i: nat)
    requires q == p.(jitter := q.jitter) && i < Attempts(p)
    ensures StopFrom(p, out, env, i) == StopFrom(q, out, env, i)
    decreases Attempts(p) - i
  {
    if !Stops(p, out, env, i) {
      SameStop(p, q, out, env, i + 1);
    }
  }

  /** A jittered run and its unjittered twin make the same calls, return the same result and
      sleep equally often, each jittered sleep inside the band of its twin. */
  lemma JitterIsHarmless(p: Policy, out: Results, env: Env)
    requires p.jitter > 0.0 && forall k: nat :: 0.0 <= env.draws(k) <= 1.0
    ensures var r, q := Run(p, out, env), Run(p.(jitter := 0.0), out, env);
            r.calls == q.calls && r.returned == q.returned && AllInBand(p, r.waits, q.waits)
  {
    SameStop(p, p.(jitter := 0.0), out, env, 0);
    var n := StopFrom(p, out, env, 0);
    JitteredWaits(p, env, n);
    JitteredWaits(p, env, n + 1);
  }

  // ---- Waits of a full run -----------------------------------------------------------------

  lemma {:induction false} WaitsAreDelays(p: Policy, env: Env, n: nat)
    requires p.jitter <= 0.0 && forall k: nat :: k < n ==> Delay(p.curve, k) > 0
    ensures |Waits(p, env, n)| == n
    ensures forall k: nat :: k < n ==> Waits(p, env, n)[k] == Delay(p.curve, k)
  {
    if n > 0 {
      WaitsAreDelays(p, env, n - 1);
    }
  }

  /** A run that exhausts its attempts sleeps the capped exponential, wait for wait, if the
      delays between its attempts fit. */
  lemma ExhaustedRunSleeps(p: Policy, out: Results, env: Env)
    requires Capped(p.curve) && p.curve.growth.Doubling? && p.jitter <= 0.0
    requires FitsFor(p.curve, Attempts(p) - 1)
    requires FailsRetryably(p, out, Attempts(p))
    requires forall k: nat :: k + 1 < Attempts(p) ==> env.sleeps(k).None?
    ensures var r := Run(p, out, env);
            && r.calls == Attempts(p) && r.returned == out(Attempts(p) - 1)
            && |r.waits| == Attempts(p) - 1
            && forall k: nat :: k < |r.waits| ==> r.waits[k] == CappedExponential(p.curve, 2, k)
  {
    var n := Attempts(p) - 1;
    RunEndsAt(p, out, env, n);
    ClosedFormForIff(p.curve, n);
    WaitsAreDelays(p, env, n);
  }

  // ---- When the context is consulted -------------------------------------------------------

  /** The first `n` attempts fail with errors worth retrying. */
  ghost predicate FailsRetryably(p: Policy, out: Results, n: nat) {
    forall k: nat :: k < n ==> out(k).Some? && Retries(p, out(k).value)
  }

  /** Every two successive attempts have a sleep, which watches the context, between them. */
  ghost predicate SleepsInEveryGap(p: Policy, out: Results) {
    forall k: nat :: k + 1 < Attempts(p) ==> Sleeps(p, out, k)
  }

  /** What a caller can check: Base is positive and the last gap's delay is computed before any
      doubling has wrapped. */
  predicate GapsAreSlept(p: Policy) {
    || Attempts(p) <= 1
    || (0 < p.curve.base &&
        if p.curve.max > 0 then FitsFor(p.curve, Attempts(p) - 1)
        else p.curve.base * Power(2, Attempts(p) - 2) <= MAX_INT64)
  }

  /** A failing run respects cancellation between every two attempts exactly under GapsAreSlept. */
  lemma ConsultsContextIff(p: Policy, out: Results)
    requires IsInt64(p.curve.base) && IsInt64(p.curve.max) && p.curve.growth.Doubling?
    requires FailsRetryably(p, out, Attempts(p))
    ensures SleepsInEveryGap(p, out) <==> GapsAreSlept(p)
  {
    var c, gaps := p.curve, Attempts(p) - 1;
    GapsNeedDelays(p, out);
    if gaps >= 1 {
      if c.max <= 0 {
        UncappedPositiveIff(c, gaps);
      } else if c.base > 0 {
        ClosedFormForIff(c, gaps);
      } else {
        assert Delay(c, 0) <= 0;
      }
    }
  }

  lemma GapsNeedDelays(p: Policy, out: Results)
    requires FailsRetryably(p, out, Attempts(p))
    ensures SleepsInEveryGap(p, out) <==> PositiveFor(p.curve, Attempts(p) - 1)
  {
    forall k: nat | k + 1 < Attempts(p) ensures Sleeps(p, out, k) <==> Delay(p.curve, k) > 0 {
      assert out(k).Some? && Retries(p, out(k).value);
    }
  }

  /** The policy respects cancellation in every gap, however many attempts it is given, exactly
      when Base and Max are positive and at most (2^63 - 1) / 2. */
  lemma AlwaysConsultsContextIff(p: Policy, out: Results)
    requires IsInt64(p.curve.base) && IsInt64(p.curve.max) && p.curve.growth.Doubling?
    requires forall k: nat :: out(k).Some? && Retries(p, out(k).value)
    ensures (forall n: nat :: SleepsInEveryGap(p.(maxAttempts := n), out))
            <==> 0 < p.curve.base <= HALF && 0 < p.curve.max <= HALF
  {
    PositiveForeverIff(p.curve);
    if 0 < p.curve.base <= HALF && 0 < p.curve.max <= HALF {
      forall n: nat ensures SleepsInEveryGap(p.(maxAttempts := n), out) {
        var q := p.(maxAttempts := n);
        GapsNeedDelays(q, out);
        assert PositiveFor(q.curve, Attempts(q) - 1);
      }
    } else {
      var k: nat :| Delay(p.curve, k) <= 0;
      var n: nat := k + 2;
      GapsNeedDelays(p.(maxAttempts := n), out);
      assert !SleepsInEveryGap(p.(maxAttempts := n), out);
    }
  }

  lemma {:induction false} WaitsAfter64(p: Policy, env: Env, n: nat)
    requires IsInt64(p.curve.base) && p.curve.max <= 0 && p.curve.growth.Doubling?
    ensures |Waits(p, env, n)| <= 64
    decreases n
  {
    WaitsNoMore(p, env, n);
    if n > 64 {
      WaitsAfter64(p, env, n - 1);
      UncappedDelay(p.curve, n - 1);
    }
  }

  /** With no cap the doubling runs out of bits: however many attempts are allowed, a run sleeps
      at most 64 times, and its later attempts follow one another without consulting the context. */
  lemma UncappedRunSleepsAtMost64(p: Policy, out: Results, env: Env)
    requires IsInt64(p.curve.base) && p.curve.max <= 0 && p.curve.growth.Doubling?
    ensures |Run(p, out, env).waits| <= 64
    ensures forall k: nat :: k >= 64 ==> !Sleeps(p, out, k)
  {
    var n := StopFrom(p, out, env, 0);
    WaitsAfter64(p, env, n);
    WaitsAfter64(p, env, n + 1);
    forall k: nat | k >= 64 ensures Delay(p.curve, k) == 0 {
      UncappedDelay(p.curve, k);
    }
  }
}
