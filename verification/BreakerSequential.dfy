/** `Breaker.Do` calls one after another, from any breaker state. */
module BreakerSequential {
  import opened Basics
  import opened BreakerModel
  import BreakerRuns

  /** The environment of the k-th call, for every k. */
  type Schedule = nat -> Attempt

  /** The fields after the first `i` calls. */
  function After(cfg: Config, s: Snapshot, calls: Schedule, i: nat): Snapshot {
    if i == 0 then s else DoStep(cfg, After(cfg, s, calls, i - 1), calls(i - 1)).after
  }

  function Outcome(cfg: Config, s: Snapshot, calls: Schedule, i: nat): DoOutcome {
    DoStep(cfg, After(cfg, s, calls, i), calls(i))
  }

  /** How many of the first `i` calls ran the protected function. */
  function Executions(cfg: Config, s: Snapshot, calls: Schedule, i: nat): nat {
    if i == 0 then 0
    else Executions(cfg, s, calls, i - 1) + if Outcome(cfg, s, calls, i - 1).executed then 1 else 0
  }

  /** The first `n` calls follow one another on a monotone clock. */
  ghost predicate Ordered(calls: Schedule, n: nat) {
    && (forall i: nat :: i < n ==> calls(i).allowAt <= calls(i).recordAt)
    && (forall i: nat, j: nat :: i < j < n ==> calls(i).recordAt <= calls(j).allowAt)
  }

  ghost predicate AlwaysFails(calls: Schedule, n: nat) {
    forall i: nat :: i < n ==> calls(i).result.Some?
  }

  /** The first `n` calls ask for admission within [start, until]. */
  ghost predicate Between(calls: Schedule, n: nat, start: int, until: int) {
    forall k: nat :: k < n ==> start <= calls(k).allowAt <= until
  }

  ghost predicate NotBefore(calls: Schedule, n: nat, start: int) {
    forall k: nat :: k < n ==> start <= calls(k).allowAt
  }

  /** The counters are below their thresholds, as they are in every state a breaker can be in. */
  predicate Reachable(cfg: Config, s: Snapshot) {
    cfg.Valid() && 0 <= s.failures < cfg.failureThreshold && 0 <= s.successes < cfg.successThreshold
  }

  lemma RunsAreReachable(cfg: Config, log: seq<Event>, i: nat)
    requires cfg.Valid() && i <= |log|
    ensures Reachable(cfg, At(cfg, log, i))
  {
    BreakerRuns.FieldsRefineLog(cfg, log, i);
  }

  /** Call `i` opened the breaker. */
  predicate TripsAt(cfg: Config, s: Snapshot, calls: Schedule, i: nat) {
    Outcome(cfg, s, calls, i).executed && After(cfg, s, calls, i + 1).state.Open?
  }

  lemma {:induction false} StaysReachable(cfg: Config, s: Snapshot, calls: Schedule, i: nat)
    requires Reachable(cfg, s)
    ensures Reachable(cfg, After(cfg, s, calls, i))
  {
    if i > 0 {
      StaysReachable(cfg, s, calls, i - 1);
    }
  }

  // ---- Trips are resetTimeout apart --------------------------------------------------------

  lemma {:induction false} OpenSinceTrip(cfg: Config, s: Snapshot, calls: Schedule, i: nat, j: nat)
    requires cfg.Valid() && Ordered(calls, j) && i < j && TripsAt(cfg, s, calls, i)
    ensures (After(cfg, s, calls, j).state.Open? && After(cfg, s, calls, j).openedAt == calls(i).recordAt)
            || calls(j - 1).allowAt >= calls(i).recordAt + cfg.resetTimeout
  {
    if j > i + 1 {
      OpenSinceTrip(cfg, s, calls, i, j - 1);
      assert calls(j - 2).allowAt <= calls(j - 1).allowAt;
    }
  }

  /** The function is not run again, and so the breaker does not trip again, until resetTimeout
      after a trip. */
  lemma TripsAreApart(cfg: Config, s: Snapshot, calls: Schedule, i: nat, j: nat)
    requires cfg.Valid() && Ordered(calls, j + 1) && i < j && TripsAt(cfg, s, calls, i)
    ensures Outcome(cfg, s, calls, j).executed ==>
              calls(j).allowAt >= calls(i).recordAt + cfg.resetTimeout
    ensures TripsAt(cfg, s, calls, j) ==>
              calls(j).recordAt - calls(i).recordAt >= cfg.resetTimeout
  {
    OpenSinceTrip(cfg, s, calls, i, j);
    assert calls(j - 1).allowAt <= calls(j).allowAt;
  }

  // ---- Load on a dead dependency -----------------------------------------------------------

  /** Failing executions the breaker tolerates before it first opens. */
  function Budget(cfg: Config, s: Snapshot): int {
    if s.state.Closed? then cfg.failureThreshold - s.failures else 1
  }

  /** The length of `k` reset windows. */
  function Windows(cfg: Config, k: nat): int {
    if k == 0 then 0 else Windows(cfg, k - 1) + cfg.resetTimeout
  }

  lemma {:induction false} WindowsIsProduct(cfg: Config, k: nat)
    requires cfg.Valid()
    ensures Windows(cfg, k) == k * cfg.resetTimeout >= 0
  {
    if k > 0 {
      WindowsIsProduct(cfg, k - 1);
    }
  }

  lemma QuotientAtLeast(k: int, x: int, d: int)
    requires d > 0 && k * d <= x
    ensures k <= x / d
  {
    var excess := k - x / d;
    assert x - x / d * d < d;
    assert excess * d == k * d - x / d * d;
    assert excess <= 0 || excess * d >= d;
  }

  ghost predicate LoadInvariant(cfg: Config, s: Snapshot, start: int, now: Snapshot, ran: int) {
    var over := ran - Budget(cfg, s);
    && (now.state.Closed? ==> s.state.Closed? && ran == now.failures - s.failures)
    && (now.state.HalfOpen? ==> ran == 0 && !s.state.Closed?)
    && (now.state.Open? ==> over < 0 || Windows(cfg, over) <= now.openedAt - start)
  }

  lemma LoadInvariantStep(cfg: Config, s: Snapshot, start: int, now: Snapshot, ran: int, a: Attempt)
    requires Reachable(cfg, s) && Reachable(cfg, now) && LoadInvariant(cfg, s, start, now, ran)
    requires a.result.Some? && start <= a.allowAt <= a.recordAt
    ensures var d := DoStep(cfg, now, a);
            && LoadInvariant(cfg, s, start, d.after, ran + if d.executed then 1 else 0)
            && (d.executed && ran >= Budget(cfg, s) ==>
                  Windows(cfg, ran + 1 - Budget(cfg, s)) <= a.allowAt - start)
  {
  }

  lemma {:induction false} LoadInvariantHolds(cfg: Config, s: Snapshot, calls: Schedule, start: int, i: nat)
    requires Reachable(cfg, s) && Ordered(calls, i) && AlwaysFails(calls, i)
    requires NotBefore(calls, i, start)
    ensures LoadInvariant(cfg, s, start, After(cfg, s, calls, i), Executions(cfg, s, calls, i))
    decreases i
  {
    if i > 0 {
      LoadInvariantHolds(cfg, s, calls, start, i - 1);
      StaysReachable(cfg, s, calls, i - 1);
      LoadInvariantStep(cfg, s, start, After(cfg, s, calls, i - 1), Executions(cfg, s, calls, i - 1), calls(i - 1));
    }
  }

  predicate Fits(cfg: Config, windows: int, length: int) {
    windows <= 0 || Windows(cfg, windows) <= length
  }

  /** An execution beyond the budget has waited its full windows. */
  lemma {:induction false} ExecutionWaited(cfg: Config, s: Snapshot, calls: Schedule, start: int, i: nat)
    requires Reachable(cfg, s) && Ordered(calls, i + 1) && AlwaysFails(calls, i + 1)
    requires NotBefore(calls, i + 1, start)
    ensures Executions(cfg, s, calls, i + 1) == Executions(cfg, s, calls, i)
            || Fits(cfg, Executions(cfg, s, calls, i + 1) - Budget(cfg, s), calls(i).allowAt - start)
  {
    LoadInvariantHolds(cfg, s, calls, start, i);
    StaysReachable(cfg, s, calls, i);
    LoadInvariantStep(cfg, s, start, After(cfg, s, calls, i), Executions(cfg, s, calls, i), calls(i));
  }

  /** The last of the first `n` calls that ran the function, if any did. */
  lemma {:induction false} LastExecution(cfg: Config, s: Snapshot, calls: Schedule, n: nat) returns (k: nat)
    ensures Executions(cfg, s, calls, n) == 0
            || (k < n && Executions(cfg, s, calls, n) == Executions(cfg, s, calls, k + 1)
                && Executions(cfg, s, calls, k + 1) > Executions(cfg, s, calls, k))
    decreases n
  {
    k := 0;
    if n > 0 {
      k := n - 1;
      if !Outcome(cfg, s, calls, n - 1).executed {
        k := LastExecution(cfg, s, calls, n - 1);
      }
    }
  }

  lemma ExecutionsFitWindows(cfg: Config, s: Snapshot, calls: Schedule, start: int, until: int, n: nat)
    requires Reachable(cfg, s) && Ordered(calls, n) && AlwaysFails(calls, n)
    requires Between(calls, n, start, until)
    ensures Fits(cfg, Executions(cfg, s, calls, n) - Budget(cfg, s), until - start)
  {
    var k := LastExecution(cfg, s, calls, n);
    if k < n {
      ExecutionWaited(cfg, s, calls, start, k);
    }
  }

  /** Against a function that always fails, the executions started within [start, until] number
      at most the budget plus one per full resetTimeout. */
  lemma ExecutionsBounded(cfg: Config, s: Snapshot, calls: Schedule, start: int, until: int, n: nat)
    requires Reachable(cfg, s) && Ordered(calls, n) && AlwaysFails(calls, n)
    requires start <= until && Between(calls, n, start, until)
    ensures Executions(cfg, s, calls, n) <= Budget(cfg, s) + (until - start) / cfg.resetTimeout
    ensures Budget(cfg, s) <= cfg.failureThreshold
  {
    var over := Max(0, Executions(cfg, s, calls, n) - Budget(cfg, s));
    ExecutionsFitWindows(cfg, s, calls, start, until, n);
    WindowsIsProduct(cfg, over);
    QuotientAtLeast(over, until - start, cfg.resetTimeout);
  }

  // ---- The bound is attained ---------------------------------------------------------------

  /** Calls as early as the breaker lets them through: a burst, then one per resetTimeout. */
  function Eager(cfg: Config, start: int): Schedule {
    (i: nat) => EagerCall(cfg, start, i)
  }

  function EagerCall(cfg: Config, start: int, i: nat): Attempt {
    var at := start + Windows(cfg, Max(0, i - cfg.failureThreshold + 1));
    Attempt(at, Some(Other(0)), at)
  }

  /** The state in which the eager schedule finds the breaker before its i-th call. */
  ghost predicate EagerState(cfg: Config, start: int, i: nat, s: Snapshot) {
    if i < cfg.failureThreshold then s.state.Closed? && s.failures == i && s.successes == 0
    else s.state.Open? && s.failures == 0 && s.openedAt == start + Windows(cfg, i - cfg.failureThreshold)
  }

  lemma EagerStep(cfg: Config, start: int, i: nat, s: Snapshot)
    requires cfg.Valid() && EagerState(cfg, start, i, s)
    ensures var d := DoStep(cfg, s, EagerCall(cfg, start, i));
            d.executed && EagerState(cfg, start, i + 1, d.after)
  {
    var w := i + 1 - cfg.failureThreshold;
    assert w > 0 ==> Windows(cfg, w) == Windows(cfg, w - 1) + cfg.resetTimeout;
  }

  /** Every call of the schedule is let through. */
  ghost predicate EagerUpTo(cfg: Config, start: int, calls: Schedule, i: nat) {
    && EagerState(cfg, start, i, After(cfg, INITIAL, calls, i))
    && Executions(cfg, INITIAL, calls, i) == i
  }

  lemma EagerNext(cfg: Config, start: int, calls: Schedule, i: nat)
    requires cfg.Valid() && calls(i) == EagerCall(cfg, start, i) && EagerUpTo(cfg, start, calls, i)
    ensures EagerUpTo(cfg, start, calls, i + 1)
  {
    EagerStep(cfg, start, i, After(cfg, INITIAL, calls, i));
  }

  lemma {:induction false} EagerRun(cfg: Config, start: int, calls: Schedule, i: nat)
    requires cfg.Valid() && calls == Eager(cfg, start)
    ensures EagerUpTo(cfg, start, calls, i)
    decreases i
  {
    if i > 0 {
      EagerRun(cfg, start, calls, i - 1);
      EagerNext(cfg, start, calls, i - 1);
    }
  }

  lemma {:induction false} WindowsGrow(cfg: Config, i: nat, j: nat)
    requires cfg.Valid() && i <= j
    ensures Windows(cfg, i) <= Windows(cfg, j)
  {
    if i < j {
      WindowsGrow(cfg, i, j - 1);
    }
  }

  lemma EagerWithin(cfg: Config, start: int, extra: nat, i: nat, j: nat)
    requires cfg.Valid() && i <= j < cfg.failureThreshold + extra
    ensures start <= Eager(cfg, start)(i).allowAt <= Eager(cfg, start)(j).allowAt
            <= start + Windows(cfg, extra)
  {
    var a, b := Max(0, i - cfg.failureThreshold + 1), Max(0, j - cfg.failureThreshold + 1);
    WindowsGrow(cfg, 0, a);
    WindowsGrow(cfg, a, b);
    WindowsGrow(cfg, b, extra);
  }

  lemma EagerIsOrdered(cfg: Config, start: int, extra: nat)
    requires cfg.Valid()
    ensures Ordered(Eager(cfg, start), cfg.failureThreshold + extra)
    ensures AlwaysFails(Eager(cfg, start), cfg.failureThreshold + extra)
  {
    var n, calls := cfg.failureThreshold + extra, Eager(cfg, start);
    forall i: nat, j: nat | i < j < n ensures calls(i).recordAt <= calls(j).allowAt {
      EagerWithin(cfg, start, extra, i, j);
    }
  }

  lemma EagerIsBetween(cfg: Config, start: int, extra: nat)
    requires cfg.Valid()
    ensures Between(Eager(cfg, start), cfg.failureThreshold + extra, start, start + Windows(cfg, extra))
  {
    forall k: nat | k < cfg.failureThreshold + extra
      ensures start <= Eager(cfg, start)(k).allowAt <= start + Windows(cfg, extra)
    {
      EagerWithin(cfg, start, extra, k, k);
    }
  }

  /** For every number of windows some schedule reaches the bound of ExecutionsBounded. */
  lemma BoundIsAttained(cfg: Config, start: int, extra: nat)
    requires cfg.Valid()
    ensures Ordered(Eager(cfg, start), cfg.failureThreshold + extra)
    ensures AlwaysFails(Eager(cfg, start), cfg.failureThreshold + extra)
    ensures Between(Eager(cfg, start), cfg.failureThreshold + extra, start, start + extra * cfg.resetTimeout)
    ensures Executions(cfg, INITIAL, Eager(cfg, start), cfg.failureThreshold + extra) == Budget(cfg, INITIAL) + extra
  {
    EagerIsOrdered(cfg, start, extra);
    EagerIsBetween(cfg, start, extra);
    EagerRun(cfg, start, Eager(cfg, start), cfg.failureThreshold + extra);
    WindowsIsProduct(cfg, extra);
  }
}
