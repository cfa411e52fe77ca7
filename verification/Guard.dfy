/** The retry loop itself, the bulkhead, and `Guard.Do` composing them around a breaker, for one
    caller at a time. Interleaved callers are in GuardSystem. */
module GuardModel {
  import opened Basics
  import opened BreakerModel
  import opened BreakerSequential
  import opened CircuitBreaker
  import opened Backoff
  import opened Retry

  /** What stands between the retry loop and the protected function. */
  datatype Protection = Bare | Behind(cfg: Config, start: Snapshot)

  /** What the k-th call through the protection returns to the retry loop. */
  function CallReturns(pr: Protection, script: Schedule): Results {
    (k: nat) => match pr
      case Bare => script(k).result
      case Behind(cfg, s) => BreakerSequential.Outcome(cfg, s, script, k).returned
  }

  /** How often the protected function itself runs during `n` calls. */
  function FunctionRuns(pr: Protection, script: Schedule, n: nat): nat {
    match pr
    case Bare => n
    case Behind(cfg, s) => Executions(cfg, s, script, n)
  }

  /** The k-th call gets past the protection and runs the function. */
  ghost predicate Ran(pr: Protection, script: Schedule, k: nat) {
    pr.Bare? || Admits(pr.cfg, After(pr.cfg, pr.start, script, k), script(k).allowAt)
  }

  /** A call that runs the function returns its result, any other the breaker's error, and the
      function's runs are those calls. */
  lemma CallMeans(pr: Protection, script: Schedule, k: nat)
    ensures CallReturns(pr, script)(k) == if Ran(pr, script, k) then script(k).result else Some(ErrOpen)
    ensures FunctionRuns(pr, script, k + 1) == FunctionRuns(pr, script, k) + if Ran(pr, script, k) then 1 else 0
    ensures FunctionRuns(pr, script, 0) == 0
  {
  }

  /** The closure `call` of `Guard.Do`: the protected function, through the breaker if there is one. */
  class Call {
    const breaker: Breaker?
    const script: Schedule
    ghost const protection: Protection
    ghost var made: nat
    ghost var runs: nat

    ghost predicate Valid()
      reads this, breaker
    {
      && runs == FunctionRuns(protection, script, made)
      && (breaker == null <==> protection.Bare?)
      && (breaker != null ==>
            && breaker.Valid() && protection.cfg == breaker.cfg
            && breaker.View() == After(breaker.cfg, protection.start, script, made))
    }

    constructor (breaker: Breaker?, script: Schedule)
      requires breaker != null ==> breaker.Valid()
      ensures Valid() && this.breaker == breaker && this.script == script && made == runs == 0
      ensures protection == if breaker == null then Bare else Behind(breaker.cfg, breaker.View())
    {
      this.breaker := breaker;
      this.script := script;
      this.protection := if breaker == null then Bare else Behind(breaker.cfg, breaker.View());
      made, runs := 0, 0;
    }

    /** The environment of this call is the entry of the script that the caller names. */
    method Invoke(i: nat) returns (r: Option<Error>)
      requires Valid() && i == made
      modifies this, breaker
      ensures Valid() && made == i + 1
      ensures r == CallReturns(protection, script)(i)
    {
      if breaker == null {
        r := script(i).result;
        runs := runs + 1;
      } else {
        var executed;
        r, executed := breaker.Do(script(i));
        runs := runs + if executed then 1 else 0;
      }
      made := made + 1;
    }
  }

  /** The tail of one iteration of the retry loop: the sleep, if the delay is positive, and the
      next delay. */
  method SleepAndGrow(p: Policy, env: Env, i: nat, delay: int)
    returns (serr: Option<Error>, next: int, ghost slept: seq<int>)
    requires delay == Delay(p.curve, i)
    ensures serr == if delay > 0 then env.sleeps(i) else None
    ensures serr.None? ==> next == Delay(p.curve, i + 1)
    ensures Waits(p, env, i + 1) == Waits(p, env, i) + slept
  {
    slept := [];
    if delay > 0 {
      var wait := delay;
      if p.jitter > 0.0 {
        wait := ApplyJitter(p, delay, env.draws(i));
      }
      slept := [wait];
      serr := env.sleeps(i);
      if serr.Some? {
        return serr, delay, slept;
      }
    }
    next := Grow(p.curve, delay);
    if p.curve.max > 0 && next > p.curve.max {
      next := p.curve.max;
    }
    return None, next, slept;
  }

  /** Attempt `i` ends the run with this result, having slept `slept` after it. */
  ghost predicate EndsWith(p: Policy, out: Results, env: Env, i: nat, returned: Option<Error>, slept: seq<int>) {
    && Stops(p, out, env, i) && returned == Returned(p, out, env, i)
    && Waits(p, env, if Sleeps(p, out, i) then i + 1 else i) == Waits(p, env, i) + slept
  }

  lemma EndedRun(p: Policy, out: Results, env: Env, i: nat, returned: Option<Error>, slept: seq<int>)
    requires i < Attempts(p) && Continues(p, out, env, i) && EndsWith(p, out, env, i, returned, slept)
    ensures Run(p, out, env) == Retry.Outcome(i + 1, Waits(p, env, i) + slept, returned)
  {
    RunEndsAt(p, out, env, i);
  }

  /** One iteration of the retry loop: the call, the reasons to stop, the backoff. */
  method AttemptOnce(p: Policy, env: Env, call: Call, i: nat, delay: int)
    returns (stop: bool, returned: Option<Error>, next: int, ghost slept: seq<int>)
    requires call.Valid() && call.made == i < Attempts(p) && delay == Delay(p.curve, i)
    modifies call, call.breaker
    ensures call.Valid() && call.made == i + 1
    ensures var out := CallReturns(call.protection, call.script);
            && stop == Stops(p, out, env, i)
            && (stop ==> EndsWith(p, out, env, i, returned, slept))
    ensures !stop ==> i + 1 < Attempts(p) && next == Delay(p.curve, i + 1)
                      && Waits(p, env, i + 1) == Waits(p, env, i) + slept
  {
    next, slept := delay, [];
    returned := call.Invoke(i);
    if returned == None {
      return true, None, next, slept;
    }
    if p.retryable.Some? && !p.retryable.value(returned.value) {
      return true, returned, next, slept;
    }
    if i == Attempts(p) - 1 {
      return true, returned, next, slept;
    }
    var serr;
    serr, next, slept := SleepAndGrow(p, env, i, delay);
    if serr.Some? {
      return true, serr, next, slept;
    }
    return false, returned, next, slept;
  }

  /** `RetryPolicy.Do`. */
  method RetryDo(p: Policy, env: Env, call: Call) returns (returned: Option<Error>, ghost log: Retry.Outcome)
    requires call.Valid() && call.made == 0
    modifies call, call.breaker
    ensures log == Run(p, CallReturns(call.protection, call.script), env)
    ensures returned == log.returned
    ensures call.Valid() && call.made == log.calls
  {
    var attempts := p.maxAttempts;
    if attempts <= 0 {
      attempts := 1;
    }
    ghost var out := CallReturns(call.protection, call.script);
    ghost var waits := [];
    returned := None;
    var delay := p.curve.base;
    var i := 0;
    while i < attempts
      invariant 0 <= i < attempts == Attempts(p)
      invariant call.Valid() && call.made == i
      invariant Continues(p, out, env, i)
      invariant delay == Delay(p.curve, i) && waits == Waits(p, env, i)
    {
      var stop;
      ghost var slept;
      stop, returned, delay, slept := AttemptOnce(p, env, call, i, delay);
      waits := waits + slept;
      if stop {
        EndedRun(p, out, env, i, returned, slept);
        log := Retry.Outcome(i + 1, waits, returned);
        return;
      }
      ContinuesOn(p, out, env, i);
      i := i + 1;
    }
  }

  class Bulkhead {
    const capacity: nat
    var tokens: nat

    ghost predicate Valid()
      reads this
    {
      1 <= capacity && tokens <= capacity
    }

    constructor (max: int)
      ensures Valid() && capacity == Max(1, max) && tokens == 0
    {
      capacity := if max <= 0 then 1 else max;
      tokens := 0;
    }
  }

  /** What one uncontended `Guard.Do` does: admission, then the retried calls. A cancelled
      admission makes no call at all. */
  function GuardRun(admission: Option<Error>, p: Option<Policy>, pr: Protection, script: Schedule, env: Env)
    : Retry.Outcome
  {
    var out := CallReturns(pr, script);
    if admission.Some? then Retry.Outcome(0, [], admission)
    else if p.Some? then Run(p.value, out, env)
    else Retry.Outcome(1, [], out(0))
  }

  /** What a guard promises after `calls` calls that ran the function `runs` times: a cancelled
      admission returns the context's error and makes no call; without a retry policy there is one
      call, whose result is returned; with one, the retry contract holds of the calls. */
  ghost predicate GuardKeeps(admission: Option<Error>, p: Option<Policy>, pr: Protection, script: Schedule, env: Env,
                             calls: nat, runs: nat, returned: Option<Error>) {
    if admission.Some? then calls == runs == 0 && returned == admission
    else if p.None? then calls == 1 && runs <= 1 && returned == if runs == 1 then script(0).result else Some(ErrOpen)
    else Kept(p.value, CallReturns(pr, script), env, calls, returned)
  }

  lemma GuardContract(admission: Option<Error>, p: Option<Policy>, pr: Protection, script: Schedule, env: Env)
    ensures var run := GuardRun(admission, p, pr, script, env);
            GuardKeeps(admission, p, pr, script, env, run.calls, FunctionRuns(pr, script, run.calls), run.returned)
  {
    CallMeans(pr, script, 0);
    if p.Some? {
      RunIsKept(p.value, CallReturns(pr, script), env);
    }
  }

  /** The k-th call runs the function, and the function succeeds. */
  ghost predicate Succeeds(pr: Protection, script: Schedule, k: nat) {
    Ran(pr, script, k) && script(k).result.None?
  }

  lemma CallSucceedsIff(pr: Protection, script: Schedule, k: nat)
    ensures CallReturns(pr, script)(k).None? <==> Succeeds(pr, script, k)
  {
    CallMeans(pr, script, k);
  }

  /** An admitted caller gets nil exactly if the function ran in its last call and succeeded. */
  lemma GuardSucceedsIff(p: Option<Policy>, pr: Protection, script: Schedule, env: Env)
    ensures var run := GuardRun(None, p, pr, script, env);
            run.calls >= 1 && (run.returned.None? <==> Succeeds(pr, script, run.calls - 1))
  {
    if p.None? {
      CallSucceedsIff(pr, script, 0);
    } else {
      RetriedSucceedsIff(p.value, pr, script, env);
    }
  }

  lemma RetriedSucceedsIff(p: Policy, pr: Protection, script: Schedule, env: Env)
    ensures var run := Run(p, CallReturns(pr, script), env);
            run.returned.None? <==> Succeeds(pr, script, run.calls - 1)
  {
    var out := CallReturns(pr, script);
    var run := Run(p, out, env);
    RunSucceedsIff(p, out, env, run.calls - 1);
    SucceedsAt(pr, script, out, run.calls - 1, run.returned);
  }

  lemma SucceedsAt(pr: Protection, script: Schedule, out: Results, k: nat, returned: Option<Error>)
    requires out == CallReturns(pr, script) && (returned.None? <==> out(k).None?)
    ensures returned.None? <==> Succeeds(pr, script, k)
  {
    CallSucceedsIff(pr, script, k);
  }

  /** A call in which the function runs and succeeds is the last. */
  lemma SuccessEndsGuard(p: Option<Policy>, pr: Protection, script: Schedule, env: Env, k: nat)
    requires k < GuardRun(None, p, pr, script, env).calls && Succeeds(pr, script, k)
    ensures k == GuardRun(None, p, pr, script, env).calls - 1
  {
    CallSucceedsIff(pr, script, k);
    if p.Some? {
      RunSucceedsIff(p.value, CallReturns(pr, script), env, k);
    }
  }

  class Guard {
    const bulkhead: Bulkhead?
    const retry: Option<Policy>
    const breaker: Breaker?

    constructor (bulkhead: Bulkhead?, retry: Option<Policy>, breaker: Breaker?)
      ensures this.bulkhead == bulkhead && this.retry == retry && this.breaker == breaker
    {
      this.bulkhead := bulkhead;
      this.retry := retry;
      this.breaker := breaker;
    }

    ghost predicate Valid()
      reads this, bulkhead, breaker
    {
      && (bulkhead != null ==> bulkhead.Valid())
      && (breaker != null ==> breaker.Valid())
    }

    ghost function Protects(): Protection
      reads this, breaker
    {
      if breaker == null then Bare else Behind(breaker.cfg, breaker.View())
    }

    /** `done` is the context's error if the admission select takes the cancellation branch. */
    method Do(done: Option<Error>, script: Schedule, env: Env)
      returns (returned: Option<Error>, ghost log: Retry.Outcome, ghost runs: nat)
      requires Valid()
      requires bulkhead != null && done.None? ==> bulkhead.tokens < bulkhead.capacity
      modifies bulkhead, breaker
      ensures Valid() && (bulkhead != null ==> bulkhead.tokens == old(bulkhead.tokens))
      ensures log == GuardRun(if bulkhead == null then None else done, retry, old(Protects()), script, env)
      ensures returned == log.returned && runs == FunctionRuns(old(Protects()), script, log.calls)
      ensures GuardKeeps(if bulkhead == null then None else done, retry, old(Protects()), script, env,
                         log.calls, runs, returned)
      ensures breaker == null ==> runs == log.calls
      ensures breaker != null ==>
                breaker.View() == After(breaker.cfg, old(breaker.View()), script, log.calls)
    {
      if bulkhead != null {
        if done.Some? {
          return done, Retry.Outcome(0, [], done), 0;
        }
        bulkhead.tokens := bulkhead.tokens + 1;
        returned, log, runs := Retried(script, env);
        bulkhead.tokens := bulkhead.tokens - 1;
      } else {
        returned, log, runs := Retried(script, env);
      }
      GuardContract(None, retry, old(Protects()), script, env);
    }

    /** `runs` is how often the closure ran the protected function. */
    method Retried(script: Schedule, env: Env)
      returns (returned: Option<Error>, ghost log: Retry.Outcome, ghost runs: nat)
      requires breaker != null ==> breaker.Valid()
      modifies breaker
      ensures breaker != null ==> breaker.Valid()
      ensures log == GuardRun(None, retry, old(Protects()), script, env) && returned == log.returned
      ensures runs == FunctionRuns(old(Protects()), script, log.calls)
      ensures breaker != null ==>
                breaker.View() == After(breaker.cfg, old(breaker.View()), script, log.calls)
    {
      var call := new Call(breaker, script);
      if retry.Some? {
        returned, log := RetryDo(retry.value, env, call);
      } else {
        returned := call.Invoke(0);
        log := Retry.Outcome(1, [], returned);
      }
      runs := call.runs;
    }
  }

  // ---- A guard in front of a dead dependency -----------------------------------------------

  /** The function always fails, with errors that are worth retrying and are not the breaker's
      own; no sleep is cut short. */
  ghost predicate DeadDependency(p: Policy, script: Schedule, env: Env) {
    && (forall k: nat :: script(k).result.Some? && script(k).result != Some(ErrOpen))
    && (forall e :: Retries(p, e))
    && (forall k: nat :: env.sleeps(k).None?)
  }

  /** Every call from `first` up to `n` starts before the window of the trip at `first - 1` ends. */
  ghost predicate WithinWindow(cfg: Config, script: Schedule, first: nat, n: nat)
    requires first > 0
  {
    forall k: nat :: first <= k < n ==> script(k).allowAt < script(first - 1).recordAt + cfg.resetTimeout
  }

  lemma {:induction false} UntilTrip(cfg: Config, s: Snapshot, script: Schedule, i: nat)
    requires Reachable(cfg, s) && !s.state.Open? && i <= Budget(cfg, s) && AlwaysFails(script, i)
    ensures Executions(cfg, s, script, i) == i
    ensures var t := After(cfg, s, script, i);
            if i < Budget(cfg, s) then t.state == s.state && t.failures == s.failures + i
            else t.state.Open? && t.openedAt == script(i - 1).recordAt
  {
    if i > 0 {
      UntilTrip(cfg, s, script, i - 1);
    }
  }

  lemma {:induction false} SinceTrip(cfg: Config, s: Snapshot, script: Schedule, j: nat)
    requires Reachable(cfg, s) && !s.state.Open? && Budget(cfg, s) <= j && AlwaysFails(script, j)
    ensures var b, t := Budget(cfg, s), After(cfg, s, script, j);
            if WithinWindow(cfg, script, b, j)
            then t.state.Open? && t.openedAt == script(b - 1).recordAt && Executions(cfg, s, script, j) == b
            else Executions(cfg, s, script, j) > b
    decreases j
  {
    if j == Budget(cfg, s) {
      UntilTrip(cfg, s, script, j);
    } else {
      SinceTrip(cfg, s, script, j - 1);
    }
  }

  /** How often a dead function is run, and what the last of `n` attempts returns. */
  lemma DeadDependencyRuns(cfg: Config, s: Snapshot, script: Schedule, n: nat)
    requires Reachable(cfg, s) && !s.state.Open? && AlwaysFails(script, n) && n > 0
    ensures var b := Budget(cfg, s);
            Executions(cfg, s, script, n) == Min(n, b) <==> WithinWindow(cfg, script, b, n)
    ensures WithinWindow(cfg, script, Budget(cfg, s), n) ==>
              BreakerSequential.Outcome(cfg, s, script, n - 1).returned ==
              if n > Budget(cfg, s) then Some(ErrOpen) else script(n - 1).result
  {
    if n <= Budget(cfg, s) {
      UntilTrip(cfg, s, script, n - 1);
      UntilTrip(cfg, s, script, n);
    } else {
      SinceTrip(cfg, s, script, n - 1);
      SinceTrip(cfg, s, script, n);
    }
  }

  /** Against a dead dependency the retry loop uses up all its attempts. */
  lemma DeadDependencyExhausts(p: Policy, pr: Protection, script: Schedule, env: Env)
    requires DeadDependency(p, script, env)
    ensures var run, n := GuardRun(None, Some(p), pr, script, env), Attempts(p);
            run.calls == n && run.returned == CallReturns(pr, script)(n - 1)
  {
    var out, n := CallReturns(pr, script), Attempts(p);
    forall k: nat ensures out(k).Some? {
      assert script(k).result.Some?;
    }
    forall k: nat | k < n - 1 ensures !Stops(p, out, env, k) {
      assert out(k).Some? && env.sleeps(k).None?;
    }
    RunEndsAt(p, out, env, n - 1);
  }

  /** Composition: a guard that starts Closed at f failures (or HalfOpen) runs a dead function
      exactly min(attempts, failureThreshold - f) times (or once) if and only if no attempt after
      the trip comes resetTimeout later; then it returns ErrOpen exactly when attempts remain. */
  lemma GuardOnDeadDependency(cfg: Config, s: Snapshot, p: Policy, script: Schedule, env: Env)
    requires Reachable(cfg, s) && !s.state.Open? && DeadDependency(p, script, env)
    ensures var n, b := Attempts(p), Budget(cfg, s);
            var run := GuardRun(None, Some(p), Behind(cfg, s), script, env);
            && run.calls == n
            && (FunctionRuns(Behind(cfg, s), script, n) == Min(n, b) <==> WithinWindow(cfg, script, b, n))
            && (WithinWindow(cfg, script, b, n) ==>
                  && (run.returned == Some(ErrOpen) <==> n > b)
                  && (n <= b ==> run.returned == script(n - 1).result))
  {
    DeadDependencyExhausts(p, Behind(cfg, s), script, env);
    DeadDependencyRuns(cfg, s, script, Attempts(p));
  }

  /** The first `n` calls all start before a window opened at `openedAt` ends. */
  ghost predicate BeforeReset(cfg: Config, script: Schedule, openedAt: int, n: nat) {
    forall k: nat :: k < n ==> script(k).allowAt < openedAt + cfg.resetTimeout
  }

  /** Starting Open, the function is not run at all, and every call returns ErrOpen, exactly
      when every call falls inside the window. */
  lemma {:induction false} GuardWhileOpen(cfg: Config, s: Snapshot, script: Schedule, n: nat)
    requires Reachable(cfg, s) && s.state.Open?
    ensures Executions(cfg, s, script, n) == 0 <==> BeforeReset(cfg, script, s.openedAt, n)
    ensures BeforeReset(cfg, script, s.openedAt, n) ==> After(cfg, s, script, n) == s
    ensures BeforeReset(cfg, script, s.openedAt, n) && n > 0 ==>
              CallReturns(Behind(cfg, s), script)(n - 1) == Some(ErrOpen)
    decreases n
  {
    if n > 0 {
      GuardWhileOpen(cfg, s, script, n - 1);
      assert BeforeReset(cfg, script, s.openedAt, n) <==>
             BeforeReset(cfg, script, s.openedAt, n - 1) && script(n - 1).allowAt < s.openedAt + cfg.resetTimeout;
    }
  }
}
