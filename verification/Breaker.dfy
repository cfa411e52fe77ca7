/** The circuit breaker: its atomic steps on a snapshot of the guarded fields, and the runs those
    steps form. Every method of the source holds the mutex from start to end, so one method call is
    one step; calls of different goroutines interleave only between steps. */
module BreakerModel {
  import opened Basics

  datatype State = Closed | Open | HalfOpen

  datatype Config = Config(failureThreshold: int, successThreshold: int, resetTimeout: int) {
    predicate Valid() {
      1 <= failureThreshold && 1 <= successThreshold && 1 <= resetTimeout <= MAX_INT64
    }
  }

  /** `NewBreaker`'s defaulting: non-positive settings become 5 failures, 1 success, 30 seconds. */
  function NewConfig(failureThreshold: int, successThreshold: int, resetTimeout: int): (cfg: Config)
    requires IsInt64(resetTimeout)
    ensures cfg.Valid()
    ensures cfg.failureThreshold == failureThreshold || (failureThreshold <= 0 && cfg.failureThreshold == 5)
    ensures cfg.successThreshold == successThreshold || (successThreshold <= 0 && cfg.successThreshold == 1)
    ensures cfg.resetTimeout == resetTimeout || (resetTimeout <= 0 && cfg.resetTimeout == 30 * 1_000_000_000)
  {
    Config(if failureThreshold <= 0 then 5 else failureThreshold,
           if successThreshold <= 0 then 1 else successThreshold,
           if resetTimeout <= 0 then 30_000_000_000 else resetTimeout)
  }

  datatype Snapshot = Snapshot(state: State, failures: int, successes: int, openedAt: int)

  const INITIAL := Snapshot(Closed, 0, 0, 0)

  // ---- Atomic steps ------------------------------------------------------------------------

  function HalfOpenIfDue(cfg: Config, s: Snapshot, now: int): Snapshot {
    if s.state.Open? && Sub(now, s.openedAt) >= cfg.resetTimeout
    then s.(state := HalfOpen, successes := 0)
    else s
  }

  predicate Admits(cfg: Config, s: Snapshot, now: int) {
    !HalfOpenIfDue(cfg, s, now).state.Open?
  }

  function Trip(s: Snapshot, now: int): Snapshot {
    s.(state := Open, openedAt := now, failures := 0)
  }

  function RecordSuccess(cfg: Config, s: Snapshot): Snapshot {
    var t := s.(failures := 0);
    if !t.state.HalfOpen? then t
    else if t.successes + 1 >= cfg.successThreshold then t.(state := Closed, successes := 0)
    else t.(successes := t.successes + 1)
  }

  function RecordFailure(cfg: Config, s: Snapshot, now: int): Snapshot {
    var t := s.(successes := 0);
    if t.state.HalfOpen? then Trip(t, now)
    else if t.failures + 1 >= cfg.failureThreshold then Trip(t, now)
    else t.(failures := t.failures + 1)
  }

  function RecordStep(cfg: Config, s: Snapshot, success: bool, now: int): Snapshot {
    if success then RecordSuccess(cfg, s) else RecordFailure(cfg, s, now)
  }

  /** One locked method call, with the clock reading it took (or would have taken) inside the lock. */
  datatype Event = Allow(now: int) | Peek(now: int) | Record(success: bool, now: int)

  function Next(cfg: Config, s: Snapshot, e: Event): Snapshot {
    match e
    case Allow(now) => HalfOpenIfDue(cfg, s, now)
    case Peek(now) => HalfOpenIfDue(cfg, s, now)
    case Record(success, now) => RecordStep(cfg, s, success, now)
  }

  // ---- Runs --------------------------------------------------------------------------------

  /** The fields after the first `i` events of a run of a new breaker. Any event sequence is a
      run: a Record may come from a call admitted many events, and several states, earlier. */
  function At(cfg: Config, log: seq<Event>, i: nat): Snapshot
    requires i <= |log|
  {
    if i == 0 then INITIAL else Next(cfg, At(cfg, log, i - 1), log[i - 1])
  }

  ghost predicate Monotone(log: seq<Event>) {
    forall i, j :: 0 <= i <= j < |log| ==> log[i].now <= log[j].now
  }

  lemma {:induction false} AtPrefix(cfg: Config, log: seq<Event>, more: seq<Event>, i: nat)
    requires i <= |log|
    ensures At(cfg, log + more, i) == At(cfg, log, i)
  {
    if i > 0 {
      AtPrefix(cfg, log, more, i - 1);
    }
  }

  // ---- Sequential calls --------------------------------------------------------------------

  /** What the environment does during one `Breaker.Do`: the instants of Allow and Record, and
      what the protected function returns if it is run. */
  datatype Attempt = Attempt(allowAt: int, result: Option<Error>, recordAt: int)

  datatype DoOutcome = DoOutcome(after: Snapshot, returned: Option<Error>, executed: bool)

  /** `Breaker.Do` with nothing interleaved between its Allow and its Record. */
  function DoStep(cfg: Config, s: Snapshot, a: Attempt): DoOutcome {
    var t := HalfOpenIfDue(cfg, s, a.allowAt);
    if t.state.Open? then DoOutcome(t, Some(ErrOpen), false)
    else DoOutcome(RecordStep(cfg, t, a.result.None?, a.recordAt), a.result, true)
  }
}
