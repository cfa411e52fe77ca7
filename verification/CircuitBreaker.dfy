/** The breaker as an object: each method takes one step of the run that its fields are at, and what
    it answers is stated over that run. */
module CircuitBreaker {
  import opened Basics
  import opened BreakerModel
  import opened BreakerRuns

  class Breaker {
    const cfg: Config
    var state: State
    var failures: int
    var successes: int
    var openedAt: int
    /** Every step taken so far. */
    ghost var log: seq<Event>

    ghost function View(): Snapshot
      reads this
    {
      Snapshot(state, failures, successes, openedAt)
    }

    ghost predicate Valid()
      reads this
    {
      cfg.Valid() && View() == At(cfg, log, |log|)
    }

    constructor (failureThreshold: int, successThreshold: int, resetTimeout: int)
      requires IsInt64(resetTimeout)
      ensures Valid() && log == []
      ensures cfg == NewConfig(failureThreshold, successThreshold, resetTimeout)
    {
      cfg := NewConfig(failureThreshold, successThreshold, resetTimeout);
      state, failures, successes, openedAt := Closed, 0, 0, 0;
      log := [];
    }

    method CurrentState(now: int) returns (s: State)
      requires Valid()
      modifies this
      ensures Valid() && log == old(log) + [Peek(now)]
      ensures View() == Next(cfg, old(View()), Peek(now))
      ensures s == Phase(cfg, log, |log|)
    {
      MaybeHalfOpen(now, Peek(now));
      s := state;
      FieldsRefineLog(cfg, log, |log|);
    }

    method Allow(now: int) returns (ok: bool)
      requires Valid()
      modifies this
      ensures Valid() && log == old(log) + [Event.Allow(now)]
      ensures View() == Next(cfg, old(View()), Event.Allow(now))
      ensures ok == Admits(cfg, old(View()), now)
      ensures Monotone(log) ==> (ok <==> !RecentTrip(cfg, old(log), now))
    {
      ghost var before := log;
      MaybeHalfOpen(now, Event.Allow(now));
      ok := state != Open;
      if Monotone(log) {
        AdmitsIffNoRecentTrip(cfg, before, now);
      }
    }

    method MaybeHalfOpen(now: int, ghost e: Event)
      requires Valid() && (e == Event.Allow(now) || e == Peek(now))
      modifies this
      ensures Valid() && log == old(log) + [e]
      ensures View() == HalfOpenIfDue(cfg, old(View()), now)
    {
      if state == Open && Sub(now, openedAt) >= cfg.resetTimeout {
        state := HalfOpen;
        successes := 0;
      }
      AtPrefix(cfg, log, [e], |log|);
      log := log + [e];
    }

    method Record(success: bool, now: int)
      requires Valid()
      modifies this
      ensures Valid() && log == old(log) + [Event.Record(success, now)]
      ensures View() == RecordStep(cfg, old(View()), success, now)
    {
      AtPrefix(cfg, log, [Event.Record(success, now)], |log|);
      log := log + [Event.Record(success, now)];
      if success {
        failures := 0;
        if state == HalfOpen {
          successes := successes + 1;
          if successes >= cfg.successThreshold {
            state := Closed;
            successes := 0;
          }
        }
        return;
      }
      successes := 0;
      if state == HalfOpen {
        TripNow(now);
        return;
      }
      failures := failures + 1;
      if failures >= cfg.failureThreshold {
        TripNow(now);
      }
    }

    method TripNow(now: int)
      modifies this`state, this`openedAt, this`failures
      ensures state == Open && openedAt == now && failures == 0
    {
      state := Open;
      openedAt := now;
      failures := 0;
    }

    /** `Breaker.Do`: a rejection is returned and never recorded. */
    method Do(a: Attempt) returns (returned: Option<Error>, executed: bool)
      requires Valid()
      modifies this
      ensures Valid()
      ensures DoOutcome(View(), returned, executed) == DoStep(cfg, old(View()), a)
      ensures returned == if executed then a.result else Some(ErrOpen)
      ensures Monotone(old(log) + [Event.Allow(a.allowAt)]) ==>
                (executed <==> !RecentTrip(cfg, old(log), a.allowAt))
      ensures log == old(log) + [Event.Allow(a.allowAt)] +
                     if executed then [Event.Record(a.result.None?, a.recordAt)] else []
    {
      var ok := Allow(a.allowAt);
      if !ok {
        return Some(ErrOpen), false;
      }
      Record(a.result.None?, a.recordAt);
      return a.result, true;
    }
  }
}
