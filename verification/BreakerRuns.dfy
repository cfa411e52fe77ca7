/** What every interleaving of Allow, State and Record steps keeps. The reference side is the
    event log alone: phases, trips and counts are defined from the events, and only the theorems
    relate them to the breaker's fields. */
module BreakerRuns {
  import opened BreakerModel

  // ---- The log's own account ---------------------------------------------------------------

  predicate IsFailure(e: Event) {
    e.Record? && !e.success
  }

  predicate IsSuccess(e: Event) {
    e.Record? && e.success
  }

  /** Event `i` trips the breaker: a failure while half open, or the last of failureThreshold
      failures in a row. */
  predicate Trips(cfg: Config, log: seq<Event>, i: nat)
    requires i < |log|
    decreases i, 1
  {
    IsFailure(log[i])
    && (Phase(cfg, log, i).HalfOpen? || FailuresLogged(cfg, log, i) + 1 >= cfg.failureThreshold)
  }

  /** Event `i` finds the breaker open and the last trip resetTimeout old. */
  predicate HalfOpens(cfg: Config, log: seq<Event>, i: nat)
    requires i < |log|
    decreases i, 1
  {
    var k := LastTrip(cfg, log, i);
    Phase(cfg, log, i).Open? && !log[i].Record? && 0 <= k < i && log[i].now >= log[k].now + cfg.resetTimeout
  }

  /** Event `i` is the last success that a half-open breaker needs. */
  predicate Closes(cfg: Config, log: seq<Event>, i: nat)
    requires i < |log|
    decreases i, 1
  {
    Phase(cfg, log, i).HalfOpen? && IsSuccess(log[i])
    && SuccessesLogged(cfg, log, i) + 1 >= cfg.successThreshold
  }

  /** The phase after the first `i` events: what the last trip, half-opening or closing says. */
  function Phase(cfg: Config, log: seq<Event>, i: nat): State
    requires i <= |log|
    decreases i, 0
  {
    if i == 0 then Closed
    else if Trips(cfg, log, i - 1) then Open
    else if HalfOpens(cfg, log, i - 1) then HalfOpen
    else if Closes(cfg, log, i - 1) then Closed
    else Phase(cfg, log, i - 1)
  }

  /** Failure Records since the last success Record or trip. */
  function FailuresLogged(cfg: Config, log: seq<Event>, i: nat): nat
    requires i <= |log|
    decreases i, 0
  {
    if i == 0 || IsSuccess(log[i - 1]) || Trips(cfg, log, i - 1) then 0
    else FailuresLogged(cfg, log, i - 1) + if IsFailure(log[i - 1]) then 1 else 0
  }

  /** Success Records since the last half-opening. */
  function SuccessesLogged(cfg: Config, log: seq<Event>, i: nat): nat
    requires i <= |log|
    decreases i, 0
  {
    if i == 0 || HalfOpens(cfg, log, i - 1) then 0
    else SuccessesLogged(cfg, log, i - 1) + if IsSuccess(log[i - 1]) then 1 else 0
  }

  /** The index of the last trip among the first `i` events, or -1. */
  function LastTrip(cfg: Config, log: seq<Event>, i: nat): int
    requires i <= |log|
    decreases i, 0
  {
    if i == 0 then -1 else if Trips(cfg, log, i - 1) then i - 1 else LastTrip(cfg, log, i - 1)
  }

  lemma {:induction false} LastTripIsLast(cfg: Config, log: seq<Event>, i: nat)
    requires i <= |log|
    ensures -1 <= LastTrip(cfg, log, i) < i
    ensures LastTrip(cfg, log, i) >= 0 ==> Trips(cfg, log, LastTrip(cfg, log, i))
    ensures forall m: nat :: LastTrip(cfg, log, i) < m < i ==> !Trips(cfg, log, m)
    decreases i
  {
    if i > 0 {
      LastTripIsLast(cfg, log, i - 1);
    }
  }

  /** Later events do not change the account of earlier ones. */
  lemma {:induction false} AccountPrefix(cfg: Config, log: seq<Event>, more: seq<Event>, i: nat)
    requires i <= |log|
    ensures Phase(cfg, log + more, i) == Phase(cfg, log, i)
    ensures FailuresLogged(cfg, log + more, i) == FailuresLogged(cfg, log, i)
    ensures SuccessesLogged(cfg, log + more, i) == SuccessesLogged(cfg, log, i)
    ensures LastTrip(cfg, log + more, i) == LastTrip(cfg, log, i)
    ensures i < |log| ==> Trips(cfg, log + more, i) == Trips(cfg, log, i)
    decreases i
  {
    if i > 0 {
      AccountPrefix(cfg, log, more, i - 1);
    }
  }

  function CountFailures(log: seq<Event>, j: nat, i: nat): nat
    requires j <= i <= |log|
  {
    if i == j then 0 else CountFailures(log, j, i - 1) + if IsFailure(log[i - 1]) then 1 else 0
  }

  function CountSuccesses(log: seq<Event>, j: nat, i: nat): nat
    requires j <= i <= |log|
  {
    if i == j then 0 else CountSuccesses(log, j, i - 1) + if IsSuccess(log[i - 1]) then 1 else 0
  }

  /** The failures counted are all those since the last success or trip. */
  lemma {:induction false} FailuresCounted(cfg: Config, log: seq<Event>, j: nat, i: nat)
    requires j <= i <= |log| && (j == 0 || IsSuccess(log[j - 1]) || Trips(cfg, log, j - 1))
    requires forall x: nat :: j <= x < i ==> !IsSuccess(log[x]) && !Trips(cfg, log, x)
    ensures FailuresLogged(cfg, log, i) == CountFailures(log, j, i)
    decreases i
  {
    if j < i {
      FailuresCounted(cfg, log, j, i - 1);
    }
  }

  /** The successes counted are all those since the last half-opening. */
  lemma {:induction false} SuccessesCounted(cfg: Config, log: seq<Event>, j: nat, i: nat)
    requires 0 < j <= i <= |log| && HalfOpens(cfg, log, j - 1)
    requires forall x: nat :: j <= x < i ==> !HalfOpens(cfg, log, x)
    ensures SuccessesLogged(cfg, log, i) == CountSuccesses(log, j, i)
    decreases i
  {
    if j < i {
      SuccessesCounted(cfg, log, j, i - 1);
    }
  }

  // ---- The fields refine the log -----------------------------------------------------------

  ghost predicate FieldsMatch(cfg: Config, log: seq<Event>, i: nat)
    requires i <= |log|
  {
    var s, k := At(cfg, log, i), LastTrip(cfg, log, i);
    && s.state == Phase(cfg, log, i)
    && s.failures == FailuresLogged(cfg, log, i) < cfg.failureThreshold
    && s.successes == (if s.state.HalfOpen? then SuccessesLogged(cfg, log, i) else 0)
    && s.successes < cfg.successThreshold
    && (s.state.Open? ==> 0 <= k < i && s.openedAt == log[k].now)
  }

  lemma {:induction false} FieldsRefineLog(cfg: Config, log: seq<Event>, i: nat)
    requires cfg.Valid() && i <= |log|
    ensures FieldsMatch(cfg, log, i)
    decreases i
  {
    if i > 0 {
      FieldsRefineLog(cfg, log, i - 1);
    }
  }

  predicate Moves(cfg: Config, log: seq<Event>, i: nat, source: State, target: State)
    requires i < |log|
  {
    At(cfg, log, i).state == source && At(cfg, log, i + 1).state == target
  }

  /** Each change of the state field, as an if-and-only-if over the log. */
  lemma TransitionsExactly(cfg: Config, log: seq<Event>, i: nat)
    requires cfg.Valid() && i < |log|
    ensures Moves(cfg, log, i, Closed, Open) <==>
            At(cfg, log, i).state.Closed? && IsFailure(log[i])
            && FailuresLogged(cfg, log, i) + 1 == cfg.failureThreshold
    ensures Moves(cfg, log, i, HalfOpen, Open) <==>
            At(cfg, log, i).state.HalfOpen? && IsFailure(log[i])
    ensures Moves(cfg, log, i, Open, HalfOpen) <==> HalfOpens(cfg, log, i)
    ensures Moves(cfg, log, i, HalfOpen, Closed) <==>
            At(cfg, log, i).state.HalfOpen? && IsSuccess(log[i])
            && SuccessesLogged(cfg, log, i) + 1 == cfg.successThreshold
    ensures !Moves(cfg, log, i, Open, Closed) && !Moves(cfg, log, i, Closed, HalfOpen)
    ensures Moves(cfg, log, i, HalfOpen, Closed) ==> At(cfg, log, i + 1).failures == 0
  {
    FieldsRefineLog(cfg, log, i);
    FieldsRefineLog(cfg, log, i + 1);
  }

  /** A count recorded while Open survives half-opening: the counter's reset is not there. */
  lemma FailuresSurviveHalfOpening()
    ensures exists cfg: Config, log: seq<Event> ::
              cfg.Valid() && Monotone(log)
              && At(cfg, log, |log|).state.HalfOpen? && At(cfg, log, |log|).failures > 0
  {
    var cfg := Config(2, 1, 10);
    var log := [Record(false, 0), Record(false, 0), Record(false, 1), Peek(10)];
    assert At(cfg, log, 1) == Snapshot(Closed, 1, 0, 0);
    assert At(cfg, log, 2) == Snapshot(Open, 0, 0, 0);
    assert At(cfg, log, 3) == Snapshot(Open, 1, 0, 0);
    assert At(cfg, log, 4) == Snapshot(HalfOpen, 1, 0, 0);
    assert cfg.Valid() && Monotone(log) && At(cfg, log, |log|).state.HalfOpen?;
  }

  // ---- The open window ---------------------------------------------------------------------

  /** While a trip is younger than resetTimeout the breaker stays Open, whatever late outcomes
      arrive, and re-trips only move the window later. */
  lemma {:induction false} OpenThroughWindow(cfg: Config, log: seq<Event>, i: nat, j: nat)
    requires cfg.Valid() && Monotone(log)
    requires i < j <= |log| && Trips(cfg, log, i)
    requires log[j - 1].now < log[i].now + cfg.resetTimeout
    ensures At(cfg, log, j).state.Open? && log[i].now <= At(cfg, log, j).openedAt
    decreases j
  {
    if j == i + 1 {
      FieldsRefineLog(cfg, log, i);
    } else {
      OpenThroughWindow(cfg, log, i, j - 1);
    }
  }

  /** Admission, over every run: Allow rejects exactly when some earlier trip is less than
      resetTimeout old. */
  lemma RejectsIffRecentTrip(cfg: Config, log: seq<Event>, j: nat)
    requires cfg.Valid() && Monotone(log) && j < |log| && log[j].Allow?
    ensures !Admits(cfg, At(cfg, log, j), log[j].now) <==>
            exists i :: 0 <= i < j && Trips(cfg, log, i) && log[j].now < log[i].now + cfg.resetTimeout
  {
    if !Admits(cfg, At(cfg, log, j), log[j].now) {
      FieldsRefineLog(cfg, log, j);
      LastTripIsLast(cfg, log, j);
      assert Trips(cfg, log, LastTrip(cfg, log, j));
    }
    forall i | 0 <= i < j && Trips(cfg, log, i) && log[j].now < log[i].now + cfg.resetTimeout
      ensures !Admits(cfg, At(cfg, log, j), log[j].now)
    {
      OpenThroughWindow(cfg, log, i, j + 1);
      assert At(cfg, log, j + 1).state.Open?;
    }
  }

  /** Some trip in the log is less than resetTimeout old. */
  ghost predicate RecentTrip(cfg: Config, log: seq<Event>, now: int) {
    exists i :: 0 <= i < |log| && Trips(cfg, log, i) && now < log[i].now + cfg.resetTimeout
  }

  /** The same of the next Allow after a log. */
  lemma AdmitsIffNoRecentTrip(cfg: Config, log: seq<Event>, now: int)
    requires cfg.Valid() && Monotone(log + [Allow(now)])
    ensures Admits(cfg, At(cfg, log, |log|), now) <==> !RecentTrip(cfg, log, now)
  {
    var more := log + [Allow(now)];
    AtPrefix(cfg, log, [Allow(now)], |log|);
    RejectsIffRecentTrip(cfg, more, |log|);
    forall i | 0 <= i < |log| ensures Trips(cfg, more, i) == Trips(cfg, log, i) {
      AccountPrefix(cfg, log, [Allow(now)], i);
    }
  }

  /** Re-tripping while Open never brings the end of the window forward. */
  lemma RetripExtendsWindow(cfg: Config, log: seq<Event>, i: nat)
    requires cfg.Valid() && Monotone(log) && i < |log|
    requires At(cfg, log, i).state.Open? && At(cfg, log, i + 1).state.Open?
    ensures At(cfg, log, i).openedAt <= At(cfg, log, i + 1).openedAt
    ensures At(cfg, log, i).openedAt != At(cfg, log, i + 1).openedAt ==> Trips(cfg, log, i)
  {
    FieldsRefineLog(cfg, log, i);
    LastTripIsLast(cfg, log, i);
  }

  /** Half-open puts no limit on trial calls: however many Allows follow one another, each is
      admitted. */
  lemma {:induction false} HalfOpenAdmitsEveryTrial(cfg: Config, log: seq<Event>, i: nat, j: nat)
    requires i <= j < |log| && At(cfg, log, i).state.HalfOpen?
    requires forall k :: i <= k <= j ==> log[k].Allow?
    ensures At(cfg, log, j).state.HalfOpen? && Admits(cfg, At(cfg, log, j), log[j].now)
  {
    if i < j {
      HalfOpenAdmitsEveryTrial(cfg, log, i, j - 1);
    }
  }

  // ---- Outcomes of calls admitted before the trip ------------------------------------------

  /** The index of the last half-opening among the first `i` events, or -1. */
  function LastHalfOpening(cfg: Config, log: seq<Event>, i: nat): int
    requires i <= |log|
  {
    if i == 0 then -1 else if HalfOpens(cfg, log, i - 1) then i - 1 else LastHalfOpening(cfg, log, i - 1)
  }

  /** A half-open phase has a half-opening, preceded by the trip that it ends. */
  lemma {:induction false} HalfOpenSince(cfg: Config, log: seq<Event>, j: nat)
    requires cfg.Valid() && j <= |log| && Phase(cfg, log, j).HalfOpen?
    ensures var h := LastHalfOpening(cfg, log, j);
            0 <= h < j && HalfOpens(cfg, log, h) && 0 <= LastTrip(cfg, log, h) < h
    decreases j
  {
    FieldsRefineLog(cfg, log, j - 1);
    if !HalfOpens(cfg, log, j - 1) {
      HalfOpenSince(cfg, log, j - 1);
    }
  }

  /** From the last trip before a half-opening up to it the breaker is open. */
  lemma {:induction false} OpenSinceLastTrip(cfg: Config, log: seq<Event>, i: nat, m: nat)
    requires cfg.Valid() && i <= |log| && Phase(cfg, log, i).Open?
    requires LastTrip(cfg, log, i) < m <= i
    ensures Phase(cfg, log, m).Open?
    decreases i
  {
    LastTripIsLast(cfg, log, i);
    if m < i {
      FieldsRefineLog(cfg, log, i - 1);
      OpenSinceLastTrip(cfg, log, i - 1, m);
    }
  }

  /** An outcome recorded in a half-open phase (event `j`) belongs to a call admitted before that
      phase began (event `a`) exactly when the call was admitted before the trip; and such a
      call has been under way for at least resetTimeout. */
  lemma StaleIffAdmittedBeforeTrip(cfg: Config, log: seq<Event>, a: nat, j: nat)
    requires cfg.Valid() && Monotone(log) && a < j < |log|
    requires log[a].Allow? && Admits(cfg, At(cfg, log, a), log[a].now) && Phase(cfg, log, j).HalfOpen?
    ensures var h := LastHalfOpening(cfg, log, j);
            && 0 <= h < j && 0 <= LastTrip(cfg, log, h)
            && (a < h <==> a < LastTrip(cfg, log, h))
            && (a < h ==> log[j].now - log[a].now >= cfg.resetTimeout)
  {
    HalfOpenSince(cfg, log, j);
    var h := LastHalfOpening(cfg, log, j);
    var k := LastTrip(cfg, log, h);
    LastTripIsLast(cfg, log, h);
    if k < a < h {
      OpenSinceLastTrip(cfg, log, h, a);
      OpenSinceLastTrip(cfg, log, h, a + 1);
      FieldsRefineLog(cfg, log, a);
      FieldsRefineLog(cfg, log, a + 1);
    }
  }

  /** A half-open phase lasts from its half-opening on. */
  lemma {:induction false} HalfOpenThroughout(cfg: Config, log: seq<Event>, x: nat, j: nat)
    requires cfg.Valid() && j <= |log| && Phase(cfg, log, j).HalfOpen? && LastHalfOpening(cfg, log, j) < x <= j
    ensures Phase(cfg, log, x).HalfOpen? && LastHalfOpening(cfg, log, x) == LastHalfOpening(cfg, log, j)
    decreases j
  {
    if x < j {
      FieldsRefineLog(cfg, log, j - 1);
      HalfOpenThroughout(cfg, log, x, j - 1);
    }
  }

  /** Event `x` is a success counted towards the closing at `j`. */
  predicate CountedTowards(cfg: Config, log: seq<Event>, x: nat, j: nat)
    requires j < |log|
  {
    LastHalfOpening(cfg, log, j) < x <= j && IsSuccess(log[x])
  }

  /** Closed is re-entered with no trial call, on outcomes of calls that were all admitted before
      half-opening, exactly when each of them was admitted before the trip; each of them then
      lasted at least resetTimeout. It is so whenever no Allow came since half-opening.
      `admission` gives the Allow of each recorded call. */
  lemma ClosesWithoutTrialIff(cfg: Config, log: seq<Event>, j: nat, admission: nat -> nat)
    requires cfg.Valid() && Monotone(log) && j < |log| && Closes(cfg, log, j)
    requires forall x: nat :: x < |log| && log[x].Record? ==>
               && admission(x) < x && log[admission(x)].Allow?
               && Admits(cfg, At(cfg, log, admission(x)), log[admission(x)].now)
    ensures var h := LastHalfOpening(cfg, log, j);
            && 0 <= h < j && 0 <= LastTrip(cfg, log, h)
            && ((forall x: nat :: CountedTowards(cfg, log, x, j) ==> admission(x) < h) <==>
                (forall x: nat :: CountedTowards(cfg, log, x, j) ==> admission(x) < LastTrip(cfg, log, h)))
    ensures (forall x: nat :: LastHalfOpening(cfg, log, j) <= x < j ==> !log[x].Allow?) ==>
            (forall x: nat :: CountedTowards(cfg, log, x, j) ==> admission(x) < LastHalfOpening(cfg, log, j))
    ensures forall x: nat :: CountedTowards(cfg, log, x, j) && admission(x) < LastHalfOpening(cfg, log, j) ==>
              log[x].now - log[admission(x)].now >= cfg.resetTimeout
  {
    HalfOpenSince(cfg, log, j);
    var h := LastHalfOpening(cfg, log, j);
    forall x: nat | CountedTowards(cfg, log, x, j)
      ensures admission(x) < h <==> admission(x) < LastTrip(cfg, log, h)
      ensures admission(x) < h ==> log[x].now - log[admission(x)].now >= cfg.resetTimeout
    {
      HalfOpenThroughout(cfg, log, x, j);
      StaleIffAdmittedBeforeTrip(cfg, log, admission(x), x);
    }
  }

  /** It happens: two calls are admitted, one fails and trips, the other succeeds resetTimeout
      later and closes the breaker, and no call was admitted in between. */
  lemma StaleSuccessCloses()
    ensures exists cfg: Config, log: seq<Event> ::
              && cfg.Valid() && Monotone(log) && |log| == 5 && log[0].Allow? && log[1].Allow?
              && Moves(cfg, log, 2, Closed, Open) && log[3].Peek? && Moves(cfg, log, 4, HalfOpen, Closed)
  {
    var cfg := Config(1, 1, 10);
    var log := [Allow(0), Allow(0), Record(false, 1), Peek(11), Record(true, 11)];
    assert At(cfg, log, 2) == Snapshot(Closed, 0, 0, 0);
    assert At(cfg, log, 3) == Snapshot(Open, 0, 0, 1);
    assert At(cfg, log, 4) == Snapshot(HalfOpen, 0, 0, 1);
    assert At(cfg, log, 5) == Snapshot(Closed, 0, 0, 1);
    assert Moves(cfg, log, 2, Closed, Open) && Moves(cfg, log, 4, HalfOpen, Closed);
  }
}
