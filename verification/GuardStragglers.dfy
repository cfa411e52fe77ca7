/** Late outcomes of guarded calls: what the bulkhead's capacity says about how often an open
    breaker can be tripped again. */
module GuardStragglers {
  import opened Basics
  import opened BreakerModel
  import opened BreakerRuns
  import opened GuardSystem

  /** Callers whose admitted call has not been recorded yet. */
  ghost function UnderWay(s: Sys): set<Caller> {
    set c | c in s.phases && (s.phases[c].Running? || s.phases[c].Returned?)
  }

  /** Outcomes that guarded callers record from action `n` on. */
  function Reports(actions: seq<Action>, n: nat): nat {
    if |actions| <= n then 0
    else
      var m := |actions| - 1;
      Reports(actions[..m], n) + if actions[m].Report? then 1 else 0
  }

  function Reporters(actions: seq<Action>, n: nat): set<Caller> {
    if |actions| <= n then {}
    else
      var m := |actions| - 1;
      Reporters(actions[..m], n) + if actions[m].Report? then {actions[m].c} else {}
  }

  /** Nobody but the guarded callers records an outcome from action `n` on. */
  ghost predicate OnlyGuarded(actions: seq<Action>, n: nat) {
    forall x :: n <= x < |actions| && actions[x].Foreign? ==> !actions[x].e.Record?
  }

  /** From the state after `n` actions on, the breaker is Open. */
  ghost predicate OpenFrom(l: Limits, start: int, actions: seq<Action>, n: nat) {
    forall m :: n <= m <= |actions| ==>
      var s := Play(l, start, actions[..m]); s.Some? && s.value.breaker.state.Open?
  }

  /** The last action records an outcome that trips the breaker. */
  ghost predicate TripsNow(l: Limits, start: int, actions: seq<Action>) {
    var s := Play(l, start, actions);
    && s.Some? && actions != [] && actions[|actions| - 1].Report?
    && s.value.history != [] && Trips(l.cfg, s.value.history, |s.value.history| - 1)
  }

  // ---- While Open, calls under way only run out --------------------------------------------

  lemma UnderWayMove(s: Sys, t: Sys, c: Caller, p: Phase)
    requires t.phases == s.phases[c := p]
    ensures UnderWay(t) == if p.Running? || p.Returned? then UnderWay(s) + {c} else UnderWay(s) - {c}
  {
  }

  /** While the breaker is Open nobody is admitted, so a call under way stays so until its outcome
      is recorded. */
  lemma UnderWayStep(l: Limits, s: Sys, a: Action)
    requires Enabled(l, s, a) && Step(l, s, a).breaker.state.Open?
    ensures var t := Step(l, s, a);
            && UnderWay(t) == (if a.Report? then UnderWay(s) - {a.c} else UnderWay(s))
            && (a.Report? ==> a.c in UnderWay(s))
  {
    var t := Step(l, s, a);
    if a.Foreign? || a.Tick? {
      assert UnderWay(t) == UnderWay(s);
    } else {
      HoldsChanges(l, s, a);
      UnderWayMove(s, t, a.c, t.phases[a.c]);
    }
  }

  /** What has been recorded since action `n` came from calls under way then, one outcome each. */
  ghost predicate Drained(actions: seq<Action>, n: nat, s: Sys, t: Sys) {
    && Reports(actions, n) == |Reporters(actions, n)|
    && Reporters(actions, n) !! UnderWay(t)
    && Reporters(actions, n) + UnderWay(t) <= UnderWay(s)
  }

  lemma {:induction false} OpenDrains(l: Limits, start: int, actions: seq<Action>, n: nat, s: Sys, t: Sys)
    requires n <= |actions| && OpenFrom(l, start, actions, n)
    requires Reaches(l, start, actions[..n], s) && Reaches(l, start, actions, t)
    ensures Drained(actions, n, s, t)
    decreases |actions|
  {
    if |actions| == n {
      assert actions[..n] == actions;
    } else {
      var m := |actions| - 1;
      var u := Play(l, start, actions[..m]).value;
      assert actions[..m][..n] == actions[..n];
      OpenFromPrefix(l, start, actions, n, m);
      OpenDrains(l, start, actions[..m], n, s, u);
      assert actions[..|actions|] == actions;
      UnderWayStep(l, u, actions[m]);
    }
  }

  lemma OpenFromPrefix(l: Limits, start: int, actions: seq<Action>, n: nat, m: nat)
    requires n <= m <= |actions| && OpenFrom(l, start, actions, n)
    ensures OpenFrom(l, start, actions[..m], n)
  {
    forall x | n <= x <= m ensures actions[..m][..x] == actions[..x] {
    }
  }

  lemma LastStep(l: Limits, start: int, actions: seq<Action>, n: nat, s: Sys) returns (u: Sys)
    requires 0 < n <= |actions| && Reaches(l, start, actions[..n], s)
    ensures Reaches(l, start, actions[..n - 1], u) && Enabled(l, u, actions[n - 1]) && s == Step(l, u, actions[n - 1])
  {
    assert actions[..n][..n - 1] == actions[..n - 1];
    u := Play(l, start, actions[..n - 1]).value;
  }

  lemma AfterReport(l: Limits, s: Sys, c: Caller)
    requires Enabled(l, s, Report(c))
    ensures var t := Step(l, s, Report(c)); c in Holders(t) && UnderWay(t) <= Holders(t) - {c}
  {
  }

  lemma FewerThan<T>(a: set<T>, b: set<T>, x: T, bound: int)
    requires a <= b - {x} && x in b && |b| <= bound
    ensures |a| <= bound - 1
  {
    SubsetSize(a, b - {x});
  }

  /** From a trip until the next half-opening, the guarded callers record at most capacity - 1
      outcomes, each of a different caller that held a slot at the trip. */
  lemma StragglersBounded(l: Limits, start: int, actions: seq<Action>, n: nat, s: Sys, t: Sys)
    requires l.Valid() && 0 < n <= |actions| && actions[n - 1].Report? && OpenFrom(l, start, actions, n)
    requires Reaches(l, start, actions[..n], s) && Reaches(l, start, actions, t)
    ensures Reports(actions, n) == |Reporters(actions, n)| <= l.capacity - 1
    ensures Reporters(actions, n) <= Holders(s) - {actions[n - 1].c}
  {
    OpenDrains(l, start, actions, n, s, t);
    var u := LastStep(l, start, actions, n, s);
    AfterReport(l, u, actions[n - 1].c);
    assert |Holders(s)| <= l.capacity by {
      InvAlways(l, start, actions[..n], s);
    }
    FewerThan(Reporters(actions, n), Holders(s), actions[n - 1].c, l.capacity);
  }

  // ---- Tripping again while Open -----------------------------------------------------------

  /** In terms of the fields before it, when an event trips. */
  lemma NextTrips(cfg: Config, log: seq<Event>, e: Event)
    requires cfg.Valid()
    ensures var s := At(cfg, log, |log|);
            Trips(cfg, log + [e], |log|) <==>
            IsFailure(e) && (s.state.HalfOpen? || s.failures + 1 >= cfg.failureThreshold)
  {
    AccountPrefix(cfg, log, [e], |log|);
    FieldsRefineLog(cfg, log, |log|);
  }

  lemma ReportTrips(l: Limits, start: int, actions: seq<Action>, s: Sys, c: Caller)
    requires l.Valid() && Reaches(l, start, actions, s) && Enabled(l, s, Report(c))
    ensures TripsNow(l, start, actions + [Report(c)]) <==>
            s.phases[c].result.Some?
            && (s.breaker.state.HalfOpen? || s.breaker.failures + 1 >= l.cfg.failureThreshold)
  {
    assert s.breaker == At(l.cfg, s.history, |s.history|) by {
      InvAlways(l, start, actions, s);
    }
    Extended(l, start, actions, s, Report(c));
    NextTrips(l.cfg, s.history, Record(s.phases[c].result.None?, s.clock));
  }

  lemma Extended(l: Limits, start: int, actions: seq<Action>, s: Sys, a: Action)
    requires Reaches(l, start, actions, s) && Enabled(l, s, a)
    ensures Reaches(l, start, actions + [a], Step(l, s, a))
  {
    assert (actions + [a])[..|actions|] == actions;
  }

  lemma TripResets(l: Limits, start: int, actions: seq<Action>, s: Sys)
    requires l.Valid() && TripsNow(l, start, actions) && Reaches(l, start, actions, s)
    ensures s.breaker.state.Open? && s.breaker.failures == 0
  {
    InvAlways(l, start, actions, s);
    FieldsRefineLog(l.cfg, s.history, |s.history|);
  }

  /** Failures counted while Open were recorded while Open. */
  lemma {:induction false} FailuresWhileOpen(l: Limits, start: int, actions: seq<Action>, n: nat, s: Sys, t: Sys)
    requires n <= |actions| && OpenFrom(l, start, actions, n) && OnlyGuarded(actions, n)
    requires Reaches(l, start, actions[..n], s) && Reaches(l, start, actions, t) && s.breaker.failures >= 0
    ensures t.breaker.failures <= s.breaker.failures + Reports(actions, n)
    decreases |actions|
  {
    if |actions| == n {
      assert actions[..n] == actions;
    } else {
      var m := |actions| - 1;
      var u := Play(l, start, actions[..m]).value;
      assert actions[..m][..n] == actions[..n];
      OpenFromPrefix(l, start, actions, n, m);
      FailuresWhileOpen(l, start, actions[..m], n, s, u);
      assert u.breaker.state.Open?;
      FailuresStep(l, u, actions[m]);
    }
  }

  lemma FailuresStep(l: Limits, s: Sys, a: Action)
    requires Enabled(l, s, a) && s.breaker.state.Open? && (a.Foreign? ==> !a.e.Record?)
    ensures var t := Step(l, s, a);
            t.breaker.failures <= (if a.Report? then Max(s.breaker.failures + 1, 0) else s.breaker.failures)
  {
  }

  /** Action `n - 1` trips the breaker, it stays Open, and the last action trips it again. */
  ghost predicate Retrips(l: Limits, start: int, actions: seq<Action>, n: nat) {
    && n < |actions| && OnlyGuarded(actions, n) && OpenFrom(l, start, actions, n)
    && TripsNow(l, start, actions[..n]) && TripsNow(l, start, actions)
  }

  lemma TripNeedsFailures(l: Limits, start: int, actions: seq<Action>, u: Sys)
    requires l.Valid() && TripsNow(l, start, actions) && Reaches(l, start, actions[..|actions| - 1], u)
    requires u.breaker.state.Open?
    ensures u.breaker.failures + 1 >= l.cfg.failureThreshold
  {
    var m := |actions| - 1;
    assert actions == actions[..m] + [Report(actions[m].c)];
    ReportTrips(l, start, actions[..m], u, actions[m].c);
  }

  /** The failures that the second trip needs were recorded since the first. */
  lemma RetripCounted(l: Limits, start: int, actions: seq<Action>, n: nat)
    requires l.Valid() && Retrips(l, start, actions, n)
    ensures l.cfg.failureThreshold <= Reports(actions[..|actions| - 1], n) + 1
  {
    var m := |actions| - 1;
    var u := Play(l, start, actions[..m]).value;
    assert actions[..m][..n] == actions[..n];
    OpenFromPrefix(l, start, actions, n, m);
    FailuresSinceTrip(l, start, actions[..m], n, u);
    TripNeedsFailures(l, start, actions, u);
  }

  lemma FailuresSinceTrip(l: Limits, start: int, actions: seq<Action>, n: nat, t: Sys)
    requires l.Valid() && n <= |actions| && OpenFrom(l, start, actions, n) && OnlyGuarded(actions, n)
    requires TripsNow(l, start, actions[..n]) && Reaches(l, start, actions, t)
    ensures t.breaker.failures <= Reports(actions, n)
  {
    var s := Play(l, start, actions[..n]).value;
    TripResets(l, start, actions[..n], s);
    FailuresWhileOpen(l, start, actions, n, s, t);
  }

  lemma RetripNeedsSlots(l: Limits, start: int, actions: seq<Action>, n: nat)
    requires l.Valid() && Retrips(l, start, actions, n)
    ensures l.cfg.failureThreshold <= l.capacity - 1
  {
    RetripCounted(l, start, actions, n);
    StragglersBounded(l, start, actions, n, Play(l, start, actions[..n]).value, Play(l, start, actions).value);
  }

  // ---- It takes no more than that ----------------------------------------------------------

  const FAILURE: Option<Error> := Some(Other(0))

  /** A run of guarded callers, all below `next`, of whom `w` hold a slot and, except those in
      `out`, are running the function. */
  ghost predicate Manned(l: Limits, actions: seq<Action>, s: Sys, next: nat, w: int, out: set<Caller>) {
    && Reaches(l, 0, actions, s) && (forall x :: 0 <= x < |actions| ==> !actions[x].Foreign?)
    && (forall c :: c in s.phases ==> c < next && c in s.memories)
    && s.tokens == w == |Holders(s)|
    && (forall c :: c in s.phases && Holds(s.phases[c]) && c !in out ==> s.phases[c].Running?)
  }

  function TokensAfter(a: Action, w: int): int {
    if a.Acquire? then w + 1 else if a.Release? then w - 1 else w
  }

  /** One step of a caller in `out`. */
  lemma Go(l: Limits, actions: seq<Action>, s: Sys, a: Action, next: nat, w: int, out: set<Caller>)
    requires l.Valid() && Manned(l, actions, s, next, w, out) && Enabled(l, s, a)
    requires !a.Foreign? && !a.Tick? && a.c in out && a.c < next
    ensures Manned(l, actions + [a], Step(l, s, a), next, TokensAfter(a, w), out)
    ensures In(Step(l, s, a), a.c)
  {
    Extended(l, 0, actions, s, a);
    HoldsChanges(l, s, a);
    Settled(l, actions + [a], Step(l, s, a));
  }

  lemma Settled(l: Limits, actions: seq<Action>, s: Sys)
    requires l.Valid() && Reaches(l, 0, actions, s)
    ensures s.tokens == |Holders(s)| && forall c :: c in s.phases ==> c in s.memories
  {
    InvAlways(l, 0, actions, s);
    forall c | c in s.phases ensures c in s.memories {
      assert CallerOk(l, s, c);
    }
  }

  ghost predicate Counting(s: Sys, f: int) {
    s.breaker.state.Closed? && s.breaker.failures == f
  }

  /** A caller that is about to ask a Closed breaker gets to run. */
  lemma Start(l: Limits, actions: seq<Action>, s: Sys, next: nat, w: int, f: int, c: Caller)
    returns (more: seq<Action>, t: Sys)
    requires l.Valid() && Manned(l, actions, s, next, w, {c}) && Counting(s, f)
    requires c in s.phases && s.phases[c].Ready?
    ensures Manned(l, more, t, next, w, {}) && Counting(t, f)
  {
    Go(l, actions, s, Ask(c), next, w, {c});
    more, t := actions + [Ask(c)], Step(l, s, Ask(c));
  }

  /** Another caller takes a slot and starts the function. */
  lemma Board(l: Limits, actions: seq<Action>, s: Sys, next: nat, w: int, f: int)
    returns (more: seq<Action>, t: Sys)
    requires l.Valid() && Manned(l, actions, s, next, w, {}) && Counting(s, f) && w < l.capacity
    ensures Manned(l, more, t, next + 1, w + 1, {}) && Counting(t, f)
  {
    var out := {next};
    Go(l, actions, s, Arrive(next), next + 1, w, out);
    more, t := actions + [Arrive(next)], Step(l, s, Arrive(next));
    Go(l, more, t, Acquire(next), next + 1, w, out);
    more, t := more + [Acquire(next)], Step(l, t, Acquire(next));
    more, t := Start(l, more, t, next + 1, w + 1, f, next);
  }

  /** A running caller's call fails; the failure is counted and does not trip. */
  lemma Fail(l: Limits, actions: seq<Action>, s: Sys, next: nat, w: int, f: int, c: Caller)
    returns (more: seq<Action>, t: Sys)
    requires l.Valid() && Manned(l, actions, s, next, w, {}) && Counting(s, f) && f + 1 < l.cfg.failureThreshold
    requires c in s.phases && s.phases[c].Running?
    ensures Manned(l, more, t, next, w, {c}) && Counting(t, f + 1)
    ensures c in t.phases && t.phases[c] == Deciding(s.phases[c].k, FAILURE)
  {
    Go(l, actions, s, Return(c, FAILURE), next, w, {c});
    more, t := actions + [Return(c, FAILURE)], Step(l, s, Return(c, FAILURE));
    Go(l, more, t, Report(c), next, w, {c});
    more, t := more + [Report(c)], Step(l, t, Report(c));
  }

  /** It tries again, whatever the delay. */
  lemma TryAgain(l: Limits, actions: seq<Action>, s: Sys, next: nat, w: int, f: int, c: Caller)
    returns (more: seq<Action>, t: Sys)
    requires l.Valid() && Manned(l, actions, s, next, w, {c}) && Counting(s, f)
    requires c in s.phases && s.phases[c].Deciding? && l.MayRetry(s.phases[c].k, s.phases[c].result)
    ensures Manned(l, more, t, next, w, {}) && Counting(t, f)
  {
    Go(l, actions, s, Decide(c, 0.0), next, w, {c});
    more, t := actions + [Decide(c, 0.0)], Step(l, s, Decide(c, 0.0));
    if t.phases[c].Sleeping? {
      Go(l, more, t, Wake(c, None), next, w, {c});
      more, t := more + [Wake(c, None)], Step(l, t, Wake(c, None));
    }
    more, t := Start(l, more, t, next, w, f, c);
  }

  /** It gives up, and its slot goes to another caller. */
  lemma Replace(l: Limits, actions: seq<Action>, s: Sys, next: nat, w: int, f: int, c: Caller)
    returns (more: seq<Action>, t: Sys)
    requires l.Valid() && Manned(l, actions, s, next, w, {c}) && Counting(s, f) && w <= l.capacity
    requires c in s.phases && s.phases[c].Deciding? && !l.MayRetry(s.phases[c].k, s.phases[c].result)
    ensures Manned(l, more, t, next + 1, w, {}) && Counting(t, f)
  {
    Go(l, actions, s, Decide(c, 0.0), next, w, {c});
    more, t := actions + [Decide(c, 0.0)], Step(l, s, Decide(c, 0.0));
    assert c in Holders(t);
    SubsetSize({c}, Holders(t));
    Go(l, more, t, Release(c), next, w, {c});
    more, t := more + [Release(c)], Step(l, t, Release(c));
    more, t := Board(l, more, t, next, w - 1, f);
  }

  /** `w` callers running at once, with `f` failures counted, short of a trip. */
  lemma {:induction false} Boarded(l: Limits, w: nat) returns (actions: seq<Action>, s: Sys, next: nat)
    requires l.Valid() && w <= l.capacity
    ensures Manned(l, actions, s, next, w, {}) && Counting(s, 0)
  {
    if w == 0 {
      actions, s, next := [], Init(0), 0;
      assert Holders(s) == {};
    } else {
      actions, s, next := Boarded(l, w - 1);
      actions, s := Board(l, actions, s, next, w - 1, 0);
      next := next + 1;
    }
  }

  lemma {:induction false} Primed(l: Limits, w: nat, f: nat) returns (actions: seq<Action>, s: Sys, next: nat)
    requires l.Valid() && 1 <= w <= l.capacity && f < l.cfg.failureThreshold
    ensures Manned(l, actions, s, next, w, {}) && Counting(s, f)
    decreases f
  {
    if f == 0 {
      actions, s, next := Boarded(l, w);
    } else {
      actions, s, next := Primed(l, w, f - 1);
      var c :| c in Holders(s);
      actions, s := Fail(l, actions, s, next, w, f - 1, c);
      if l.MayRetry(s.phases[c].k, FAILURE) {
        actions, s := TryAgain(l, actions, s, next, w, f, c);
      } else {
        actions, s := Replace(l, actions, s, next, w, f, c);
        next := next + 1;
      }
    }
  }

  /** Since the trip at action `n - 1` the breaker is Open and has counted `f` failures; `w` calls
      admitted before are still running. */
  ghost predicate Falling(l: Limits, actions: seq<Action>, n: nat, s: Sys, w: int, f: int) {
    && Reaches(l, 0, actions, s) && n <= |actions|
    && OnlyGuarded(actions, n) && OpenFrom(l, 0, actions, n) && TripsNow(l, 0, actions[..n])
    && |UnderWay(s)| == w && (forall c :: c in UnderWay(s) ==> s.phases[c].Running?)
    && s.breaker.state.Open? && s.breaker.failures == f
  }

  lemma OpenFromExtended(l: Limits, start: int, actions: seq<Action>, n: nat, s: Sys, a: Action)
    requires n <= |actions| && OpenFrom(l, start, actions, n) && Reaches(l, start, actions, s) && Enabled(l, s, a)
    requires Step(l, s, a).breaker.state.Open?
    ensures OpenFrom(l, start, actions + [a], n)
  {
    var more := actions + [a];
    Extended(l, start, actions, s, a);
    forall m | n <= m <= |more|
      ensures var t := Play(l, start, more[..m]); t.Some? && t.value.breaker.state.Open?
    {
      if m <= |actions| {
        assert more[..m] == actions[..m];
      } else {
        assert more[..m] == more;
      }
    }
  }

  /** The first trip, with every other slot's call still running. */
  lemma FirstTrip(l: Limits, w: nat) returns (actions: seq<Action>, s: Sys)
    requires l.Valid() && 1 <= w <= l.capacity
    ensures Falling(l, actions, |actions|, s, w - 1, 0)
  {
    var next;
    actions, s, next := Primed(l, w, l.cfg.failureThreshold - 1);
    var c :| c in Holders(s);
    Go(l, actions, s, Return(c, FAILURE), next, w, {c});
    actions, s := actions + [Return(c, FAILURE)], Step(l, s, Return(c, FAILURE));
    actions, s := TripReport(l, actions, s, next, w, c);
  }

  lemma TripReport(l: Limits, actions: seq<Action>, s: Sys, next: nat, w: int, c: Caller)
    returns (more: seq<Action>, t: Sys)
    requires l.Valid() && Manned(l, actions, s, next, w, {c}) && Counting(s, l.cfg.failureThreshold - 1)
    requires c in s.phases && s.phases[c].Returned? && s.phases[c].result == FAILURE
    ensures Falling(l, more, |more|, t, w - 1, 0)
  {
    Go(l, actions, s, Report(c), next, w, {c});
    ReportTrips(l, 0, actions, s, c);
    more, t := actions + [Report(c)], Step(l, s, Report(c));
    TripResets(l, 0, more, t);
    assert more[..|more|] == more;
    AfterReport(l, s, c);
    assert UnderWay(t) == Holders(t) - {c};
  }

  /** One more of those calls fails. */
  lemma Fall(l: Limits, actions: seq<Action>, n: nat, s: Sys, w: int, f: int) returns (more: seq<Action>, t: Sys)
    requires l.Valid() && Falling(l, actions, n, s, w, f) && w >= 1
    ensures if f + 1 < l.cfg.failureThreshold then Falling(l, more, n, t, w - 1, f + 1) else Retrips(l, 0, more, n)
  {
    var c :| c in UnderWay(s);
    Settled(l, actions, s);
    var a := Return(c, FAILURE);
    OpenFromExtended(l, 0, actions, n, s, a);
    Extended(l, 0, actions, s, a);
    UnderWayStep(l, s, a);
    more, t := actions + [a], Step(l, s, a);
    assert more[..n] == actions[..n];
    more, t := FallReport(l, more, n, t, w, f, c);
  }

  lemma FallReport(l: Limits, actions: seq<Action>, n: nat, s: Sys, w: int, f: int, c: Caller)
    returns (more: seq<Action>, t: Sys)
    requires l.Valid() && Reaches(l, 0, actions, s) && n <= |actions|
    requires OnlyGuarded(actions, n) && OpenFrom(l, 0, actions, n) && TripsNow(l, 0, actions[..n])
    requires |UnderWay(s)| == w && (forall x :: x in UnderWay(s) && x != c ==> s.phases[x].Running?)
    requires s.breaker.state.Open? && s.breaker.failures == f && In(s, c) && s.phases[c].Returned?
    requires s.phases[c].result == FAILURE
    ensures if f + 1 < l.cfg.failureThreshold then Falling(l, more, n, t, w - 1, f + 1) else Retrips(l, 0, more, n)
  {
    var a := Report(c);
    OpenFromExtended(l, 0, actions, n, s, a);
    Extended(l, 0, actions, s, a);
    UnderWayStep(l, s, a);
    ReportTrips(l, 0, actions, s, c);
    more, t := actions + [a], Step(l, s, a);
    assert more[..n] == actions[..n];
  }

  lemma {:induction false} Fallen(l: Limits, f: nat) returns (actions: seq<Action>, n: nat, s: Sys)
    requires l.Valid() && f < l.cfg.failureThreshold <= l.capacity - 1
    ensures Falling(l, actions, n, s, l.cfg.failureThreshold - f, f)
    decreases f
  {
    if f == 0 {
      actions, s := FirstTrip(l, l.cfg.failureThreshold + 1);
      n := |actions|;
    } else {
      actions, n, s := Fallen(l, f - 1);
      actions, s := Fall(l, actions, n, s, l.cfg.failureThreshold - f + 1, f - 1);
    }
  }

  /** Guarded callers can trip an open breaker again, under whatever retry policy, if and only if
      the bulkhead has more slots than the breaker's failure threshold. */
  lemma RetripsIff(l: Limits)
    requires l.Valid()
    ensures (exists start: int, actions: seq<Action>, n: nat :: Retrips(l, start, actions, n))
            <==> l.cfg.failureThreshold < l.capacity
  {
    if l.cfg.failureThreshold < l.capacity {
      var actions, n, s := Fallen(l, l.cfg.failureThreshold - 1);
      var more, t := Fall(l, actions, n, s, 1, l.cfg.failureThreshold - 1);
    }
    forall start: int, actions: seq<Action>, n: nat | Retrips(l, start, actions, n)
      ensures l.cfg.failureThreshold < l.capacity
    {
      RetripNeedsSlots(l, start, actions, n);
    }
  }
}
