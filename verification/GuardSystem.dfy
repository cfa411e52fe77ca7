/** Any number of callers inside `Guard.Do` at once, sharing one bulkhead and one breaker. The
    semaphore operations and the breaker's locked methods are the atomic steps; the protected
    function, the sleeps and the retry decision run between them. Other users of the breaker
    may interleave their own steps. */
module GuardSystem {
  import opened Basics
  import opened BreakerModel
  import opened BreakerRuns
  import opened Backoff
  import Retry

  type Caller = nat

  datatype Limits = Limits(capacity: nat, policy: Retry.Policy, cfg: Config) {
    predicate Valid() {
      1 <= capacity && cfg.Valid()
    }

    function Attempts(): nat {
      Retry.Attempts(policy)
    }

    predicate MayRetry(k: nat, result: Option<Error>) {
      result.Some? && Retry.Retries(policy, result.value) && k + 1 < Attempts()
    }
  }

  /** Where a caller is; `k` is the index of its current attempt. */
  datatype Phase =
    | Waiting                                  // in the admission select
    | Ready(k: nat)                            // about to ask the breaker
    | Running(k: nat)                          // inside the protected function
    | Returned(k: nat, result: Option<Error>)  // function returned, outcome not yet recorded
    | Deciding(k: nat, result: Option<Error>)  // back in the retry loop
    | Sleeping(k: nat)                         // backing off
    | Leaving(result: Option<Error>)           // the retry loop has returned, slot still held
    | Done(result: Option<Error>)              // slot released
    | Cancelled                                // got ctx.Err() from admission

  predicate Holds(p: Phase) {
    !p.Waiting? && !p.Done? && !p.Cancelled?
  }

  /** What one attempt came to: rejected by the breaker, or executed. */
  datatype Attempt = Rejected | Executed(result: Option<Error>)

  function ResultOf(a: Attempt): Option<Error> {
    if a.Rejected? then Some(ErrOpen) else a.result
  }

  /** A caller's own record: its attempts, the result of the pause after each (nil where it did not
      sleep), the random draw for each pause, and the lengths of the sleeps it took. */
  datatype Memory = Memory(attempts: seq<Attempt>, sleeps: seq<Option<Error>>, draws: seq<real>, waits: seq<int>)

  const NO_MEMORY := Memory([], [], [], [])

  datatype Sys = Sys(
    tokens: int,                     // length of the semaphore channel
    breaker: Snapshot,
    clock: int,
    phases: map<Caller, Phase>,
    memories: map<Caller, Memory>,
    history: seq<Event>,             // every step of the breaker
    owners: seq<Option<Caller>>)     // who took it; None for other users of the breaker

  datatype Action =
    | Arrive(c: Caller) | Acquire(c: Caller) | Cancel(c: Caller)
    | Ask(c: Caller) | Return(c: Caller, result: Option<Error>) | Report(c: Caller)
    | Decide(c: Caller, draw: real) | Wake(c: Caller, serr: Option<Error>) | Release(c: Caller)
    | Foreign(e: Event) | Tick(to: int)

  predicate In(s: Sys, c: Caller) {
    c in s.phases && c in s.memories
  }

  predicate Enabled(l: Limits, s: Sys, a: Action) {
    match a
    case Arrive(c) => c !in s.phases
    case Acquire(c) => In(s, c) && s.phases[c].Waiting? && s.tokens < l.capacity
    case Cancel(c) => In(s, c) && s.phases[c].Waiting?
    case Ask(c) => In(s, c) && s.phases[c].Ready?
    case Return(c, _) => In(s, c) && s.phases[c].Running?
    case Report(c) => In(s, c) && s.phases[c].Returned?
    case Decide(c, _) => In(s, c) && s.phases[c].Deciding?
    case Wake(c, _) => In(s, c) && s.phases[c].Sleeping?
    case Release(c) => In(s, c) && s.phases[c].Leaving? && s.tokens > 0
    case Foreign(e) => e.now == s.clock
    case Tick(to) => s.clock <= to
  }

  function Moved(s: Sys, c: Caller, p: Phase): Sys {
    s.(phases := s.phases[c := p])
  }

  function BreakerMoved(l: Limits, s: Sys, e: Event, owner: Option<Caller>): Sys {
    s.(breaker := Next(l.cfg, s.breaker, e), history := s.history + [e], owners := s.owners + [owner])
  }

  /** Attempt `k` is over. */
  function Attempted(s: Sys, c: Caller, k: nat, a: Attempt): Sys
    requires c in s.memories
  {
    var m := s.memories[c];
    Moved(s, c, Deciding(k, ResultOf(a))).(memories := s.memories[c := m.(attempts := m.attempts + [a])])
  }

  /** The loop goes on after attempt `k`: it draws, and sleeps if the delay is positive. */
  function Continued(l: Limits, s: Sys, c: Caller, k: nat, draw: real): Sys
    requires c in s.memories
  {
    var m := s.memories[c];
    var sleeping := Delay(l.policy.curve, k) > 0;
    var t := s.(memories := s.memories[c :=
      m.(draws := m.draws + [draw],
         waits := m.waits + if sleeping then [Retry.WaitFor(l.policy, k, draw)] else [])]);
    if sleeping then Moved(t, c, Sleeping(k)) else Paused(t, c, k, None)
  }

  /** The pause after attempt `k` is over, with the result of its sleep if there was one. */
  function Paused(s: Sys, c: Caller, k: nat, serr: Option<Error>): Sys
    requires c in s.memories
  {
    var m := s.memories[c];
    Moved(s, c, if serr.Some? then Leaving(serr) else Ready(k + 1))
      .(memories := s.memories[c := m.(sleeps := m.sleeps + [serr])])
  }

  function Step(l: Limits, s: Sys, a: Action): Sys
    requires Enabled(l, s, a)
  {
    match a
    case Arrive(c) => Moved(s, c, Waiting).(memories := s.memories[c := NO_MEMORY])
    case Acquire(c) => Moved(s, c, Ready(0)).(tokens := s.tokens + 1)
    case Cancel(c) => Moved(s, c, Cancelled)
    case Ask(c) =>
      var k := s.phases[c].k;
      var t := BreakerMoved(l, s, Allow(s.clock), Some(c));
      if t.breaker.state.Open? then Attempted(t, c, k, Rejected) else Moved(t, c, Running(k))
    case Return(c, result) => Moved(s, c, Returned(s.phases[c].k, result))
    case Report(c) =>
      var p := s.phases[c];
      Attempted(BreakerMoved(l, s, Record(p.result.None?, s.clock), Some(c)), c, p.k, Executed(p.result))
    case Decide(c, draw) =>
      var p := s.phases[c];
      if l.MayRetry(p.k, p.result) then Continued(l, s, c, p.k, draw) else Moved(s, c, Leaving(p.result))
    case Wake(c, serr) => Paused(s, c, s.phases[c].k, serr)
    case Release(c) => Moved(s, c, Done(s.phases[c].result)).(tokens := s.tokens - 1)
    case Foreign(e) => BreakerMoved(l, s, e, None)
    case Tick(to) => s.(clock := to)
  }

  function Init(start: int): Sys {
    Sys(0, INITIAL, start, map[], map[], [], [])
  }

  /** The state after an action sequence from an empty system, if every action was enabled. */
  function Play(l: Limits, start: int, actions: seq<Action>): Option<Sys> {
    if actions == [] then Some(Init(start))
    else
      var n := |actions| - 1;
      var before := Play(l, start, actions[..n]);
      if before.Some? && Enabled(l, before.value, actions[n])
      then Some(Step(l, before.value, actions[n]))
      else None
  }

  predicate Reaches(l: Limits, start: int, actions: seq<Action>, s: Sys) {
    Play(l, start, actions) == Some(s)
  }

  // ---- The invariant -----------------------------------------------------------------------

  ghost function Holders(s: Sys): set<Caller> {
    set c | c in s.phases && Holds(s.phases[c])
  }

  /** Callers inside the protected function or a backoff sleep. */
  ghost function InFlight(s: Sys): set<Caller> {
    set c | c in s.phases && (s.phases[c].Running? || s.phases[c].Sleeping?)
  }

  /** Attempt `k`, followed by a pause with this result, gave the loop no reason to stop. */
  predicate WentOn(l: Limits, a: Attempt, serr: Option<Error>, k: nat) {
    l.MayRetry(k, ResultOf(a)) && (Delay(l.policy.curve, k) > 0 ==> serr.None?)
  }

  /** The first `k` attempts and their pauses all led on. */
  ghost predicate WentOnUntil(l: Limits, m: Memory, k: nat) {
    && k <= |m.attempts| && k <= |m.sleeps|
    && forall i: nat :: i < k ==> WentOn(l, m.attempts[i], m.sleeps[i], i)
  }

  /** The first `k` attempts led on; of the next one, the attempt, the result of its pause and the
      draw for it are there or not (1 or 0). */
  ghost predicate Stands(l: Limits, m: Memory, k: nat, tried: nat, paused: nat, drawn: nat) {
    && |m.attempts| == k + tried && |m.sleeps| == k + paused && |m.draws| == k + drawn
    && k < l.Attempts() && WentOnUntil(l, m, k)
  }

  /** The loop ended with its last attempt, for a reason that makes `result` its result. */
  ghost predicate Ended(l: Limits, m: Memory, result: Option<Error>) {
    var k := |m.attempts| - 1;
    && k >= 0
    && if !l.MayRetry(k, ResultOf(m.attempts[k])) then Stands(l, m, k, 1, 0, 0) && result == ResultOf(m.attempts[k])
       else Stands(l, m, k, 1, 1, 1) && Delay(l.policy.curve, k) > 0 && m.sleeps[k].Some? && result == m.sleeps[k]
  }

  /** The caller's memory fits where it is. */
  ghost predicate MemoryFits(l: Limits, p: Phase, m: Memory) {
    match p
    case Waiting => m == NO_MEMORY
    case Cancelled => m == NO_MEMORY
    case Ready(k) => Stands(l, m, k, 0, 0, 0)
    case Running(k) => Stands(l, m, k, 0, 0, 0)
    case Returned(k, _) => Stands(l, m, k, 0, 0, 0)
    case Deciding(k, result) => Stands(l, m, k, 1, 0, 0) && result == ResultOf(m.attempts[k])
    case Sleeping(k) =>
      Stands(l, m, k, 1, 0, 1) && l.MayRetry(k, ResultOf(m.attempts[k])) && Delay(l.policy.curve, k) > 0
    case Leaving(result) => Ended(l, m, result)
    case Done(result) => Ended(l, m, result)
  }

  function DrawsIn(draws: seq<real>): Retry.Env {
    Retry.Env((k: nat) => None, (k: nat) => if k < |draws| then draws[k] else 0.0)
  }

  /** The sleeps taken have the lengths of the retry policy, for the draws made. */
  ghost predicate WaitsFit(l: Limits, m: Memory) {
    m.waits == Retry.Waits(l.policy, DrawsIn(m.draws), |m.draws|)
  }

  ghost predicate CallerOk(l: Limits, s: Sys, c: Caller) {
    In(s, c) && MemoryFits(l, s.phases[c], s.memories[c]) && WaitsFit(l, s.memories[c])
  }

  ghost predicate HistoryOk(l: Limits, s: Sys) {
    && s.breaker == At(l.cfg, s.history, |s.history|)
    && |s.owners| == |s.history|
    && Monotone(s.history)
    && forall i :: 0 <= i < |s.history| ==> s.history[i].now <= s.clock
  }

  ghost predicate Inv(l: Limits, s: Sys) {
    && s.tokens == |Holders(s)| <= l.capacity
    && (forall c :: c in s.phases ==> CallerOk(l, s, c))
    && HistoryOk(l, s)
  }

  lemma HoldersMove(s: Sys, t: Sys, c: Caller, p: Phase)
    requires t.phases == s.phases[c := p]
    ensures Holders(t) == if Holds(p) then Holders(s) + {c} else Holders(s) - {c}
  {
  }

  lemma OneMoreOrLess<T>(h: set<T>, c: T)
    ensures |h + {c}| == if c in h then |h| else |h| + 1
    ensures |h - {c}| == if c in h then |h| - 1 else |h|
  {
    assert c in h ==> h + {c} == h;
    assert c !in h ==> h - {c} == h;
  }

  /** Only the two semaphore operations change whether their caller holds a slot. */
  lemma HoldsChanges(l: Limits, s: Sys, a: Action)
    requires Enabled(l, s, a) && !a.Foreign? && !a.Tick?
    ensures var t := Step(l, s, a);
            && a.c in t.phases && t.phases == s.phases[a.c := t.phases[a.c]]
            && t.tokens == s.tokens + (if a.Acquire? then 1 else if a.Release? then -1 else 0)
            && (if a.Acquire? then a.c !in Holders(s) && Holds(t.phases[a.c])
                else if a.Release? then a.c in Holders(s) && !Holds(t.phases[a.c])
                else a.c in Holders(s) <==> Holds(t.phases[a.c]))
  {
  }

  lemma HistoryGrows(l: Limits, s: Sys, e: Event, owner: Option<Caller>)
    requires HistoryOk(l, s) && e.now == s.clock
    ensures HistoryOk(l, BreakerMoved(l, s, e, owner))
  {
    AtPrefix(l.cfg, s.history, [e], |s.history|);
  }

  lemma TokensConserved(l: Limits, s: Sys, a: Action)
    requires s.tokens == |Holders(s)| <= l.capacity && Enabled(l, s, a)
    ensures var t := Step(l, s, a); t.tokens == |Holders(t)| <= l.capacity
  {
    var t := Step(l, s, a);
    if a.Foreign? || a.Tick? {
      assert Holders(t) == Holders(s);
    } else {
      HoldsChanges(l, s, a);
      HoldersMove(s, t, a.c, t.phases[a.c]);
      OneMoreOrLess(Holders(s), a.c);
    }
  }

  lemma HistoryKept(l: Limits, s: Sys, a: Action)
    requires HistoryOk(l, s) && Enabled(l, s, a)
    ensures HistoryOk(l, Step(l, s, a))
  {
    if a.Ask? {
      HistoryGrows(l, s, Allow(s.clock), Some(a.c));
    } else if a.Report? {
      HistoryGrows(l, s, Record(s.phases[a.c].result.None?, s.clock), Some(a.c));
    } else if a.Foreign? {
      HistoryGrows(l, s, a.e, None);
    }
  }

  /** A longer memory tells the same of the attempts it had. */
  lemma WentOnStill(l: Limits, m: Memory, more: Memory, k: nat)
    requires WentOnUntil(l, m, k) && m.attempts <= more.attempts && m.sleeps <= more.sleeps
    ensures WentOnUntil(l, more, k)
  {
  }

  lemma OneMoreDraw(l: Limits, m: Memory, draw: real)
    requires WaitsFit(l, m)
    ensures var k := |m.draws|;
            WaitsFit(l, m.(draws := m.draws + [draw],
                           waits := m.waits + if Delay(l.policy.curve, k) > 0
                                              then [Retry.WaitFor(l.policy, k, draw)] else []))
  {
    var env, k := DrawsIn(m.draws + [draw]), |m.draws|;
    Retry.WaitsNeedOnlyDraws(l.policy, env, DrawsIn(m.draws), k);
    assert Retry.Wait(l.policy, env, k) == Retry.WaitFor(l.policy, k, draw);
  }

  predicate OfCaller(a: Action, c: Caller) {
    !a.Foreign? && !a.Tick? && a.c == c
  }

  ghost predicate SameCaller(s: Sys, t: Sys, c: Caller) {
    && (c in s.phases <==> c in t.phases) && (c in s.memories <==> c in t.memories)
    && (In(s, c) ==> s.phases[c] == t.phases[c] && s.memories[c] == t.memories[c])
  }

  lemma OthersUntouched(l: Limits, s: Sys, a: Action, c: Caller)
    requires Enabled(l, s, a) && !OfCaller(a, c)
    ensures SameCaller(s, Step(l, s, a), c)
  {
  }

  lemma AttemptKept(l: Limits, s: Sys, c: Caller, k: nat, a: Attempt)
    requires In(s, c) && Stands(l, s.memories[c], k, 0, 0, 0) && WaitsFit(l, s.memories[c])
    ensures CallerOk(l, Attempted(s, c, k, a), c)
  {
    var m := s.memories[c];
    WentOnStill(l, m, m.(attempts := m.attempts + [a]), k);
  }

  lemma PauseKept(l: Limits, s: Sys, c: Caller, k: nat, serr: Option<Error>)
    requires In(s, c) && Stands(l, s.memories[c], k, 1, 0, 1) && WaitsFit(l, s.memories[c])
    requires l.MayRetry(k, ResultOf(s.memories[c].attempts[k]))
    requires serr.Some? ==> Delay(l.policy.curve, k) > 0
    ensures CallerOk(l, Paused(s, c, k, serr), c)
  {
    var m := s.memories[c];
    WentOnStill(l, m, m.(sleeps := m.sleeps + [serr]), k);
  }

  lemma DecisionKept(l: Limits, s: Sys, c: Caller, draw: real)
    requires CallerOk(l, s, c) && Enabled(l, s, Decide(c, draw))
    ensures CallerOk(l, Step(l, s, Decide(c, draw)), c)
  {
    var m, k := s.memories[c], s.phases[c].k;
    if l.MayRetry(k, s.phases[c].result) {
      OneMoreDraw(l, m, draw);
      var sleeping := Delay(l.policy.curve, k) > 0;
      var more := m.(draws := m.draws + [draw],
                     waits := m.waits + if sleeping then [Retry.WaitFor(l.policy, k, draw)] else []);
      WentOnStill(l, m, more, k);
      if !sleeping {
        PauseKept(l, s.(memories := s.memories[c := more]), c, k, None);
      }
    }
  }

  lemma CallerKept(l: Limits, s: Sys, a: Action, c: Caller)
    requires Enabled(l, s, a) && c in Step(l, s, a).phases && (c in s.phases ==> CallerOk(l, s, c))
    ensures CallerOk(l, Step(l, s, a), c)
  {
    if !OfCaller(a, c) {
      OthersUntouched(l, s, a, c);
    } else {
      match a {
        case Ask(_) => AskKept(l, s, c);
        case Report(_) => ReportKept(l, s, c);
        case Decide(_, draw) => DecisionKept(l, s, c, draw);
        case Wake(_, serr) => PauseKept(l, s, c, s.phases[c].k, serr);
        case _ =>
      }
    }
  }

  lemma AskKept(l: Limits, s: Sys, c: Caller)
    requires CallerOk(l, s, c) && Enabled(l, s, Ask(c))
    ensures CallerOk(l, Step(l, s, Ask(c)), c)
  {
    AttemptKept(l, BreakerMoved(l, s, Allow(s.clock), Some(c)), c, s.phases[c].k, Rejected);
  }

  lemma ReportKept(l: Limits, s: Sys, c: Caller)
    requires CallerOk(l, s, c) && Enabled(l, s, Report(c))
    ensures CallerOk(l, Step(l, s, Report(c)), c)
  {
    var r := s.phases[c].result;
    AttemptKept(l, BreakerMoved(l, s, Record(r.None?, s.clock), Some(c)), c, s.phases[c].k, Executed(r));
  }

  lemma InvStep(l: Limits, s: Sys, a: Action)
    requires Inv(l, s) && Enabled(l, s, a)
    ensures Inv(l, Step(l, s, a))
  {
    TokensConserved(l, s, a);
    HistoryKept(l, s, a);
    forall c | c in Step(l, s, a).phases ensures CallerOk(l, Step(l, s, a), c) {
      CallerKept(l, s, a, c);
    }
  }

  lemma {:induction false} InvAlways(l: Limits, start: int, actions: seq<Action>, s: Sys)
    requires l.Valid() && Reaches(l, start, actions, s)
    ensures Inv(l, s)
    decreases |actions|
  {
    if actions == [] {
      assert Holders(s) == {};
    } else {
      var n := |actions| - 1;
      var t := Play(l, start, actions[..n]).value;
      InvAlways(l, start, actions[..n], t);
      InvStep(l, t, actions[n]);
    }
  }

  // ---- Slots -------------------------------------------------------------------------------

  lemma SubsetSize<T>(a: set<T>, b: set<T>)
    requires a <= b
    ensures |a| <= |b|
  {
    assert a + (b - a) == b;
    assert |a + (b - a)| == |a| + |b - a|;
  }

  /** Results of the executions among a caller's attempts, in order. */
  function Executions(attempts: seq<Attempt>): (r: seq<Option<Error>>)
    ensures |r| <= |attempts|
  {
    if attempts == [] then []
    else
      var n := |attempts| - 1;
      Executions(attempts[..n]) + if attempts[n].Executed? then [attempts[n].result] else []
  }

  /** How often a caller has started the protected function. */
  function Runs(p: Phase, m: Memory): nat {
    |Executions(m.attempts)| + if p.Running? || p.Returned? then 1 else 0
  }

  lemma RunsBounded(l: Limits, p: Phase, m: Memory)
    requires MemoryFits(l, p, m)
    ensures Runs(p, m) <= l.Attempts()
    ensures p.Waiting? || p.Cancelled? ==> Runs(p, m) == 0
  {
  }

  /** Conservation, on every run: the semaphore holds one token per caller between acquire and
      release, so at most `capacity` callers run or sleep, all of them holding a slot; a caller
      cancelled at admission never ran the function and nobody runs it more than MaxAttempts
      times; when everybody is finished the semaphore is empty. */
  lemma Conservation(l: Limits, start: int, actions: seq<Action>, s: Sys)
    requires l.Valid() && Reaches(l, start, actions, s)
    ensures s.tokens == |Holders(s)| <= l.capacity
    ensures InFlight(s) <= Holders(s) && |InFlight(s)| <= l.capacity
    ensures forall c :: c in s.phases ==>
              c in s.memories && Runs(s.phases[c], s.memories[c]) <= Max(1, l.policy.maxAttempts)
    ensures forall c :: c in s.phases && (s.phases[c].Cancelled? || s.phases[c].Waiting?) ==>
              Runs(s.phases[c], s.memories[c]) == 0
    ensures (forall c :: c in s.phases ==> s.phases[c].Done? || s.phases[c].Cancelled?) ==> s.tokens == 0
  {
    InvAlways(l, start, actions, s);
    SubsetSize(InFlight(s), Holders(s));
    if forall c :: c in s.phases ==> s.phases[c].Done? || s.phases[c].Cancelled? {
      assert Holders(s) == {};
    }
    forall c | c in s.phases
      ensures c in s.memories && Runs(s.phases[c], s.memories[c]) <= l.Attempts()
      ensures s.phases[c].Cancelled? || s.phases[c].Waiting? ==> Runs(s.phases[c], s.memories[c]) == 0
    {
      assert CallerOk(l, s, c);
      RunsBounded(l, s.phases[c], s.memories[c]);
    }
  }

  /** A step by which a caller gets closer to its result. */
  predicate IsProgress(a: Action) {
    !a.Cancel? && !a.Arrive? && !a.Foreign? && !a.Tick?
  }

  /** Nobody is stuck: as long as some caller is unfinished, some caller can take a step. In
      particular the receive that gives a slot back never blocks. */
  lemma NoDeadlock(l: Limits, start: int, actions: seq<Action>, s: Sys, c: Caller)
    requires l.Valid() && Reaches(l, start, actions, s)
    requires c in s.phases && !s.phases[c].Done? && !s.phases[c].Cancelled?
    ensures exists a: Action :: IsProgress(a) && Enabled(l, s, a)
    ensures s.phases[c].Leaving? ==> Enabled(l, s, Release(c))
  {
    InvAlways(l, start, actions, s);
    if Holds(s.phases[c]) {
      HolderCanStep(l, s, c);
    } else if s.tokens < l.capacity {
      assert Enabled(l, s, Acquire(c));
    } else {
      assert |Holders(s)| > 0;
      var h :| h in Holders(s);
      HolderCanStep(l, s, h);
    }
  }

  lemma HolderCanStep(l: Limits, s: Sys, c: Caller)
    requires l.Valid() && Inv(l, s) && c in s.phases && Holds(s.phases[c])
    ensures exists a: Action :: IsProgress(a) && Enabled(l, s, a)
    ensures s.phases[c].Leaving? ==> Enabled(l, s, Release(c))
  {
    assert c in Holders(s);
    SubsetSize({c}, Holders(s));
    var a := match s.phases[c]
      case Ready(_) => Ask(c)
      case Running(_) => Return(c, None)
      case Returned(_, _) => Report(c)
      case Deciding(_, _) => Decide(c, 0.0)
      case Sleeping(_) => Wake(c, None)
      case _ => Release(c);
    assert Enabled(l, s, a);
  }

  /** Steps a caller can still take before it is finished. */
  function Remaining(l: Limits, p: Phase): int {
    match p
    case Waiting => 5 * l.Attempts() + 2
    case Ready(k) => 5 * (l.Attempts() - k) + 1
    case Running(k) => 5 * (l.Attempts() - k)
    case Returned(k, _) => 5 * (l.Attempts() - k) - 1
    case Deciding(k, _) => 5 * (l.Attempts() - k) - 2
    case Sleeping(k) => 5 * (l.Attempts() - k) - 3
    case Leaving(_) => 1
    case Done(_) => 0
    case Cancelled => 0
  }

  /** Progress steps that `c` has taken in a run. */
  function Taken(actions: seq<Action>, c: Caller): nat {
    if actions == [] then 0
    else
      var n := |actions| - 1;
      Taken(actions[..n], c) + if IsProgress(actions[n]) && actions[n].c == c then 1 else 0
  }

  lemma StepSpends(l: Limits, s: Sys, a: Action, c: Caller)
    requires CallerOk(l, s, c) && Enabled(l, s, a)
    ensures var t := Step(l, s, a);
            && c in t.phases
            && Remaining(l, t.phases[c]) + (if IsProgress(a) && a.c == c then 1 else 0) <= Remaining(l, s.phases[c])
  {
    if !OfCaller(a, c) {
      OthersUntouched(l, s, a, c);
    } else if a.Decide? {
      DecisionSpends(l, s, c, a.draw);
    } else {
      OwnStepSpends(l, s, a, c);
    }
  }

  lemma DecisionSpends(l: Limits, s: Sys, c: Caller, draw: real)
    requires CallerOk(l, s, c) && Enabled(l, s, Decide(c, draw))
    ensures var t := Step(l, s, Decide(c, draw));
            c in t.phases && Remaining(l, t.phases[c]) < Remaining(l, s.phases[c])
  {
  }

  lemma OwnStepSpends(l: Limits, s: Sys, a: Action, c: Caller)
    requires CallerOk(l, s, c) && Enabled(l, s, a) && OfCaller(a, c) && !a.Decide?
    ensures var t := Step(l, s, a);
            && c in t.phases
            && Remaining(l, t.phases[c]) + (if IsProgress(a) then 1 else 0) <= Remaining(l, s.phases[c])
  {
  }

  /** What `c` has taken and may still take, given the state it is in. */
  ghost predicate WithinAllowance(l: Limits, s: Sys, c: Caller, taken: nat) {
    if c in s.phases then taken + Remaining(l, s.phases[c]) <= 5 * l.Attempts() + 2 else taken == 0
  }

  lemma AllowanceStep(l: Limits, s: Sys, a: Action, c: Caller, taken: nat)
    requires Inv(l, s) && Enabled(l, s, a) && WithinAllowance(l, s, c, taken)
    ensures WithinAllowance(l, Step(l, s, a), c, taken + if IsProgress(a) && a.c == c then 1 else 0)
  {
    if c in s.phases {
      assert CallerOk(l, s, c);
      StepSpends(l, s, a, c);
    }
  }

  lemma {:induction false} AllowanceAlways(l: Limits, start: int, actions: seq<Action>, s: Sys, c: Caller)
    requires l.Valid() && Reaches(l, start, actions, s)
    ensures WithinAllowance(l, s, c, Taken(actions, c))
    decreases |actions|
  {
    if actions != [] {
      var n := |actions| - 1;
      var t := Play(l, start, actions[..n]).value;
      AllowanceAlways(l, start, actions[..n], t, c);
      InvAlways(l, start, actions[..n], t);
      AllowanceStep(l, t, actions[n], c, Taken(actions[..n], c));
    }
  }

  /** No run lets a caller take more than 5 * MaxAttempts + 2 steps, and one that has taken them
      all is finished. Which waiting caller is served next is up to the scheduler. */
  lemma CallerStepsBounded(l: Limits, start: int, actions: seq<Action>, s: Sys, c: Caller)
    requires l.Valid() && Reaches(l, start, actions, s)
    ensures Taken(actions, c) <= 5 * l.Attempts() + 2
    ensures c in s.phases && Taken(actions, c) == 5 * l.Attempts() + 2 ==> s.phases[c].Done? || s.phases[c].Cancelled?
  {
    InvAlways(l, start, actions, s);
    AllowanceAlways(l, start, actions, s, c);
    if c in s.phases {
      assert CallerOk(l, s, c);
    }
  }

  // ---- Each caller's attempts --------------------------------------------------------------

  /** Under concurrency the breaker's promise carries over to the guard: an attempt starts the
      protected function exactly when no trip in the breaker's history is less than
      resetTimeout old. */
  lemma StartsIffNoRecentTrip(l: Limits, start: int, actions: seq<Action>, s: Sys, c: Caller)
    requires l.Valid() && Reaches(l, start, actions, s) && Enabled(l, s, Ask(c))
    ensures Step(l, s, Ask(c)).phases[c].Running? <==> !RecentTrip(l.cfg, s.history, s.clock)
  {
    InvAlways(l, start, actions, s);
    HistoryGrows(l, s, Allow(s.clock), Some(c));
    AdmitsIffNoRecentTrip(l.cfg, s.history, s.clock);
  }

  /** What a caller's attempts came to, as the results that its retry loop saw. */
  function ResultsIn(m: Memory): Retry.Results {
    (k: nat) => if k < |m.attempts| then ResultOf(m.attempts[k]) else None
  }

  /** The sleep results and the random draws that a caller met. */
  function EnvIn(m: Memory): Retry.Env {
    Retry.Env((k: nat) => if k < |m.sleeps| then m.sleeps[k] else None, DrawsIn(m.draws).draws)
  }

  /** Seen by one caller, every interleaving is a run of its retry policy over what the shared
      breaker let through: as many calls as it made attempts, the sleeps that it took, and the
      result that it returns. So the contract of the retry loop holds of every contended caller. */
  lemma CallerRunsItsPolicy(l: Limits, start: int, actions: seq<Action>, s: Sys, c: Caller)
    requires l.Valid() && Reaches(l, start, actions, s)
    requires c in s.phases && (s.phases[c].Leaving? || s.phases[c].Done?)
    ensures c in s.memories
    ensures var m, result := s.memories[c], s.phases[c].result;
            && Retry.Run(l.policy, ResultsIn(m), EnvIn(m)) == Retry.Outcome(|m.attempts|, m.waits, result)
            && |m.attempts| >= 1 && (result.None? <==> m.attempts[|m.attempts| - 1] == Executed(None))
            && forall k: nat :: k < |m.attempts| ==>
                 ResultsIn(m)(k) == match m.attempts[k] case Rejected => Some(ErrOpen) case Executed(r) => r
  {
    InvAlways(l, start, actions, s);
    assert CallerOk(l, s, c);
    EndedIsRun(l, s.memories[c], s.phases[c].result);
  }

  lemma EndedIsRun(l: Limits, m: Memory, result: Option<Error>)
    requires Ended(l, m, result) && WaitsFit(l, m)
    ensures Retry.Run(l.policy, ResultsIn(m), EnvIn(m)) == Retry.Outcome(|m.attempts|, m.waits, result)
  {
    var n := |m.attempts| - 1;
    var out, env := ResultsIn(m), EnvIn(m);
    forall k: nat | k < n ensures !Retry.Stops(l.policy, out, env, k) {
      assert WentOn(l, m.attempts[k], m.sleeps[k], k);
    }
    Retry.RunEndsAt(l.policy, out, env, n);
    Retry.WaitsNeedOnlyDraws(l.policy, env, DrawsIn(m.draws), |m.draws|);
  }

  // ---- Every execution is recorded once, with its own outcome ------------------------------

  /** What the protected function returned to `c`, in order. */
  function Returns(actions: seq<Action>, c: Caller): seq<Option<Error>> {
    if actions == [] then []
    else
      var n := |actions| - 1;
      Returns(actions[..n], c) + if actions[n].Return? && actions[n].c == c then [actions[n].result] else []
  }

  /** An Allow, or a Record with its outcome. */
  datatype Mark = Asked | Recorded(success: bool)

  function MarkOf(e: Event): seq<Mark> {
    if e.Allow? then [Asked] else if e.Record? then [Recorded(e.success)] else []
  }

  /** What `c` did to the breaker in its first `i` steps. */
  function MarksOf(history: seq<Event>, owners: seq<Option<Caller>>, c: Caller, i: nat): seq<Mark>
    requires i <= |history| == |owners|
  {
    if i == 0 then []
    else MarksOf(history, owners, c, i - 1) + if owners[i - 1] == Some(c) then MarkOf(history[i - 1]) else []
  }

  /** What a caller with these attempts must have done to the breaker: one Allow each, and one
      Record with the outcome of each that executed. */
  function MarksFor(attempts: seq<Attempt>): seq<Mark> {
    if attempts == [] then []
    else
      var n := |attempts| - 1;
      MarksFor(attempts[..n]) + [Asked] +
      if attempts[n].Executed? then [Recorded(attempts[n].result.None?)] else []
  }

  lemma {:induction false} MarksPrefix(h: seq<Event>, o: seq<Option<Caller>>, e: Event, who: Option<Caller>,
                                       c: Caller, i: nat)
    requires i <= |h| == |o|
    ensures MarksOf(h + [e], o + [who], c, i) == MarksOf(h, o, c, i)
    decreases i
  {
    if i > 0 {
      MarksPrefix(h, o, e, who, c, i - 1);
    }
  }

  /** The attempts that `c` remembers tell what was returned to it and what it recorded, but for
      the attempt under way. */
  ghost predicate Accounted(s: Sys, c: Caller, returned: seq<Option<Error>>)
    requires |s.owners| == |s.history|
  {
    var marks := MarksOf(s.history, s.owners, c, |s.history|);
    if !In(s, c) then returned == [] && marks == []
    else
      var p, m := s.phases[c], s.memories[c];
      && returned == Executions(m.attempts) + (if p.Returned? then [p.result] else [])
      && marks == MarksFor(m.attempts) + (if p.Running? || p.Returned? then [Asked] else [])
  }

  lemma MarksGrow(l: Limits, s: Sys, e: Event, owner: Option<Caller>, c: Caller)
    requires |s.owners| == |s.history|
    ensures var t := BreakerMoved(l, s, e, owner);
            MarksOf(t.history, t.owners, c, |t.history|) ==
            MarksOf(s.history, s.owners, c, |s.history|) + if owner == Some(c) then MarkOf(e) else []
  {
    MarksPrefix(s.history, s.owners, e, owner, c, |s.history|);
  }

  lemma AttemptsGrow(attempts: seq<Attempt>, a: Attempt)
    ensures Executions(attempts + [a]) == Executions(attempts) + if a.Executed? then [a.result] else []
    ensures MarksFor(attempts + [a]) ==
            MarksFor(attempts) + [Asked] + if a.Executed? then [Recorded(a.result.None?)] else []
  {
    assert (attempts + [a])[..|attempts|] == attempts;
  }

  /** Steps of others leave a caller's account alone. */
  lemma AccountedByOthers(l: Limits, s: Sys, a: Action, c: Caller, returned: seq<Option<Error>>)
    requires |s.owners| == |s.history| && Enabled(l, s, a) && Accounted(s, c, returned) && !OfCaller(a, c)
    ensures |Step(l, s, a).owners| == |Step(l, s, a).history|
    ensures Accounted(Step(l, s, a), c, returned)
  {
    OthersUntouched(l, s, a, c);
    if a.Ask? {
      MarksGrow(l, s, Allow(s.clock), Some(a.c), c);
    } else if a.Report? {
      MarksGrow(l, s, Record(s.phases[a.c].result.None?, s.clock), Some(a.c), c);
    } else if a.Foreign? {
      MarksGrow(l, s, a.e, None, c);
    }
  }

  lemma AccountedAsk(l: Limits, s: Sys, c: Caller, returned: seq<Option<Error>>)
    requires |s.owners| == |s.history| && Enabled(l, s, Ask(c)) && Accounted(s, c, returned)
    ensures |Step(l, s, Ask(c)).owners| == |Step(l, s, Ask(c)).history|
    ensures Accounted(Step(l, s, Ask(c)), c, returned)
  {
    MarksGrow(l, s, Allow(s.clock), Some(c), c);
    AttemptsGrow(s.memories[c].attempts, Rejected);
  }

  lemma AccountedReport(l: Limits, s: Sys, c: Caller, returned: seq<Option<Error>>)
    requires |s.owners| == |s.history| && Enabled(l, s, Report(c)) && Accounted(s, c, returned)
    ensures |Step(l, s, Report(c)).owners| == |Step(l, s, Report(c)).history|
    ensures Accounted(Step(l, s, Report(c)), c, returned)
  {
    var r := s.phases[c].result;
    MarksGrow(l, s, Record(r.None?, s.clock), Some(c), c);
    AttemptsGrow(s.memories[c].attempts, Executed(r));
  }

  /** The other own steps do not concern the breaker. */
  lemma AccountedQuietly(l: Limits, s: Sys, a: Action, c: Caller, returned: seq<Option<Error>>)
    requires |s.owners| == |s.history| && Enabled(l, s, a) && Accounted(s, c, returned)
    requires OfCaller(a, c) && !a.Ask? && !a.Report?
    ensures |Step(l, s, a).owners| == |Step(l, s, a).history|
    ensures Accounted(Step(l, s, a), c, returned + if a.Return? then [a.result] else [])
  {
    assert Step(l, s, a).history == s.history && Step(l, s, a).owners == s.owners;
  }

  lemma AccountedStep(l: Limits, s: Sys, a: Action, c: Caller, returned: seq<Option<Error>>)
    requires |s.owners| == |s.history| && Enabled(l, s, a) && Accounted(s, c, returned)
    ensures |Step(l, s, a).owners| == |Step(l, s, a).history|
    ensures Accounted(Step(l, s, a), c, returned + if a.Return? && a.c == c then [a.result] else [])
  {
    if !OfCaller(a, c) {
      AccountedByOthers(l, s, a, c, returned);
    } else if a.Ask? {
      AccountedAsk(l, s, c, returned);
    } else if a.Report? {
      AccountedReport(l, s, c, returned);
    } else {
      AccountedQuietly(l, s, a, c, returned);
    }
  }

  /** On every run and for every caller: the breaker's history holds, from this caller and in
      this order, one Allow per attempt and one Record per execution with its own outcome, except
      the Record still on its way; what the function returned is what the attempts remember. */
  lemma {:induction false} OutcomesRecordedOnce(l: Limits, start: int, actions: seq<Action>, s: Sys, c: Caller)
    requires l.Valid() && Reaches(l, start, actions, s)
    ensures |s.owners| == |s.history|
    ensures Accounted(s, c, Returns(actions, c))
    decreases |actions|
  {
    InvAlways(l, start, actions, s);
    if actions != [] {
      var n := |actions| - 1;
      var t := Play(l, start, actions[..n]).value;
      OutcomesRecordedOnce(l, start, actions[..n], t, c);
      InvAlways(l, start, actions[..n], t);
      AccountedStep(l, t, actions[n], c, Returns(actions[..n], c));
    }
  }
}
