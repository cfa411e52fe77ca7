/** The store under every interleaving. A Get is three steps: it reads the entry under the read
    lock, checks the clock under no lock, and evicts under the write lock without looking again.
    The sweeper reads the clock before it takes the lock. Set and Delete are single steps. */
module MemStoreConcurrent {
  import opened Basics
  import opened MemStoreModel

  type Thread = nat
  type Resp = int

  datatype Pc =
    | Idle
    | HasRead(key: string, e: Entry<Resp>)     // a Get, before its clock check
    | WillEvict(key: string, e: Entry<Resp>)   // a Get that found its entry expired
    | WillSweep(at: int)                       // a purge, after its clock reading

  datatype State = State(clock: int, entries: Entries<Resp>, pcs: map<Thread, Pc>)

  datatype Action =
    | Tick(to: int)
    | Put(key: string, resp: Resp, ttl: int)
    | Remove(key: string)
    | Read(t: Thread, key: string)
    | Check(t: Thread)
    | Evict(t: Thread)
    | ReadClock(t: Thread)
    | Sweep(t: Thread)

  function PcOf(s: State, t: Thread): Pc {
    if t in s.pcs then s.pcs[t] else Idle
  }

  predicate Enabled(s: State, a: Action) {
    match a
    case Tick(to) => s.clock <= to
    case Put(_, _, _) => true
    case Remove(_) => true
    case Read(t, _) => PcOf(s, t).Idle?
    case Check(t) => PcOf(s, t).HasRead?
    case Evict(t) => PcOf(s, t).WillEvict?
    case ReadClock(t) => PcOf(s, t).Idle?
    case Sweep(t) => PcOf(s, t).WillSweep?
  }

  function PutEntry(s: State, a: Action): Entry<Resp>
    requires a.Put?
  {
    Stored(Op.Set(s.clock, a.key, a.resp, a.ttl))
  }

  /** A Check that finds the entry unexpired returns it: a hit. */
  predicate Hits(s: State, t: Thread) {
    PcOf(s, t).HasRead? && s.clock <= PcOf(s, t).e.expiresAt
  }

  function Perform(s: State, a: Action): State
    requires Enabled(s, a)
  {
    match a
    case Tick(to) => s.(clock := to)
    case Put(key, _, _) => s.(entries := s.entries[key := PutEntry(s, a)])
    case Remove(key) => s.(entries := s.entries - {key})
    case Read(t, key) =>
      if key in s.entries then s.(pcs := s.pcs[t := HasRead(key, s.entries[key])]) else s
    case Check(t) =>
      s.(pcs := s.pcs[t := if Hits(s, t) then Idle else WillEvict(s.pcs[t].key, s.pcs[t].e)])
    case Evict(t) => s.(entries := s.entries - {s.pcs[t].key}, pcs := s.pcs[t := Idle])
    case ReadClock(t) => s.(pcs := s.pcs[t := WillSweep(s.clock)])
    case Sweep(t) => s.(entries := Purged(s.entries, s.pcs[t].at), pcs := s.pcs[t := Idle])
  }

  /** A run: `states[i]` is the state before `actions[i]`, and each action leads to the next. */
  datatype Run = Run(actions: seq<Action>, states: seq<State>) {
    ghost predicate Legal() {
      && |states| == |actions| + 1
      && states[0] == State(0, map[], map[])
      && forall i :: 0 <= i < |actions| ==> Follows(i)
    }

    ghost predicate Follows(i: nat)
      requires |states| == |actions| + 1 && i < |actions|
    {
      Enabled(states[i], actions[i]) && states[i + 1] == Perform(states[i], actions[i])
    }
  }

  function Lookup(s: State, key: string): Option<Entry<Resp>> {
    MemStoreModel.Lookup(s.entries, key)
  }

  predicate LiveAt(s: State, key: string) {
    Live(Lookup(s, key), s.clock).Some?
  }

  // ---- What a Get knows --------------------------------------------------------------------

  lemma {:induction false} ClockMonotone(r: Run, i: nat, j: nat)
    requires r.Legal() && i <= j <= |r.actions|
    ensures r.states[i].clock <= r.states[j].clock
  {
    if i < j {
      ClockMonotone(r, i, j - 1);
      assert r.Follows(j - 1);
    }
  }

  /** Action `i` is the read step of thread `t` that found `e` under `key`. */
  ghost predicate ReadAt(r: Run, i: nat, t: Thread, key: string, e: Entry<Resp>)
    requires r.Legal() && i < |r.actions|
  {
    r.actions[i] == Read(t, key) && Lookup(r.states[i], key) == Some(e)
  }

  /** Action `i` is the read step of the very Get that thread `t` is in before action `j`. */
  ghost predicate OwnRead(r: Run, i: nat, j: nat, t: Thread, key: string, e: Entry<Resp>)
    requires r.Legal() && j <= |r.actions|
  {
    && i < j && ReadAt(r, i, t, key, e)
    && PcOf(r.states[i], t).Idle?
    && forall x :: i < x <= j ==> !PcOf(r.states[x], t).Idle?
  }

  /** A Get in progress remembers what the map held at its own read step; once it means to
      evict, that entry has expired. */
  lemma {:induction false} GetRemembersRead(r: Run, j: nat, t: Thread) returns (i: nat)
    requires r.Legal() && j <= |r.actions|
    requires PcOf(r.states[j], t).HasRead? || PcOf(r.states[j], t).WillEvict?
    ensures OwnRead(r, i, j, t, PcOf(r.states[j], t).key, PcOf(r.states[j], t).e)
    ensures PcOf(r.states[j], t).WillEvict? ==> PcOf(r.states[j], t).e.expiresAt < r.states[j].clock
    decreases j
  {
    assert j > 0 && r.Follows(j - 1);
    if PcOf(r.states[j], t) == PcOf(r.states[j - 1], t) || r.actions[j - 1].Check? {
      i := GetRemembersRead(r, j - 1, t);
      ClockMonotone(r, j - 1, j);
    } else {
      i := j - 1;
    }
  }

  /** A hit returns what the map held at the Get's own read step, unexpired at the check step. */
  lemma HitIsSound(r: Run, j: nat, t: Thread) returns (i: nat)
    requires r.Legal() && j < |r.actions| && r.actions[j] == Check(t) && Hits(r.states[j], t)
    ensures var pc := PcOf(r.states[j], t);
            OwnRead(r, i, j, t, pc.key, pc.e) && r.states[j].clock <= pc.e.expiresAt
  {
    i := GetRemembersRead(r, j, t);
  }

  // ---- Who removes what --------------------------------------------------------------------

  /** A sweep in progress remembers the clock at its own reading. */
  lemma {:induction false} SweepRemembersClock(r: Run, j: nat, t: Thread) returns (i: nat)
    requires r.Legal() && j <= |r.actions| && PcOf(r.states[j], t).WillSweep?
    ensures i < j && r.actions[i] == ReadClock(t) && PcOf(r.states[j], t).at == r.states[i].clock
    ensures PcOf(r.states[i], t).Idle? && forall x :: i < x <= j ==> !PcOf(r.states[x], t).Idle?
    decreases j
  {
    assert j > 0 && r.Follows(j - 1);
    if PcOf(r.states[j], t) == PcOf(r.states[j - 1], t) {
      i := SweepRemembersClock(r, j - 1, t);
    } else {
      i := j - 1;
    }
  }

  /** A sweep removes exactly the entries that had expired at its own, possibly older, clock
      reading; in particular no live one. */
  lemma SweepRemovesOnlyExpired(r: Run, j: nat, key: string) returns (i: nat)
    requires r.Legal() && j < |r.actions| && r.actions[j].Sweep?
    ensures i < j && r.actions[i] == ReadClock(r.actions[j].t)
    ensures forall x :: i < x <= j ==> !PcOf(r.states[x], r.actions[j].t).Idle?
    ensures var e := Lookup(r.states[j], key);
            Lookup(r.states[j + 1], key) == if e.Some? && r.states[i].clock <= e.value.expiresAt then e else None
    ensures LiveAt(r.states[j], key) ==> Lookup(r.states[j + 1], key) == Lookup(r.states[j], key)
  {
    assert r.Follows(j);
    i := SweepRemembersClock(r, j, r.actions[j].t);
    ClockMonotone(r, i, j);
  }

  predicate Puts(a: Action, key: string) {
    a.Put? && a.key == key
  }

  /** Action `x` wrote or removed the entry of `key`. */
  ghost predicate Touches(r: Run, x: nat, key: string)
    requires r.Legal() && x < |r.actions|
  {
    Puts(r.actions[x], key) || Lookup(r.states[x + 1], key) != Lookup(r.states[x], key)
  }

  ghost predicate QuietBetween(r: Run, i: nat, j: nat, key: string)
    requires r.Legal() && j <= |r.actions|
  {
    forall x: nat :: i <= x < j ==> !Touches(r, x, key)
  }

  lemma {:induction false} Untouched(r: Run, i: nat, j: nat, key: string)
    requires r.Legal() && i <= j <= |r.actions| && QuietBetween(r, i, j, key)
    ensures Lookup(r.states[j], key) == Lookup(r.states[i], key)
    decreases j
  {
    if i < j {
      Untouched(r, i, j - 1, key);
      assert !Touches(r, j - 1, key);
    }
  }

  /** Action `m` put the entry that `key` still has before action `j`, where it is still live. */
  ghost predicate PutStillLive(r: Run, m: nat, j: nat, key: string)
    requires r.Legal() && m < j <= |r.actions|
  {
    && Puts(r.actions[m], key)
    && QuietBetween(r, m + 1, j, key)
    && r.states[j].clock <= PutEntry(r.states[m], r.actions[m]).expiresAt
  }

  lemma {:induction false} LastTouch(r: Run, i: nat, j: nat, key: string) returns (m: nat)
    requires r.Legal() && i <= j <= |r.actions| && !QuietBetween(r, i, j, key)
    ensures i <= m < j && Touches(r, m, key) && QuietBetween(r, m + 1, j, key)
    decreases j
  {
    m := j - 1;
    if !Touches(r, j - 1, key) {
      m := LastTouch(r, i, j - 1, key);
    }
  }

  /** A Put leaves its entry; any other action that touches a key leaves nothing there. */
  lemma TouchLeaves(r: Run, m: nat, key: string)
    requires r.Legal() && m < |r.actions| && Touches(r, m, key)
    ensures Lookup(r.states[m + 1], key) ==
            if Puts(r.actions[m], key) then Some(PutEntry(r.states[m], r.actions[m])) else None
  {
    assert r.Follows(m);
  }

  lemma PutStillLiveIsLive(r: Run, m: nat, j: nat, key: string)
    requires r.Legal() && m < j <= |r.actions| && PutStillLive(r, m, j, key)
    ensures LiveAt(r.states[j], key)
  {
    TouchLeaves(r, m, key);
    Untouched(r, m + 1, j, key);
  }

  /** If an entry read before has expired and yet the key is live, the entry was replaced. */
  lemma LiveMeansOvertaken(r: Run, i: nat, j: nat, key: string, e: Entry<Resp>) returns (m: nat)
    requires r.Legal() && i < j <= |r.actions| && Lookup(r.states[i], key) == Some(e)
    requires e.expiresAt < r.states[j].clock && LiveAt(r.states[j], key)
    ensures i <= m < j && PutStillLive(r, m, j, key)
  {
    if QuietBetween(r, i, j, key) {
      Untouched(r, i, j, key);
      assert false;
    }
    m := LastTouch(r, i, j, key);
    Untouched(r, m + 1, j, key);
    TouchLeaves(r, m, key);
  }

  /** The exact condition under which a Get evicts a live entry: after its read step and before
      its evict step, a Set of that key landed whose entry is still there and still live. */
  lemma EvictsLiveIffOvertaken(r: Run, j: nat, t: Thread) returns (i: nat)
    requires r.Legal() && j < |r.actions| && r.actions[j] == Evict(t)
    ensures var pc := PcOf(r.states[j], t);
            pc.WillEvict? && OwnRead(r, i, j, t, pc.key, pc.e)
    ensures var key := PcOf(r.states[j], t).key;
            LiveAt(r.states[j], key) <==> exists m: nat :: i < m < j && PutStillLive(r, m, j, key)
  {
    assert r.Follows(j);
    i := GetRemembersRead(r, j, t);
    var key := PcOf(r.states[j], t).key;
    if LiveAt(r.states[j], key) {
      var m := LiveMeansOvertaken(r, i, j, key, PcOf(r.states[j], t).e);
      assert r.actions[i].Read? && r.actions[m].Put?;
    }
    forall m: nat | i < m < j && PutStillLive(r, m, j, key) ensures LiveAt(r.states[j], key) {
      PutStillLiveIsLive(r, m, j, key);
    }
  }

  /** On every run, a live entry disappears only by a Delete of its key or by a Get overtaken by
      a Set in the way EvictsLiveIffOvertaken describes. */
  lemma LiveEntryLost(r: Run, j: nat, key: string)
    requires r.Legal() && j < |r.actions|
    requires LiveAt(r.states[j], key) && Lookup(r.states[j + 1], key).None?
    ensures r.actions[j] == Remove(key)
            || (r.actions[j].Evict?
                && exists i: nat, m: nat, e: Entry<Resp> ::
                     i < m < j && OwnRead(r, i, j, r.actions[j].t, key, e) && PutStillLive(r, m, j, key))
  {
    assert r.Follows(j);
    if r.actions[j].Sweep? {
      var i := SweepRemovesOnlyExpired(r, j, key);
    } else if r.actions[j].Evict? {
      var i := EvictsLiveIffOvertaken(r, j, r.actions[j].t);
    }
  }

  // ---- Agreement with the map of last writes -----------------------------------------------

  /** What the last Set or Delete of `key` among the first `j` actions left there. */
  ghost function LastPut(r: Run, j: nat, key: string): Option<Entry<Resp>>
    requires r.Legal() && j <= |r.actions|
    decreases j
  {
    if j == 0 then None
    else if Puts(r.actions[j - 1], key) then Some(PutEntry(r.states[j - 1], r.actions[j - 1]))
    else if r.actions[j - 1] == Remove(key) then None
    else LastPut(r, j - 1, key)
  }

  /** The map, read at this one moment, gives the last write if that is unexpired. */
  ghost predicate AgreesAt(r: Run, j: nat, key: string)
    requires r.Legal() && j <= |r.actions|
  {
    Live(Lookup(r.states[j], key), r.states[j].clock) == Live(LastPut(r, j, key), r.states[j].clock)
  }

  ghost predicate AgreesUpTo(r: Run, n: nat, key: string)
    requires r.Legal() && n <= |r.actions|
  {
    forall j: nat :: j <= n ==> AgreesAt(r, j, key)
  }

  /** Action `x` is the evict step of a Get for `key` and removes a live entry. */
  ghost predicate LosesLive(r: Run, x: nat, key: string)
    requires r.Legal() && x < |r.actions|
  {
    && r.actions[x].Evict? && PcOf(r.states[x], r.actions[x].t).WillEvict?
    && PcOf(r.states[x], r.actions[x].t).key == key && LiveAt(r.states[x], key)
  }

  /** None of the first `n` actions loses a live entry of `key`. */
  ghost predicate NothingLost(r: Run, n: nat, key: string)
    requires r.Legal() && n <= |r.actions|
  {
    forall x: nat :: x < n ==> !LosesLive(r, x, key)
  }

  /** The map holds the last write, or lacks it because it has expired. */
  ghost predicate HoldsLastPut(r: Run, j: nat, key: string)
    requires r.Legal() && j <= |r.actions|
  {
    var last := LastPut(r, j, key);
    Lookup(r.states[j], key) == last
    || (Lookup(r.states[j], key).None? && last.Some? && last.value.expiresAt < r.states[j].clock)
  }

  lemma {:induction false} HoldsUnlessLost(r: Run, j: nat, key: string)
    requires r.Legal() && j <= |r.actions| && NothingLost(r, j, key)
    ensures HoldsLastPut(r, j, key)
    decreases j
  {
    if j > 0 {
      HoldsUnlessLost(r, j - 1, key);
      assert r.Follows(j - 1) && !LosesLive(r, j - 1, key);
      ClockMonotone(r, j - 1, j);
      if r.actions[j - 1].Sweep? {
        var i := SweepRemovesOnlyExpired(r, j - 1, key);
      }
    }
  }

  /** Under concurrency, for each key and up to each moment: the map has held the last unexpired
      write all along if and only if no Get has evicted a live entry of that key. */
  lemma AgreesIffNothingLost(r: Run, n: nat, key: string)
    requires r.Legal() && n <= |r.actions|
    ensures AgreesUpTo(r, n, key) <==> NothingLost(r, n, key)
  {
    if NothingLost(r, n, key) {
      forall j: nat | j <= n ensures AgreesAt(r, j, key) {
        HoldsUnlessLost(r, j, key);
      }
    } else {
      var x: nat :| x < n && LosesLive(r, x, key);
      LossBreaksAgreement(r, x, key);
    }
  }

  lemma LossBreaksAgreement(r: Run, x: nat, key: string)
    requires r.Legal() && x < |r.actions| && LosesLive(r, x, key)
    ensures !(AgreesAt(r, x, key) && AgreesAt(r, x + 1, key))
  {
    assert r.Follows(x);
  }

  // ---- What was stored ---------------------------------------------------------------------

  /** Action `m` put `resp` under `key`, the key has not been touched since, and before action `j`
      the TTL it was given has not run out. */
  ghost predicate PutStands(r: Run, m: nat, j: nat, key: string, resp: Resp)
    requires r.Legal() && m < j <= |r.actions|
  {
    && Puts(r.actions[m], key) && r.actions[m].resp == resp && QuietBetween(r, m + 1, j, key)
    && var ttl := r.actions[m].ttl;
       r.states[j].clock - r.states[m].clock <= if ttl > 0 then ttl else 24 * 60 * 60 * 1_000_000_000
  }

  /** Every entry in the map was put there. */
  lemma EntryWasPut(r: Run, j: nat, key: string) returns (m: nat)
    requires r.Legal() && j <= |r.actions| && Lookup(r.states[j], key).Some?
    ensures m < j && Puts(r.actions[m], key) && QuietBetween(r, m + 1, j, key)
    ensures Lookup(r.states[j], key) == Some(PutEntry(r.states[m], r.actions[m]))
  {
    if QuietBetween(r, 0, j, key) {
      Untouched(r, 0, j, key);
      assert false;
    }
    m := LastTouch(r, 0, j, key);
    TouchLeaves(r, m, key);
    Untouched(r, m + 1, j, key);
  }

  /** Under every interleaving the map answers with a response exactly if a Set stored it, nothing
      has touched the key since, and its TTL, 24 hours if none was given, has not run out. */
  lemma MapReplaysIff(r: Run, j: nat, key: string, resp: Resp)
    requires r.Legal() && j <= |r.actions|
    ensures Live(Lookup(r.states[j], key), r.states[j].clock) == Some(resp) <==>
            exists m: nat :: m < j && PutStands(r, m, j, key, resp)
  {
    if Live(Lookup(r.states[j], key), r.states[j].clock) == Some(resp) {
      var m := EntryWasPut(r, j, key);
      assert PutStands(r, m, j, key, resp);
    }
    forall m: nat | m < j && PutStands(r, m, j, key, resp)
      ensures Live(Lookup(r.states[j], key), r.states[j].clock) == Some(resp)
    {
      TouchLeaves(r, m, key);
      Untouched(r, m + 1, j, key);
    }
  }

  /** What a Delete removes stays away until the key is set again. */
  lemma {:induction false} RemovedStaysAway(r: Run, m: nat, j: nat, key: string)
    requires r.Legal() && m < j <= |r.actions| && r.actions[m] == Remove(key)
    requires forall x :: m < x < j ==> !Puts(r.actions[x], key)
    ensures Lookup(r.states[j], key).None?
    decreases j
  {
    assert r.Follows(j - 1);
    if j > m + 1 {
      RemovedStaysAway(r, m, j - 1, key);
    }
  }

  /** A hit answers the response of the Set whose entry the Get read. */
  lemma HitAnswersPut(r: Run, j: nat, t: Thread) returns (m: nat, i: nat)
    requires r.Legal() && j < |r.actions| && r.actions[j] == Check(t) && Hits(r.states[j], t)
    ensures var pc := PcOf(r.states[j], t);
            && m < i < j && OwnRead(r, i, j, t, pc.key, pc.e)
            && r.actions[m].Put? && PutStands(r, m, i, pc.key, r.actions[m].resp)
            && GetAnswer(r.states[j], t) == Some(r.actions[m].resp)
  {
    i := HitIsSound(r, j, t);
    ClockMonotone(r, i, j);
    m := EntryWasPut(r, i, PcOf(r.states[j], t).key);
  }

  // ---- What a Get answers ------------------------------------------------------------------

  /** What the Get of thread `t` answers at its check step. (A Get that finds no entry answers at
      its read step, which is atomic.) */
  function GetAnswer(s: State, t: Thread): Option<Resp>
    requires PcOf(s, t).HasRead?
  {
    if Hits(s, t) then Some(PcOf(s, t).e.resp) else None
  }

  /** The map read in one step, at some moment from step `i` to step `j`, gives this answer. */
  ghost predicate MapAnswers(r: Run, i: nat, j: nat, key: string, answer: Option<Resp>)
    requires r.Legal() && j <= |r.actions|
  {
    exists x: nat :: i <= x <= j && Live(Lookup(r.states[x], key), r.states[x].clock) == answer
  }

  /** The last unexpired write, at some moment from step `i` to step `j`, is this answer. */
  ghost predicate LastPutAnswers(r: Run, i: nat, j: nat, key: string, answer: Option<Resp>)
    requires r.Legal() && j <= |r.actions|
  {
    exists x: nat :: i <= x <= j && Live(LastPut(r, x, key), r.states[x].clock) == answer
  }

  ghost predicate LiveFrom(r: Run, i: nat, j: nat, key: string)
    requires r.Legal() && j <= |r.actions|
  {
    forall x: nat :: i <= x <= j ==> LiveAt(r.states[x], key)
  }

  /** Action `m` is the first to touch `key` after the read at `i`: a Set that replaces `e` before
      it expires, and the key stays live from there up to step `j`. */
  ghost predicate ReplacedInTime(r: Run, i: nat, m: nat, j: nat, key: string, e: Entry<Resp>)
    requires r.Legal() && j <= |r.actions|
  {
    && i < m < j && Puts(r.actions[m], key) && QuietBetween(r, i, m, key)
    && r.states[m].clock <= e.expiresAt
    && LiveFrom(r, m + 1, j, key)
  }

  lemma {:induction false} FirstTouch(r: Run, i: nat, j: nat, key: string) returns (m: nat)
    requires r.Legal() && i <= j <= |r.actions| && !QuietBetween(r, i, j, key)
    ensures i <= m < j && Touches(r, m, key) && QuietBetween(r, i, m, key)
    decreases j - i
  {
    m := i;
    if !Touches(r, i, key) {
      m := FirstTouch(r, i + 1, j, key);
    }
  }

  lemma LiveUntilReplaced(r: Run, i: nat, m: nat, key: string, e: Entry<Resp>)
    requires r.Legal() && i <= m <= |r.actions| && Lookup(r.states[i], key) == Some(e)
    requires QuietBetween(r, i, m, key) && r.states[m].clock <= e.expiresAt
    ensures LiveFrom(r, i, m, key)
  {
    forall x: nat | i <= x <= m ensures LiveAt(r.states[x], key) {
      Untouched(r, i, x, key);
      ClockMonotone(r, x, m);
    }
  }

  lemma LiveMeansReplaced(r: Run, i: nat, j: nat, t: Thread, key: string, e: Entry<Resp>) returns (m: nat)
    requires r.Legal() && j <= |r.actions| && OwnRead(r, i, j, t, key, e) && e.expiresAt < r.states[j].clock
    requires LiveFrom(r, i, j, key)
    ensures ReplacedInTime(r, i, m, j, key, e)
  {
    assert LiveAt(r.states[j], key);
    if QuietBetween(r, i, j, key) {
      Untouched(r, i, j, key);
      assert false;
    }
    m := FirstTouch(r, i, j, key);
    Untouched(r, i, m, key);
    assert r.Follows(i);
    assert LiveAt(r.states[m], key) && LiveAt(r.states[m + 1], key);
    TouchLeaves(r, m, key);
  }

  /** The exact condition under which a Get misses a key that is live from its read step through
      its check step. */
  lemma MissesLiveIffReplaced(r: Run, j: nat, t: Thread) returns (i: nat)
    requires r.Legal() && j < |r.actions| && r.actions[j] == Check(t) && !Hits(r.states[j], t)
    ensures var pc := PcOf(r.states[j], t);
            && pc.HasRead? && OwnRead(r, i, j, t, pc.key, pc.e)
            && (LiveFrom(r, i, j, pc.key) <==> exists m: nat :: ReplacedInTime(r, i, m, j, pc.key, pc.e))
  {
    assert r.Follows(j);
    i := GetRemembersRead(r, j, t);
    var key, e := PcOf(r.states[j], t).key, PcOf(r.states[j], t).e;
    if LiveFrom(r, i, j, key) {
      var m := LiveMeansReplaced(r, i, j, t, key, e);
    }
    forall m: nat | ReplacedInTime(r, i, m, j, key, e) ensures LiveFrom(r, i, j, key) {
      LiveUntilReplaced(r, i, m, key, e);
    }
  }

  /** The step `j` at which a Get answers is a hit, or no Set replaced its entry in time. */
  ghost predicate NotOvertaken(r: Run, i: nat, j: nat, t: Thread)
    requires r.Legal() && j <= |r.actions| && PcOf(r.states[j], t).HasRead?
  {
    var pc := PcOf(r.states[j], t);
    Hits(r.states[j], t) || !exists m: nat :: ReplacedInTime(r, i, m, j, pc.key, pc.e)
  }

  /** A Get in three steps is as good as one in a single step, taken at some moment between its
      read and its check, if and only if it hits or no Set replaced its entry in time. */
  lemma GetIsAtomicIff(r: Run, j: nat, t: Thread) returns (i: nat)
    requires r.Legal() && j < |r.actions| && r.actions[j] == Check(t)
    ensures var s := r.states[j]; var pc := PcOf(s, t);
            && pc.HasRead? && OwnRead(r, i, j, t, pc.key, pc.e)
            && (MapAnswers(r, i, j, pc.key, GetAnswer(s, t)) <==> NotOvertaken(r, i, j, t))
  {
    assert r.Follows(j);
    if Hits(r.states[j], t) {
      i := GetRemembersRead(r, j, t);
      ClockMonotone(r, i, j);
      assert MapAnswers(r, i, i, PcOf(r.states[j], t).key, GetAnswer(r.states[j], t));
    } else {
      i := MissesLiveIffReplaced(r, j, t);
    }
  }

  /** If no live entry of its key has been evicted before, a Get answers the last unexpired write of
      some moment between its read and its check under the same condition; and so it does whenever
      no Set of its key comes between the two. */
  lemma GetIsLastLivePutIff(r: Run, j: nat, t: Thread) returns (i: nat)
    requires r.Legal() && j < |r.actions| && r.actions[j] == Check(t)
    requires PcOf(r.states[j], t).HasRead? ==> NothingLost(r, j, PcOf(r.states[j], t).key)
    ensures var s := r.states[j]; var pc := PcOf(s, t);
            && pc.HasRead? && OwnRead(r, i, j, t, pc.key, pc.e)
            && (LastPutAnswers(r, i, j, pc.key, GetAnswer(s, t)) <==> NotOvertaken(r, i, j, t))
            && ((forall m: nat :: i < m < j ==> !Puts(r.actions[m], pc.key)) ==>
                LastPutAnswers(r, i, j, pc.key, GetAnswer(s, t)))
  {
    i := GetIsAtomicIff(r, j, t);
    var key, answer := PcOf(r.states[j], t).key, GetAnswer(r.states[j], t);
    forall x: nat | x <= j
      ensures Live(Lookup(r.states[x], key), r.states[x].clock) == Live(LastPut(r, x, key), r.states[x].clock)
    {
      HoldsUnlessLost(r, x, key);
    }
    assert MapAnswers(r, i, j, key, answer) <==> LastPutAnswers(r, i, j, key, answer);
  }

  /** One more action. */
  lemma Extend(r: Run, a: Action, before: State, after: State) returns (more: Run)
    requires r.Legal() && r.states[|r.actions|] == before && Enabled(before, a) && after == Perform(before, a)
    ensures more == Run(r.actions + [a], r.states + [after]) && more.Legal()
  {
    more := Run(r.actions + [a], r.states + [after]);
    forall i | 0 <= i < |more.actions| ensures more.Follows(i) {
      if i < |r.actions| {
        assert r.Follows(i);
      }
    }
  }

  /** The overtaking is reachable: a response stored with a TTL of 100 is gone at once. */
  lemma LiveEntryCanBeLost()
    ensures exists r: Run, j: nat ::
              r.Legal() && j < |r.actions| && r.actions[j].Evict?
              && LiveAt(r.states[j], "k") && Lookup(r.states[j + 1], "k").None?
  {
    var stale, newer := Entry(1, 5), Entry(2, 106);
    var s0 := State(0, map[], map[]);
    var s1 := State(0, map["k" := stale], map[]);
    var s2 := State(6, map["k" := stale], map[]);
    var s3 := State(6, map["k" := stale], map[0 := HasRead("k", stale)]);
    var s4 := State(6, map["k" := stale], map[0 := WillEvict("k", stale)]);
    var s5 := State(6, map["k" := newer], map[0 := WillEvict("k", stale)]);
    var s6 := State(6, map[], map[0 := Idle]);
    var r := Extend(Run([], [s0]), Put("k", 1, 5), s0, s1);
    r := Extend(r, Tick(6), s1, s2);
    r := Extend(r, Read(0, "k"), s2, s3);
    r := Extend(r, Check(0), s3, s4);
    r := Extend(r, Put("k", 2, 100), s4, s5);
    r := Extend(r, Evict(0), s5, s6);
    assert r.states[5] == s5 && r.states[5 + 1] == s6 && r.actions[5] == Evict(0);
    assert LiveAt(s5, "k") && Lookup(s6, "k").None?;
  }

  /** Nothing is lost in this run and its map always holds the last unexpired write, yet a Get
      misses a key that was live all along: its entry expires after being replaced in time. */
  lemma LiveKeyCanBeMissed(k: string) returns (r: Run)
    ensures r.Legal() && |r.actions| == 6
    ensures forall key :: NothingLost(r, 6, key) && AgreesUpTo(r, 6, key)
    ensures r.actions[2] == Read(0, k) && r.actions[5] == Check(0)
    ensures LiveFrom(r, 2, 5, k) && !Hits(r.states[5], 0)
  {
    r := MissingRun(k);
    forall key ensures NothingLost(r, 6, key) && AgreesUpTo(r, 6, key) {
      AgreesIffNothingLost(r, 6, key);
    }
  }

  lemma MissingRun(k: string) returns (r: Run)
    ensures r.Legal() && |r.actions| == 6 && forall x: nat :: x < 6 ==> !r.actions[x].Evict?
    ensures r.actions[2] == Read(0, k) && r.actions[5] == Check(0)
    ensures LiveFrom(r, 2, 5, k) && !Hits(r.states[5], 0)
  {
    var first, second := Entry(1, 5), Entry(2, 104);
    var s0 := State(0, map[], map[]);
    var s1 := State(0, map[k := first], map[]);
    var s2 := State(4, map[k := first], map[]);
    var s3 := State(4, map[k := first], map[0 := HasRead(k, first)]);
    var s4 := State(4, map[k := second], map[0 := HasRead(k, first)]);
    var s5 := State(6, map[k := second], map[0 := HasRead(k, first)]);
    var s6 := State(6, map[k := second], map[0 := WillEvict(k, first)]);
    r := Run([Put(k, 1, 5), Tick(4), Read(0, k), Put(k, 2, 100), Tick(6), Check(0)],
             [s0, s1, s2, s3, s4, s5, s6]);
    assert r.Follows(0) && r.Follows(1) && r.Follows(2) && r.Follows(3) && r.Follows(4) && r.Follows(5);
  }
}
