/** The in-memory idempotency store: a map with lazy eviction and a sweeper, against a log of
    writes from which nothing is ever evicted. */
module MemStoreModel {
  import opened Basics

  datatype Entry<+R> = Entry(resp: R, expiresAt: int)

  type Entries<+R> = map<string, Entry<R>>

  const DAY: int := 86_400_000_000_000

  /** One call, with the instant its clock reading gave. */
  datatype Op<+R> =
    | Set(at: int, key: string, resp: R, ttl: int)
    | Delete(at: int, key: string)
    | Get(at: int, key: string)
    | Purge(at: int)

  function Stored<R>(op: Op<R>): Entry<R>
    requires op.Set?
  {
    Entry(op.resp, op.at + if op.ttl <= 0 then DAY else op.ttl)
  }

  // ---- The store ---------------------------------------------------------------------------

  function Purged<R>(m: Entries<R>, now: int): Entries<R> {
    map k | k in m && now <= m[k].expiresAt :: m[k]
  }

  function Answer<R>(m: Entries<R>, key: string, now: int): Option<R> {
    if key in m && now <= m[key].expiresAt then Some(m[key].resp) else None
  }

  function Step<R>(m: Entries<R>, op: Op<R>): Entries<R> {
    match op
    case Set(_, key, _, _) => m[key := Stored(op)]
    case Delete(_, key) => m - {key}
    case Get(at, key) => if key in m && at > m[key].expiresAt then m - {key} else m
    case Purge(at) => Purged(m, at)
  }

  function After<R>(ops: seq<Op<R>>, i: nat): Entries<R>
    requires i <= |ops|
  {
    if i == 0 then map[] else Step(After(ops, i - 1), ops[i - 1])
  }

  ghost predicate Monotone<R>(ops: seq<Op<R>>) {
    forall i, j :: 0 <= i <= j < |ops| ==> ops[i].at <= ops[j].at
  }

  // ---- The reference: the last write, valid until it expires --------------------------------

  /** What the last Set or Delete of `key` among the first `i` calls left there. */
  function LastWrite<R>(ops: seq<Op<R>>, i: nat, key: string): Option<Entry<R>>
    requires i <= |ops|
  {
    if i == 0 then None
    else match ops[i - 1]
      case Set(_, k, _, _) => if k == key then Some(Stored(ops[i - 1])) else LastWrite(ops, i - 1, key)
      case Delete(_, k) => if k == key then None else LastWrite(ops, i - 1, key)
      case _ => LastWrite(ops, i - 1, key)
  }

  function Live<R>(e: Option<Entry<R>>, now: int): Option<R> {
    if e.Some? && now <= e.value.expiresAt then Some(e.value.resp) else None
  }

  ghost predicate Agrees<R>(ops: seq<Op<R>>, i: nat, key: string)
    requires i <= |ops|
  {
    var m, last := After(ops, i), LastWrite(ops, i, key);
    if key in m then last == Some(m[key])
    else last.None? || (i > 0 && last.value.expiresAt < ops[i - 1].at)
  }

  lemma {:induction false} StoreAgrees<R>(ops: seq<Op<R>>, i: nat, key: string)
    requires Monotone(ops) && i <= |ops|
    ensures Agrees(ops, i, key)
  {
    if i > 0 {
      StoreAgrees(ops, i - 1, key);
    }
  }

  /** Every Get answers exactly as the map of last writes filtered by expiry. */
  lemma GetIsLastLiveWrite<R>(ops: seq<Op<R>>, i: nat)
    requires Monotone(ops) && i < |ops| && ops[i].Get?
    ensures Answer(After(ops, i), ops[i].key, ops[i].at) == Live(LastWrite(ops, i, ops[i].key), ops[i].at)
  {
    StoreAgrees(ops, i, ops[i].key);
  }

  predicate WritesKey<R>(op: Op<R>, key: string) {
    (op.Set? || op.Delete?) && op.key == key
  }

  lemma {:induction false} LastWriteStands<R>(ops: seq<Op<R>>, i: nat, j: nat, key: string)
    requires i <= j <= |ops| && forall k :: i <= k < j ==> !WritesKey(ops[k], key)
    ensures LastWrite(ops, j, key) == LastWrite(ops, i, key)
  {
    if i < j {
      LastWriteStands(ops, i, j - 1, key);
    }
  }

  /** Replay: until its key is written again, a stored response is returned by every Get up to
      and including its expiry (24 hours for a non-positive TTL), and by none after it. */
  lemma ReplayWithinTtl<R>(ops: seq<Op<R>>, i: nat, j: nat)
    requires Monotone(ops) && i < j < |ops| && ops[i].Set? && ops[j].Get? && ops[j].key == ops[i].key
    requires forall k :: i < k < j ==> !WritesKey(ops[k], ops[i].key)
    ensures var life := if ops[i].ttl > 0 then ops[i].ttl else 24 * 60 * 60 * 1_000_000_000;
            Answer(After(ops, j), ops[j].key, ops[j].at) ==
            if ops[j].at - ops[i].at <= life then Some(ops[i].resp) else None
  {
    GetIsLastLiveWrite(ops, j);
    LastWriteStands(ops, i + 1, j, ops[i].key);
  }

  /** Call `i` stored `resp` under `key`, nothing wrote the key since, and at `now` it has not
      outlived its TTL. */
  ghost predicate StillStored<R(!new)>(ops: seq<Op<R>>, i: nat, j: nat, key: string, resp: R, now: int)
    requires i < j <= |ops|
  {
    && ops[i].Set? && ops[i].key == key && ops[i].resp == resp
    && (forall k :: i < k < j ==> !WritesKey(ops[k], key))
    && now - ops[i].at <= (if ops[i].ttl > 0 then ops[i].ttl else 24 * 60 * 60 * 1_000_000_000)
  }

  lemma {:induction false} LastWriteFound<R>(ops: seq<Op<R>>, j: nat, key: string) returns (i: nat)
    requires j <= |ops| && LastWrite(ops, j, key).Some?
    ensures i < j && ops[i].Set? && ops[i].key == key && LastWrite(ops, j, key) == Some(Stored(ops[i]))
    ensures forall k :: i < k < j ==> !WritesKey(ops[k], key)
    decreases j
  {
    if WritesKey(ops[j - 1], key) {
      i := j - 1;
    } else {
      i := LastWriteFound(ops, j - 1, key);
    }
  }

  /** Every answer there is: a Get returns a response exactly if a Set stored it, no Set or Delete of
      the key came since, and its TTL has not run out. */
  lemma GetReturnsIff<R(!new)>(ops: seq<Op<R>>, j: nat, resp: R)
    requires Monotone(ops) && j < |ops| && ops[j].Get?
    ensures Answer(After(ops, j), ops[j].key, ops[j].at) == Some(resp) <==>
            exists i: nat :: i < j && StillStored(ops, i, j, ops[j].key, resp, ops[j].at)
  {
    var key := ops[j].key;
    if Answer(After(ops, j), key, ops[j].at) == Some(resp) {
      GetIsLastLiveWrite(ops, j);
      var i := LastWriteFound(ops, j, key);
      assert StillStored(ops, i, j, key, resp, ops[j].at);
    }
    forall i: nat | i < j && StillStored(ops, i, j, key, resp, ops[j].at)
      ensures Answer(After(ops, j), key, ops[j].at) == Some(resp)
    {
      ReplayWithinTtl(ops, i, j);
    }
  }

  /** A purge leaves exactly the entries that are live at its instant. */
  lemma PurgeLeavesLive<R>(ops: seq<Op<R>>, i: nat, key: string)
    requires Monotone(ops) && i < |ops| && ops[i].Purge?
    ensures key in After(ops, i + 1) <==> Live(LastWrite(ops, i, key), ops[i].at).Some?
  {
    StoreAgrees(ops, i, key);
  }

  // ---- When an expired entry leaves the map ------------------------------------------------

  function Lookup<R>(m: Entries<R>, key: string): Option<Entry<R>> {
    if key in m then Some(m[key]) else None
  }

  /** The call is a purge or is about this key. */
  predicate Reaches<R>(op: Op<R>, key: string) {
    op.Purge? || op.key == key
  }

  /** An expired entry is removed or replaced exactly by a purge or by a call for its own key: no
      other call evicts it. */
  lemma ExpiredLeavesIff<R>(m: Entries<R>, op: Op<R>, key: string)
    requires key in m && m[key].expiresAt < op.at
    ensures Lookup(Step(m, op), key) != Lookup(m, key) <==> Reaches(op, key)
  {
  }

  /** The entry of `key` after `i` calls is there, unchanged, up to `j` calls. */
  ghost predicate Kept<R(!new)>(ops: seq<Op<R>>, i: nat, j: nat, key: string)
    requires i <= j <= |ops|
  {
    forall x: nat :: i <= x <= j ==> Lookup(After(ops, x), key) == Lookup(After(ops, i), key)
  }

  ghost predicate NoneReaches<R(!new)>(ops: seq<Op<R>>, i: nat, j: nat, key: string)
    requires i <= j <= |ops|
  {
    forall x: nat :: i <= x < j ==> !Reaches(ops[x], key)
  }

  /** Over a run: an entry that has expired stays in the map, however many other calls touch it,
      exactly as long as no purge and no call for its key comes. */
  lemma {:induction false} ExpiredStaysIff<R(!new)>(ops: seq<Op<R>>, i: nat, j: nat, key: string)
    requires Monotone(ops) && i <= j <= |ops| && key in After(ops, i)
    requires i < j ==> After(ops, i)[key].expiresAt < ops[i].at
    ensures Kept(ops, i, j, key) <==> NoneReaches(ops, i, j, key)
    decreases j
  {
    if i < j {
      ExpiredStaysIff(ops, i, j - 1, key);
      if Kept(ops, i, j - 1, key) {
        var m := After(ops, j - 1);
        assert Lookup(m, key) == Lookup(After(ops, i), key);
        ExpiredLeavesIff(m, ops[j - 1], key);
        KeptStep(ops, i, j, key);
      } else {
        var x: nat :| i <= x <= j - 1 && Lookup(After(ops, x), key) != Lookup(After(ops, i), key);
        assert !Kept(ops, i, j, key);
      }
    }
  }

  lemma KeptStep<R(!new)>(ops: seq<Op<R>>, i: nat, j: nat, key: string)
    requires i < j <= |ops| && Kept(ops, i, j - 1, key)
    ensures Kept(ops, i, j, key) <==> Lookup(After(ops, j), key) == Lookup(After(ops, j - 1), key)
  {
    assert Lookup(After(ops, j - 1), key) == Lookup(After(ops, i), key);
  }

  /** So it is: an entry past its expiry outlives a Set, a Get and a Delete. */
  lemma ExpiredOutlivesOtherCalls()
    ensures exists ops: seq<Op<int>> ::
              && Monotone(ops) && |ops| == 4 && ops[1].Set? && ops[2].Get? && ops[3].Delete?
              && (forall x: nat :: 1 <= x <= 4 ==> "a" in After(ops, x))
              && After(ops, 1)["a"].expiresAt < ops[1].at
  {
    var ops := [Set(0, "a", 1, 1), Set(10, "b", 2, 5), Get(10, "b"), Delete(10, "b")];
    assert "b"[0] != "a"[0];
    assert After(ops, 0) == map[];
    assert After(ops, 1) == map["a" := Entry(1, 1)];
    ExpiredStaysIff(ops, 1, 4, "a");
    assert Kept(ops, 1, 4, "a");
    forall x: nat | 1 <= x <= 4 ensures "a" in After(ops, x) {
      assert Lookup(After(ops, x), "a") == Lookup(After(ops, 1), "a");
    }
  }

  // ---- Eviction is unobservable ------------------------------------------------------------

  /** The Sets and Deletes among the first `i` calls. */
  function Writes<R>(ops: seq<Op<R>>, i: nat): seq<Op<R>>
    requires i <= |ops|
  {
    if i == 0 then []
    else Writes(ops, i - 1) + if ops[i - 1].Set? || ops[i - 1].Delete? then [ops[i - 1]] else []
  }

  lemma {:induction false} LastWritePrefix<R>(ops: seq<Op<R>>, more: seq<Op<R>>, i: nat, key: string)
    requires i <= |ops|
    ensures LastWrite(ops + more, i, key) == LastWrite(ops, i, key)
  {
    if i > 0 {
      LastWritePrefix(ops, more, i - 1, key);
    }
  }

  lemma {:induction false} LastWriteNeedsOnlyWrites<R>(ops: seq<Op<R>>, i: nat, key: string)
    requires i <= |ops|
    ensures LastWrite(ops, i, key) == LastWrite(Writes(ops, i), |Writes(ops, i)|, key)
  {
    if i > 0 {
      LastWriteNeedsOnlyWrites(ops, i - 1, key);
      var w := Writes(ops, i - 1);
      LastWritePrefix(w, [ops[i - 1]], |w|, key);
      assert Writes(ops, i) == w + [ops[i - 1]] || Writes(ops, i) == w;
      assert (w + [ops[i - 1]])[|w|] == ops[i - 1];
    }
  }

  /** Two histories with the same writes answer a Get alike, however many Gets (with their lazy
      evictions) and purges either of them also contains. */
  lemma EvictionUnobservable<R>(a: seq<Op<R>>, i: nat, b: seq<Op<R>>, j: nat)
    requires Monotone(a) && Monotone(b) && i < |a| && j < |b|
    requires Writes(a, i) == Writes(b, j) && a[i].Get? && a[i] == b[j]
    ensures Answer(After(a, i), a[i].key, a[i].at) == Answer(After(b, j), b[j].key, b[j].at)
  {
    GetIsLastLiveWrite(a, i);
    GetIsLastLiveWrite(b, j);
    LastWriteNeedsOnlyWrites(a, i, a[i].key);
    LastWriteNeedsOnlyWrites(b, j, a[i].key);
  }

  // ---- The class ---------------------------------------------------------------------------

  class MemStore<R> {
    var entries: Entries<R>
    ghost var ops: seq<Op<R>>

    ghost predicate Valid()
      reads this
    {
      entries == After(ops, |ops|)
    }

    constructor ()
      ensures Valid() && ops == []
    {
      entries := map[];
      ops := [];
    }

    ghost method Logged(op: Op<R>)
      requires entries == Step(After(ops, |ops|), op)
      modifies this`ops
      ensures Valid() && ops == old(ops) + [op]
    {
      AfterPrefix(ops, [op], |ops|);
      ops := ops + [op];
    }

    method Get(now: int, key: string) returns (resp: Option<R>)
      requires Valid()
      modifies this
      ensures Valid() && ops == old(ops) + [Op.Get(now, key)]
      ensures resp == Answer(old(entries), key, now)
    {
      if key !in entries {
        resp := None;
      } else {
        var e := entries[key];
        if now > e.expiresAt {
          entries := entries - {key};
          resp := None;
        } else {
          resp := Some(e.resp);
        }
      }
      Logged(Op.Get(now, key));
    }

    method Set(now: int, key: string, resp: R, ttl: int)
      requires Valid()
      modifies this
      ensures Valid() && ops == old(ops) + [Op.Set(now, key, resp, ttl)]
    {
      var life := ttl;
      if life <= 0 {
        life := DAY;
      }
      entries := entries[key := Entry(resp, now + life)];
      Logged(Op.Set(now, key, resp, ttl));
    }

    method Delete(now: int, key: string)
      requires Valid()
      modifies this
      ensures Valid() && ops == old(ops) + [Op.Delete(now, key)]
    {
      entries := entries - {key};
      Logged(Op.Delete(now, key));
    }

    method Len() returns (n: nat)
      requires Valid()
      ensures n == |After(ops, |ops|).Keys|
    {
      n := |entries|;
    }

    /** The sweep visits the keys in any order. */
    method PurgeExpired(now: int)
      requires Valid()
      modifies this
      ensures Valid() && ops == old(ops) + [Op.Purge(now)]
    {
      var rest := entries.Keys;
      ghost var before := entries;
      while rest != {}
        invariant rest <= entries.Keys <= before.Keys && ops == old(ops)
        invariant forall k :: k in entries ==> entries[k] == before[k]
        invariant forall k :: k in before && k !in rest ==> (k in entries <==> now <= before[k].expiresAt)
        decreases rest
      {
        var k :| k in rest;
        if now > entries[k].expiresAt {
          entries := entries - {k};
        }
        rest := rest - {k};
      }
      assert entries == Purged(before, now);
      Logged(Op.Purge(now));
    }
  }

  lemma {:induction false} AfterPrefix<R>(ops: seq<Op<R>>, more: seq<Op<R>>, i: nat)
    requires i <= |ops|
    ensures After(ops + more, i) == After(ops, i)
  {
    if i > 0 {
      AfterPrefix(ops, more, i - 1);
    }
  }
}
