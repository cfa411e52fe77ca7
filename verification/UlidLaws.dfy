/** What identifiers promise: the text determines the bytes and back, and text order is time order. */
module UlidLaws {
  import opened Basics
  import opened Powers
  import opened Digits
  import opened Bytes
  import opened Ulid

  // ---- The alphabet ------------------------------------------------------------------------

  lemma AlphabetAscends(i: nat)
    requires i < 31
    ensures CROCKFORD[i] < CROCKFORD[i + 1]
  {
  }

  lemma {:induction false} AlphabetIncreasing(i: nat, j: nat)
    requires i < j < 32
    ensures CROCKFORD[i] < CROCKFORD[j]
  {
    AlphabetAscends(j - 1);
    if i < j - 1 {
      AlphabetIncreasing(i, j - 1);
    }
  }

  predicate IsSymbol(c: char) {
    '0' <= c <= '9' || ('A' <= c <= 'Z' && c != 'I' && c != 'L' && c != 'O' && c != 'U')
  }

  lemma SymbolAt(i: nat)
    requires i < 32
    ensures IsSymbol(CROCKFORD[i])
  {
  }

  lemma IndexOfSymbol(c: char) returns (i: nat)
    requires IsSymbol(c)
    ensures i < 32 && CROCKFORD[i] == c
  {
    var n := c as int;
    i := if c <= '9' then n - '0' as int else if c <= 'H' then 10 + n - 'A' as int
         else if c <= 'K' then 18 + n - 'J' as int else if c <= 'N' then 20 + n - 'M' as int
         else if c <= 'T' then 22 + n - 'P' as int else 27 + n - 'V' as int;
  }

  /** The alphabet is the digits and the capital letters but I, L, O and U, in ascending order. */
  lemma CrockfordSymbols(c: char, i: nat, j: nat)
    ensures c in CROCKFORD <==> '0' <= c <= '9' || ('A' <= c <= 'Z' && c !in ['I', 'L', 'O', 'U'])
    ensures |CROCKFORD| == 32 && (i < j < 32 ==> CROCKFORD[i] < CROCKFORD[j])
  {
    if IsSymbol(c) {
      var n := IndexOfSymbol(c);
    }
    forall n: nat | n < 32 ensures IsSymbol(CROCKFORD[n]) {
      SymbolAt(n);
    }
    if i < j < 32 {
      AlphabetIncreasing(i, j);
    }
  }

  /** The digit a character stands for, searching from `from`; 32 if there is none. */
  function DigitFrom(c: char, from: nat): (n: nat)
    requires from <= 32
    ensures from <= n <= 32 && (n < 32 ==> CROCKFORD[n] == c)
    ensures forall k :: from <= k < n ==> CROCKFORD[k] != c
    decreases 32 - from
  {
    if from == 32 || CROCKFORD[from] == c then from else DigitFrom(c, from + 1)
  }

  lemma DigitOfSymbol(n: nat)
    requires n < 32
    ensures DigitFrom(CROCKFORD[n], 0) == n
  {
    var m := DigitFrom(CROCKFORD[n], 0);
    if m < n {
      AlphabetIncreasing(m, n);
    }
  }

  // ---- A decoder ---------------------------------------------------------------------------

  function ReadDigits(s: string): (ds: seq<int>)
    ensures |ds| == |s|
  {
    seq(|s|, i requires 0 <= i < |s| => DigitFrom(s[i], 0))
  }

  /** A canonical ULID text: 26 symbols of the alphabet, the first at most '7'. */
  predicate Canonical(s: string) {
    |s| == 26 && AreDigits(ReadDigits(s), 32) && s[0] <= '7'
  }

  function Decode(s: string): Option<Id> {
    if Canonical(s) then
      ToDigitsAreDigits(Value(ReadDigits(s), 32), 256, 16);
      Some(FromInts(ToDigits(Value(ReadDigits(s), 32), 256, 16)))
    else None
  }

  lemma TopWeight()
    ensures Power(256, 16) == 8 * Power(32, 25) && Power(32, 26) == 32 * Power(32, 25)
    ensures Power(32, 25) > 0
  {
    GroupWeight();
    PowerSplit(32, 8, 8);
    PowerSplit(32, 16, 8);
    PowerSplit(32, 1, 24);
    PowerSplit(256, 5, 5);
    PowerSplit(256, 10, 5);
    PowerSplit(256, 1, 15);
    PowerPositive(32, 25);
  }

  /** A 26-digit number fits in 128 bits exactly when its first digit is at most 7. */
  lemma FirstDigitBounds(ds: seq<int>)
    requires |ds| == 26 && AreDigits(ds, 32)
    ensures Value(ds, 32) < Power(256, 16) <==> ds[0] <= 7
  {
    var rest := ds[1..];
    assert ds == [ds[0]] + rest;
    ValueOfConcat([ds[0]], rest, 32);
    ValueBound(rest, 32);
    TopWeight();
    assert [ds[0]][..0] == [] && Value([ds[0]], 32) == ds[0];
    var p := Power(32, 25);
    if ds[0] <= 7 {
      TimesMonotone(ds[0], 7, p);
    } else {
      TimesMonotone(8, ds[0], p);
    }
  }

  lemma SymbolAtMostSeven(n: nat)
    requires n < 32
    ensures CROCKFORD[n] <= '7' <==> n <= 7
  {
    assert CROCKFORD[7] == '7';
    if n < 7 {
      AlphabetIncreasing(n, 7);
    } else if n > 7 {
      AlphabetIncreasing(7, n);
    }
  }

  lemma NumberInDigits(id: Id)
    requires |id| == 16
    ensures 0 <= Number(id) < Power(256, 16) < Power(32, 26)
    ensures Value(NumberDigits(id), 32) == Number(id) && NumberDigits(id)[0] <= 7
  {
    IntsAreDigits(id);
    ValueBound(Ints(id), 256);
    TopWeight();
    ValueOfDigits(Number(id), 32, 26);
    FirstDigitBounds(NumberDigits(id));
  }

  lemma ReadRendered(ds: seq<int>)
    requires AreDigits(ds, 32)
    ensures ReadDigits(Render(CROCKFORD, ds)) == ds
  {
    forall i | 0 <= i < |ds| ensures ReadDigits(Render(CROCKFORD, ds))[i] == ds[i] {
      DigitOfSymbol(ds[i]);
    }
  }

  lemma RenderedRead(s: string)
    requires AreDigits(ReadDigits(s), 32)
    ensures Render(CROCKFORD, ReadDigits(s)) == s
  {
  }

  /** Encoding is canonical text, and decoding it gives the sixteen bytes back. */
  lemma DecodeEncode(id: Id)
    requires |id| == 16
    ensures Canonical(EncodeSpec(id)) && Decode(EncodeSpec(id)) == Some(id)
  {
    NumberInDigits(id);
    ReadRendered(NumberDigits(id));
    SymbolAtMostSeven(NumberDigits(id)[0]);
    IntsAreDigits(id);
    DigitsOfValue(Ints(id), 256);
  }

  /** Every canonical text is the encoding of what it decodes to; no other text decodes. */
  lemma EncodeDecode(s: string)
    ensures Decode(s).Some? <==> Canonical(s)
    ensures Canonical(s) ==> |Decode(s).value| == 16 && EncodeSpec(Decode(s).value) == s
  {
    if Canonical(s) {
      var ds := ReadDigits(s);
      var v := Value(ds, 32);
      SymbolAtMostSeven(ds[0]);
      FirstDigitBounds(ds);
      ValueBound(ds, 32);
      ValueOfDigits(v, 256, 16);
      ToDigitsAreDigits(v, 256, 16);
      IntsOfFromInts(ToDigits(v, 256, 16));
      DigitsOfValue(ds, 32);
      RenderedRead(s);
    }
  }

  lemma EncodeInjective(a: Id, b: Id)
    requires |a| == 16 && |b| == 16 && EncodeSpec(a) == EncodeSpec(b)
    ensures a == b
  {
    DecodeEncode(a);
    DecodeEncode(b);
  }

  // ---- Order -------------------------------------------------------------------------------

  function Codes(s: string): (ns: seq<int>)
    ensures |ns| == |s|
  {
    seq(|s|, i requires 0 <= i < |s| => s[i] as int)
  }

  /** Go's string order. */
  ghost predicate Before(s: string, t: string) {
    LexLess(Codes(s), Codes(t))
  }

  lemma RenderKeepsOrder(a: seq<int>, b: seq<int>)
    requires |a| == |b| && AreDigits(a, 32) && AreDigits(b, 32)
    ensures Before(Render(CROCKFORD, a), Render(CROCKFORD, b)) <==> LexLess(a, b)
  {
    var s, t := Codes(Render(CROCKFORD, a)), Codes(Render(CROCKFORD, b));
    forall i | 0 <= i < |a| ensures (a[i] < b[i] <==> s[i] < t[i]) && (a[i] == b[i] <==> s[i] == t[i]) {
      SymbolOrder(a[i], b[i]);
    }
    LexRelabelled(a, b, s, t);
  }

  lemma SymbolOrder(m: nat, n: nat)
    requires m < 32 && n < 32
    ensures m < n <==> CROCKFORD[m] < CROCKFORD[n]
    ensures m == n <==> CROCKFORD[m] == CROCKFORD[n]
  {
    if m < n {
      AlphabetIncreasing(m, n);
    } else if n < m {
      AlphabetIncreasing(n, m);
    }
  }

  /** Texts sort as the bytes they encode. */
  lemma EncodeKeepsOrder(a: Id, b: Id)
    requires |a| == 16 && |b| == 16
    ensures LexLess(Ints(a), Ints(b)) <==> Before(EncodeSpec(a), EncodeSpec(b))
  {
    IntsAreDigits(a);
    IntsAreDigits(b);
    LexIsNumeric(Ints(a), Ints(b), 256);
    NumberInDigits(a);
    NumberInDigits(b);
    LexIsNumeric(NumberDigits(a), NumberDigits(b), 32);
    RenderKeepsOrder(NumberDigits(a), NumberDigits(b));
  }

  // ---- Identifiers from a time stamp -------------------------------------------------------

  /** The id layout: the low 48 bits of the millisecond count, big endian, then ten random bytes. */
  function Layout(ms: nat, random: Id): Id {
    ToDigitsAreDigits(ms % TWO_48, 256, 6);
    FromInts(ToDigits(ms % TWO_48, 256, 6)) + random
  }

  /** `New`, with the clock reading (a uint64) and the random bytes as inputs. */
  method New(ms: nat, random: Id) returns (s: string)
    requires ms < TWO_64 && |random| == 10
    ensures s == EncodeSpec(Layout(ms, random))
  {
    var b := new Byte[16](_ => 0);
    var word := ms * 0x1_0000 % TWO_64;
    PutUint64(b, word);
    var i := 6;
    while i < 16
      invariant 6 <= i <= 16
      invariant forall k :: 0 <= k < 6 ==> b[k] == WordByte(word, k)
      invariant forall k :: 6 <= k < i ==> b[k] == random[k - 6]
    {
      b[i] := random[i - 6];
      i := i + 1;
    }
    forall k: nat | k < 6 ensures b[k] == Layout(ms, random)[k] {
      StampByte(ms, k);
    }
    assert b[..] == Layout(ms, random);
    s := Encode(b[..]);
  }

  /** Byte `k` of a 64-bit word, big endian. */
  function WordByte(word: nat, k: nat): Byte
    requires k < 8
  {
    OfNat(word / Power256(7 - k) % 256)
  }

  function Power256(e: nat): nat
    requires e < 8
  {
    [1, 0x100, 0x1_0000, 0x100_0000, 0x1_0000_0000, 0x100_0000_0000, 0x1_0000_0000_0000, 0x100_0000_0000_0000][e]
  }

  method PutUint64(b: array<Byte>, word: nat)
    requires b.Length >= 8
    modifies b
    ensures forall k :: 0 <= k < 8 ==> b[k] == WordByte(word, k)
    ensures forall k :: 8 <= k < b.Length ==> b[k] == old(b[k])
  {
    for i := 0 to 8
      invariant forall k :: 0 <= k < i ==> b[k] == WordByte(word, k)
      invariant forall k :: 8 <= k < b.Length ==> b[k] == old(b[k])
    {
      b[i] := WordByte(word, i);
    }
  }

  lemma {:induction false} DigitAt(n: nat, len: nat, k: nat)
    requires k < len <= 6
    ensures ToDigits(n, 256, len)[k] == n / Power256(len - 1 - k) % 256
    decreases len
  {
    if k < len - 1 {
      DigitAt(n / 256, len - 1, k);
      DivideTwice(n, len - 2 - k);
    }
  }

  lemma DivideTwice(n: nat, e: nat)
    requires e < 7
    ensures n / 256 / Power256(e) == n / Power256(e + 1)
  {
  }

  lemma ShiftedQuotient(t: nat, e: nat)
    requires e < 6
    ensures t * 0x1_0000 / Power256(e + 2) == t / Power256(e)
  {
  }

  lemma ShiftDropsHighBits(ms: nat)
    ensures ms * 0x1_0000 % TWO_64 == ms % TWO_48 * 0x1_0000
  {
  }

  /** Shifting the stamp left by 16 and writing it as a 64-bit word puts its 48 bits first. */
  lemma StampByte(ms: nat, k: nat)
    requires k < 6
    ensures AreDigits(ToDigits(ms % TWO_48, 256, 6), 256)
    ensures WordByte(ms * 0x1_0000 % TWO_64, k) == FromInts(ToDigits(ms % TWO_48, 256, 6))[k]
  {
    ToDigitsAreDigits(ms % TWO_48, 256, 6);
    DigitAt(ms % TWO_48, 6, k);
    ShiftDropsHighBits(ms);
    ShiftedQuotient(ms % TWO_48, 5 - k);
  }

  // ---- Sorting by time ---------------------------------------------------------------------

  /** Identifiers of stamp m1 all sort before identifiers of stamp m2, whatever their random
      bytes, exactly when m1 is smaller in its low 48 bits; for stamps below 2^48, exactly when
      m1 < m2. */
  lemma TimeOrder(m1: nat, m2: nat)
    ensures (forall r1: Id, r2: Id :: |r1| == 10 && |r2| == 10 ==>
               Before(EncodeSpec(Layout(m1, r1)), EncodeSpec(Layout(m2, r2))))
            <==> m1 % TWO_48 < m2 % TWO_48
  {
    if m1 % TWO_48 < m2 % TWO_48 {
      forall r1: Id, r2: Id | |r1| == 10 && |r2| == 10
        ensures Before(EncodeSpec(Layout(m1, r1)), EncodeSpec(Layout(m2, r2)))
      {
        EarlierSortsFirst(m1, r1, m2, r2);
      }
    } else {
      var r: Id := seq(10, _ => 0);
      assert !Before(EncodeSpec(Layout(m1, r)), EncodeSpec(Layout(m2, r))) by {
        LaterSortsLast(m1, m2, r);
      }
    }
  }

  lemma StampOrder(m1: nat, m2: nat)
    ensures LexLess(ToDigits(m1 % TWO_48, 256, 6), ToDigits(m2 % TWO_48, 256, 6)) <==> m1 % TWO_48 < m2 % TWO_48
    ensures AreDigits(ToDigits(m1 % TWO_48, 256, 6), 256) && AreDigits(ToDigits(m2 % TWO_48, 256, 6), 256)
  {
    GroupWeight();
    PowerSplit(256, 1, 5);
    ToDigitsAreDigits(m1 % TWO_48, 256, 6);
    ToDigitsAreDigits(m2 % TWO_48, 256, 6);
    ValueOfDigits(m1 % TWO_48, 256, 6);
    ValueOfDigits(m2 % TWO_48, 256, 6);
    LexIsNumeric(ToDigits(m1 % TWO_48, 256, 6), ToDigits(m2 % TWO_48, 256, 6), 256);
  }

  lemma LayoutInts(ms: nat, random: Id)
    ensures Ints(Layout(ms, random)) == ToDigits(ms % TWO_48, 256, 6) + Ints(random)
  {
    ToDigitsAreDigits(ms % TWO_48, 256, 6);
    IntsOfFromInts(ToDigits(ms % TWO_48, 256, 6));
    var stamp := FromInts(ToDigits(ms % TWO_48, 256, 6));
    assert Ints(stamp + random) == Ints(stamp) + Ints(random);
  }

  /** The text of an identifier gives back what it was made from: its first six bytes denote the low
      48 bits of the stamp, its last ten are the random bytes. */
  lemma TextHoldsStampAndRandom(ms: nat, random: Id)
    requires |random| == 10
    ensures var id := Decode(EncodeSpec(Layout(ms, random)));
            id.Some? && |id.value| == 16 && Number(id.value[..6]) == ms % TWO_48 && id.value[6..] == random
  {
    var id := Layout(ms, random);
    DecodeEncode(id);
    LayoutInts(ms, random);
    assert Ints(id[..6]) == Ints(id)[..6] == ToDigits(ms % TWO_48, 256, 6);
    GroupWeight();
    PowerSplit(256, 1, 5);
    ValueOfDigits(ms % TWO_48, 256, 6);
  }

  lemma EarlierSortsFirst(m1: nat, r1: Id, m2: nat, r2: Id)
    requires m1 % TWO_48 < m2 % TWO_48 && |r1| == 10 && |r2| == 10
    ensures Before(EncodeSpec(Layout(m1, r1)), EncodeSpec(Layout(m2, r2)))
  {
    StampOrder(m1, m2);
    LayoutInts(m1, r1);
    LayoutInts(m2, r2);
    LexByHeads(ToDigits(m1 % TWO_48, 256, 6), Ints(r1), ToDigits(m2 % TWO_48, 256, 6), Ints(r2));
    EncodeKeepsOrder(Layout(m1, r1), Layout(m2, r2));
  }

  lemma LaterSortsLast(m1: nat, m2: nat, r: Id)
    requires m1 % TWO_48 >= m2 % TWO_48 && |r| == 10
    ensures !Before(EncodeSpec(Layout(m1, r)), EncodeSpec(Layout(m2, r)))
  {
    IntsAreDigits(Layout(m1, r));
    IntsAreDigits(Layout(m2, r));
    LexIsNumeric(Ints(Layout(m1, r)), Ints(Layout(m2, r)), 256);
    EncodeKeepsOrder(Layout(m1, r), Layout(m2, r));
    if m1 % TWO_48 > m2 % TWO_48 {
      EarlierSortsFirst(m2, r, m1, r);
      EncodeKeepsOrder(Layout(m2, r), Layout(m1, r));
      LexIsNumeric(Ints(Layout(m2, r)), Ints(Layout(m1, r)), 256);
    }
  }

  /** `Prefixed`. */
  method Prefixed(prefix: string, ms: nat, random: Id) returns (s: string)
    requires ms < TWO_64 && |random| == 10
    ensures s == prefix + "_" + EncodeSpec(Layout(ms, random))
  {
    var id := New(ms, random);
    s := prefix + "_" + id;
  }

  /** A common prefix does not disturb the order. */
  lemma PrefixKeepsOrder(prefix: string, s: string, t: string)
    ensures Before(prefix + "_" + s, prefix + "_" + t) <==> Before(s, t)
  {
    var p := prefix + "_";
    assert Codes(p + s) == Codes(p) + Codes(s) && Codes(p + t) == Codes(p) + Codes(t);
    LexUnderPrefix(Codes(p), Codes(s), Codes(t));
  }
}
