/** ULID text encoding: twenty-six shift-and-mask expressions against big-endian base 32, as the
    ULID specification's sections "Encoding", "Sorting" and "Binary Layout and Byte Order" have
    it, with Crockford's alphabet. */
module Ulid {
  import opened Powers
  import opened Digits
  import opened Bytes

  const CROCKFORD: string := "0123456789ABCDEFGHJKMNPQRSTVWXYZ"

  const TWO_40: int := 0x100_0000_0000
  const TWO_48: int := 0x1_0000_0000_0000

  type Id = seq<Byte>

  function Ints(bs: Id): (ns: seq<int>)
    ensures |ns| == |bs|
  {
    seq(|bs|, i requires 0 <= i < |bs| => Nat(bs[i]))
  }

  function FromInts(ns: seq<int>): (bs: Id)
    requires AreDigits(ns, 256)
    ensures |bs| == |ns|
  {
    seq(|ns|, i requires 0 <= i < |ns| => OfNat(ns[i]))
  }

  lemma IntsAreDigits(bs: Id)
    ensures AreDigits(Ints(bs), 256) && FromInts(Ints(bs)) == bs
  {
    forall i | 0 <= i < |bs| ensures 0 <= Ints(bs)[i] < 256 && OfNat(Ints(bs)[i]) == bs[i] {
      OfNatNat(bs[i]);
    }
  }

  lemma IntsOfFromInts(ns: seq<int>)
    requires AreDigits(ns, 256)
    ensures Ints(FromInts(ns)) == ns
  {
  }

  /** The 128-bit number that the bytes denote, big endian. */
  function Number(id: Id): int {
    Value(Ints(id), 256)
  }

  // ---- The simple form ---------------------------------------------------------------------

  function Render(alphabet: string, ds: seq<int>): (s: string)
    requires |alphabet| == 32 && AreDigits(ds, 32)
    ensures |s| == |ds|
  {
    seq(|ds|, i requires 0 <= i < |ds| => alphabet[ds[i]])
  }

  /** Twenty-six base-32 digits of the number, most significant first. */
  function NumberDigits(id: Id): (ds: seq<int>)
    ensures |ds| == 26 && AreDigits(ds, 32)
  {
    ToDigitsAreDigits(Number(id), 32, 26);
    ToDigits(Number(id), 32, 26)
  }

  function EncodeSpec(id: Id): string {
    Render(CROCKFORD, NumberDigits(id))
  }

  // ---- Five bytes are eight digits ---------------------------------------------------------

  /** The digit expressions recur every five bytes. */
  function Group(a: Byte, b: Byte, c: Byte, d: Byte, e: Byte): (g: seq<int>)
    ensures |g| == 8
  {
    [Nat((a & 248) >> 3),
     Nat(((a & 7) << 2) | ((b & 192) >> 6)),
     Nat((b & 62) >> 1),
     Nat(((b & 1) << 4) | ((c & 240) >> 4)),
     Nat(((c & 15) << 1) | ((d & 128) >> 7)),
     Nat((d & 124) >> 2),
     Nat(((d & 3) << 3) | ((e & 224) >> 5)),
     Nat(e & 31)]
  }

  lemma SplitDigit2(x: Byte, y: Byte)
    ensures Nat(((x & 7) << 2) | ((y & 192) >> 6)) == Nat(x) % 8 * 4 + Nat(y) / 64
  {
    Low3(x);
    High2(y);
    DisjointOr((x & 7) << 2, (y & 192) >> 6);
  }

  lemma SplitDigit4(x: Byte, y: Byte)
    ensures Nat(((x & 1) << 4) | ((y & 240) >> 4)) == Nat(x) % 2 * 16 + Nat(y) / 16
  {
    Low1(x);
    High4(y);
    DisjointOr((x & 1) << 4, (y & 240) >> 4);
  }

  lemma SplitDigit1(x: Byte, y: Byte)
    ensures Nat(((x & 15) << 1) | ((y & 128) >> 7)) == Nat(x) % 16 * 2 + Nat(y) / 128
  {
    Low4(x);
    High1(y);
    DisjointOr((x & 15) << 1, (y & 128) >> 7);
  }

  lemma SplitDigit3(x: Byte, y: Byte)
    ensures Nat(((x & 3) << 3) | ((y & 224) >> 5)) == Nat(x) % 4 * 8 + Nat(y) / 32
  {
    Low2(x);
    High3(y);
    DisjointOr((x & 3) << 3, (y & 224) >> 5);
  }

  lemma Value5(a: int, b: int, c: int, d: int, e: int, base: int)
    ensures Value([a, b, c, d, e], base) == (((a * base + b) * base + c) * base + d) * base + e
  {
    var s := [a, b, c, d, e];
    assert s[..4] == [a, b, c, d] && s[..4][..3] == [a, b, c] && s[..4][..3][..2] == [a, b];
    assert [a, b][..1] == [a] && [a][..0] == [];
    assert Value([a], base) == a;
    assert Value([a, b], base) == a * base + b;
    assert Value([a, b, c], base) == (a * base + b) * base + c;
    assert Value([a, b, c, d], base) == ((a * base + b) * base + c) * base + d;
  }

  /** Cutting five bytes at the digit boundaries and regrouping the pieces. */
  lemma Regroup(a1: int, a0: int, b2: int, b1: int, b0: int, c1: int, c0: int,
                d2: int, d1: int, d0: int, e1: int, e0: int)
    ensures Value([a1, a0 * 4 + b2, b1, b0 * 16 + c1, c0 * 2 + d2, d1, d0 * 8 + e1, e0], 32)
            == Value([a1 * 8 + a0, b2 * 64 + b1 * 2 + b0, c1 * 16 + c0, d2 * 128 + d1 * 4 + d0, e1 * 32 + e0], 256)
  {
    var g := [a1, a0 * 4 + b2, b1, b0 * 16 + c1, c0 * 2 + d2, d1, d0 * 8 + e1, e0];
    Value5(a1 * 8 + a0, b2 * 64 + b1 * 2 + b0, c1 * 16 + c0, d2 * 128 + d1 * 4 + d0, e1 * 32 + e0, 256);
    Value5(g[0], g[1], g[2], g[3], g[4], 32);
    assert g[..7][..6][..5] == [g[0], g[1], g[2], g[3], g[4]];
    assert Value(g[..7][..6], 32) == Value(g[..7][..6][..5], 32) * 32 + g[5];
    assert Value(g[..7], 32) == Value(g[..7][..6], 32) * 32 + g[6];
  }

  lemma CutSecond(b: int)
    requires 0 <= b < 256
    ensures b == b / 64 * 64 + b % 64 / 2 * 2 + b % 2
    ensures 0 <= b / 64 < 4 && 0 <= b % 64 / 2 < 32 && 0 <= b % 2 < 2
  {
  }

  lemma CutFourth(d: int)
    requires 0 <= d < 256
    ensures d == d / 128 * 128 + d % 128 / 4 * 4 + d % 4
    ensures 0 <= d / 128 < 2 && 0 <= d % 128 / 4 < 32 && 0 <= d % 4 < 4
  {
  }

  /** Eight numbers built from the pieces of five byte values in this way are digits, and denote
      the same number. */
  lemma EightFromPieces(g: seq<int>, bs: seq<int>, a1: int, a0: int, b2: int, b1: int, b0: int, c1: int, c0: int,
                        d2: int, d1: int, d0: int, e1: int, e0: int)
    requires 0 <= a1 < 32 && 0 <= a0 < 8 && 0 <= b2 < 4 && 0 <= b1 < 32 && 0 <= b0 < 2 && 0 <= c1 < 16
    requires 0 <= c0 < 16 && 0 <= d2 < 2 && 0 <= d1 < 32 && 0 <= d0 < 4 && 0 <= e1 < 8 && 0 <= e0 < 32
    requires g == [a1, a0 * 4 + b2, b1, b0 * 16 + c1, c0 * 2 + d2, d1, d0 * 8 + e1, e0]
    requires bs == [a1 * 8 + a0, b2 * 64 + b1 * 2 + b0, c1 * 16 + c0, d2 * 128 + d1 * 4 + d0, e1 * 32 + e0]
    ensures AreDigits(g, 32) && Value(g, 32) == Value(bs, 256)
  {
    Regroup(a1, a0, b2, b1, b0, c1, c0, d2, d1, d0, e1, e0);
  }

  lemma EightFromFive(g: seq<int>, a: int, b: int, c: int, d: int, e: int)
    requires 0 <= a < 256 && 0 <= b < 256 && 0 <= c < 256 && 0 <= d < 256 && 0 <= e < 256
    requires |g| == 8
    requires g[0] == a / 8 && g[1] == a % 8 * 4 + b / 64 && g[2] == b % 64 / 2 && g[3] == b % 2 * 16 + c / 16
    requires g[4] == c % 16 * 2 + d / 128 && g[5] == d % 128 / 4 && g[6] == d % 4 * 8 + e / 32 && g[7] == e % 32
    ensures AreDigits(g, 32) && Value(g, 32) == Value([a, b, c, d, e], 256)
  {
    CutSecond(b);
    CutFourth(d);
    EightFromPieces(g, [a, b, c, d, e], a / 8, a % 8, b / 64, b % 64 / 2, b % 2, c / 16, c % 16,
                    d / 128, d % 128 / 4, d % 4, e / 32, e % 32);
  }

  lemma GroupValue(a: Byte, b: Byte, c: Byte, d: Byte, e: Byte)
    ensures AreDigits(Group(a, b, c, d, e), 32)
    ensures Value(Group(a, b, c, d, e), 32) == Value([Nat(a), Nat(b), Nat(c), Nat(d), Nat(e)], 256)
  {
    High5(a);
    SplitDigit2(a, b);
    Middle5Of6(b);
    SplitDigit4(b, c);
    SplitDigit1(c, d);
    Middle5Of7(d);
    SplitDigit3(d, e);
    Low5(e);
    OfNatNat(a);
    OfNatNat(b);
    OfNatNat(c);
    OfNatNat(d);
    OfNatNat(e);
    EightFromFive(Group(a, b, c, d, e), Nat(a), Nat(b), Nat(c), Nat(d), Nat(e));
  }

  // ---- All 26 digits -----------------------------------------------------------------------

  function GroupAt(id: Id, at: nat): seq<int>
    requires at + 5 <= |id|
  {
    Group(id[at], id[at + 1], id[at + 2], id[at + 3], id[at + 4])
  }

  /** The digits that the 26 assignments of `encode` select. */
  function DigitInts(id: Id): seq<int>
    requires |id| == 16
  {
    [Nat((id[0] & 224) >> 5), Nat(id[0] & 31)] + GroupAt(id, 1) + GroupAt(id, 6) + GroupAt(id, 11)
  }

  /** One more group of digits, and of bytes, keeps the two numbers equal. */
  lemma AppendGroup(ds: seq<int>, id: Id, at: nat)
    requires at + 5 <= |id| && AreDigits(ds, 32) && Value(ds, 32) == Value(Ints(id)[..at], 256)
    ensures AreDigits(ds + GroupAt(id, at), 32)
    ensures Value(ds + GroupAt(id, at), 32) == Value(Ints(id)[..at + 5], 256)
  {
    var n, more := Ints(id), GroupAt(id, at);
    GroupValue(id[at], id[at + 1], id[at + 2], id[at + 3], id[at + 4]);
    var five := [n[at], n[at + 1], n[at + 2], n[at + 3], n[at + 4]];
    assert n[..at + 5] == n[..at] + five;
    ValueOfConcat(ds, more, 32);
    ValueOfConcat(n[..at], five, 256);
    GroupWeight();
  }

  lemma GroupWeight()
    ensures Power(32, 8) == Power(256, 5) == TWO_40
  {
    assert Power(32, 2) == 1024;
    PowerSplit(32, 2, 2);
    PowerSplit(32, 4, 4);
    assert Power(256, 2) == 65536;
    PowerSplit(256, 2, 2);
    PowerSplit(256, 1, 4);
  }

  lemma FirstByte(x: Byte)
    ensures AreDigits([Nat((x & 224) >> 5), Nat(x & 31)], 32)
    ensures Value([Nat((x & 224) >> 5), Nat(x & 31)], 32) == Value([Nat(x)], 256)
  {
    High3(x);
    Low5(x);
    OfNatNat(x);
    var p, q := Nat((x & 224) >> 5), Nat(x & 31);
    assert [p, q][..1] == [p] && [p][..0] == [] && [Nat(x)][..0] == [];
    assert Value([p], 32) == p;
  }

  /** The 26 digits and the 16 bytes denote the same number. */
  lemma DigitsDenoteNumber(id: Id)
    requires |id| == 16
    ensures AreDigits(DigitInts(id), 32) && Value(DigitInts(id), 32) == Number(id)
  {
    var d0 := [Nat((id[0] & 224) >> 5), Nat(id[0] & 31)];
    FirstByte(id[0]);
    assert Ints(id)[..1] == [Nat(id[0])];
    AppendGroup(d0, id, 1);
    AppendGroup(d0 + GroupAt(id, 1), id, 6);
    AppendGroup(d0 + GroupAt(id, 1) + GroupAt(id, 6), id, 11);
    assert Ints(id)[..16] == Ints(id);
  }

  /** The DigitInts are the base-32 digits of the number. */
  lemma DigitsAreNumberDigits(id: Id)
    requires |id| == 16
    ensures DigitInts(id) == NumberDigits(id)
  {
    DigitsDenoteNumber(id);
    DigitsOfValue(DigitInts(id), 32);
  }

  // ---- encode ------------------------------------------------------------------------------

  function Pick(e: string, d: Byte): char
    requires |e| == 32 && d < 32
  {
    NatIsConversion(d);
    e[Nat(d)]
  }

  /** `encode`: the straight-line form computes exactly the base-32 digits of the number. */
  method Encode(id: Id) returns (s: string)
    requires |id| == 16
    ensures s == EncodeSpec(id)
  {
    s := EncodeWith(CROCKFORD, id);
  }

  /** Characters `lo` up to `hi` of the text are those of the number's base-32 digits. */
  ghost predicate Shows(e: string, id: Id, s: string, lo: nat, hi: nat)
    requires |e| == 32
  {
    hi <= |s| == 26 && forall i :: lo <= i < hi ==> s[i] == e[NumberDigits(id)[i]]
  }

  method EncodeWith(e: string, id: Id) returns (s: string)
    requires |e| == 32 && |id| == 16
    ensures s == Render(e, NumberDigits(id))
  {
    var d := new char[26];
    WriteFirstByte(e, id, d);
    WriteTimeRest(e, id, d);
    WriteEntropyHigh(e, id, d);
    WriteEntropyLow(e, id, d);
    s := d[..];
  }

  method WriteFirstByte(e: string, id: Id, d: array<char>)
    requires |e| == 32 && |id| == 16 && d.Length == 26
    modifies d
    ensures Shows(e, id, d[..], 0, 2)
  {
    d[0] := Pick(e, (id[0] & 224) >> 5);
    d[1] := Pick(e, id[0] & 31);
    HeadShown(e, id, d[..]);
  }

  method WriteTimeRest(e: string, id: Id, d: array<char>)
    requires |e| == 32 && |id| == 16 && d.Length == 26
    modifies d
    ensures d[0] == old(d[0]) && d[1] == old(d[1])
    ensures Shows(e, id, d[..], 2, 10)
  {
    d[2] := Pick(e, (id[1] & 248) >> 3);
    d[3] := Pick(e, ((id[1] & 7) << 2) | ((id[2] & 192) >> 6));
    d[4] := Pick(e, (id[2] & 62) >> 1);
    d[5] := Pick(e, ((id[2] & 1) << 4) | ((id[3] & 240) >> 4));
    d[6] := Pick(e, ((id[3] & 15) << 1) | ((id[4] & 128) >> 7));
    d[7] := Pick(e, (id[4] & 124) >> 2);
    d[8] := Pick(e, ((id[4] & 3) << 3) | ((id[5] & 224) >> 5));
    d[9] := Pick(e, id[5] & 31);
    assert GroupWritten(e, d[..], 2, Group(id[1], id[2], id[3], id[4], id[5]));
    GroupShown(e, id, d[..], 2, 1);
  }

  method WriteEntropyHigh(e: string, id: Id, d: array<char>)
    requires |e| == 32 && |id| == 16 && d.Length == 26
    modifies d
    ensures forall i :: 0 <= i < 10 ==> d[i] == old(d[i])
    ensures Shows(e, id, d[..], 10, 18)
  {
    d[10] := Pick(e, (id[6] & 248) >> 3);
    d[11] := Pick(e, ((id[6] & 7) << 2) | ((id[7] & 192) >> 6));
    d[12] := Pick(e, (id[7] & 62) >> 1);
    d[13] := Pick(e, ((id[7] & 1) << 4) | ((id[8] & 240) >> 4));
    d[14] := Pick(e, ((id[8] & 15) << 1) | ((id[9] & 128) >> 7));
    d[15] := Pick(e, (id[9] & 124) >> 2);
    d[16] := Pick(e, ((id[9] & 3) << 3) | ((id[10] & 224) >> 5));
    d[17] := Pick(e, id[10] & 31);
    GroupShown(e, id, d[..], 10, 6);
  }

  method WriteEntropyLow(e: string, id: Id, d: array<char>)
    requires |e| == 32 && |id| == 16 && d.Length == 26
    modifies d
    ensures forall i :: 0 <= i < 18 ==> d[i] == old(d[i])
    ensures Shows(e, id, d[..], 18, 26)
  {
    d[18] := Pick(e, (id[11] & 248) >> 3);
    d[19] := Pick(e, ((id[11] & 7) << 2) | ((id[12] & 192) >> 6));
    d[20] := Pick(e, (id[12] & 62) >> 1);
    d[21] := Pick(e, ((id[12] & 1) << 4) | ((id[13] & 240) >> 4));
    d[22] := Pick(e, ((id[13] & 15) << 1) | ((id[14] & 128) >> 7));
    d[23] := Pick(e, (id[14] & 124) >> 2);
    d[24] := Pick(e, ((id[14] & 3) << 3) | ((id[15] & 224) >> 5));
    d[25] := Pick(e, id[15] & 31);
    GroupShown(e, id, d[..], 18, 11);
  }

  /** The eight characters from `at` on are those of the digits `g`. */
  ghost predicate GroupWritten(e: string, s: string, at: nat, g: seq<int>) {
    && |g| == 8 && at + 8 <= |s|
    && Written(e, s[at], g[0]) && Written(e, s[at + 1], g[1])
    && Written(e, s[at + 2], g[2]) && Written(e, s[at + 3], g[3])
    && Written(e, s[at + 4], g[4]) && Written(e, s[at + 5], g[5])
    && Written(e, s[at + 6], g[6]) && Written(e, s[at + 7], g[7])
  }

  ghost predicate Written(e: string, c: char, n: int) {
    0 <= n < |e| ==> c == e[n]
  }

  lemma Slices(ds: seq<int>, h: seq<int>, x: seq<int>, y: seq<int>, z: seq<int>)
    requires ds == h + x + y + z && |h| == 2 && |x| == |y| == |z| == 8
    ensures ds[..2] == h && ds[2..10] == x && ds[10..18] == y && ds[18..26] == z
  {
  }

  lemma DigitGroups(id: Id)
    requires |id| == 16
    ensures NumberDigits(id)[..2] == [Nat((id[0] & 224) >> 5), Nat(id[0] & 31)]
    ensures NumberDigits(id)[2..10] == GroupAt(id, 1)
    ensures NumberDigits(id)[10..18] == GroupAt(id, 6)
    ensures NumberDigits(id)[18..26] == GroupAt(id, 11)
  {
    DigitsAreNumberDigits(id);
    Slices(DigitInts(id), [Nat((id[0] & 224) >> 5), Nat(id[0] & 31)], GroupAt(id, 1), GroupAt(id, 6), GroupAt(id, 11));
  }

  lemma HeadShown(e: string, id: Id, s: string)
    requires |e| == 32 && |id| == 16 && |s| == 26
    requires Written(e, s[0], Nat((id[0] & 224) >> 5)) && Written(e, s[1], Nat(id[0] & 31))
    ensures Shows(e, id, s, 0, 2)
  {
    DigitGroups(id);
    var ds := NumberDigits(id);
    assert ds[0] == ds[..2][0] && ds[1] == ds[..2][1];
  }

  lemma SliceShown(e: string, s: string, ds: seq<int>, at: nat, g: seq<int>)
    requires |e| == 32 && at + 8 <= |s| == |ds| && AreDigits(ds, 32)
    requires ds[at..at + 8] == g && GroupWritten(e, s, at, g)
    ensures forall i :: at <= i < at + 8 ==> s[i] == e[ds[i]]
  {
    forall i | at <= i < at + 8 ensures s[i] == e[ds[i]] {
      assert ds[i] == g[i - at];
      assert Written(e, s[i], g[i - at]);
    }
  }

  /** The five bytes from `k` on, written as the eight characters from `at` on, show as digits of
      the number. */
  lemma GroupShown(e: string, id: Id, s: string, at: nat, k: nat)
    requires |e| == 32 && |id| == 16 && |s| == 26
    requires (at == 2 && k == 1) || (at == 10 && k == 6) || (at == 18 && k == 11)
    requires GroupWritten(e, s, at, GroupAt(id, k))
    ensures Shows(e, id, s, at, at + 8)
  {
    DigitGroups(id);
    SliceShown(e, s, NumberDigits(id), at, GroupAt(id, k));
  }
}
