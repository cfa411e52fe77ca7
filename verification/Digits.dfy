/** Big-endian positional notation in any base, and its order: fixed-length digit strings
    compare lexicographically exactly as the numbers they denote. */
module Digits {
  import opened Powers

  predicate AreDigits(ds: seq<int>, base: int) {
    forall i :: 0 <= i < |ds| ==> 0 <= ds[i] < base
  }

  function Value(ds: seq<int>, base: int): int {
    if ds == [] then 0 else Value(ds[..|ds| - 1], base) * base + ds[|ds| - 1]
  }

  function ToDigits(n: int, base: int, len: nat): (ds: seq<int>)
    requires base > 0
    ensures |ds| == len
    decreases len
  {
    if len == 0 then [] else ToDigits(n / base, base, len - 1) + [n % base]
  }

  lemma RemainderBound(n: int, base: int)
    requires base > 0
    ensures 0 <= n % base < base && n == n / base * base + n % base
  {
  }

  lemma {:induction false} ToDigitsAreDigits(n: int, base: int, len: nat)
    requires base > 0
    ensures AreDigits(ToDigits(n, base, len), base)
    decreases len
  {
    if len > 0 {
      ToDigitsAreDigits(n / base, base, len - 1);
      RemainderBound(n, base);
    }
  }

  lemma DivModOfSum(q: int, base: int, d: int)
    requires 0 <= d < base
    ensures (q * base + d) / base == q && (q * base + d) % base == d
  {
    var n := q * base + d;
    var r := n / base - q;
    assert r * base == n / base * base - q * base == d - n % base;
    assert r <= -1 ==> r * base <= -base;
    assert r >= 1 ==> r * base >= base;
  }

  lemma {:induction false} ValueBound(ds: seq<int>, base: int)
    requires base >= 1 && AreDigits(ds, base)
    ensures 0 <= Value(ds, base) < Power(base, |ds|)
  {
    if ds != [] {
      var init, p := ds[..|ds| - 1], Power(base, |ds| - 1);
      ValueBound(init, base);
      var v := Value(init, base);
      TimesMonotone(0, v, base);
      TimesMonotone(v, p - 1, base);
      assert (p - 1) * base == base * p - base;
    }
  }

  /** Reading digits and writing them are inverse to each other. */
  lemma {:induction false} DigitsOfValue(ds: seq<int>, base: int)
    requires base >= 1 && AreDigits(ds, base)
    ensures ToDigits(Value(ds, base), base, |ds|) == ds
  {
    if ds != [] {
      var init := ds[..|ds| - 1];
      DigitsOfValue(init, base);
      DivModOfSum(Value(init, base), base, ds[|ds| - 1]);
    }
  }

  lemma {:induction false} ValueOfDigits(n: int, base: int, len: nat)
    requires base >= 1 && 0 <= n < Power(base, len)
    ensures Value(ToDigits(n, base, len), base) == n
    decreases len
  {
    if len > 0 {
      var q, ds := n / base, ToDigits(n, base, len);
      RemainderBound(n, base);
      QuotientBound(q, n % base, base, Power(base, len - 1));
      ValueOfDigits(q, base, len - 1);
      assert ds[..len - 1] == ToDigits(q, base, len - 1);
    }
  }

  lemma QuotientBound(q: int, r: int, base: int, p: int)
    requires 0 <= r < base && 0 <= q * base + r < base * p
    ensures 0 <= q < p
  {
    if q >= p {
      TimesMonotone(p, q, base);
    }
    if q <= -1 {
      TimesMonotone(q, -1, base);
    }
  }

  lemma {:induction false} ValueOfConcat(x: seq<int>, y: seq<int>, base: int)
    ensures Value(x + y, base) == Value(x, base) * Power(base, |y|) + Value(y, base)
  {
    if y == [] {
      assert x + y == x;
    } else {
      var init := y[..|y| - 1];
      ValueOfConcat(x, init, base);
      assert (x + y)[..|x + y| - 1] == x + init;
      var v, p, w := Value(x, base), Power(base, |init|), Value(init, base);
      assert (v * p + w) * base == v * (base * p) + w * base;
    }
  }

  // ---- Order -------------------------------------------------------------------------------

  /** Lexicographic order, a proper prefix being smaller. */
  ghost predicate LexLess(a: seq<int>, b: seq<int>) {
    exists k :: FirstDifference(a, b, k)
  }

  ghost predicate FirstDifference(a: seq<int>, b: seq<int>, k: int) {
    && 0 <= k <= |a| && k < |b| && a[..k] == b[..k]
    && (k == |a| || a[k] < b[k])
  }

  lemma LexOfSnoc(a: seq<int>, x: int, b: seq<int>, y: int)
    requires |a| == |b|
    ensures LexLess(a + [x], b + [y]) <==> LexLess(a, b) || (a == b && x < y)
  {
    if LexLess(a + [x], b + [y]) {
      var k :| FirstDifference(a + [x], b + [y], k);
      if k < |a| {
        assert (a + [x])[..k] == a[..k] && (b + [y])[..k] == b[..k];
        assert FirstDifference(a, b, k);
      } else {
        assert (a + [x])[..k] == a && (b + [y])[..k] == b;
      }
    }
    if LexLess(a, b) {
      var k :| FirstDifference(a, b, k);
      assert (a + [x])[..k] == a[..k] && (b + [y])[..k] == b[..k];
      assert FirstDifference(a + [x], b + [y], k);
    }
    if a == b && x < y {
      assert (a + [x])[..|a|] == a;
      assert FirstDifference(a + [x], b + [y], |a|);
    }
  }

  lemma OrderOfSums(v: int, x: int, w: int, y: int, base: int)
    requires 0 <= x < base && 0 <= y < base
    ensures v * base + x < w * base + y <==> v < w || (v == w && x < y)
  {
    if v < w {
      TimesMonotone(v + 1, w, base);
      assert (v + 1) * base == v * base + base;
    } else if w < v {
      TimesMonotone(w + 1, v, base);
      assert (w + 1) * base == w * base + base;
    }
  }

  /** Lexicographic order of equally long digit strings is the order of their values. */
  lemma {:induction false} LexIsNumeric(a: seq<int>, b: seq<int>, base: int)
    requires |a| == |b| && base >= 1 && AreDigits(a, base) && AreDigits(b, base)
    ensures LexLess(a, b) <==> Value(a, base) < Value(b, base)
  {
    if a != [] {
      var n := |a| - 1;
      LexIsNumeric(a[..n], b[..n], base);
      assert a == a[..n] + [a[n]] && b == b[..n] + [b[n]];
      LexOfSnoc(a[..n], a[n], b[..n], b[n]);
      OrderOfSums(Value(a[..n], base), a[n], Value(b[..n], base), b[n], base);
      DigitsOfValue(a[..n], base);
      DigitsOfValue(b[..n], base);
    }
  }

  lemma LexUnderPrefix(p: seq<int>, a: seq<int>, b: seq<int>)
    ensures LexLess(p + a, p + b) <==> LexLess(a, b)
  {
    if LexLess(a, b) {
      var k :| FirstDifference(a, b, k);
      assert (p + a)[..|p| + k] == p + a[..k] && (p + b)[..|p| + k] == p + b[..k];
      assert FirstDifference(p + a, p + b, |p| + k);
    }
    if LexLess(p + a, p + b) {
      var k :| FirstDifference(p + a, p + b, k);
      assert forall i :: 0 <= i < |p| ==> (p + a)[i] == (p + b)[i];
      assert a[..k - |p|] == (p + a)[..k][|p|..] == (p + b)[..k][|p|..] == b[..k - |p|];
      assert FirstDifference(a, b, k - |p|);
    }
  }

  /** Heads that differ decide, whatever the tails are. */
  lemma LexByHeads(x: seq<int>, r: seq<int>, y: seq<int>, q: seq<int>)
    requires |x| == |y| && LexLess(x, y)
    ensures LexLess(x + r, y + q)
  {
    var k :| FirstDifference(x, y, k);
    assert (x + r)[..k] == x[..k] && (y + q)[..k] == y[..k];
    assert FirstDifference(x + r, y + q, k);
  }

  /** Relabelling both sides by the same strictly increasing code keeps the order. */
  lemma LexRelabelled(a: seq<int>, b: seq<int>, a': seq<int>, b': seq<int>)
    requires |a| == |a'| == |b| == |b'|
    requires forall i :: 0 <= i < |a| ==> (a[i] < b[i] <==> a'[i] < b'[i]) && (a[i] == b[i] <==> a'[i] == b'[i])
    ensures LexLess(a, b) <==> LexLess(a', b')
  {
    LexRelabelledOneWay(a, b, a', b');
    LexRelabelledOneWay(a', b', a, b);
  }

  lemma LexRelabelledOneWay(a: seq<int>, b: seq<int>, a': seq<int>, b': seq<int>)
    requires |a| == |a'| == |b| == |b'|
    requires forall i :: 0 <= i < |a| ==> (a[i] < b[i] <==> a'[i] < b'[i]) && (a[i] == b[i] <==> a'[i] == b'[i])
    ensures LexLess(a, b) ==> LexLess(a', b')
  {
    if LexLess(a, b) {
      var k :| FirstDifference(a, b, k);
      forall i | 0 <= i < k ensures a'[i] == b'[i] {
        assert a[..k][i] == b[..k][i];
      }
      assert FirstDifference(a', b', k);
    }
  }
}
