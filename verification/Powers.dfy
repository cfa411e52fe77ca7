/** Powers of an integer, and the few facts about them that closed forms need. */
module Powers {

  function Power(b: int, e: nat): int {
    if e == 0 then 1 else b * Power(b, e - 1)
  }

  lemma {:induction false} PowerPositive(b: int, e: nat)
    requires b >= 1
    ensures Power(b, e) >= 1
  {
    if e > 0 {
      PowerPositive(b, e - 1);
      TimesAtLeast(b, Power(b, e - 1));
    }
  }

  lemma TimesAtLeast(x: int, y: int)
    requires x >= 1 && y >= 1
    ensures x * y >= x && x * y >= y
  {
  }

  lemma {:induction false} PowerSplit(b: int, d: nat, e: nat)
    ensures Power(b, d + e) == Power(b, d) * Power(b, e)
  {
    if d > 0 {
      PowerSplit(b, d - 1, e);
      var x, y := Power(b, d - 1), Power(b, e);
      assert b * (x * y) == b * x * y;
    }
  }

  lemma TimesMonotone(x: int, y: int, base: int)
    requires x <= y && base >= 0
    ensures x * base <= y * base
  {
    assert (y - x) * base >= 0;
  }
}
