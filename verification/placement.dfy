/** FLWindow::calculate_Coef: the multiplier that places a window's HTTP
    interface on screen, derived from the window's index so that positions
    repeat every 20 windows. */
module Placement {
  /** Indexes above this wrap around. */
  const Period: int := 20

  /** Closed form of the multiplier: indexes up to 20 are their own
      multiplier, larger ones wrap into 1..20. */
  function CoefOf(index: int): int {
    if index <= Period then index else (index - 1) % Period + 1
  }

  /** Adding whole periods does not change a remainder. */
  lemma {:induction false} ShiftMod(k: nat, r: int)
    requires 0 <= r < Period
    ensures (Period * k + r) % Period == r
    decreases k
  {
    if k > 0 {
      ShiftMod(k - 1, r);
      assert Period * k + r == (Period * (k - 1) + r) + Period;
    }
  }

  method CalculateCoef(index: int) returns (coef: int)
    ensures index <= Period ==> coef == index
    ensures index > Period ==> 1 <= coef <= Period && (index - coef) % Period == 0
    ensures coef == CoefOf(index)
  {
    coef := index;
    ghost var k: nat := 0;
    while coef > Period
      invariant index - coef == Period * k
      invariant index > Period ==> coef >= 1
      invariant index <= Period ==> coef == index
      decreases coef
    {
      coef := coef - Period;
      k := k + 1;
    }
    if index > Period {
      ShiftMod(k, 0);
      ShiftMod(k, coef - 1);
      assert index - 1 == Period * k + (coef - 1);
    }
  }

  /** Windows 20 indexes apart share their position. */
  lemma CoefPeriodic(index: int)
    requires index >= 1
    ensures CoefOf(index + Period) == CoefOf(index)
  {
  }
}
