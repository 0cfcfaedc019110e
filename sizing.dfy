/** Position sizing of the R-Logic planner: from account equity, a risk
    percentage, entry and stop prices, a fixed commission and a per-share
    slippage, the risk amount, the per-share risk, the suggested share count
    and the cost of the position.  Prices and amounts are exact reals. */
module PositionSizing {

  /** What the sizing block computes when the stop lies below the entry. */
  datatype Plan = Plan(riskAmount: real, riskPerShare: real, qty: int, totalCost: real)

  /** The three ways one run of the sizing block can end. */
  datatype Sizing =
    | Sized(plan: Plan)
      // the stop is not below the entry: the error message is shown, no count
    | StopNotBelowEntry
      // the stop is below the entry but the slippage cancels the gap, so the
      // quotient divides by zero and the run stops with ZeroDivisionError
    | ZeroRiskPerShare

  /** Bounds of the sidebar's risk slider, in percent. */
  const MinRiskPercent: real := 0.1
  const MaxRiskPercent: real := 5.0

  predicate InSliderRange(riskPercent: real) {
    MinRiskPercent <= riskPercent <= MaxRiskPercent
  }

  /** The amount of equity put at risk on one position: riskPercent percent
      of the equity, never negative for non-negative inputs. */
  function RiskAmount(equity: real, riskPercent: real): (r: real)
    ensures r * 100.0 == equity * riskPercent
    ensures equity >= 0.0 && riskPercent >= 0.0 ==> r >= 0.0
  {
    equity * (riskPercent / 100.0)
  }

  /** What one share loses between entry and stop, slippage included; it is
      positive whenever the stop is below the entry and the slippage is not
      negative. */
  function RiskPerShare(entry: real, stopLoss: real, slippage: real): (r: real)
    ensures r - slippage == entry - stopLoss
    ensures entry > stopLoss && slippage >= 0.0 ==> r > 0.0
  {
    (entry - stopLoss) + slippage
  }

  /** q is the floor of num / den, stated without division: for a positive
      divisor q * den <= num < (q + 1) * den, for a negative one the
      inequalities turn round. */
  predicate IsFloorQuotient(q: int, num: real, den: real) {
    (den > 0.0 ==> q as real * den <= num < (q + 1) as real * den) &&
    (den < 0.0 ==> (q + 1) as real * den < num <= q as real * den)
  }

  /** The floor of an exact real quotient satisfies IsFloorQuotient. */
  lemma FloorQuotientOf(num: real, den: real)
    requires den != 0.0
    ensures IsFloorQuotient((num / den).Floor, num, den)
  {
    var x := num / den;
    var q := x.Floor;
    assert x * den == num;
    assert q as real <= x < q as real + 1.0;
    if den > 0.0 {
      assert q as real * den <= x * den;
      assert x * den < (q as real + 1.0) * den;
    } else {
      assert x * den <= q as real * den;
      assert (q as real + 1.0) * den < x * den;
    }
  }

  /** No other integer satisfies IsFloorQuotient. */
  lemma FloorQuotientUnique(q: int, num: real, den: real)
    requires den != 0.0 && IsFloorQuotient(q, num, den)
    ensures q == (num / den).Floor
  {
    FloorQuotientOf(num, den);
    FloorQuotientsAgree(q, (num / den).Floor, num, den);
  }

  /** Two integers that are both floor quotients of num by den are equal. */
  lemma FloorQuotientsAgree(q: int, f: int, num: real, den: real)
    requires den != 0.0 && IsFloorQuotient(q, num, den) && IsFloorQuotient(f, num, den)
    ensures q == f
  {
    if den > 0.0 {
      // q * den <= num < (f + 1) * den, and the same with q and f swapped
      ScaledBelow(q, f + 1, den, num);
      ScaledBelow(f, q + 1, den, num);
    } else {
      // (q + 1) * den < num <= f * den, and the same with q and f swapped
      ScaledAbove(q + 1, f, den, num);
      ScaledAbove(f + 1, q, den, num);
    }
  }

  /** If a value lies between a * d and b * d for a positive d, then a < b. */
  lemma ScaledBelow(a: int, b: int, d: real, m: real)
    requires d > 0.0 && a as real * d <= m < b as real * d
    ensures a < b
  {
    assert (b - a) as real * d == b as real * d - a as real * d;
  }

  /** If a value lies between a * d and b * d for a negative d, then a > b. */
  lemma ScaledAbove(a: int, b: int, d: real, m: real)
    requires d < 0.0 && a as real * d < m <= b as real * d
    ensures a > b
  {
    assert (b - a) as real * d == b as real * d - a as real * d;
  }

  /** One run of the sizing block: the risk amount and the per-share risk are
      always computed; under the `entry > stopLoss` guard the share count is
      the (unclamped) floor of (riskAmount - commission) / riskPerShare and
      the cost is that count times the entry price. */
  function Size(equity: real, riskPercent: real, entry: real, stopLoss: real,
                commission: real, slippage: real): (s: Sizing)
    ensures s.StopNotBelowEntry? <==> entry <= stopLoss
    ensures s.Sized? <==>
              entry > stopLoss && RiskPerShare(entry, stopLoss, slippage) != 0.0
    ensures s.ZeroRiskPerShare? <==>
              entry > stopLoss && RiskPerShare(entry, stopLoss, slippage) == 0.0
    ensures s.Sized? ==>
              s.plan.riskAmount == RiskAmount(equity, riskPercent) &&
              s.plan.riskPerShare == RiskPerShare(entry, stopLoss, slippage) &&
              s.plan.riskPerShare != 0.0 &&
              IsFloorQuotient(s.plan.qty, s.plan.riskAmount - commission, s.plan.riskPerShare) &&
              s.plan.totalCost == s.plan.qty as real * entry
  {
    var rAmount := RiskAmount(equity, riskPercent);
    var rps := RiskPerShare(entry, stopLoss, slippage);
    if entry > stopLoss then
      if rps == 0.0 then
        ZeroRiskPerShare
      else
        FloorQuotientOf(rAmount - commission, rps);
        var qty := ((rAmount - commission) / rps).Floor;
        Sized(Plan(rAmount, rps, qty, qty as real * entry))
    else
      StopNotBelowEntry
  }

  /** A zero per-share risk under the guard needs a negative slippage. */
  lemma ZeroRiskNeedsNegativeSlippage(equity: real, riskPercent: real, entry: real,
                                      stopLoss: real, commission: real, slippage: real)
    requires Size(equity, riskPercent, entry, stopLoss, commission, slippage).ZeroRiskPerShare?
    ensures slippage < 0.0 && slippage == stopLoss - entry
  {
  }

  /** With a positive per-share risk, qty is the floor of the quotient: the
      budget left after commission covers qty shares' risk but not qty + 1,
      and qty is the only integer with that property. */
  lemma QtyCharacterised(equity: real, riskPercent: real, entry: real, stopLoss: real,
                         commission: real, slippage: real, q: int)
    requires RiskPerShare(entry, stopLoss, slippage) > 0.0
    requires entry > stopLoss
    ensures Size(equity, riskPercent, entry, stopLoss, commission, slippage).Sized?
    ensures var p := Size(equity, riskPercent, entry, stopLoss, commission, slippage).plan;
            p.qty as real * p.riskPerShare <= p.riskAmount - commission < (p.qty + 1) as real * p.riskPerShare
    ensures var p := Size(equity, riskPercent, entry, stopLoss, commission, slippage).plan;
            (q as real * p.riskPerShare <= p.riskAmount - commission < (q + 1) as real * p.riskPerShare)
            <==> q == p.qty
  {
    var p := Size(equity, riskPercent, entry, stopLoss, commission, slippage).plan;
    if q as real * p.riskPerShare <= p.riskAmount - commission < (q + 1) as real * p.riskPerShare {
      FloorQuotientUnique(q, p.riskAmount - commission, p.riskPerShare);
      FloorQuotientUnique(p.qty, p.riskAmount - commission, p.riskPerShare);
    }
  }

  /** qty is not clamped at zero: with a positive per-share risk it is
      non-negative exactly when the commission does not exceed the risk
      amount, and negative otherwise. */
  lemma QtyNonNegativeIff(equity: real, riskPercent: real, entry: real, stopLoss: real,
                          commission: real, slippage: real)
    requires entry > stopLoss && RiskPerShare(entry, stopLoss, slippage) > 0.0
    ensures var s := Size(equity, riskPercent, entry, stopLoss, commission, slippage);
            s.Sized? && (s.plan.qty >= 0 <==> commission <= RiskAmount(equity, riskPercent))
  {
    var s := Size(equity, riskPercent, entry, stopLoss, commission, slippage);
    var q, num, den := s.plan.qty, s.plan.riskAmount - commission, s.plan.riskPerShare;
    assert q as real * den <= num < (q + 1) as real * den;
    if q >= 0 {
      assert q as real * den >= 0.0;
    }
    if num >= 0.0 {
      assert (q + 1) as real * den > 0.0;
    }
  }

  /** Within the slider's range and for non-negative equity, the risk amount
      lies between 0.1% and 5% of the equity. */
  lemma RiskAmountWithinSlider(equity: real, riskPercent: real)
    requires equity >= 0.0 && InSliderRange(riskPercent)
    ensures equity / 1000.0 <= RiskAmount(equity, riskPercent) <= equity / 20.0
  {
    assert RiskAmount(equity, riskPercent) == equity * (riskPercent / 100.0);
    var fraction := riskPercent / 100.0;
    assert 0.001 <= fraction <= 0.05;
    assert equity * 0.001 <= equity * fraction by {
      assert equity * (fraction - 0.001) >= 0.0;
    }
    assert equity * fraction <= equity * 0.05 by {
      assert equity * (0.05 - fraction) >= 0.0;
    }
  }

  /** The planner's default inputs: equity 10000, risk 1%, commission 5,
      slippage 0.01, entry 150, stop 145 give a risk amount of 100, a
      per-share risk of 5.01, 18 shares and a cost of 2700. */
  lemma DefaultInputsExample()
    ensures Size(10000.0, 1.0, 150.0, 145.0, 5.0, 0.01) ==
              Sized(Plan(100.0, 5.01, 18, 2700.0))
  {
    FloorQuotientUnique(18, 95.0, 5.01);
  }
}
