/**
 Two facts about multiplication and division that the solver needs spelled out.
 */
module Arithmetic {

  lemma Multiple(n: int, d: nat)
    ensures n >= 1 ==> n * d >= d
    ensures n <= -1 ==> n * d + d <= 0
  {
    if n >= 1 {
      assert (n - 1) * d >= 0;
    } else if n <= -1 {
      assert (-n - 1) * d >= 0;
    }
  }

  // Quotient and remainder of a number in the `k`-th period.
  lemma Remainder(g: nat, k: nat, period: nat)
    requires period > 0 && k * period <= g < k * period + period
    ensures g % period == g - k * period && g / period == k
  {
    var q := g / period;
    assert g == q * period + g % period;
    Multiple(q - k, period);
    assert (q - k) * period == q * period - k * period;
  }

  lemma PeriodOf(g: nat, period: nat)
    requires period > 0
    ensures g == g / period * period + g % period
    ensures g / period >= 0 && g / period * period <= g < g / period * period + period
  {
  }
}
