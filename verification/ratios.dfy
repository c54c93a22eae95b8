/** Exact confidences. The classifier divides a keyword match count by a
    keyword total and compares the quotients; here a quotient is kept as
    the pair (numerator, denominator) and compared by cross-multiplication,
    which agrees with floating-point division and comparison whenever the
    denominators are small (at most 7 in the stock taxonomy). A zero
    denominator stands for the NaN that 0/0 produces: it never compares
    greater than anything, nor anything greater than it. */
module Ratios {

  datatype Ratio = Ratio(num: nat, den: nat)

  const Zero := Ratio(0, 1)

  /** `a > b` on the quotients. */
  predicate Greater(a: Ratio, b: Ratio) {
    a.num * b.den > b.num * a.den
  }

  /** The quotient lies in [0, 1]. */
  predicate InUnitInterval(a: Ratio) {
    a.num <= a.den
  }

  /** `a < 0.1` on the quotient. */
  predicate BelowOneTenth(a: Ratio) {
    10 * a.num < a.den
  }

  lemma GreaterIrreflexive(a: Ratio)
    ensures !Greater(a, a)
  {
  }

  /** Beating the initial score 0 means having at least one match. */
  lemma GreaterThanZeroIff(a: Ratio)
    requires a.den > 0
    ensures Greater(a, Zero) <==> a.num > 0
  {
  }

  /** With positive denominators, `b < c` and `a <= b` give `a < c`. */
  lemma LessOrEqualThenLess(a: Ratio, b: Ratio, c: Ratio)
    requires a.den > 0 && b.den > 0 && c.den > 0
    requires !Greater(a, b) && Greater(c, b)
    ensures Greater(c, a)
  {
    // a.num * b.den <= b.num * a.den and b.num * c.den < c.num * b.den
    assert a.num * b.den * c.den <= b.num * a.den * c.den by {
      MulLeMono(a.num * b.den, b.num * a.den, c.den);
    }
    assert b.num * c.den * a.den < c.num * b.den * a.den by {
      MulLtMono(b.num * c.den, c.num * b.den, a.den);
    }
    assert b.den * (a.num * c.den) < b.den * (c.num * a.den);
    MulLtCancel(a.num * c.den, c.num * a.den, b.den);
  }

  /** With positive denominators, `a < b < c` gives `a < c`. */
  lemma GreaterTransitive(a: Ratio, b: Ratio, c: Ratio)
    requires a.den > 0 && b.den > 0 && c.den > 0
    requires Greater(c, b) && Greater(b, a)
    ensures Greater(c, a)
  {
    LessOrEqualThenLess(a, b, c);
  }

  lemma MulLeMono(x: nat, y: nat, k: nat)
    requires x <= y
    ensures x * k <= y * k
  {
  }

  lemma MulLtMono(x: nat, y: nat, k: nat)
    requires x < y && k > 0
    ensures x * k < y * k
  {
  }

  lemma MulLtCancel(x: nat, y: nat, k: nat)
    requires k * x < k * y
    ensures x < y
  {
    if x >= y {
      MulLeMono(y, x, k);
    }
  }
}
