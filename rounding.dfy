/**
 * The rounding step of the calculator: every grown amount and every
 * income/expense difference is rounded to two decimal places (whole paise,
 * or cents) before it is stored in a yearly record.
 *
 * Amounts are exact reals here, so the rounding is stated on the exact
 * value: round half to even at the second decimal, which is the rule of
 * the language's built-in two-place rounding.
 */
module Rounding {

  /** True when `x` is a whole number of hundredths. */
  predicate IsCents(x: real) {
    (x * 100.0).Floor as real == x * 100.0
  }

  /** Round to the nearest hundredth; an exact half goes to the even hundredth. */
  function Round2(x: real): (r: real)
    ensures x - 0.005 <= r <= x + 0.005
  {
    var scaled := x * 100.0;
    var n := scaled.Floor;
    var frac := scaled - n as real;
    var k := if frac < 0.5 then n
             else if frac > 0.5 then n + 1
             else if n % 2 == 0 then n
             else n + 1;
    k as real / 100.0
  }

  /** A whole number of hundredths is a two-decimal amount. */
  lemma HundredthsAreCents(k: int)
    ensures IsCents(k as real / 100.0)
  {
    assert k as real / 100.0 * 100.0 == k as real;
  }

  /** Rounding lands on a two-decimal amount at most half a hundredth away. */
  lemma Round2Spec(x: real)
    ensures IsCents(Round2(x))
    ensures -0.005 <= Round2(x) - x <= 0.005
  {
    var n := (x * 100.0).Floor;
    HundredthsAreCents(n);
    HundredthsAreCents(n + 1);
  }

  /** A value already at two decimals is left unchanged by rounding. */
  lemma Round2Idempotent(x: real)
    requires IsCents(x)
    ensures Round2(x) == x
  {
  }

  /** Rounding twice is rounding once. */
  lemma Round2Round2(x: real)
    ensures Round2(Round2(x)) == Round2(x)
  {
    Round2Spec(x);
    Round2Idempotent(Round2(x));
  }

  /** Rounding preserves order: a larger amount never rounds below a smaller one. */
  lemma Round2Monotone(x: real, y: real)
    requires x <= y
    ensures Round2(x) <= Round2(y)
  {
    var nx, ny := (x * 100.0).Floor, (y * 100.0).Floor;
    assert nx <= ny;
    if nx < ny {
      assert Round2(x) <= (nx + 1) as real / 100.0;
      assert ny as real / 100.0 <= Round2(y);
    }
  }

  /** An exact half-hundredth is rounded to the even neighbour. */
  lemma Round2HalfToEven(n: int)
    ensures Round2((n as real + 0.5) / 100.0) == (if n % 2 == 0 then n else n + 1) as real / 100.0
  {
    var x := (n as real + 0.5) / 100.0;
    assert x * 100.0 == n as real + 0.5;
    assert (x * 100.0).Floor == n;
  }

  /** Sums and differences of two-decimal amounts are two-decimal amounts. */
  lemma CentsAddSub(x: real, y: real)
    requires IsCents(x) && IsCents(y)
    ensures IsCents(x + y) && IsCents(x - y)
  {
    var a, b := (x * 100.0).Floor, (y * 100.0).Floor;
    assert x + y == (a + b) as real / 100.0;
    assert x - y == (a - b) as real / 100.0;
    HundredthsAreCents(a + b);
    HundredthsAreCents(a - b);
  }
}
