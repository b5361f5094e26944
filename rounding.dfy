/** JavaScript's `Math.round` on exact reals, and the two output roundings the analyzer
    applies: hours to hundredths, rates to tenths. */
module Rounding {

  /** `Math.round(x)`: the nearest integer, halves rounded up (section 21.3.2.28 of ECMA-262). */
  function JsRound(x: real): (n: int)
    ensures x - 0.5 < n as real <= x + 0.5
  {
    (x + 0.5).Floor
  }

  /** `Math.round(x * 100) / 100`. */
  function Round2(x: real): (r: real)
    ensures x - 0.005 < r <= x + 0.005
    ensures r * 100.0 == JsRound(x * 100.0) as real
  {
    JsRound(x * 100.0) as real / 100.0
  }

  /** `Math.round(x * 10) / 10`. */
  function Round1(x: real): (r: real)
    ensures x - 0.05 < r <= x + 0.05
    ensures r * 10.0 == JsRound(x * 10.0) as real
  {
    JsRound(x * 10.0) as real / 10.0
  }

  lemma JsRoundMonotone(x: real, y: real)
    requires x <= y
    ensures JsRound(x) <= JsRound(y)
  {
  }

  lemma Round2Monotone(x: real, y: real)
    requires x <= y
    ensures Round2(x) <= Round2(y)
    ensures Round2(0.0) == 0.0
  {
    JsRoundMonotone(x * 100.0, y * 100.0);
    assert JsRound(0.0) == 0;
  }

  /** Rounding to tenths keeps a percentage inside `0..100`. */
  lemma Round1KeepsPercent(x: real)
    requires 0.0 <= x <= 100.0
    ensures 0.0 <= Round1(x) <= 100.0
  {
    JsRoundMonotone(0.0, x * 10.0);
    JsRoundMonotone(x * 10.0, 1000.0);
  }

  /** Rounding each of `a`, `b` and `a + b` to hundredths separately can break the sum by
      at most one hundredth either way. */
  lemma {:induction false} Round2OfSum(a: real, b: real)
    ensures var gap := JsRound((a + b) * 100.0) - JsRound(a * 100.0) - JsRound(b * 100.0);
      -1 <= gap <= 1
  {
    assert (a + b) * 100.0 == a * 100.0 + b * 100.0;
  }

  /** ...and it does break it: 0.005 + 0.005 rounds to 0.01, its parts to 0.01 each. */
  lemma Round2NotAdditive()
    ensures Round2(0.005 + 0.005) != Round2(0.005) + Round2(0.005)
  {
    assert JsRound(0.5) == 1;
    assert JsRound(1.0) == 1;
  }
}
