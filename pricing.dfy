/** Price rules applied once per tick (main.py).

    Prices are exact reals. The random draws of the source are explicit
    `noise` parameters, and `round(x, 2)` is `Round2`, rounding half up to
    whole hundredths. */
module Pricing {

  /** The lowest price the activity-driven rule ever produces. */
  const Floor: real := 0.1

  /** Rounds to two decimal places, ties upward: the result is the one whole
      number of hundredths in the window (x - 0.005, x + 0.005]. */
  function Round2(x: real): (r: real)
    ensures r * 100.0 == (r * 100.0).Floor as real
    ensures x - 0.005 < r <= x + 0.005
  {
    ((x * 100.0 + 0.5).Floor as real) / 100.0
  }

  /** Rounding never reverses the order of two prices. */
  lemma Round2Monotone(x: real, y: real)
    requires x <= y
    ensures Round2(x) <= Round2(y)
  {
    assert (x * 100.0 + 0.5).Floor <= (y * 100.0 + 0.5).Floor;
  }

  /** A whole number of hundredths is left as it is by rounding. */
  lemma Round2KeepsCents(k: int)
    ensures Round2(k as real / 100.0) == k as real / 100.0
  {
    assert k as real / 100.0 * 100.0 + 0.5 == k as real + 0.5;
    assert (k as real + 0.5).Floor == k;
  }

  /** Rounding a price at or above the floor keeps it at or above the floor. */
  lemma Round2KeepsFloor(x: real)
    requires x >= Floor
    ensures Round2(x) >= Floor
  {
    Round2KeepsCents(10);
    Round2Monotone(10 as real / 100.0, x);
  }

  /** The clamp of main.py:38-39: anything below the floor becomes the floor. */
  function ClampToFloor(p: real): (r: real)
    ensures r >= Floor
    ensures p >= Floor ==> r == p
    ensures p < Floor ==> r == Floor
  {
    if p < Floor then Floor else p
  }

  /** The accumulated `change` of main.py:29-34 for one noise draw. */
  function ActivityChange(streak: int, commitsToday: int, weeklyDiff: int, noise: real): real
  {
    noise + streak as real * 0.05 + commitsToday as real * 0.1 + weeklyDiff as real * 0.0001
  }

  /** `calculate_reketino_price`: old price plus the activity change, clamped
      to the floor, then rounded. The clamp comes before the rounding, and the
      result is never below the floor and within half a cent of the clamped
      sum. */
  function ReketinoPrice(oldPrice: real, streak: int, commitsToday: int, weeklyDiff: int, noise: real): (r: real)
    ensures r >= Floor
    ensures ClampToFloor(oldPrice + ActivityChange(streak, commitsToday, weeklyDiff, noise)) - 0.005 < r
    ensures r <= ClampToFloor(oldPrice + ActivityChange(streak, commitsToday, weeklyDiff, noise)) + 0.005
  {
    var clamped := ClampToFloor(oldPrice + ActivityChange(streak, commitsToday, weeklyDiff, noise));
    Round2KeepsFloor(clamped);
    Round2(clamped)
  }

  /** With no activity at all, the rule is a clamped, rounded noise step of
      at most half a unit (plus half a cent of rounding) either way. */
  lemma ReketinoWithoutActivity(oldPrice: real, noise: real)
    requires -0.5 <= noise <= 0.5
    ensures ReketinoPrice(oldPrice, 0, 0, 0, noise) == Round2(ClampToFloor(oldPrice + noise))
    ensures ReketinoPrice(oldPrice, 0, 0, 0, noise) >= Floor
    ensures ReketinoPrice(oldPrice, 0, 0, 0, noise) <= Round2(ClampToFloor(oldPrice + 0.5))
    ensures ReketinoPrice(oldPrice, 0, 0, 0, noise) >= Round2(ClampToFloor(oldPrice - 0.5))
  {
    Round2Monotone(ClampToFloor(oldPrice + noise), ClampToFloor(oldPrice + 0.5));
    Round2Monotone(ClampToFloor(oldPrice - 0.5), ClampToFloor(oldPrice + noise));
  }

  /** All three activity weights are positive: for a fixed draw, more
      activity never lowers the pre-clamp change. */
  lemma ActivityChangeMonotone(s1: int, s2: int, c1: int, c2: int, w1: int, w2: int, noise: real)
    requires s1 <= s2 && c1 <= c2 && w1 <= w2
    ensures ActivityChange(s1, c1, w1, noise) <= ActivityChange(s2, c2, w2, noise)
  {
  }

  /** ... and never lowers the resulting price either. */
  lemma ReketinoMonotone(oldPrice: real, s1: int, s2: int, c1: int, c2: int, w1: int, w2: int, noise: real)
    requires s1 <= s2 && c1 <= c2 && w1 <= w2
    ensures ReketinoPrice(oldPrice, s1, c1, w1, noise) <= ReketinoPrice(oldPrice, s2, c2, w2, noise)
  {
    ActivityChangeMonotone(s1, s2, c1, c2, w1, w2, noise);
    Round2Monotone(ClampToFloor(oldPrice + ActivityChange(s1, c1, w1, noise)),
                   ClampToFloor(oldPrice + ActivityChange(s2, c2, w2, noise)));
  }

  /** The generic random walk of main.py:119: old price plus noise, rounded.
      The result is within half a cent of that sum; there is no floor. */
  function WalkPrice(price: real, noise: real): (r: real)
    ensures price + noise - 0.005 < r <= price + noise + 0.005
  {
    Round2(price + noise)
  }

  /** A draw in [-1, 1] moves a walking price by at most one unit, plus half
      a cent of rounding. */
  lemma WalkWithinOneUnit(price: real, noise: real)
    requires -1.0 <= noise <= 1.0
    ensures price - 1.005 < WalkPrice(price, noise) <= price + 1.005
  {
  }

  /** Nothing keeps a walking price at the floor: 0.50 with a draw of -1
      becomes -0.50. */
  lemma WalkHasNoFloor()
    ensures WalkPrice(0.5, -1.0) == -0.5
    ensures WalkPrice(0.5, -1.0) < Floor
  {
    Round2KeepsCents(-50);
  }
}
