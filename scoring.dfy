/**
 * The speed-bonus score of a correct answer, `calculateScore` in
 * server/src/index.ts. The server's clock reading `Date.now()` at reveal time
 * is the parameter `now`; `timeMs` is the client-reported time the answer took,
 * so `now - timeMs` estimates when the question was answered.
 */
module Scoring {

  /** `Math.max(0, deadlineTs - (now - timeMs))`: milliseconds left before the deadline. */
  function RemainingMs(timeMs: int, deadlineTs: int, now: int): (r: nat)
    ensures r >= deadlineTs - (now - timeMs)
    ensures r == 0 || r == deadlineTs - (now - timeMs)
  {
    if deadlineTs - (now - timeMs) > 0 then deadlineTs - (now - timeMs) else 0
  }

  /**
   * `basePoints + floor(remainingMs / 100 * speedBonusMultiplier)`, computed
   * on integers: the divisor is positive, so `/` rounds down like `Math.floor`.
   */
  function CalculateScore(basePoints: int, speedBonusMultiplier: int, timeMs: int, deadlineTs: int, now: int): (points: int)
    ensures speedBonusMultiplier >= 0 ==> points >= basePoints
    ensures deadlineTs - (now - timeMs) <= 0 ==> points == basePoints
    ensures speedBonusMultiplier >= 0 ==>
      points * 100 <= basePoints * 100 + RemainingMs(timeMs, deadlineTs, now) * speedBonusMultiplier
  {
    var remaining := RemainingMs(timeMs, deadlineTs, now);
    BonusNonNegative(remaining, speedBonusMultiplier);
    basePoints + (remaining * speedBonusMultiplier) / 100
  }

  lemma BonusNonNegative(remaining: nat, multiplier: int)
    ensures multiplier >= 0 ==> (remaining * multiplier) / 100 >= 0
    ensures multiplier >= 0 ==> (remaining * multiplier) / 100 * 100 <= remaining * multiplier
  {
    if multiplier >= 0 {
      var p := remaining * multiplier;
      assert p >= 0;
    }
  }

  /** The bonus `(remaining * multiplier) / 100` grows with the time remaining. */
  lemma {:induction false} BonusMonotone(a: nat, b: nat, multiplier: nat)
    requires a <= b
    ensures (a * multiplier) / 100 <= (b * multiplier) / 100
  {
    var x, y := a * multiplier, b * multiplier;
    assert x <= y by {
      assert y - x == (b - a) * multiplier;
    }
  }

  /**
   * With a non-negative multiplier the score never falls when the answer took
   * longer by the client's report or the deadline is later, and never rises
   * when the server clock is later.
   */
  lemma ScoreMonotone(basePoints: int, multiplier: nat, t1: int, t2: int, d1: int, d2: int, n1: int, n2: int)
    requires t1 <= t2 && d1 <= d2 && n2 <= n1
    ensures CalculateScore(basePoints, multiplier, t1, d1, n1) <= CalculateScore(basePoints, multiplier, t2, d2, n2)
  {
    BonusMonotone(RemainingMs(t1, d1, n1), RemainingMs(t2, d2, n2), multiplier);
  }

  /**
   * The documented example: base 100, multiplier 2, deadline 15 s after T, an
   * answer reported as taking 5 s and revealed at T + 5 s scores the full
   * 15000 ms remaining, 100 + 150 * 2.
   */
  lemma DefaultScoringExample(t: int)
    ensures CalculateScore(100, 2, 5000, t + 15000, t + 5000) == 400
  {
  }
}
