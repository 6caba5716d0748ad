/**
 * Points the study timer awards: after every one-second tick the timer looks
 * at the new elapsed-second count and awards PointsPerMinute points when it
 * is a positive multiple of SecondsPerPointAward. Both the current and the
 * legacy study tracker use this rule.
 */
module Awards {

  const PointsPerMinute := 10
  const SecondsPerPointAward := 60

  /**
   * Points awarded by the tick whose new elapsed count is newTime: one
   * minute's points or nothing, and exactly the amount by which that tick
   * moves the per-minute total 10 * (count div 60).
   */
  function TickAward(newTime: int): (r: int)
    ensures r == 0 || r == PointsPerMinute
    ensures newTime > 0 ==>
      r == PointsPerMinute * (newTime / SecondsPerPointAward)
         - PointsPerMinute * ((newTime - 1) / SecondsPerPointAward)
  {
    if newTime > 0 && newTime % SecondsPerPointAward == 0 then
      assert newTime / 60 == (newTime - 1) / 60 + 1;
      PointsPerMinute
    else
      assert newTime > 0 ==> newTime / 60 == (newTime - 1) / 60;
      0
  }

  /** Points awarded by the ticks that took the count from 0 to n. */
  function TotalAward(n: nat): int
  {
    if n == 0 then 0 else TotalAward(n - 1) + TickAward(n)
  }

  /**
   * The awards of n ticks from zero are exactly one minute's points per
   * completed minute: 10 * (n div 60).
   */
  lemma {:induction false} TotalAwardPerMinute(n: nat)
    ensures TotalAward(n) == PointsPerMinute * (n / SecondsPerPointAward)
  {
    if n > 0 {
      TotalAwardPerMinute(n - 1);
    }
  }

  /** The running total never decreases as the clock advances. */
  lemma {:induction false} TotalAwardMonotone(m: nat, n: nat)
    requires m <= n
    ensures 0 <= TotalAward(m) <= TotalAward(n)
  {
    TotalAwardPerMinute(m);
    TotalAwardPerMinute(n);
    assert m / 60 <= n / 60;
  }
}
