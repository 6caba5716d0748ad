/**
 * The study tracker of the earlier front end: a count-up timer that runs
 * whenever the browser tab is visible and awards points to the shared
 * ledger once per completed minute. It has no Pomodoro mode and no notion
 * of the active page.
 */
module LegacyStudyTracker {
  import opened Awards

  class Tracker {
    var elapsed: nat
    var visible: bool
    /** The shared points ledger. */
    var points: int
    /** The ledger balance when the tracker was created. */
    ghost var initialPoints: int

    ghost predicate Valid()
      reads this
    {
      points == initialPoints + PointsPerMinute * (elapsed / SecondsPerPointAward)
    }

    constructor (visible: bool, points: int)
      ensures Valid()
      ensures elapsed == 0 && this.visible == visible && this.points == points
    {
      elapsed := 0;
      this.visible := visible;
      this.points := points;
      initialPoints := points;
    }

    /** The visibilitychange listener. */
    method SetVisible(visible: bool)
      requires Valid()
      modifies this
      ensures Valid() && this.visible == visible
      ensures elapsed == old(elapsed) && points == old(points)
    {
      this.visible := visible;
    }

    /**
     * One second of the interval. While the tab is visible the count goes
     * up by exactly one and the ledger gains 10 points iff the new count is
     * a positive multiple of 60; while it is hidden nothing changes.
     */
    method Tick()
      requires Valid()
      modifies this
      ensures Valid() && visible == old(visible)
      ensures old(visible) ==> elapsed == old(elapsed) + 1
      ensures old(visible) ==>
        points == old(points) + (if elapsed % 60 == 0 then PointsPerMinute else 0)
      ensures !old(visible) ==> elapsed == old(elapsed) && points == old(points)
      ensures elapsed >= old(elapsed) && points >= old(points)
    {
      if visible {
        var newTime := elapsed + 1;
        if newTime % SecondsPerPointAward == 0 && newTime > 0 {
          points := points + PointsPerMinute;
        }
        elapsed := newTime;
      }
    }
  }
}
