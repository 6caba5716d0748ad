/**
 * The study tracker of the current front end: a count-up study timer that
 * feeds the shared points ledger, and an optional Pomodoro countdown that
 * alternates 25-minute study periods with 5-minute breaks.
 *
 * The two one-second intervals of the tracker are the methods StudyTick and
 * PomodoroTick; each checks its own run condition on the state it finds, and
 * the order in which they fire within a second is the scheduler's choice.
 */
module StudyTracker {
  import opened Awards

  const StudyDuration := 25 * 60
  const BreakDuration := 5 * 60

  datatype Mode = Study | Break

  function Duration(mode: Mode): int
  {
    match mode
    case Study => StudyDuration
    case Break => BreakDuration
  }

  /**
   * The study timer counts only while the tab is visible and this page is
   * shown, never during a Pomodoro break, and without Pomodoro it depends
   * on visibility and the active page alone.
   */
  function ShouldTimerRun(visible: bool, active: bool, pomodoroEnabled: bool, mode: Mode): (run: bool)
    ensures run ==> visible && active
    ensures pomodoroEnabled && mode == Break ==> !run
    ensures !pomodoroEnabled ==> (run <==> visible && active)
    ensures pomodoroEnabled && mode == Study ==> (run <==> visible && active)
  {
    visible && active && (!pomodoroEnabled || mode == Study)
  }

  /**
   * The Pomodoro countdown runs while it is enabled, the tab is visible and
   * this page is shown. While it runs the study timer runs exactly in study
   * mode; when it is enabled but paused, the study timer is paused too.
   */
  function PomodoroRuns(pomodoroEnabled: bool, visible: bool, active: bool): (runs: bool)
    ensures runs ==>
      ShouldTimerRun(visible, active, pomodoroEnabled, Study) &&
      !ShouldTimerRun(visible, active, pomodoroEnabled, Break)
    ensures pomodoroEnabled && !runs ==>
      !ShouldTimerRun(visible, active, pomodoroEnabled, Study) &&
      !ShouldTimerRun(visible, active, pomodoroEnabled, Break)
  {
    pomodoroEnabled && visible && active
  }

  /** The Pomodoro countdown: the current mode and the seconds left in it. */
  datatype Pomodoro = Pomodoro(mode: Mode, timeLeft: int)

  /** Seconds left lie between 1 and the full length of the current period. */
  predicate InPeriod(p: Pomodoro)
  {
    1 <= p.timeLeft <= Duration(p.mode)
  }

  /**
   * One second of the Pomodoro countdown. At one second or less the period
   * expires: study turns to a full break and a break turns to a full study
   * period. Otherwise one second is taken off and the mode stays.
   */
  function PomodoroStep(p: Pomodoro): (r: Pomodoro)
    ensures r.mode != p.mode <==> p.timeLeft <= 1
    ensures p.timeLeft <= 1 ==> r.timeLeft == Duration(r.mode)
    ensures p.timeLeft > 1 ==> r.timeLeft == p.timeLeft - 1
    ensures InPeriod(p) ==> InPeriod(r)
  {
    if p.timeLeft <= 1 then
      if p.mode == Study then Pomodoro(Break, BreakDuration) else Pomodoro(Study, StudyDuration)
    else
      Pomodoro(p.mode, p.timeLeft - 1)
  }

  /** The countdown after k seconds. */
  function PomodoroAfter(p: Pomodoro, k: nat): Pomodoro
  {
    if k == 0 then p else PomodoroStep(PomodoroAfter(p, k - 1))
  }

  lemma {:induction false} PomodoroAfterSplit(p: Pomodoro, j: nat, k: nat)
    ensures PomodoroAfter(p, j + k) == PomodoroAfter(PomodoroAfter(p, j), k)
  {
    if k > 0 {
      PomodoroAfterSplit(p, j, k - 1);
    }
  }

  /** Before a period expires, each second takes exactly one second off and keeps the mode. */
  lemma {:induction false} PomodoroCountsDown(p: Pomodoro, k: nat)
    requires k < p.timeLeft
    ensures PomodoroAfter(p, k) == Pomodoro(p.mode, p.timeLeft - k)
  {
    if k > 0 {
      PomodoroCountsDown(p, k - 1);
    }
  }

  /** A period of t seconds ends exactly t seconds after it starts, with the other mode at full length. */
  lemma PomodoroExpires(p: Pomodoro)
    requires p.timeLeft >= 1
    ensures PomodoroAfter(p, p.timeLeft).mode != p.mode
    ensures InPeriod(PomodoroAfter(p, p.timeLeft))
    ensures PomodoroAfter(p, p.timeLeft).timeLeft == Duration(PomodoroAfter(p, p.timeLeft).mode)
  {
    PomodoroCountsDown(p, p.timeLeft - 1);
  }

  /**
   * From a fresh study period the countdown reaches a full break after 1500
   * seconds and is back at a fresh study period after 1800.
   */
  lemma PomodoroCycle()
    ensures PomodoroAfter(Pomodoro(Study, StudyDuration), StudyDuration) == Pomodoro(Break, BreakDuration)
    ensures PomodoroAfter(Pomodoro(Study, StudyDuration), StudyDuration + BreakDuration)
         == Pomodoro(Study, StudyDuration)
  {
    var start := Pomodoro(Study, StudyDuration);
    PomodoroExpires(start);
    var onBreak := PomodoroAfter(start, StudyDuration);
    PomodoroExpires(onBreak);
    PomodoroAfterSplit(start, StudyDuration, BreakDuration);
  }

  /** The explanation shown under the Active/Paused badge, in priority order. */
  datatype Status = OnAnotherPage | TabHidden | OnBreak | Running

  /**
   * The description under the badge. It says Running exactly when the
   * badge says Active (the study timer runs), OnAnotherPage whenever this
   * page is not shown, and OnBreak only while the Pomodoro countdown runs a break.
   */
  function StatusOf(visible: bool, active: bool, pomodoroEnabled: bool, mode: Mode): (st: Status)
    ensures st == Running <==> ShouldTimerRun(visible, active, pomodoroEnabled, mode)
    ensures st == OnAnotherPage <==> !active
    ensures st == TabHidden <==> active && !visible
    ensures st == OnBreak ==> PomodoroRuns(pomodoroEnabled, visible, active) && mode == Break
  {
    if !active then OnAnotherPage
    else if !visible then TabHidden
    else if pomodoroEnabled && mode == Break then OnBreak
    else Running
  }

  class Tracker {
    var elapsed: nat
    var visible: bool
    var active: bool
    var pomodoroEnabled: bool
    var mode: Mode
    var timeLeft: int
    /** The shared points ledger, which the admin commands also write. */
    var points: int
    /** The points this tracker has paid into the ledger so far. */
    ghost var awarded: int

    ghost predicate Valid()
      reads this
    {
      InPeriod(Pomodoro(mode, timeLeft)) &&
      awarded == PointsPerMinute * (elapsed / SecondsPerPointAward)
    }

    function IsRunning(): bool
      reads this
    {
      ShouldTimerRun(visible, active, pomodoroEnabled, mode)
    }

    constructor (visible: bool, active: bool, points: int)
      ensures Valid()
      ensures elapsed == 0 && !pomodoroEnabled && mode == Study && timeLeft == StudyDuration
      ensures this.visible == visible && this.active == active && this.points == points
    {
      elapsed := 0;
      this.visible := visible;
      this.active := active;
      pomodoroEnabled := false;
      mode := Study;
      timeLeft := StudyDuration;
      this.points := points;
      awarded := 0;
    }

    /** The visibilitychange listener. */
    method SetVisible(visible: bool)
      requires Valid()
      modifies this
      ensures Valid() && this.visible == visible
      ensures active == old(active) && pomodoroEnabled == old(pomodoroEnabled)
      ensures elapsed == old(elapsed) && points == old(points)
      ensures mode == old(mode) && timeLeft == old(timeLeft)
    {
      this.visible := visible;
    }

    /** The page shell showing or hiding this page. */
    method SetActive(active: bool)
      requires Valid()
      modifies this
      ensures Valid() && this.active == active
      ensures visible == old(visible) && pomodoroEnabled == old(pomodoroEnabled)
      ensures elapsed == old(elapsed) && points == old(points)
      ensures mode == old(mode) && timeLeft == old(timeLeft)
    {
      this.active := active;
    }

    /**
     * One second of the study timer. When it runs, the elapsed count goes up
     * by exactly one and the ledger gains 10 points iff the new count is a
     * positive multiple of 60; otherwise nothing changes.
     */
    method StudyTick()
      requires Valid()
      modifies this
      ensures Valid()
      ensures visible == old(visible) && active == old(active) && pomodoroEnabled == old(pomodoroEnabled)
      ensures mode == old(mode) && timeLeft == old(timeLeft)
      ensures old(IsRunning()) ==> elapsed == old(elapsed) + 1
      ensures old(IsRunning()) ==>
        points == old(points) + (if elapsed % 60 == 0 then PointsPerMinute else 0)
      ensures !old(IsRunning()) ==> elapsed == old(elapsed) && points == old(points)
      ensures points - old(points) == awarded - old(awarded)
      ensures elapsed >= old(elapsed) && points >= old(points)
    {
      if ShouldTimerRun(visible, active, pomodoroEnabled, mode) {
        var newTime := elapsed + 1;
        var award := TickAward(newTime);
        points := points + award;
        awarded := awarded + award;
        elapsed := newTime;
      }
    }

    /** One second of the Pomodoro countdown, combined with the mode switch at expiry. */
    method PomodoroTick()
      requires Valid()
      modifies this
      ensures Valid()
      ensures visible == old(visible) && active == old(active) && pomodoroEnabled == old(pomodoroEnabled)
      ensures elapsed == old(elapsed) && points == old(points)
      ensures Pomodoro(mode, timeLeft) ==
        if PomodoroRuns(pomodoroEnabled, visible, active)
        then PomodoroStep(old(Pomodoro(mode, timeLeft)))
        else old(Pomodoro(mode, timeLeft))
    {
      if PomodoroRuns(pomodoroEnabled, visible, active) {
        var next := PomodoroStep(Pomodoro(mode, timeLeft));
        mode, timeLeft := next.mode, next.timeLeft;
      }
    }

    /** The "Enable Pomodoro Technique" checkbox: either way, a fresh study period. */
    method TogglePomodoro(checked: bool)
      requires Valid()
      modifies this
      ensures Valid()
      ensures pomodoroEnabled == checked && mode == Study && timeLeft == StudyDuration
      ensures visible == old(visible) && active == old(active)
      ensures elapsed == old(elapsed) && points == old(points)
    {
      pomodoroEnabled := checked;
      mode := Study;
      timeLeft := StudyDuration;
    }

    /**
     * Another writer of the shared ledger (the admin commands of the
     * settings panel) replacing the balance. Nothing of the timer changes,
     * so later ticks keep paying per completed minute on top of the new balance.
     */
    method SetPoints(newPoints: int)
      requires Valid()
      modifies this
      ensures Valid() && points == newPoints && awarded == old(awarded)
      ensures visible == old(visible) && active == old(active) && pomodoroEnabled == old(pomodoroEnabled)
      ensures elapsed == old(elapsed) && mode == old(mode) && timeLeft == old(timeLeft)
    {
      points := newPoints;
    }
  }
}
