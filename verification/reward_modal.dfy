/**
 * The reward dialog: opening it starts a 3-2-1 countdown, one step per
 * second, and when the countdown runs out the result and the Claim Reward
 * button are shown.
 */
module RewardModal {

  const RevealSeconds := 3

  /** The countdown state: the number on screen and whether the result is revealed. */
  datatype Reveal = Reveal(countdown: int, showResult: bool)

  /** The state every opening starts from. */
  const Opened := Reveal(RevealSeconds, false)

  /** The number is between 0 and 3, and the result shows exactly when it has reached 0. */
  predicate Consistent(r: Reveal)
  {
    0 <= r.countdown <= RevealSeconds && (r.showResult <==> r.countdown == 0)
  }

  /**
   * One second of the interval: at 1 or below the countdown ends at 0 with
   * the result revealed; above 1 it goes down by one and nothing is revealed.
   */
  function RevealStep(r: Reveal): (next: Reveal)
    ensures next.countdown >= 0
    ensures r.countdown <= 1 ==> next == Reveal(0, true)
    ensures r.countdown > 1 ==> next.countdown == r.countdown - 1 && next.showResult == r.showResult
    ensures Consistent(r) ==> Consistent(next)
  {
    if r.countdown <= 1 then Reveal(0, true) else Reveal(r.countdown - 1, r.showResult)
  }

  function RevealAfter(r: Reveal, k: nat): Reveal
  {
    if k == 0 then r else RevealStep(RevealAfter(r, k - 1))
  }

  /**
   * From a countdown of c >= 1 with nothing revealed, after k seconds the
   * number is c - k floored at 0, and the result shows iff k >= c.
   */
  lemma {:induction false} CountdownAfter(c: int, k: nat)
    requires c >= 1
    ensures RevealAfter(Reveal(c, false), k) ==
      if k >= c then Reveal(0, true) else Reveal(c - k, false)
  {
    if k > 0 {
      CountdownAfter(c, k - 1);
    }
  }

  /** The result appears on exactly the third second after opening. */
  lemma RevealOnThirdSecond(k: nat)
    ensures RevealAfter(Opened, k).showResult <==> k >= 3
    ensures Consistent(RevealAfter(Opened, k))
  {
    CountdownAfter(RevealSeconds, k);
  }

  class Modal {
    var isOpen: bool
    var countdown: int
    var showResult: bool

    ghost predicate Valid()
      reads this
    {
      Consistent(Reveal(countdown, showResult))
    }

    /** The Claim Reward button is on screen. */
    function ClaimVisible(): (r: bool)
      reads this
      ensures Valid() ==> (r <==> isOpen && countdown == 0)
    {
      isOpen && showResult
    }

    constructor (isOpen: bool)
      ensures Valid()
      ensures this.isOpen == isOpen && Reveal(countdown, showResult) == Opened
    {
      this.isOpen := isOpen;
      countdown := RevealSeconds;
      showResult := false;
    }

    /**
     * The isOpen prop changing. Opening resets the countdown to 3 with the
     * result hidden; closing stops the interval and keeps the state.
     */
    method SetOpen(open: bool)
      requires Valid()
      modifies this
      ensures Valid() && isOpen == open
      ensures open && !old(isOpen) ==> Reveal(countdown, showResult) == Opened
      ensures !(open && !old(isOpen)) ==>
        countdown == old(countdown) && showResult == old(showResult)
    {
      if open && !isOpen {
        showResult := false;
        countdown := RevealSeconds;
      }
      isOpen := open;
    }

    /** One second of the interval, which only runs while the dialog is open. */
    method Tick()
      requires Valid()
      modifies this
      ensures Valid() && isOpen == old(isOpen)
      ensures Reveal(countdown, showResult) ==
        if isOpen then RevealStep(old(Reveal(countdown, showResult))) else old(Reveal(countdown, showResult))
      ensures countdown >= 0
      ensures ClaimVisible() <==> isOpen && countdown == 0
    {
      if isOpen {
        if countdown <= 1 {
          showResult := true;
          countdown := 0;
        } else {
          countdown := countdown - 1;
        }
      }
    }
  }
}
