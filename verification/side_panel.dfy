/**
 * The settings panel: the admin commands that rewrite the points ledger and
 * the Dark Mode switch. Each command is a function from the old balance to
 * the new one; the ledger owner applies it.
 */
module SidePanel {

  const Bonus := 200
  const Penalty := 50

  /** "Add 200 Points". */
  function AddPoints(p: int): (r: int)
    ensures r > p && r - p == Bonus
  {
    p + Bonus
  }

  /** "Remove 50 Points": never removes more than 50 and never goes below zero. */
  function RemovePoints(p: int): (r: int)
    ensures r >= 0 && r >= p - Penalty
    ensures r == 0 || r == p - Penalty
    ensures p >= Penalty ==> r == p - Penalty
  {
    if 0 > p - Penalty then 0 else p - Penalty
  }

  /** "Reset Points". */
  function ResetPoints(p: int): (r: int)
    ensures r == 0
  {
    0
  }

  /** Removing after adding takes back only part of the bonus from a non-negative balance. */
  lemma AddThenRemove(p: int)
    requires p >= 0
    ensures RemovePoints(AddPoints(p)) == p + Bonus - Penalty
    ensures RemovePoints(p) <= p < AddPoints(p)
  {
  }

  /** Removing repeatedly from a non-negative balance reaches zero and stays there. */
  function RemoveTimes(p: int, k: nat): int
  {
    if k == 0 then p else RemovePoints(RemoveTimes(p, k - 1))
  }

  lemma {:induction false} RemoveTimesDrains(p: nat, k: nat)
    ensures RemoveTimes(p, k) == if p >= Penalty * k then p - Penalty * k else 0
  {
    if k > 0 {
      RemoveTimesDrains(p, k - 1);
    }
  }

  datatype Theme = Dark | Light

  /** The switch is drawn on exactly when the theme is dark; setting it to what it shows keeps the theme. */
  function DarkModeChecked(theme: Theme): (checked: bool)
    ensures checked <==> theme == Dark
    ensures ThemeFor(checked) == theme
  {
    theme == Dark
  }

  /** handleThemeChange: on selects dark, off selects light. */
  function ThemeFor(checked: bool): (theme: Theme)
    ensures theme == Dark <==> checked
  {
    if checked then Dark else Light
  }

  /** Flipping the switch shows it flipped and changes the theme; flipping it twice restores the theme. */
  lemma ThemeToggleRoundTrip(theme: Theme)
    ensures DarkModeChecked(ThemeFor(!DarkModeChecked(theme))) == !DarkModeChecked(theme)
    ensures ThemeFor(!DarkModeChecked(ThemeFor(!DarkModeChecked(theme)))) == theme
    ensures ThemeFor(!DarkModeChecked(theme)) != theme
  {
  }
}
