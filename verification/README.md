# Study-aid app core, modelled in Dafny

This project models the sequential, integer-only logic of a small study-aid
web application (a React front end with a Flask endpoint):

- the **study timer** of both front-end versions: a one-second tick that counts
  focused seconds and pays 10 points into the shared points ledger at every
  completed minute, gated on tab visibility and, in the newer version, also
  on the page being the active view and on the Pomodoro mode;
- the **Pomodoro countdown**: 25-minute study periods and 5-minute breaks that
  flip at expiry, reset to a fresh study period whenever the feature is
  switched on or off;
- the **clock text** `mm:ss` and `hh:mm:ss`, with a parser as its partner so
  that the formatted text is proved to read back as the intended fields, each
  zero-padded to two digits, and no other text of that shape does;
- the **quiz screen**: one answer per question, Next/Finish, Try Again, reset on
  a new quiz, and the score as a count of right answers;
- the **battle-resolution endpoint**: key validation, one point of damage to
  exactly one side, both healths floored at zero;
- the **reward dialog**: a 3-2-1 countdown that ends with the result and the
  Claim button on screen;
- the **admin commands** on the points ledger (+200, a floored −50, reset) and
  the Dark Mode switch.

Modules follow the source files: `Clock` (the formatting functions of both
StudyTracker files), `Awards` (the award rule both trackers share),
`StudyTracker` (frontend/components/StudyTracker.tsx), `LegacyStudyTracker`
(components/StudyTracker.tsx), `QuizViewer`, `Battle` (backend/app.py),
`RewardModal`, `SidePanel` (frontend/components/SidePanel.tsx), and
`Wrappers` (Option and Result).

State that a component updates in place is a class (`StudyTracker.Tracker`,
`LegacyStudyTracker.Tracker`, `QuizViewer.Viewer`, `RewardModal.Modal`) whose
methods say the whole new state; each class has a `Valid()` invariant that
every method keeps. One tick of a `setInterval` is one method call on that
state. The step functions (`PomodoroStep`, `RevealStep`, `ResolveTurn`, the
admin commands) are pure functions, and the lemmas about iterating them are
stated on those functions.

## Model

| member | source | states |
|---|---|---|
| `Clock.Digits` | frontend/components/StudyTracker.tsx:12 | The decimal text of n is all digits with no leading zero, one digit exactly when n < 10 and at most two exactly when n < 100 |
| `Clock.PadStart` | frontend/components/StudyTracker.tsx:12 | padStart keeps the text as a suffix, fills only on the left, and the result is as long as the width or the text, whichever is longer |
| `Clock.Pad2` | frontend/components/StudyTracker.tsx:12 | A clock field is all digits, at least two of them, exactly two iff the value is below 100, with no leading zero beyond two digits, and reads back as the value |
| `Clock.FormatTime` | frontend/components/StudyTracker.tsx:8-14 | formatTime is exactly two zero-padded fields (at least two digits, a leading zero only in a two-digit field) that read back as [t div 60, t mod 60]; the text is 5 characters iff t < 6000 |
| `Clock.HmsDecomposition` | frontend/components/StudyTracker.tsx:16-18 | Minutes (t mod 3600) div 60 and seconds t mod 60 are below 60 and 3600·h + 60·m + s = t |
| `Clock.FormatTimeLong` | frontend/components/StudyTracker.tsx:15-22 | formatTimeLong (and the legacy formatTime, components/StudyTracker.tsx:8-15) is exactly three zero-padded fields that read back as [t div 3600, (t mod 3600) div 60, t mod 60]; the text is 8 characters iff t < 360000 |
| `Clock.LegacyFormatTimeFields` | components/StudyTracker.tsx:8-15 | The legacy formatTime text reads back as three fields h, m < 60, s < 60 with 3600·h + 60·m + s = t |
| `Clock.ClockFieldUnique` | frontend/components/StudyTracker.tsx:12 | Two zero-padded fields that denote the same number are the same text, so padStart(2, '0') of toString is the only field of that shape for its value |
| `Clock.JoinFields` | frontend/components/StudyTracker.tsx:11-13 | Splitting clock text at ':' and joining the fields back with ':' gives the text back |
| `Clock.FormatTimeDetermined` | frontend/components/StudyTracker.tsx:8-14 | Any text of two zero-padded fields that reads back as t div 60 and t mod 60 is formatTime(t), so the formatTime contract fixes the text |
| `Clock.FormatTimeLongDetermined` | frontend/components/StudyTracker.tsx:15-22 | Any text of three zero-padded fields that reads back as the hours, minutes and seconds of t is formatTimeLong(t), so the formatTimeLong contract fixes the text |
| `Awards.TotalAwardPerMinute` | frontend/components/StudyTracker.tsx:83-85 | The awards of the ticks from 0 to n seconds sum to exactly 10·(n div 60) |
| `Awards.TickAward` | frontend/components/StudyTracker.tsx:84-86 | A tick to a new count pays either 0 or 10, and exactly the step of the closed form 10·(count div 60) from the previous count |
| `Awards.TotalAwardMonotone` | components/StudyTracker.tsx:41-45 | The running award total is non-negative and never decreases as the count grows |
| `StudyTracker.PomodoroStep` | frontend/components/StudyTracker.tsx:56-67 | The mode changes iff time left ≤ 1, and then to the full length of the new mode; otherwise exactly one second is taken off; 1 ≤ timeLeft ≤ period length is preserved |
| `StudyTracker.PomodoroCountsDown` | frontend/components/StudyTracker.tsx:67 | For k below the time left, k seconds take exactly k off and keep the mode |
| `StudyTracker.PomodoroExpires` | frontend/components/StudyTracker.tsx:57-65 | A period of t seconds ends exactly t seconds after it starts, in the other mode at its full length |
| `StudyTracker.PomodoroCycle` | frontend/components/StudyTracker.tsx:26-27 | From a fresh study period: a full break after 1500 s, a fresh study period again after 1800 s |
| `StudyTracker.ShouldTimerRun` | frontend/components/StudyTracker.tsx:78 | The study timer runs only if the tab is visible and the page active, never during a Pomodoro break, and, without Pomodoro or in a study period, exactly when visible and active |
| `StudyTracker.PomodoroRuns` | frontend/components/StudyTracker.tsx:50 | While the countdown runs, the study timer runs in study mode and not in a break; when Pomodoro is on but the countdown is paused, the study timer is paused too |
| `StudyTracker.StatusOf` | frontend/components/StudyTracker.tsx:101-110 | The description is "running" iff the badge says Active (the timer runs), "another page" iff the page is not active, "return to this tab" iff active but hidden, and "on a break" only while the Pomodoro countdown runs a break |
| `StudyTracker.Tracker.constructor` | frontend/components/StudyTracker.tsx:31-37 | Starts at 0 seconds, Pomodoro off, a fresh 1500 s study period |
| `StudyTracker.Tracker.SetVisible` | frontend/components/StudyTracker.tsx:43 | The visibility listener changes only the visibility flag |
| `StudyTracker.Tracker.SetActive` | frontend/components/StudyTracker.tsx:5 | Changing the active page changes only the active flag |
| `StudyTracker.Tracker.StudyTick` | frontend/components/StudyTracker.tsx:78-88 | If visible ∧ active ∧ (Pomodoro off ∨ study), elapsed goes up by exactly 1 and points by 10 iff the new count is a multiple of 60; otherwise nothing changes; never decreases either; the ledger changes by exactly what the tracker pays in, and the tracker has paid in 10·(elapsed div 60) |
| `StudyTracker.Tracker.PomodoroTick` | frontend/components/StudyTracker.tsx:50-68 | If enabled ∧ visible ∧ active, the countdown takes one PomodoroStep; otherwise it is unchanged; time and points untouched |
| `StudyTracker.Tracker.TogglePomodoro` | frontend/components/StudyTracker.tsx:138-142 | Switching on or off sets the flag and resets to study mode with 1500 s |
| `StudyTracker.Tracker.SetPoints` | frontend/components/SidePanel.tsx:83-95 | Another writer of the shared ledger (the admin commands) sets the balance; the timer state and the points this tracker has paid in are untouched, so the tracker invariant is kept |
| `LegacyStudyTracker.Tracker.constructor` | components/StudyTracker.tsx:21-22 | Starts at 0 seconds with the given visibility |
| `LegacyStudyTracker.Tracker.SetVisible` | components/StudyTracker.tsx:26-28 | The visibility listener changes only the visibility flag |
| `LegacyStudyTracker.Tracker.Tick` | components/StudyTracker.tsx:37-52 | While visible, elapsed goes up by exactly 1 and points by 10 iff the new count is a multiple of 60; while hidden nothing changes; never decreases either; keeps points = start balance + 10·(elapsed div 60) |
| `QuizViewer.Score` | components/QuizViewer.tsx:26-30 | The reduced score equals the number of positions i < len(answers) with answers[i] = quiz[i].correctAnswer, and is at most len(answers) |
| `QuizViewer.ScoreOfAppended` | components/QuizViewer.tsx:28 | One more answer adds 1 to the score iff it matches its question's correct answer |
| `QuizViewer.Viewer.constructor` | components/QuizViewer.tsx:22-24 | A new viewer is at question 0 with no answers, not finished |
| `QuizViewer.Viewer.HasAnsweredCurrent` | components/QuizViewer.tsx:60 | On a valid viewer, the current question is answered iff exactly index + 1 answers are recorded |
| `QuizViewer.Viewer.LoadQuiz` | components/QuizViewer.tsx:32-37 | A new quiz resets to question 0, no answers, not finished |
| `QuizViewer.Viewer.SelectAnswer` | components/QuizViewer.tsx:40-43 | A no-op once the current question is answered; otherwise appends exactly the chosen option, keeping earlier answers; the score grows by exactly 1 iff the appended option is the current question's correct answer; answers ≤ index + 1 is kept |
| `QuizViewer.Viewer.Next` | components/QuizViewer.tsx:45-51 | Advances the index iff index < len(quiz) − 1, else sets finished; the index never passes the last question |
| `QuizViewer.Viewer.Restart` | components/QuizViewer.tsx:53-57 | Resets to question 0, no answers, not finished, same quiz |
| `QuizViewer.ScoreWithinAnswers` | components/QuizViewer.tsx:60 | On a valid viewer, score ≤ answers recorded ≤ index + 1 |
| `Battle.ResolveTurn` | backend/app.py:25-52 | A missing key gives the 400 error and nothing else, and every other failure is the 500 error (a non-numeric health); on success damage is 1, both healths ≥ 0, exactly one target, boss hit iff the answer flag is truthy, the hit side loses one (floored at 0) and the other is only floored |
| `Battle.Truthy` | backend/app.py:34 | Python truthiness: null, false, 0 and the empty string are exactly the false values |
| `Battle.Max0` | backend/app.py:47-48 | max(0, x) is at least 0 and at least x, and is one of the two |
| `Battle.NoHealthGained` | backend/app.py:34-48 | For non-negative healths neither side gains, and the total drops by exactly one when both were positive |
| `Battle.BossFallsAfterItsHealth` | backend/app.py:34-38 | A boss with b health fed its own responses is at b − k after k ≤ b right answers, so at 0 after exactly b |
| `RewardModal.RevealStep` | components/RewardModal.tsx:21-28 | At ≤ 1 the countdown ends at 0 with the result shown; above 1 it drops by one and reveals nothing; never below 0; consistency (shown iff 0) is kept |
| `RewardModal.CountdownAfter` | components/RewardModal.tsx:20-29 | From c ≥ 1, after k seconds the number is c − k (floored at 0) and the result shows iff k ≥ c |
| `RewardModal.RevealOnThirdSecond` | components/RewardModal.tsx:15-29 | After opening, the result shows exactly from the third tick on |
| `RewardModal.Modal.constructor` | components/RewardModal.tsx:11-12 | Starts with countdown 3 and the result hidden |
| `RewardModal.Modal.SetOpen` | components/RewardModal.tsx:14-19 | Opening resets to countdown 3, result hidden; otherwise the countdown state is kept |
| `RewardModal.Modal.Tick` | components/RewardModal.tsx:20-29 | While open the state takes one RevealStep; the Claim button is visible iff open and the countdown is 0 |
| `RewardModal.Modal.ClaimVisible` | components/RewardModal.tsx:46-71 | On a valid dialog, the Claim button shows iff the dialog is open and the countdown has reached 0 |
| `SidePanel.AddPoints` | frontend/components/SidePanel.tsx:83 | The balance grows by exactly 200 |
| `SidePanel.RemovePoints` | frontend/components/SidePanel.tsx:89 | The result is ≥ 0, removes at most 50, and is exactly p − 50 when p ≥ 50 (else 0) |
| `SidePanel.ResetPoints` | frontend/components/SidePanel.tsx:95 | Any balance becomes 0 |
| `SidePanel.AddThenRemove` | frontend/components/SidePanel.tsx:83-89 | On a non-negative balance, add then remove nets +150; remove never raises and add always raises it |
| `SidePanel.RemoveTimesDrains` | frontend/components/SidePanel.tsx:89 | k removals from p ≥ 0 give p − 50·k, or 0 once that would go negative |
| `SidePanel.ThemeFor` | frontend/components/SidePanel.tsx:26-28 | Checked selects dark, unchecked light |
| `SidePanel.DarkModeChecked` | frontend/components/SidePanel.tsx:66 | The switch is on iff the theme is dark, and setting the theme from the switch as shown keeps it |
| `SidePanel.ThemeToggleRoundTrip` | frontend/components/SidePanel.tsx:64-67 | Flipping the switch shows it flipped and changes the theme; flipping it twice restores the theme |

## Left out

- The `setInterval`/`clearInterval` plumbing, React effect scheduling and the `visibilitychange` listener registration: one tick is one method call, and the frontend tracker's two intervals are two methods whose interleaving within a second is left to the caller.
- Audio playback at the start of a break (frontend/components/StudyTracker.tsx:39, 60): a browser API with no effect on the state.
- All JSX, CSS and Tailwind class selection, the loading skeleton and the presentational files (headers, flashcards, notes editor, page shells).
- The quiz percentage (components/QuizViewer.tsx:83): floating-point division and rounding.
- The generative-AI service client and the async generate/try/finally orchestration in App.tsx, including its empty-notes guard: network and a foreign SDK.
- Flask routing, CORS, JSON decoding and `app.run` in backend/app.py: the request body is given as an already decoded map.
- Battle.ResolveTurn: JSON floats, arrays and objects are not modelled, and a boolean health value (which Python would treat as 0 or 1) is treated like any other non-number, as the 500 error.
- Battle.ResolveTurn: the 500 status for a non-numeric health stands for the uncaught Python TypeError; the server's error page is not modelled.
- QuizViewer.Viewer.SelectAnswer: only promises that the current question is answered afterwards when the answers were aligned with the index; the handler of Next does not itself check that an answer was given (the button is only rendered once it is), so a direct call can leave a question unanswered.
- Clock: a second count is a natural number; no caller formats a negative count.
- The shop, armor, boss-battle screen and weighted reward draw: none of that logic is in the modelled files.
