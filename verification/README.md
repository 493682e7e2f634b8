# learnpasswords: strength meter and practice session, modelled in Dafny

learnpasswords is a single-page application. A parent sets a password for a
child, and the child practises typing it to earn stars. Around its UI code it
has two small pieces of deterministic logic, and this project models both.

- **The parent's strength meter** (`calculatePasswordStrength` in
  `components/admin-screen.tsx`). It maps a password to a score, a level
  (weak, fair, good, strong) and one of eight crack-time labels. The parent's
  input field also strips every whitespace character from each edit.
- **The child's practice session** (`components/child-screen.tsx`). The state
  is the typed text, the stars, the attempt count, the feedback message, the
  success flag and the celebration flag. Each change of the typed text is
  classified against the parent's password as a success, a failure (too long
  or try again) or nothing. Two three-second timers later clear the feedback.
  The level, the stars in the level, the level name and the encouragement
  message are derived from this state.

Files:

- `js.dfy` (module `Js`): JavaScript strings as sequences of UTF-16 code units, and the `\s` class.
- `strength.dfy` (module `Strength`): the scorer and its properties.
- `password_input.dfy` (module `PasswordInput`): whitespace stripping of the parent's input.
- `practice.dfy` (module `Practice`): the session record, the input step, the two timer events, traces and the derived display values.

Modelling choices:

- Strings are `seq<CodeUnit>`, where a code unit is an integer below 0x10000. JavaScript's `.length` counts code units. A regular expression without the `u` flag tests one code unit at a time. So the ASCII ranges `[a-z]`, `[A-Z]` and `[0-9]` are exact, and every non-ASCII code unit, such as `ł` (U+0142), falls in `[^A-Za-z0-9]`.
- `\s` is the ECMAScript WhiteSpace and LineTerminator set, with the Unicode space separators as of current Unicode. Every whitespace property below holds for any such set that contains no ASCII letter or digit.
- The source computes the level and crack time from the uncapped sum and then reports `Math.min(score, 100)`. The model does the same. `RawScoreAtMostMax` shows that the cap never changes anything.
- Typing is `Type(state, target, candidate)`. It sets the typed text to `candidate` and then runs the match/mismatch effect on it. A `Typed` event whose text equals the current input changes nothing, because the field reports only real changes and the effect re-runs only when its dependencies change (components/child-screen.tsx:133). The effect also re-runs on a language switch, because it depends on the translated messages; this is the event `LanguageSwitched`. The re-run caused by the new score after a success sees an empty input and does nothing (`ScoreRerunAfterSuccessIsHarmless`). The timer callbacks are the events `SuccessTimerFired` and `FailureTimerFired`. They may occur anywhere in a trace, so every real interleaving is covered. The stars belong to the page (`childScore` in `app/page.tsx`). They reach the screen as the `score` prop, and the screen writes the new value back through `onScoreChange` (= `setChildScore`). They are kept in the session record.
- Behaviour of the code worth knowing:
  - Only immediate checking exists. The admin screen describes a "Real Mode" that checks only on Enter or a Login button (components/admin-screen.tsx:56-58). The child screen has no such flag, no submit path and no level-up acknowledgement, so none is modelled.
  - Timers are not cancelled, and they do not check whether newer feedback was shown. A late failure callback can empty the feedback box while a success is on screen. `StaleFailureTimerClearsSuccessFeedback` exhibits this.
  - With an empty target, the effect would treat any typed text as "too long". The screen hides its input field in that case. `EmptyTargetEveryInputTooLong` records this.

## Model

| member | source | states |
|---|---|---|
| Strength.Test | components/admin-screen.tsx:136-139 | the scan for a character class answers true exactly when some code unit of the password is in the class |
| Strength.InClass | components/admin-screen.tsx:136-139 | the bracket classes are ASCII-only: a code unit at or above 0x80 is in the "other" class and in no other |
| Strength.RawScore | components/admin-screen.tsx:128-139 | the uncapped sum of the six rules is a multiple of 5 in [0,100] |
| Strength.Evaluate | components/admin-screen.tsx:125-157 | the score is a multiple of 5 in [0,100]; the empty password gives (0, weak, instant); the level depends only on the score; the crack time depends only on the level and the length |
| Strength.LevelOf | components/admin-screen.tsx:142-154 | strong exactly at 75 and above, good in [50,75), fair in [25,50), weak below 25; the four ranges are disjoint and cover every score |
| Strength.CrackTimeOf | components/admin-screen.tsx:142-154 | each level owns two adjacent labels (weak: instant/seconds, fair: minutes/hours, good: days/months, strong: years/centuries) and takes the upper one from its length threshold on (4, 8, 10, 12), so the label determines the level |
| Strength.ScoreIsSumOfRules | components/admin-screen.tsx:128-139 | the score is the sum of the six rules: +25 for length >= 8, another +25 for length >= 12, +10 each for a lowercase letter, an uppercase letter and a digit, and +20 for any other code unit |
| Strength.RawScoreAtMostMax | components/admin-screen.tsx:128-156 | the six rules add up to at most 100, so `Math.min` never changes a non-empty password's score |
| Strength.EmptyShortCircuitIsRedundant | components/admin-screen.tsx:126 | the early return for the empty password gives the same result as the general rules would |
| Strength.ClassesPartition | components/admin-screen.tsx:136-139 | every code unit is in exactly one of the four classes: lowercase, uppercase, digit or "other" |
| Strength.NonAsciiIsOther | components/admin-screen.tsx:136-139 | a single non-ASCII code unit, such as `ł`, scores the 20 "other" points and nothing else |
| Strength.LongPasswordScoresAtLeastFifty | components/admin-screen.tsx:132-133 | length 12 alone is worth 50 points, so such a password is at least good |
| Strength.ShortPasswordScoresAtMostFifty | components/admin-screen.tsx:132-144 | a password under 8 code units scores at most 50 and is never strong |
| Strength.StrongNeedsEightUnits | components/admin-screen.tsx:132-144 | a strong password has at least 8 code units |
| Strength.LevelOfMonotone | components/admin-screen.tsx:142-151 | a higher score never gives a lower level |
| Strength.CrackTimeOfMonotone | components/admin-screen.tsx:145-153 | crack-time labels are ordered first by level and then by length |
| Strength.RawScoreGrows | components/admin-screen.tsx:128-139 | appending code units never lowers the uncapped sum: a rule satisfied by a prefix stays satisfied |
| Strength.AppendNeverWeakens | components/admin-screen.tsx:132-154 | appending any text to a password never lowers its score, its level or its crack-time label |
| Strength.AppendCharNeverWeakens | components/admin-screen.tsx:132-151 | appending one character never lowers the score or the level |
| Strength.AllFourClassesScore | components/admin-screen.tsx:128-139 | a password holding an uppercase letter, a lowercase letter, a digit and any other code unit earns all 50 class points on top of its length points, and that sum is the reported score |
| Strength.EightLowercaseExample | components/admin-screen.tsx:125-157 | "abcdefgh" scores 35, fair, hours |
| Strength.MaximumScoreExample | components/admin-screen.tsx:128-156 | "Abcdefgh12!@" reaches the maximum raw sum of exactly 100: strong, centuries |
| Strength.AllClassesTenExample | components/admin-screen.tsx:125-157 | "Abcdef12!@" scores 75 and is strong, but gets only years because it is shorter than 12 |
| PasswordInput.StripWhitespace | components/admin-screen.tsx:272 | the stripped text has no whitespace and is never longer than the input; it keeps every non-whitespace code unit as often as it occurs |
| PasswordInput.StripAppend | components/admin-screen.tsx:272 | stripping a concatenation is the concatenation of the stripped parts, so kept code units stay in order |
| PasswordInput.StripKeepsClean | components/admin-screen.tsx:272 | text without whitespace passes through unchanged |
| PasswordInput.StripIdempotent | components/admin-screen.tsx:272 | stripping twice equals stripping once |
| PasswordInput.StripLengthExact | components/admin-screen.tsx:272 | stripping keeps the length exactly when the input has no whitespace |
| PasswordInput.StripKeepsAlphanumericClasses | components/admin-screen.tsx:272 | stripping never adds or removes a lowercase letter, an uppercase letter or a digit class, so the meter awards those points to the stripped password exactly as to the typed one |
| Js.IsWhitespace | components/admin-screen.tsx:272 | the `\s` set holds no ASCII letter or digit |
| Practice.Enter | components/child-screen.tsx:73-78 | entering the screen starts with empty input, no attempts, no feedback and no celebration, and keeps the page's score; it satisfies the consistency invariant that every event preserves (so the success flag is off), and shows no encouragement |
| Practice.Classify | components/child-screen.tsx:99-125 | success exactly for a non-empty input equal to the target; failure exactly for a non-empty, different input at least as long as the target; otherwise nothing; a failure is "too long" exactly when the input is longer than the target |
| Practice.React | components/child-screen.tsx:98-132 | the effect awards one star only for a match and one attempt only for a mismatch, and leaves an input that never matches, so re-running it cannot award a second star |
| Practice.Type | components/child-screen.tsx:98-133 | success adds exactly one star, keeps attempts, clears the input and sets success flag, celebration and success feedback; failure keeps score, input and celebration, adds one attempt, clears the success flag and picks too-long or try-again by length; any other input changes nothing but the typed text |
| Practice.ClearAfterSuccess | components/child-screen.tsx:112-116 | the success callback empties the feedback and clears success flag and celebration, keeps score, attempts and input, and brings the encouragement back exactly when there were attempts |
| Practice.ClearAfterFailure | components/child-screen.tsx:129-131 | the failure callback empties only the feedback; score, attempts, input, success flag, celebration and the encouragement shown are unchanged |
| Practice.Step | components/child-screen.tsx:98-133 | on every event, both timer callbacks and the language switch included, the score rises by exactly one when the event fires a match and attempts by exactly one when it fires a mismatch, judged from the typed text alone; otherwise neither changes |
| Practice.RetypingSameTextIsNoChange | components/child-screen.tsx:133 | a text-field event that leaves the text as it was changes nothing, because the effect only re-runs when its inputs change |
| Practice.LanguageSwitchRecountsFailure | components/child-screen.tsx:117-133 | switching language with a failing input still in the field re-runs the effect and counts one more attempt |
| Practice.ScoreRerunAfterSuccessIsHarmless | components/child-screen.tsx:99-133 | the re-run caused by the new score after a success changes nothing |
| Practice.InputClearedOnlyByMatch | components/child-screen.tsx:99-104 | after typing, the input is empty exactly when the typed text was empty or matched |
| Practice.PrefixNeverFires | components/child-screen.tsx:99-117 | a strict prefix of the target leaves everything but the typed text unchanged |
| Practice.TargetAlwaysMatches | components/child-screen.tsx:99-104 | typing a non-empty target succeeds in every state, so a second correct entry after a clear succeeds again |
| Practice.EqualLengthMismatchIsTryAgain | components/child-screen.tsx:121-125 | a wrong input of exactly the target's length gets the try-again message, not too-long |
| Practice.EmptyTargetEveryInputTooLong | components/child-screen.tsx:117-127 | with an empty target, any non-empty input counts as a too-long failure |
| Practice.RunScore | components/child-screen.tsx:98-133 | over any trace of events the score grows by exactly the number of events that fire a match, a count computed from the typed text alone |
| Practice.RunAttempts | components/child-screen.tsx:117-133 | over any trace of events, attempts grow by exactly the number of events that fire a mismatch, a count computed from the typed text alone |
| Practice.RunScoreNeverDecreases | components/child-screen.tsx:103 | the score never decreases along any trace |
| Practice.StepKeepsConsistent | components/child-screen.tsx:98-133 | every event preserves this: success feedback only with the success flag, failure feedback only without it, and the success flag only during celebration |
| Practice.RunKeepsConsistent | components/child-screen.tsx:98-133 | consistency is kept along every trace that starts in a consistent state |
| Practice.ReachableStatesAreConsistent | components/child-screen.tsx:73-133 | every state reachable from entering the screen is consistent |
| Practice.StaleFailureTimerClearsSuccessFeedback | components/child-screen.tsx:129-131 | a failure callback firing after a later success empties the feedback while the success flag and celebration stay on |
| Practice.ProgressOf | components/child-screen.tsx:83-85 | level and stars are the quotient and remainder of the score by 5 (stars in [0,5)); the level-name index is the level while it is below 4 and the last name (index 4) from level 4 on |
| Practice.EncouragementOf | components/child-screen.tsx:277-279 | encouragement is shown exactly when there were attempts and no success is displayed; its index is a valid position in the five-message table congruent to attempts mod 5 |
| Practice.SuccessAdvancesStars | components/child-screen.tsx:83-103 | a success adds one star modulo 5, and the level rises by one exactly when the stars wrap to zero |
| Practice.FailureShowsEncouragement | components/child-screen.tsx:117-131 | after a failed attempt an encouragement is on screen |
| Practice.SuccessHidesEncouragement | components/child-screen.tsx:99-104 | while a success is displayed no encouragement is shown |

## Left out

- Rendering, styling, icons, the show/hide password toggle and the English and Polish translation tables. Feedback is the enumeration `None | Success | TryAgain | TooLong`, and only the sizes of the level-name and encouragement tables (five each) are modelled.
- The success sound (`new Audio(...).play()`). It is a browser call whose failures the source ignores, and it changes no state.
- The auto-focus timer on mount. It touches only the DOM.
- Real timer delays and their order. The two clear callbacks are events that may happen at any time.
- The admin screen's key handler that cancels the space key. Its effect is subsumed by the whitespace stripping.
- The mode toggle on the admin screen. The page does not pass `requireConfirmation` or `onRequireConfirmationChange` to the admin screen (app/page.tsx:56-63). So the toggle always shows "Simple Mode", and clicking it calls an undefined callback. No flag is ever set, and the child screen implements only immediate checking.
- Screen navigation and the page-level state in `app/page.tsx`, and the static guide in `components/password-guide.tsx`. Both are UI content with no logic.
- Astral-plane characters count as two code units in `.length`. The model follows this because it works on code units, but it does not model surrogate pairing.
