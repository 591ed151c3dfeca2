# Quiz session model

A Dafny model of the session logic of a config-driven escape-game quiz page
(`script.js`). A participant enters a code, reads the instructions, solves
five riddles in order and sees a score made of elapsed time, errors and
hints. The model keeps the logic and drops the browser: the session is an
immutable record, each click handler is a pure function, and the clock
(`now`, in milliseconds) is a parameter.

Modules:

- `Options`: the `Option` type.
- `Text`: ECMAScript `trim`, ASCII upper-casing, decimal rendering.
- `Clock`: reading stored timestamps (`getStartTime`, `getLastSuccessTime`),
  `Math.floor(ms / 1000)`, `secondsSinceStart` / `secondsSinceLastSuccess`.
- `Screens`: the screen enum, the fixed screen order, and `showScreen`.
- `Quiz`: the configuration fields the logic reads (`validPrefixes`,
  riddles with their answer keys, whether a pre-score page exists).
- `State`: the session record and the feedback each handler gives.
- `CodeEntry`: the `btnValidateCode` handler.
- `Riddles`: the validate handlers of riddles 1 to 5 and the riddle-2 hint
  toggles.
- `Score`: `showScore`.
- `Game`: events, one transition per event, runs of events, and the
  properties of whole runs: screen order, error counting, time chaining.

The session record holds the five stored values (`userCode`, `startTime`,
`lastSuccessTime`, `totalErrors`, `totalHints`). It also holds the page
state the handlers act on:

- the visible screen;
- the success modal, with the screen its continue action shows;
- the riddle-2 hint indices already used;
- the riddle-2 hints currently displayed.

Stored timestamps are `Option<int>`. `None` means absent or not a number.

Three behaviours of the code that are easy to misread:

- **Failed configuration load.** A failed load skips `initUI`
  (script.js:784-796), so no click handler is ever installed and every
  click does nothing. `Game.Step` with no configuration ignores every
  event. The `validPrefixes` TypeError at script.js:739 (`CodeFault`)
  happens only when a configuration loads without that field. Even then it
  happens only for trimmed codes of at least four characters, because the
  shorter-prefix test short-circuits first.
- **Hints after a new code.** Accepting a code resets the stored counters.
  It does not reset the set of used hints, which lives in a closure for the
  whole page load (script.js:397). A hint revealed before a new code was
  entered is not counted again.
- **Score time.** `showScore` tests the raw stored start time for
  truthiness (script.js:213-219), not for positivity as `getStartTime` does.
  An absent start time or a zero start time shows the dash.

`Game.Enabled` states which controls can be reached: a control on a hidden
screen cannot be clicked, and while the modal is open only its continue
action (button or backdrop) can be used. The transitions themselves do not
check this, just as the handlers do not. It is used only as the hypothesis
of the progression lemmas.

## Model

| member | source | states |
|---|---|---|
| Text.Trim | script.js:736 | the result is the input with exactly its leading and trailing ECMAScript whitespace removed: it splits the input into whitespace + result + whitespace, does not start or end with whitespace, and is empty exactly when the input is all whitespace |
| Text.TrimUnique | script.js:736 | trimming is determined by the tight middle: whitespace + m + whitespace trims to m |
| Text.TrimAbsorbsSpace | script.js:736 | whitespace added around a code does not change what trim returns |
| Text.TrimIdempotent | script.js:736 | trimming twice is trimming once |
| Text.Upper | script.js:737 | upper-casing keeps the length, maps each character through ASCII upper-casing and leaves no lower-case ASCII letter |
| Text.UpperCommutesWithTrim | script.js:736-737 | upper-casing and trimming can be done in either order |
| Text.NatToDecimal | script.js:226 | the decimal rendering of a number is a non-empty digit string without a leading zero |
| Text.DecimalRoundTrip | script.js:226 | reading the decimal rendering back gives the number |
| Text.IntToDecimal | script.js:226 | negative numbers render with a leading minus sign followed by the digits of their magnitude, every number without leading zeros, as a template literal renders it |
| Clock.ReadTimestamp | script.js:37-45 | a stored timestamp counts exactly when it is present and positive, and then it is the stored value |
| Clock.WholeSeconds | script.js:55 | `Math.floor(ms / 1000)`: the result is the whole number of seconds s with s*1000 <= ms < s*1000 + 1000, also for negative spans |
| Clock.SecondsSince | script.js:52-64 | elapsed whole seconds are present exactly when the stored timestamp counts, and then bracket now minus the timestamp |
| Clock.WholeSecondsMonotonic | script.js:60-64 | a later reference time never yields more elapsed seconds |
| Screens.Rank | script.js:764-773 | every screen has a position in the fixed order splash, code, instructions, riddle 1 to 5, pre-score, score, post-score |
| Screens.Next | script.js:764-773 | the screen after s is the one whose position is one more |
| Screens.PageIds | script.js:144-145 | the eleven element ids the page's handlers pass to `showScreen` (screen-splash, screen-code, screen-instructions, screen-riddle1 to 5, screen-preScore, screen-score, screen-postScore) are, listed in the fixed order, exactly the ids `Id` gives the screens; they are taken to be the page's `.screen` elements |
| Screens.IdInjective | script.js:149 | no two screens share an id |
| Screens.Show | script.js:144-163 | afterwards an element is visible exactly when its id equals the target, and the "found" flag is set exactly when some id equals it |
| Screens.AtMostOneVisible | script.js:154-160 | with distinct ids, at most one element is visible after showing a screen |
| Screens.ShowScreen | script.js:144-163 | showing a known screen makes exactly that screen visible and hides all others |
| Screens.UnknownIdHidesAll | script.js:163 | an id that names no screen leaves every screen hidden |
| Quiz.FindIndex | script.js:320 | the position found is the first riddle with the given id, and there is none exactly when no riddle has that id |
| Quiz.FindRiddle | script.js:320 | the riddle found has the id and is the one at the first position holding that id, as `Array.prototype.find` picks it; none is found exactly when no riddle has the id |
| CodeEntry.Prefix | script.js:737 | the prefix is the first min(4, length) characters, upper-cased |
| CodeEntry.SubmitCode | script.js:736-764 | accepted exactly when the upper-cased first four characters of the trimmed code have length 4 and are listed; a missing prefix list faults exactly when that prefix has length 4; anything but acceptance changes no field; acceptance stores the trimmed code, sets start and last-success time to now and both counters to 0, and shows the instructions |
| CodeEntry.SubmitIgnoresPadding | script.js:736 | whitespace around the typed code changes neither the verdict nor the resulting session |
| CodeEntry.SubmitIgnoresCase | script.js:737-739 | the verdict does not depend on the case of ASCII letters in the code |
| CodeEntry.AcceptedPrefixIsUpperCase | script.js:737-739 | an accepted prefix has no lower-case letter, so lower-case entries in the prefix list can never match |
| CodeEntry.AcceptsListedPrefix | script.js:736-764 | " abcd1234 " with prefix list ["ABCD"] is accepted, stores "abcd1234", zeroes both counters and shows the instructions |
| Riddles.Succeed | script.js:360-380 | a success reports the whole seconds since the stored last-success time, taken before it is overwritten; it then stores now and changes no counter; riddles 1 to 4 open a modal leading to the next screen in the order, and riddle 5 shows the next screen (pre-score) directly |
| Riddles.ValidateSingle | script.js:341-381 | no riddle in the configuration: nothing happens; empty answer: nothing changes; a non-empty answer other than the key: errors rise by exactly 1, nothing else changes, and the feedback names the riddle; the key: success with errors unchanged; each outcome exactly under its condition |
| Riddles.CountCorrect | script.js:456-465 | the count is at most the number of sub-questions, and equals it exactly when every sub-answer is non-empty and matches its key |
| Riddles.CountCorrectIsHits | script.js:458-465 | the count is exactly the number of sub-questions whose answer is non-empty and equals their key |
| Riddles.CountCorrectLoop | script.js:458-465 | the counting loop computes that count |
| Riddles.BlankAnswerFallsShort | script.js:464 | a blank or missing sub-answer always leaves the count short |
| Riddles.ValidateMulti | script.js:456-503 | the riddle succeeds exactly when every sub-answer matches; otherwise errors rise by exactly 1, nothing else changes, the feedback names the riddle, the reported correct count is the number of matching sub-answers, and it is below the reported total, which is the number of sub-questions |
| Riddles.RevealHint | script.js:439-448 | clicking an existing hint button toggles that hint and nothing else; the hint counter rises by 1 exactly when the index was not used before; the index becomes used; a click does nothing exactly when its sub-question has no button |
| Riddles.RevealLast | script.js:439-448 | a valid click sequence ends with a click that takes effect |
| Riddles.HintsUsed | script.js:441-442 | after any valid click sequence the used set is the old one plus the clicked indices, and errors are unchanged |
| Riddles.TallyCountsFresh | script.js:441-442 | a counter that adds one per click on an index neither used nor clicked before ends at its start plus the number of distinct fresh indices |
| Riddles.HintsTally | script.js:439-448 | along valid clicks the session's hint counter moves exactly as that per-click counter |
| Riddles.HintCount | script.js:439-448 | over any valid click sequence the hint counter rises by the number of distinct clicked indices not used before |
| Riddles.HintVisibility | script.js:440 | a hint is displayed after a click sequence exactly when its old state differs from the parity of its click count |
| Score.JsRemainder | script.js:225 | JavaScript's `%`: the dividend minus the remainder is a multiple of the divisor, and the remainder has the sign of the dividend with magnitude below the divisor |
| Score.JsRemainderOdd | script.js:225 | the truncating remainder is odd in the dividend |
| Score.SplitAsWritten | script.js:224-225 | for non-negative spans the page's minutes and seconds recombine to the span, with seconds in 0..59 |
| Score.NegativeSpanMisrendered | script.js:222-226 | for a span of -5 s the page's split is (-1, -5), which does not recombine to -5, and the text is "-1 min -5 s" |
| Score.Split | script.js:224-225 | minutes*60 + seconds equals the span and 0 <= seconds < 60, for every span |
| Score.SplitUnique | script.js:224-225 | that decomposition is unique |
| Score.SplitAgreesWhenNonNegative | script.js:224-225 | for non-negative spans the corrected split equals the page's split |
| Score.FormatDurationParts | script.js:226 | the duration text is "M min S s" for the unique M, S with M*60 + S equal to the span and 0 <= S < 60 |
| Score.ScoreTime | script.js:213-227 | an absent or zero start time shows the dash; any other start time shows the formatted whole seconds since it |
| Score.ShowScore | script.js:212-235 | the score shows that time line, read from the stored start time, and the stored errors and hints verbatim |
| Score.ScoreAfter125Seconds | script.js:219-226 | 125 seconds after the start the score reads "2 min 5 s" |
| Game.HideSplash | script.js:169-173 | the splash gives way to the code screen; only the screen changes |
| Game.EnterRiddles | script.js:767-769 | the instructions button shows riddle 1; only the screen changes |
| Game.CloseModal | script.js:86-91 | with a modal open, closing it shows the screen its continuation names and changes nothing else; without one nothing happens; either way the participant's destination is unchanged |
| Game.OpenScore | script.js:265-272 | with a pre-score page configured the button shows the score screen and fills it from the session as it was; only the screen changes; without one the button has no handler |
| Game.LeaveScore | script.js:771-774 | the score screen's continue button shows the post-score screen; only the screen changes |
| Game.Step | script.js:722-796 | without a configuration every event is ignored; an ignored event changes nothing; navigation changes only screen and modal; the code and start time change only when a code is accepted, the last-success time only then or at a success, the hint counter only then or at a hint click, and the hint sets only at a hint click |
| Game.Boot | script.js:784-796 | the page starts on the splash, or on the code screen when the configuration did not load, with no modal and no hint used, and with the stored code, times and counters as storage holds them |
| Game.StepFollowsOrder | script.js:764-773 | an enabled event either leaves the participant's destination alone or moves it to the next screen in the fixed order, exactly when its feedback says it advanced |
| Game.SolveThenContinue | script.js:375-380 | solving riddle n < 5 keeps its screen under an open modal, and continuing shows riddle n + 1 |
| Game.LastRiddleToScore | script.js:713-717 | solving riddle 5 shows the pre-score screen with no modal, and its button shows the score |
| Game.RunFollowsOrder | script.js:764-773 | along an enabled run the destination moves forward once per advancing feedback and never back |
| Game.StepCountsErrors | script.js:350-352 | apart from accepting a code, an event adds one error exactly when its feedback reports a wrong answer, and none otherwise |
| Game.RunCountsErrors | script.js:350-352 | until a code is accepted again, the error counter grows by exactly the number of wrong validations in the run |
| Game.RunWithoutConfig | script.js:784-796 | without a loaded configuration no event changes the session |
| Game.StepKeepsChronology | script.js:744-748 | with a clock that does not go back, a stored start time is always accompanied by a last-success time between it and the clock |
| Game.RunKeepsChronology | script.js:744-748 | the same holds along a whole run whose clock readings do not decrease |
| Game.SolvedDeltaBounded | script.js:60-64 | on such a session the seconds reported at a success are present, non-negative and at most the seconds since the start |

## Left out

- Browser storage as strings. `localStorage` and its `Number(...)` parsing
  are left out: the counters are `nat`, and a non-numeric counter (NaN in
  the page) cannot be represented.
- Fetching `config.json`. The fetch is left out; the configuration is a
  given value, or `None` when loading failed.
- Loose JSON shapes. A `validPrefixes` given as a string (where `includes`
  would test substrings) is not modelled.
- Analytics. `track`, `logToSheet`, `baseTrackData` and the Umami calls are
  fire-and-forget I/O with no effect on the session. The feedback values
  carry part of what those events report: riddle, correct count and total
  of `riddle_error`; riddle and delta of `riddle_success`; the sub-question
  index of `hint_used`; errors and hints of `game_completed`. Not carried:
  the `baseTrackData` fields of every event (`userCode`, `prefix`,
  `secondsSinceStart`, script.js:131-141), the `prefix` of
  `code_validated` (script.js:759) and the `totalSeconds` of
  `game_completed` (script.js:236).
- DOM rendering. Left out: `applyTexts`, option building, modal styling,
  `revealMessage`, the CSS class toggle in `showScreen`, and all message
  strings. The "(correct/total)" numbers are kept in `WrongAnswers`.
- Timers and navigation. The 3500 ms splash timer is the `SplashDone`
  event. The 250 ms redirect, the `window.location` navigation of the
  post-score button, and the Umami debug timer are left out.
- Screens.ShowScreen: the page markup is not part of this model. Its
  `.screen` elements are taken to be exactly the eleven ids the handlers
  pass to `showScreen`, and their order in the markup is not known.
- Text.Upper, CodeEntry.Prefix: `toUpperCase` is modelled on ASCII letters only. The
  page also upper-cases other letters, which can lengthen the string
  ("ß" becomes "SS").
- CodeEntry.Prefix: the prefix counts Unicode code points. `slice(0, 4)`
  counts UTF-16 units, so the two differ for characters outside the Basic
  Multilingual Plane.
- Riddles.Succeed: one clock reading per success. The page reads
  `Date.now()` for the new last-success time (script.js:361) and again
  inside `secondsSinceLastSuccess` (script.js:63) for the reported delta.
  The model uses one `now` for both, so when the two readings straddle a
  second boundary the page reports a delta one second larger than the
  model's.
- Score.ShowScore: the displayed time uses the single `Date.now()` at
  script.js:222, which is the model's `now`. The second reading at
  script.js:236 feeds only the analytics event, which is left out.
- Score.ScoreTime: uses the corrected minute/second split (see Findings),
  so for a negative span it differs from the page.
- Score.ShowScore: shows `Score.ScoreTime`, so it inherits that
  difference for negative spans.

## Findings

| source | as written | input that shows it | evidently intended | confidence | as-written member | corrected member |
|---|---|---|---|---|---|---|
| script.js:222-226 | minutes use `Math.floor(seconds / 60)` but seconds use `seconds % 60`, and `%` truncates toward zero | clock set back so the score is viewed 5 s before the stored start: seconds = -5, shown as "-1 min -5 s" (-65 s) | minutes*60 + seconds equals the span and 0 <= seconds < 60 | low (needs a clock that goes back); not executed | Score.NegativeSpanMisrendered | Score.Split |
