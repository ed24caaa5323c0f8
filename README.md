# Quiz session model

A Dafny model of the quiz session in the `QuizApp` React component of a browser trivia quiz.
The component holds a small session state: the fetched questions, the index of the current
question, the selected option, the score, and the seconds left on the countdown. Handlers and
effects change that state:

- a click on an option selects it, once per question, and scores a point if it is the correct answer;
- "Next Question" clears the selection, moves to the next index and resets the clock to 5;
- a one-second interval counts the clock down while the countdown effect, when it last ran (on
  mount or on a change of index or selection), found a current question and nothing selected;
  the session auto-advances when the clock shows 0;
- a successful fetch replaces the question list;
- the options of the current question are its incorrect answers plus its correct answer, shuffled.

Layout:

- `wrappers.dfy` (module `Wrappers`): `Option`, standing for JavaScript's `null`/`undefined`.
- `quiz_session.dfy` (module `QuizSession`): the state as a `Session` value and each transition as
  a function (`SelectOption`, `NextQuestion`, `Tick`, `LoadQuestions`). React's effect wiring is
  folded into the transitions. The countdown effect's cleanup resets the clock whenever the index
  or the selection changes; that reset happens inside `SelectOption` and `NextQuestion`. The
  effect on `timer` calls the next-question handler when the clock shows 0; that call happens
  inside `Tick`. The module also holds the event sequences (`Run`, `Ticks`, `Clicks`), the
  invariants (`Valid`, `Synced`, `ScoreBound`) and the lemmas about whole sessions.
- `shuffle.dfy` (module `Shuffle`): the in-place sort with a random comparator, modelled as a
  sequence of transpositions chosen by the caller, and the proof that it permutes its array.
- `quiz_component.dfy` (module `QuizComponent`): class `QuizApp`. Its fields are the state record
  of the component, plus `intervalRunning`, which records whether the countdown effect's interval
  is running. Each method is one handler or effect. It states the new value of every field and
  ties the new `State()` to the matching `QuizSession` transition. Two client methods run
  concrete sessions.

Where the code's behaviour is easy to misread:

- A fetch replaces only `questions`. The index, score, selection and clock are not reset
  (line 32).
- The countdown effect depends only on `currentQuestion` and `selectedOption` (line 57). So it is
  re-evaluated only when one of those changes. The model keeps its outcome in `ticking` /
  `intervalRunning` instead of recomputing the interval's condition. So the first question
  never counts down (see "## Findings"). Conversely, a fetch of a shorter list can leave the
  interval running with no current question, and the ticks then move the index further past
  the end (`QuizSession.EmptyReloadKeepsCountdown`).
- The question-count input is stored without clamping (line 161). It is outside the model (see
  "## Left out").
- The index can go past the end of the list: the handlers do not guard against it. Past the end,
  no option is correct (optional chaining at line 69) and there are no options to show (line 84).

## Model

| member | source | states |
|---|---|---|
| `QuizSession.SelectOption` | src/components/QuizApp.js:65-73 | no contract of its own: the option-click handler with the effect cleanup folded in; its behaviour is stated by `SelectIsOneShot`, `SelectScores`, `RepeatedClicks` and `SelectionHoldsTimer` |
| `QuizSession.IsCorrect` | src/components/QuizApp.js:69 | no contract of its own: the optional-chaining comparison, true only for a current question whose correct answer equals the option; used by `SelectScores` |
| `QuizSession.NextQuestion` | src/components/QuizApp.js:75-79 | no contract of its own: the next-question handler with the effect re-run for the new index; stated by `TimeoutIsNext`, `StepNeverDecreases` and the class method `HandleNextQuestion` |
| `QuizSession.Tick` | src/components/QuizApp.js:44-63 | no contract of its own: one interval firing with the auto-advance at 0; stated by `TimeoutIsNext`, `SyncedTick`, `IdleTicks`, `TicksCountDown` and `CountdownAdvancesOnce` |
| `QuizSession.LoadQuestions` | src/components/QuizApp.js:32 | no contract of its own: the as-written load, replacing only the list; stated by `InitialLoadNeverStartsCountdown`, `EmptyReloadKeepsCountdown` and the class method `ReceiveQuestions` |
| `QuizSession.LoadQuestionsRestarting` | src/components/QuizApp.js:44-57 | no contract of its own: the corrected load that re-runs the countdown effect; stated by `StepKeepsSynced`, `RestartingLoadStartsCountdown` and `RunRestartingPreserves` |
| `QuizSession.HasOptions` | src/components/QuizApp.js:83-85 | no contract of its own: the `incorrect_answers && correct_answer` guard on the current question, with the empty string falsy; used by `OptionList` and `ShuffleOptions` |
| `Shuffle.ApplySwaps` | src/components/QuizApp.js:91 | no contract of its own: the rearrangement the random-comparator sort performs, as transpositions; stated by `ApplySwapsPermutes` and `RandomSort` |
| `QuizSession.EmptyReloadKeepsCountdown` | src/components/QuizApp.js:32-57 | after "Next" on three questions, a fetch of no questions leaves the interval running without a current question; one tick leaves 4 and five ticks reach index 2 |
| `QuizSession.RunRestartingPreserves` | src/components/QuizApp.js:44-79 | with the corrected load, every event sequence keeps the invariant and the synced interval, and never lowers the index or the score |
| `QuizSession.SessionRestartingAlwaysSynced` | src/components/QuizApp.js:44-57 | with the corrected load, in every state reached from mount a tick counts down exactly when there is a current question and nothing selected, and otherwise changes nothing |
| `QuizSession.Initial` | src/components/QuizApp.js:5-9 | mount state: no questions, index 0, score 0, nothing selected, clock at 5, no interval; it satisfies all three invariants |
| `QuizSession.SelectIsOneShot` | src/components/QuizApp.js:65-73 | a click while an option is selected changes nothing, so a second click leaves selection and score as the first set them |
| `QuizSession.SelectScores` | src/components/QuizApp.js:69-71 | the score rises by exactly 1 iff the click is the first on the question and equals its correct answer, is unchanged otherwise, and cannot change past the last question |
| `QuizSession.TimeoutIsNext` | src/components/QuizApp.js:59-63 | the tick that brings the clock to 0 advances exactly as the next-question handler, index +1, score unchanged |
| `QuizSession.StepPreservesValid` | src/components/QuizApp.js:44-79 | every event keeps the clock in 1..5, the interval off while an option is selected, and the clock at 5 while no interval runs |
| `QuizSession.StepNeverDecreases` | src/components/QuizApp.js:44-79 | no event lowers the question index or the score |
| `QuizSession.StepKeepsScoreBound` | src/components/QuizApp.js:65-79 | every event except a fetch keeps the question list and keeps the score within one point per visited question |
| `QuizSession.StepKeepsSynced` | src/components/QuizApp.js:44-57 | clicks, "Next" and ticks keep the interval running exactly when there is a current question and nothing selected; the restarting load does too |
| `QuizSession.SyncedTick` | src/components/QuizApp.js:47-50 | in a synced state a tick takes one second off exactly when there is a current question and no selection, and otherwise changes nothing |
| `QuizSession.IdleTicks` | src/components/QuizApp.js:47-51 | with no interval running, any number of ticks changes nothing |
| `QuizSession.SelectionHoldsTimer` | src/components/QuizApp.js:47-56 | once a click takes effect the clock is 5 and stays 5 under any number of ticks until "Next" |
| `QuizSession.TicksCountDown` | src/components/QuizApp.js:48-50 | before the clock runs out, k ticks take exactly k seconds off and change nothing else |
| `QuizSession.CountdownAdvancesOnce` | src/components/QuizApp.js:48-63 | a running countdown left alone keeps the index for fewer ticks than the clock shows, then advances exactly once as "Next" does, score unchanged |
| `QuizSession.RunPreservesValid` | src/components/QuizApp.js:44-79 | over every sequence of events the invariant holds, so the clock stays within 1..5 |
| `QuizSession.RunNeverDecreases` | src/components/QuizApp.js:44-79 | over every sequence of events the index and the score never decrease |
| `QuizSession.RunScoreBounded` | src/components/QuizApp.js:65-79 | over a sequence of events without a fetch, the list is unchanged and the score never exceeds its length |
| `QuizSession.SessionScoreAtMostQuestions` | src/components/QuizApp.js:32-79 | after one fetch from mount, the score never exceeds the number of fetched questions while no other fetch arrives |
| `QuizSession.ClicksWhileSelected` | src/components/QuizApp.js:65-73 | any clicks made while an option is selected leave the state unchanged |
| `QuizSession.RepeatedClicks` | src/components/QuizApp.js:65-73 | any non-empty run of clicks on one question acts as its first click alone; the score rises by at most 1 |
| `QuizSession.InitialLoadNeverStartsCountdown` | src/components/QuizApp.js:44-57 | after the first fetch from mount there is a current question and no selection, yet no interval runs; the first question's clock stays at 5 and the index at 0 forever |
| `QuizSession.RestartingLoadStartsCountdown` | src/components/QuizApp.js:44-57 | with the restarting load the first question counts down and five ticks reach the second question with score 0 |
| `QuizSession.ThreeQuestionSession` | src/components/QuizApp.js:65-79 | three questions fetched, first answered correctly: score 1 and index 0 until "Next"; three "Next" clicks reach index 3 with score 1 |
| `QuizSession.OptionList` | src/components/QuizApp.js:83-90 | there are no options exactly when there is no current question, no incorrect answers array, or a missing or empty correct answer; otherwise one option per incorrect answer plus the correct answer (equal multisets), with the correct answer last |
| `Shuffle.ApplySwapsPermutes` | src/components/QuizApp.js:91 | any sequence of transpositions keeps the length and the multiset of elements |
| `Shuffle.RandomSort` | src/components/QuizApp.js:91 | the in-place sort leaves the array a rearrangement of its old contents (equal multisets) |
| `QuizComponent.QuizApp.constructor` | src/components/QuizApp.js:5-9 | the fields hold the initial `useState` values and no interval runs |
| `QuizComponent.QuizApp.HandleOptionClick` | src/components/QuizApp.js:65-73 | with an option already selected nothing changes; otherwise the option becomes selected, the score rises by 1 iff it is correct, the clock resets to 5 and the interval stops; index and list unchanged |
| `QuizComponent.QuizApp.HandleNextQuestion` | src/components/QuizApp.js:75-79 | selection cleared, index +1, clock 5, interval running iff the new index is inside the list; score and list unchanged |
| `QuizComponent.QuizApp.IntervalTick` | src/components/QuizApp.js:44-63 | without an interval nothing changes; otherwise one second off, or when the clock runs out exactly the next-question transition; score and list unchanged, index rises by at most 1 |
| `QuizComponent.QuizApp.ReceiveQuestions` | src/components/QuizApp.js:32 | the list is replaced and index, selection, score, clock and interval are all left as they were |
| `QuizComponent.QuizApp.ReceiveQuestionsRestarting` | src/components/QuizApp.js:44-57 | corrected load: list replaced, clock 5, interval running iff there is a current question and no selection; index, selection and score unchanged |
| `QuizComponent.QuizApp.ShuffleOptions` | src/components/QuizApp.js:82-92 | no options exactly when there is no current question or a field is missing or falsy; otherwise a permutation of the incorrect answers plus the correct answer, which is among them |
| `QuizComponent.ThreeQuestionClient` | src/components/QuizApp.js:65-79 | through the class: a correct first answer gives score 1 at index 0, a second click changes nothing, three "Next" clicks reach the end of the list |
| `QuizComponent.FirstQuestionClock` | src/components/QuizApp.js:44-57 | through the class: five interval firings after the first fetch leave the clock at 5 and the index at 0, while with the restarting load they reach index 1 |

## Findings

| source | as written | input that shows it | evidently intended | confidence | as-written member | corrected member |
|---|---|---|---|---|---|---|
| src/components/QuizApp.js:44-57 | the countdown effect lists only `currentQuestion` and `selectedOption` as dependencies. On mount it finds no questions and starts no interval, and the later `setQuestions` does not re-run it | mount, then a fetch that returns at least one question, then no click: the first question's clock stays at 5 and it never auto-advances | every question, the first included, counts down from 5 and auto-advances at 0; the effect also depends on `questions` | not executed; high (follows from React's dependency-list rule) | `QuizSession.LoadQuestions`, exhibited by `QuizSession.InitialLoadNeverStartsCountdown` and `QuizComponent.FirstQuestionClock` | `QuizSession.LoadQuestionsRestarting`, proved by `QuizSession.RestartingLoadStartsCountdown` and `QuizSession.StepKeepsSynced` |

The event alphabet `QuizSession.Event` and the class's `ReceiveQuestions` keep the load as
written, because the rest of the model describes the component's actual behaviour. The corrected
load is `QuizSession.LoadQuestionsRestarting`, which `QuizComponent.QuizApp.ReceiveQuestionsRestarting`
implements. `QuizSession.StepRestarting` and `QuizSession.RunRestarting` run the same events
with the corrected load. Over those runs the invariant, the monotonicity of index and score,
and the synced interval are proved (`QuizSession.RunRestartingPreserves`,
`QuizSession.SessionRestartingAlwaysSynced`). The one-click, countdown and clock-hold lemmas do
not mention a fetch, so they apply with either load.

## Left out

- The category fetch and the question fetch over HTTP (lines 15-36): network I/O. Only the
  success outcome of the question fetch is modelled, as `LoadQuestions` / `ReceiveQuestions`.
  A failed fetch only logs and changes no session state, so it is simply the absence of an event.
- The category list and the settings state (`categories`, `selectedCategory`,
  `selectedDifficulty`, `numQuestions`, lines 10-13) and their form controls (lines 114-170):
  these are UI inputs to the fetch. The question count is stored without clamping (line 161); the
  only bound is the input's HTML `min`/`max` attributes.
- The effect that starts a fetch when the category or difficulty changes (lines 38-42): reactive
  wiring around I/O.
- Real time: `setInterval` at 1000 ms and `clearInterval`. One firing is one `Tick`. The moment the
  clock shows 0 and the auto-advance are folded into one transition, so reachable states show
  1..5 on the clock rather than 0..5.
- `Math.random` and the distribution of the shuffle (line 91). The random comparator is a
  caller-supplied sequence of transpositions; only the permutation is stated.
- Rendering (lines 93-173): the JSX, `dangerouslySetInnerHTML`, HTML entities, and the fact that
  the options are shuffled again on every render. The UI gating of the handlers is also left out:
  the "Next Question" button appears only with a selection, and option buttons exist only for
  shuffled options. The handlers are modelled as callable in every state, as the functions
  themselves allow.
- React scheduling: batching of state updates, StrictMode double effects, stale closures.
  Each handler is modelled as one atomic transition on the current state.
- src/App.js: a layout wrapper that mounts the component and has no logic.
