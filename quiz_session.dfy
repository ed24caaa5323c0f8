/**
  The quiz session of the `QuizApp` component as a state machine on values.

  The component keeps five pieces of session state (questions, current question index, selected
  option, score, seconds left) and, implicitly, whether the one-second interval started by its
  countdown effect is running. React's effect wiring is folded into explicit transitions:
  the effect cleanup that sets the timer back to 5 whenever `currentQuestion` or `selectedOption`
  changes happens inside SelectOption and NextQuestion, and the effect that calls the "next"
  handler once the timer shows 0 happens inside Tick.
*/
module QuizSession {
  import opened Wrappers

  /** Seconds on the clock when a question is shown (initial state and every reset). */
  const TIMER_START: int := 5

  /** One element of the trivia API's `results` array; a field the response lacks is None. */
  datatype Question = Question(
    question: string,
    correctAnswer: Option<string>,
    incorrectAnswers: Option<seq<string>>)

  /**
    The session state. `ticking` records whether the countdown effect, when it last ran,
    started an interval: it is re-evaluated only when `current` or `selected` changes.
  */
  datatype Session = Session(
    questions: seq<Question>,
    current: nat,
    selected: Option<string>,
    score: nat,
    timer: int,
    ticking: bool)

  /** What arrives from outside: a click on an option, a click on "Next Question",
      one firing of the interval, and a successful question fetch. */
  datatype Event =
    | OptionClicked(option: string)
    | NextClicked
    | IntervalFired
    | QuestionsFetched(results: seq<Question>)

  /** The condition under which the countdown effect starts its interval. */
  predicate ShouldTick(questions: seq<Question>, current: nat, selected: Option<string>) {
    current < |questions| && selected.None?
  }

  /** `option === questions[currentQuestion]?.correct_answer`: past the last question, or with
      no correct answer in the record, no option matches. */
  predicate IsCorrect(s: Session, option: string) {
    s.current < |s.questions| && s.questions[s.current].correctAnswer == Some(option)
  }

  function Min(a: int, b: int): int {
    if a <= b then a else b
  }

  // ---------------------------------------------------------------------------------------------
  // Transitions
  // ---------------------------------------------------------------------------------------------

  /** The state on mount: the countdown effect runs once with no questions, so no interval. */
  function Initial(): (s: Session)
    ensures Valid(s) && Synced(s) && ScoreBound(s)
    ensures s.questions == [] && s.current == 0 && s.score == 0 && s.selected == None
  {
    Session([], 0, None, 0, TIMER_START, false)
  }

  /** The option-click handler. Only the first click on a question has an effect; that click
      changes `selectedOption`, so the effect cleanup resets the timer and no interval is
      started again while an option is selected. */
  function SelectOption(s: Session, option: string): Session {
    if s.selected.None? then
      s.(selected := Some(option),
         score := if IsCorrect(s, option) then s.score + 1 else s.score,
         timer := TIMER_START,
         ticking := false)
    else
      s
  }

  /** The next-question handler, followed by the countdown effect re-running for the new index. */
  function NextQuestion(s: Session): Session {
    var next := s.current + 1;
    s.(selected := None,
       current := next,
       timer := TIMER_START,
       ticking := ShouldTick(s.questions, next, None))
  }

  /** One firing of the interval: the functional update `prevTimer - 1`, and when that leaves 0 on
      the clock, the effect on `timer` calls the next-question handler. Without a running interval
      nothing fires. */
  function Tick(s: Session): Session {
    if !s.ticking then
      s
    else
      var t := s.(timer := s.timer - 1);
      if t.timer == 0 then NextQuestion(t) else t
  }

  /** A successful fetch: only `questions` is replaced. The countdown effect does not depend on
      `questions`, so it does not re-run. */
  function LoadQuestions(s: Session, results: seq<Question>): Session {
    s.(questions := results)
  }

  /** The load as the countdown evidently means it to work: with `questions` among the effect's
      dependencies, a load runs the cleanup (timer back to 5) and re-evaluates the interval. */
  function LoadQuestionsRestarting(s: Session, results: seq<Question>): Session {
    s.(questions := results,
       timer := TIMER_START,
       ticking := ShouldTick(results, s.current, s.selected))
  }

  function Step(s: Session, e: Event): Session {
    match e
    case OptionClicked(option) => SelectOption(s, option)
    case NextClicked => NextQuestion(s)
    case IntervalFired => Tick(s)
    case QuestionsFetched(results) => LoadQuestions(s, results)
  }

  /** The state after a sequence of events, first event first. */
  function Run(s: Session, events: seq<Event>): Session
    decreases |events|
  {
    if events == [] then s else Run(Step(s, events[0]), events[1..])
  }

  /** The state after `k` firings of the interval with nothing else happening. */
  function Ticks(s: Session, k: nat): Session {
    if k == 0 then s else Tick(Ticks(s, k - 1))
  }

  /** An event with the corrected load: a fetch runs `LoadQuestionsRestarting`. */
  function StepRestarting(s: Session, e: Event): Session {
    match e
    case QuestionsFetched(results) => LoadQuestionsRestarting(s, results)
    case _ => Step(s, e)
  }

  /** The state after a sequence of events with the corrected load, first event first. */
  function RunRestarting(s: Session, events: seq<Event>): Session
    decreases |events|
  {
    if events == [] then s else RunRestarting(StepRestarting(s, events[0]), events[1..])
  }

  /** One click event per option, in order. */
  function Clicks(options: seq<string>): seq<Event> {
    if options == [] then [] else [OptionClicked(options[0])] + Clicks(options[1..])
  }

  predicate NoFetch(events: seq<Event>) {
    forall i | 0 <= i < |events| :: !events[i].QuestionsFetched?
  }

  // ---------------------------------------------------------------------------------------------
  // Invariants
  // ---------------------------------------------------------------------------------------------

  /** Every reachable state: the clock shows 1..5 (0 is only the moment before the auto-advance),
      an interval runs only while nothing is selected, and without an interval the clock shows 5. */
  predicate Valid(s: Session) {
    && 1 <= s.timer <= TIMER_START
    && (s.ticking ==> s.selected.None?)
    && (!s.ticking ==> s.timer == TIMER_START)
  }

  /** The interval runs exactly when there is a current question and nothing is selected. */
  predicate Synced(s: Session) {
    s.ticking == ShouldTick(s.questions, s.current, s.selected)
  }

  /** The most points the questions visited so far can have earned on the current list. */
  function ScoreCeiling(s: Session): nat {
    Min(s.current, |s.questions|) + (if s.selected.Some? && s.current < |s.questions| then 1 else 0)
  }

  predicate ScoreBound(s: Session) {
    s.score <= ScoreCeiling(s)
  }

  // ---------------------------------------------------------------------------------------------
  // One-step properties
  // ---------------------------------------------------------------------------------------------

  /** A click while an option is selected changes nothing; so a second click after a first one
      leaves the selection and the score as the first one set them. */
  lemma SelectIsOneShot(s: Session, first: string, second: string)
    ensures s.selected.Some? ==> SelectOption(s, second) == s
    ensures SelectOption(SelectOption(s, first), second) == SelectOption(s, first)
  {
  }

  /** The score rises by exactly one when the first click on a question hits its correct answer,
      and is unchanged otherwise; in particular it cannot change past the last question. */
  lemma SelectScores(s: Session, option: string)
    ensures var t := SelectOption(s, option);
      && (t.score == s.score + 1 <==> s.selected.None? && IsCorrect(s, option))
      && (t.score == s.score <==> !(s.selected.None? && IsCorrect(s, option)))
      && (s.current >= |s.questions| ==> t.score == s.score)
      && t.questions == s.questions && t.current == s.current
  {
  }

  /** When the clock runs out the session advances exactly as the next-question handler does,
      with the score unchanged. */
  lemma TimeoutIsNext(s: Session)
    requires s.ticking && s.timer == 1
    ensures Tick(s) == NextQuestion(s)
    ensures Tick(s).score == s.score && Tick(s).current == s.current + 1
  {
  }

  /** Every event keeps the invariant. */
  lemma StepPreservesValid(s: Session, e: Event)
    requires Valid(s)
    ensures Valid(Step(s, e))
  {
  }

  /** No event moves the index or the score backwards. */
  lemma StepNeverDecreases(s: Session, e: Event)
    ensures Step(s, e).current >= s.current && Step(s, e).score >= s.score
  {
  }

  /** Every event except a fetch keeps the score within what the visited questions allow,
      and keeps the question list. */
  lemma StepKeepsScoreBound(s: Session, e: Event)
    requires Valid(s) && ScoreBound(s) && !e.QuestionsFetched?
    ensures ScoreBound(Step(s, e)) && Step(s, e).questions == s.questions
  {
  }

  /** Every event except the as-written fetch keeps the interval in step with its condition; so
      does the restarting load. */
  lemma StepKeepsSynced(s: Session, e: Event, results: seq<Question>)
    requires Synced(s)
    ensures !e.QuestionsFetched? ==> Synced(Step(s, e))
    ensures Synced(LoadQuestionsRestarting(s, results))
  {
  }

  /** In a synced state a tick counts down exactly when there is a current question and nothing
      is selected, and otherwise changes nothing. */
  lemma SyncedTick(s: Session)
    requires Synced(s)
    ensures ShouldTick(s.questions, s.current, s.selected) && s.timer != 1
            ==> Tick(s) == s.(timer := s.timer - 1)
    ensures !ShouldTick(s.questions, s.current, s.selected) ==> Tick(s) == s
  {
  }

  // ---------------------------------------------------------------------------------------------
  // Countdown
  // ---------------------------------------------------------------------------------------------

  /** With no interval running, ticks change nothing. */
  lemma {:induction false} IdleTicks(s: Session, k: nat)
    requires !s.ticking
    ensures Ticks(s, k) == s
  {
    if k > 0 {
      IdleTicks(s, k - 1);
    }
  }

  /** Once a click takes effect the clock is at 5 and stays there under any number of ticks. */
  lemma {:induction false} SelectionHoldsTimer(s: Session, option: string, k: nat)
    requires s.selected.None?
    ensures SelectOption(s, option).timer == TIMER_START
    ensures Ticks(SelectOption(s, option), k) == SelectOption(s, option)
  {
    IdleTicks(SelectOption(s, option), k);
  }

  /** Before the clock runs out, each tick takes exactly one second off and changes nothing else. */
  lemma {:induction false} TicksCountDown(s: Session, k: nat)
    requires s.ticking && k < s.timer
    ensures Ticks(s, k) == s.(timer := s.timer - k)
  {
    if k > 0 {
      TicksCountDown(s, k - 1);
    }
  }

  /** A running countdown that is left alone advances the session exactly once, after as many
      ticks as the clock shows, with the score unchanged. From a fresh question that is five ticks. */
  lemma CountdownAdvancesOnce(s: Session)
    requires s.ticking && s.timer >= 1
    ensures forall k: nat | k < s.timer :: Ticks(s, k).current == s.current
    ensures Ticks(s, s.timer) == NextQuestion(s)
    ensures Ticks(s, s.timer).current == s.current + 1 && Ticks(s, s.timer).score == s.score
  {
    forall k: nat | k < s.timer
      ensures Ticks(s, k).current == s.current
    {
      TicksCountDown(s, k);
    }
    TicksCountDown(s, s.timer - 1);
  }

  // ---------------------------------------------------------------------------------------------
  // Whole runs
  // ---------------------------------------------------------------------------------------------

  /** Every sequence of events keeps the invariant: in particular the clock stays within 1..5. */
  lemma {:induction false} RunPreservesValid(s: Session, events: seq<Event>)
    requires Valid(s)
    ensures Valid(Run(s, events))
    ensures 1 <= Run(s, events).timer <= TIMER_START
    decreases |events|
  {
    if events != [] {
      StepPreservesValid(s, events[0]);
      RunPreservesValid(Step(s, events[0]), events[1..]);
    }
  }

  /** Over any sequence of events the question index and the score never decrease. */
  lemma {:induction false} RunNeverDecreases(s: Session, events: seq<Event>)
    ensures Run(s, events).current >= s.current
    ensures Run(s, events).score >= s.score
    decreases |events|
  {
    if events != [] {
      StepNeverDecreases(s, events[0]);
      RunNeverDecreases(Step(s, events[0]), events[1..]);
    }
  }

  /** Without a fetch in between, the score never exceeds the number of questions. */
  lemma {:induction false} RunScoreBounded(s: Session, events: seq<Event>)
    requires Valid(s) && ScoreBound(s) && NoFetch(events)
    ensures ScoreBound(Run(s, events))
    ensures Run(s, events).questions == s.questions
    ensures Run(s, events).score <= |s.questions|
    decreases |events|
  {
    if events != [] {
      StepPreservesValid(s, events[0]);
      StepKeepsScoreBound(s, events[0]);
      assert NoFetch(events[1..]) by {
        forall i | 0 <= i < |events[1..]|
          ensures !events[1..][i].QuestionsFetched?
        {
          assert events[1..][i] == events[i + 1];
        }
      }
      RunScoreBounded(Step(s, events[0]), events[1..]);
    }
  }

  /** A session started by one fetch scores at most one point per fetched question. */
  lemma SessionScoreAtMostQuestions(results: seq<Question>, events: seq<Event>)
    requires NoFetch(events)
    ensures Run(LoadQuestions(Initial(), results), events).score <= |results|
  {
    RunScoreBounded(LoadQuestions(Initial(), results), events);
  }

  /** Clicks made while an option is selected change nothing. */
  lemma {:induction false} ClicksWhileSelected(s: Session, options: seq<string>)
    requires s.selected.Some?
    ensures Run(s, Clicks(options)) == s
    decreases |options|
  {
    if options != [] {
      var es := Clicks(options);
      assert es[0] == OptionClicked(options[0]);
      assert es[1..] == Clicks(options[1..]);
      ClicksWhileSelected(s, options[1..]);
    }
  }

  /** Any number of clicks on one question act like the first alone: the score changes by at
      most one per question. */
  lemma RepeatedClicks(s: Session, options: seq<string>)
    requires options != []
    ensures Run(s, Clicks(options)) == SelectOption(s, options[0])
    ensures Run(s, Clicks(options)).score <= s.score + 1
  {
    var es := Clicks(options);
    assert es[0] == OptionClicked(options[0]);
    assert es[1..] == Clicks(options[1..]);
    var t := SelectOption(s, options[0]);
    if s.selected.None? {
      ClicksWhileSelected(t, options[1..]);
    } else {
      ClicksWhileSelected(s, options[1..]);
    }
  }

  // ---------------------------------------------------------------------------------------------
  // The first question's countdown
  // ---------------------------------------------------------------------------------------------

  /** As written, the first fetch after mount leaves the interval off although there is a current
      question and nothing is selected: the first question's clock never moves, however many
      seconds pass. */
  lemma {:induction false} InitialLoadNeverStartsCountdown(results: seq<Question>, k: nat)
    requires results != []
    ensures var s := LoadQuestions(Initial(), results);
      && ShouldTick(s.questions, s.current, s.selected)
      && !Synced(s)
      && Ticks(s, k) == s
      && Ticks(s, k).timer == TIMER_START && Ticks(s, k).current == 0
  {
    IdleTicks(LoadQuestions(Initial(), results), k);
  }

  /** As written, the reverse also happens: after "Next" on a three-question list, a fetch that
      returns no questions leaves the interval running with no current question, and five ticks
      advance the index past the end of the empty list. */
  lemma {:induction false} EmptyReloadKeepsCountdown(q1: Question, q2: Question, q3: Question)
    ensures var s := LoadQuestions(NextQuestion(LoadQuestions(Initial(), [q1, q2, q3])), []);
      && s.ticking && !ShouldTick(s.questions, s.current, s.selected)
      && Tick(s).timer == TIMER_START - 1
      && Ticks(s, TIMER_START).current == 2
  {
    CountdownAdvancesOnce(LoadQuestions(NextQuestion(LoadQuestions(Initial(), [q1, q2, q3])), []));
  }

  /** With the restarting load, the first question counts down from five and then advances. */
  lemma RestartingLoadStartsCountdown(results: seq<Question>)
    requires results != []
    ensures var s := LoadQuestionsRestarting(Initial(), results);
      && Synced(s) && Valid(s)
      && Ticks(s, TIMER_START).current == 1
      && Ticks(s, TIMER_START).score == 0
  {
    CountdownAdvancesOnce(LoadQuestionsRestarting(Initial(), results));
  }

  /** With the corrected load, every sequence of events keeps the invariant, keeps the interval
      running exactly when there is a current question and nothing is selected, and never moves
      the index or the score backwards. */
  lemma {:induction false} RunRestartingPreserves(s: Session, events: seq<Event>)
    requires Valid(s) && Synced(s)
    ensures Valid(RunRestarting(s, events)) && Synced(RunRestarting(s, events))
    ensures RunRestarting(s, events).current >= s.current
    ensures RunRestarting(s, events).score >= s.score
    decreases |events|
  {
    if events != [] {
      var e := events[0];
      StepPreservesValid(s, e);
      StepNeverDecreases(s, e);
      StepKeepsSynced(s, e, if e.QuestionsFetched? then e.results else []);
      RunRestartingPreserves(StepRestarting(s, e), events[1..]);
    }
  }

  /** From mount with the corrected load, every reachable state is synced: a tick counts down
      exactly when there is a current question and nothing is selected. */
  lemma SessionRestartingAlwaysSynced(events: seq<Event>)
    ensures var s := RunRestarting(Initial(), events);
      && Valid(s) && Synced(s)
      && (ShouldTick(s.questions, s.current, s.selected) && s.timer != 1
          ==> Tick(s) == s.(timer := s.timer - 1))
      && (!ShouldTick(s.questions, s.current, s.selected) ==> Tick(s) == s)
  {
    RunRestartingPreserves(Initial(), events);
    SyncedTick(RunRestarting(Initial(), events));
  }

  // ---------------------------------------------------------------------------------------------
  // A three-question session
  // ---------------------------------------------------------------------------------------------

  /** Three questions fetched, the first answered correctly: the score is 1 and the index stays 0
      until "Next" is clicked; three clicks on "Next" reach the end of the list. */
  lemma ThreeQuestionSession(q1: Question, q2: Question, q3: Question, answer: string)
    requires q1.correctAnswer == Some(answer)
    ensures var s := SelectOption(LoadQuestions(Initial(), [q1, q2, q3]), answer);
      && s.score == 1 && s.current == 0
      && Run(s, [NextClicked, NextClicked, NextClicked]).current == 3
      && Run(s, [NextClicked, NextClicked, NextClicked]).score == 1
  {
  }

  // ---------------------------------------------------------------------------------------------
  // Options of the current question
  // ---------------------------------------------------------------------------------------------

  /** `incorrect_answers && correct_answer` of the current question: a missing array, a missing
      correct answer or an empty correct answer (JavaScript's falsy string) gives no options. */
  predicate HasOptions(s: Session) {
    && s.current < |s.questions|
    && s.questions[s.current].incorrectAnswers.Some?
    && s.questions[s.current].correctAnswer.Some?
    && s.questions[s.current].correctAnswer.value != ""
  }

  /** The options before shuffling: the incorrect answers followed by the correct one. */
  function OptionList(s: Session): (r: seq<string>)
    ensures r == [] <==> !HasOptions(s)
    ensures HasOptions(s) ==> r[|r| - 1] == s.questions[s.current].correctAnswer.value
    ensures HasOptions(s) ==> |r| == |s.questions[s.current].incorrectAnswers.value| + 1
    ensures HasOptions(s) ==>
      multiset(r) == multiset(s.questions[s.current].incorrectAnswers.value)
                     + multiset{s.questions[s.current].correctAnswer.value}
  {
    if HasOptions(s) then
      s.questions[s.current].incorrectAnswers.value + [s.questions[s.current].correctAnswer.value]
    else
      []
  }
}
