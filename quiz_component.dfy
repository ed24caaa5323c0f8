/**
  The `QuizApp` component: its session state as mutable fields and its handlers and effects as
  methods. Each method states the new value of every field and ties the new state to the
  transition of the same name in QuizSession, where the properties of whole sessions are proved.
*/
module QuizComponent {
  import opened Wrappers
  import opened QuizSession
  import Shuffle

  class QuizApp {
    var questions: seq<Question>
    var currentQuestion: nat
    var selectedOption: Option<string>
    var score: nat
    var timer: int
    /** Whether the countdown effect's interval is running. */
    var intervalRunning: bool

    function State(): Session
      reads this
    {
      Session(questions, currentQuestion, selectedOption, score, timer, intervalRunning)
    }

    ghost predicate Valid()
      reads this
    {
      QuizSession.Valid(State())
    }

    /** Mount: the initial `useState` values; the countdown effect finds no question. */
    constructor ()
      ensures Valid() && Synced(State())
      ensures State() == Initial()
      ensures questions == [] && currentQuestion == 0 && selectedOption == None
      ensures score == 0 && timer == TIMER_START && !intervalRunning
    {
      questions := [];
      currentQuestion := 0;
      selectedOption := None;
      score := 0;
      timer := TIMER_START;
      intervalRunning := false;
    }

    /** `handleOptionClick`, with the countdown effect's cleanup and re-run when the selection
        changes. */
    method HandleOptionClick(option: string)
      requires Valid()
      modifies this
      ensures Valid()
      ensures State() == SelectOption(old(State()), option)
      ensures old(selectedOption).Some? ==> State() == old(State())
      ensures old(selectedOption).None? ==>
        && selectedOption == Some(option)
        && timer == TIMER_START && !intervalRunning
      ensures score == old(score) + (if old(selectedOption).None? && IsCorrect(old(State()), option) then 1 else 0)
      ensures questions == old(questions) && currentQuestion == old(currentQuestion)
    {
      if selectedOption == None {
        var correct := IsCorrect(State(), option);
        selectedOption := Some(option);
        if correct {
          score := score + 1;
        }
        // the selection changed: the effect cleanup clears the interval and resets the clock,
        // and the effect does not start a new interval while an option is selected
        intervalRunning := false;
        timer := TIMER_START;
      }
    }

    /** `handleNextQuestion`, with the countdown effect's cleanup and re-run for the new index. */
    method HandleNextQuestion()
      modifies this
      ensures Valid()
      ensures State() == NextQuestion(old(State()))
      ensures selectedOption == None && currentQuestion == old(currentQuestion) + 1
      ensures timer == TIMER_START
      ensures intervalRunning == (currentQuestion < |questions|)
      ensures score == old(score) && questions == old(questions)
    {
      selectedOption := None;
      currentQuestion := currentQuestion + 1;
      timer := TIMER_START;
      intervalRunning := currentQuestion < |questions| && selectedOption == None;
    }

    /** One firing of the interval, and the auto-advance when the clock reaches 0. */
    method IntervalTick()
      requires Valid()
      modifies this
      ensures Valid()
      ensures State() == Tick(old(State()))
      ensures !old(intervalRunning) ==> State() == old(State())
      ensures old(intervalRunning) && old(timer) > 1 ==>
        State() == old(State()).(timer := old(timer) - 1)
      ensures old(intervalRunning) && old(timer) == 1 ==> State() == NextQuestion(old(State()))
      ensures score == old(score) && questions == old(questions)
      ensures currentQuestion == old(currentQuestion) || currentQuestion == old(currentQuestion) + 1
    {
      if intervalRunning {
        timer := timer - 1;
        if timer == 0 {
          HandleNextQuestion();
        }
      }
    }

    /** The success path of `fetchQuestions`: `setQuestions(response.data.results)` only. */
    method ReceiveQuestions(results: seq<Question>)
      requires Valid()
      modifies this
      ensures Valid()
      ensures State() == LoadQuestions(old(State()), results)
      ensures questions == results
      ensures currentQuestion == old(currentQuestion) && selectedOption == old(selectedOption)
      ensures score == old(score) && timer == old(timer) && intervalRunning == old(intervalRunning)
    {
      questions := results;
    }

    /** The success path of `fetchQuestions` when the countdown effect also depends on
        `questions`: the cleanup resets the clock and the interval is re-evaluated. */
    method ReceiveQuestionsRestarting(results: seq<Question>)
      requires Valid()
      modifies this
      ensures Valid() && Synced(State())
      ensures State() == LoadQuestionsRestarting(old(State()), results)
      ensures questions == results && timer == TIMER_START
      ensures intervalRunning == (currentQuestion < |questions| && selectedOption == None)
      ensures currentQuestion == old(currentQuestion) && selectedOption == old(selectedOption)
      ensures score == old(score)
    {
      questions := results;
      timer := TIMER_START;
      intervalRunning := currentQuestion < |questions| && selectedOption == None;
    }

    /** `shuffleOptions`: the current question's incorrect answers followed by its correct answer,
        rearranged by the random sort; no options without a current question or without either
        field. */
    method ShuffleOptions(swaps: seq<(nat, nat)>) returns (options: seq<string>)
      ensures options == [] <==> !HasOptions(State())
      ensures HasOptions(State()) ==>
        multiset(options) == multiset(questions[currentQuestion].incorrectAnswers.value
                                      + [questions[currentQuestion].correctAnswer.value])
      ensures HasOptions(State()) ==> questions[currentQuestion].correctAnswer.value in options
    {
      var initial := OptionList(State());
      var a := new string[|initial|](i requires 0 <= i < |initial| => initial[i]);
      assert a[..] == initial;
      Shuffle.RandomSort(a, swaps);
      options := a[..];
      if HasOptions(State()) {
        assert initial[|initial| - 1] in multiset(options);
      }
    }
  }

  /** A client session: three fetched questions, the first answered correctly, then three clicks
      on "Next Question". */
  method ThreeQuestionClient(answer: string) returns (scoreAfterAnswer: nat, indexAfterAnswer: nat, finished: bool)
    ensures scoreAfterAnswer == 1 && indexAfterAnswer == 0 && finished
  {
    var app := new QuizApp();
    var q1 := Question("first", Some(answer), Some(["x", "y", "z"]));
    var q2 := Question("second", Some("b"), Some(["x", "y", "z"]));
    var q3 := Question("third", Some("c"), Some(["x", "y", "z"]));
    app.ReceiveQuestions([q1, q2, q3]);
    app.HandleOptionClick(answer);
    app.HandleOptionClick("x");
    scoreAfterAnswer, indexAfterAnswer := app.score, app.currentQuestion;
    app.HandleNextQuestion();
    app.HandleNextQuestion();
    app.HandleNextQuestion();
    finished := app.currentQuestion == |app.questions|;
  }

  /** As written, the first question's clock does not move after the first fetch, while with the
      restarting load five firings of the interval reach the second question. */
  method FirstQuestionClock() returns (timerAsWritten: int, indexAsWritten: nat, indexRestarting: nat)
    ensures timerAsWritten == TIMER_START && indexAsWritten == 0 && indexRestarting == 1
  {
    var q := Question("only", Some("a"), Some(["b", "c", "d"]));
    var app := new QuizApp();
    app.ReceiveQuestions([q, q]);
    var k := 0;
    while k < TIMER_START
      invariant 0 <= k <= TIMER_START
      invariant app.Valid() && app.State() == LoadQuestions(Initial(), [q, q])
    {
      app.IntervalTick();
      k := k + 1;
    }
    timerAsWritten, indexAsWritten := app.timer, app.currentQuestion;

    var fixed := new QuizApp();
    fixed.ReceiveQuestionsRestarting([q, q]);
    fixed.IntervalTick();
    fixed.IntervalTick();
    fixed.IntervalTick();
    fixed.IntervalTick();
    fixed.IntervalTick();
    indexRestarting := fixed.currentQuestion;
  }
}
