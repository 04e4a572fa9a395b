/** The gaming quiz: five questions in shuffled order, one answer each, and
    success with at least four correct answers. */
module QuickQuiz {
  import opened Options

  datatype Question = Question(id: int, question: string, options: seq<string>, correctAnswer: int)

  /** The text of entry `k` of `QUIZ_QUESTIONS`. */
  function QuestionText(k: int): string
  {
    match k
    case 0 => "Which game franchise features a character named Master Chief?"
    case 1 => "In which year was the first Super Mario Bros. game released?"
    case 2 => "Which company developed Fortnite?"
    case 3 => "Which of these is NOT a Pokemon type?"
    case _ => "What is the name of the protagonist in The Legend of Zelda series?"
  }

  /** The options of entry `k`. */
  function QuestionOptions(k: int): seq<string>
  {
    match k
    case 0 => ["Call of Duty", "Halo", "Destiny", "Gears of War"]
    case 1 => ["1985", "1983", "1987", "1990"]
    case 2 => ["Activision", "Blizzard", "Epic Games", "Electronic Arts"]
    case 3 => ["Dragon", "Ghost", "Sound", "Steel"]
    case _ => ["Zelda", "Link", "Ganon", "Navi"]
  }

  /** The index of the correct option of entry `k`. */
  function CorrectOption(k: int): int
  {
    match k
    case 0 => 1
    case 1 => 0
    case 2 => 2
    case 3 => 2
    case _ => 1
  }

  /** Entry `k` of `QUIZ_QUESTIONS`; its id is `k + 1`. */
  function QuizQuestion(k: int): (q: Question)
    requires 0 <= k < 5
    ensures q.id == k + 1 && q.options == QuestionOptions(k) && q.correctAnswer == CorrectOption(k)
  {
    Question(k + 1, QuestionText(k), QuestionOptions(k), CorrectOption(k))
  }

  /** Every question's correct answer indexes one of its four options. */
  lemma QuestionAnswerable(k: int)
    requires 0 <= k < 5
    ensures |QuestionOptions(k)| == 4
    ensures 0 <= CorrectOption(k) < |QuestionOptions(k)|
  {
  }

  /** `QUIZ_QUESTIONS`: five questions with distinct ids, each answerable. */
  function QuizQuestions(): (qs: seq<Question>)
    ensures |qs| == 5
    ensures forall q :: q in qs ==> |q.options| == 4 && 0 <= q.correctAnswer < |q.options|
    ensures forall i, j :: 0 <= i < j < |qs| ==> qs[i].id != qs[j].id
  {
    forall k | 0 <= k < 5 {
      QuestionAnswerable(k);
    }
    seq(5, k requires 0 <= k < 5 => QuizQuestion(k))
  }

  /** The number of correct answers among the first `|choices|` questions. */
  function CorrectCount(qs: seq<Question>, choices: seq<int>): (n: nat)
    requires |choices| <= |qs|
    ensures n <= |choices|
  {
    if choices == [] then 0
    else
      var k := |choices| - 1;
      CorrectCount(qs, choices[..k]) + if choices[k] == qs[k].correctAnswer then 1 else 0
  }

  /** Answering every question correctly gets every point. */
  lemma {:induction false} AllCorrectCount(qs: seq<Question>, choices: seq<int>)
    requires |choices| <= |qs|
    requires forall k :: 0 <= k < |choices| ==> choices[k] == qs[k].correctAnswer
    ensures CorrectCount(qs, choices) == |choices|
  {
    if choices != [] {
      AllCorrectCount(qs, choices[..|choices| - 1]);
    }
  }

  const PassMark := 4

  class Quiz {
    var shuffledQuestions: seq<Question>
    var currentQuestionIndex: int
    var selectedOption: Option<int>
    var score: int
    var showAnswer: bool
    var quizComplete: bool
    var gameStarted: bool
    /** The option chosen for each question answered so far. */
    ghost var choices: seq<int>

    ghost predicate Valid()
      reads this
    {
      && (!gameStarted ==> score == 0 && !quizComplete && !showAnswer && choices == [])
      && (gameStarted ==>
            && |shuffledQuestions| == 5
            && 0 <= currentQuestionIndex < |shuffledQuestions|
            && |choices| == currentQuestionIndex + (if showAnswer then 1 else 0)
            && score == CorrectCount(shuffledQuestions, choices)
            && (quizComplete ==> showAnswer && currentQuestionIndex == |shuffledQuestions| - 1)
            && (showAnswer <==> selectedOption.Some?)
            && (showAnswer ==> selectedOption.value == choices[currentQuestionIndex]))
    }

    constructor ()
      ensures Valid() && !gameStarted
      ensures shuffledQuestions == [] && currentQuestionIndex == 0 && selectedOption == None
      ensures score == 0 && !showAnswer && !quizComplete
    {
      shuffledQuestions := [];
      currentQuestionIndex := 0;
      selectedOption := None;
      score := 0;
      showAnswer := false;
      quizComplete := false;
      gameStarted := false;
      choices := [];
    }

    /** `startQuiz`, with the shuffled questions as input. */
    method StartQuiz(shuffled: seq<Question>)
      requires Valid()
      requires multiset(shuffled) == multiset(QuizQuestions())
      modifies this
      ensures Valid() && gameStarted
      ensures shuffledQuestions == shuffled
      ensures currentQuestionIndex == 0 && score == 0 && selectedOption == None
      ensures !showAnswer && !quizComplete && choices == []
    {
      ShuffledQuestions(shuffled);
      shuffledQuestions := shuffled;
      currentQuestionIndex := 0;
      score := 0;
      selectedOption := None;
      showAnswer := false;
      quizComplete := false;
      gameStarted := true;
      choices := [];
    }

    /** `handleOptionSelect`: ignored once the answer is shown; otherwise it
        shows the answer and scores a point for the correct option. */
    method HandleOptionSelect(optionIndex: int)
      requires Valid() && gameStarted && !quizComplete
      requires 0 <= optionIndex < |shuffledQuestions[currentQuestionIndex].options|
      modifies this
      ensures Valid() && gameStarted && !quizComplete
      ensures old(showAnswer) ==> unchanged(this)
      ensures !old(showAnswer) ==>
        && showAnswer && selectedOption == Some(optionIndex)
        && score == old(score) + (if optionIndex == shuffledQuestions[currentQuestionIndex].correctAnswer then 1 else 0)
        && choices == old(choices) + [optionIndex]
      ensures shuffledQuestions == old(shuffledQuestions) && currentQuestionIndex == old(currentQuestionIndex)
    {
      if showAnswer {
        return;
      }
      selectedOption := Some(optionIndex);
      showAnswer := true;
      var currentQuestion := shuffledQuestions[currentQuestionIndex];
      choices := choices + [optionIndex];
      assert choices[..|choices| - 1] == old(choices);
      if optionIndex == currentQuestion.correctAnswer {
        score := score + 1;
      }
    }

    /** `handleNextQuestion`: the next question, or completion after the
        last one. */
    method HandleNextQuestion()
      requires Valid() && gameStarted && !quizComplete && showAnswer
      modifies this
      ensures Valid() && gameStarted
      ensures old(currentQuestionIndex) < |shuffledQuestions| - 1 ==>
        currentQuestionIndex == old(currentQuestionIndex) + 1 && selectedOption == None && !showAnswer && !quizComplete
      ensures old(currentQuestionIndex) == |shuffledQuestions| - 1 ==>
        quizComplete && currentQuestionIndex == old(currentQuestionIndex) && showAnswer
      ensures score == old(score) && choices == old(choices) && shuffledQuestions == old(shuffledQuestions)
    {
      if currentQuestionIndex < |shuffledQuestions| - 1 {
        currentQuestionIndex := currentQuestionIndex + 1;
        selectedOption := None;
        showAnswer := false;
      } else {
        quizComplete := true;
      }
    }

    /** The completion effect: once complete, `onGameComplete` is told
        whether the score reached the pass mark. */
    function Outcome(): (r: Option<bool>)
      reads this
      ensures r.Some? <==> quizComplete
      ensures r == Some(true) ==> score >= PassMark
      ensures r == Some(false) ==> score < PassMark
    {
      if quizComplete then Some(score >= PassMark) else None
    }
  }

  /** The score never exceeds the number of questions answered, which never
      exceeds five. */
  lemma ScoreBounded(q: Quiz)
    requires q.Valid()
    ensures 0 <= q.score <= |q.choices| <= 5
  {
  }

  /** A finished quiz has all five questions answered, and it reports
      success exactly when at least four answers were correct. */
  lemma OutcomeMeansFourCorrect(q: Quiz)
    requires q.Valid() && q.gameStarted && q.quizComplete
    ensures |q.choices| == 5
    ensures q.Outcome() == Some(CorrectCount(q.shuffledQuestions, q.choices) >= 4)
  {
  }

  /** A shuffle of the questions keeps five questions with valid answers. */
  lemma ShuffledQuestions(shuffled: seq<Question>)
    requires multiset(shuffled) == multiset(QuizQuestions())
    ensures |shuffled| == 5
    ensures forall k :: 0 <= k < 5 ==> 0 <= shuffled[k].correctAnswer < |shuffled[k].options|
  {
    assert |shuffled| == |multiset(shuffled)| == 5;
    forall k | 0 <= k < 5
      ensures 0 <= shuffled[k].correctAnswer < |shuffled[k].options|
    {
      assert shuffled[k] in multiset(QuizQuestions());
    }
  }

  /** Whatever the shuffle, answering every question correctly passes. */
  method PlayPerfectly(q: Quiz, shuffled: seq<Question>) returns (outcome: Option<bool>)
    requires q.Valid()
    requires multiset(shuffled) == multiset(QuizQuestions())
    modifies q
    ensures outcome == Some(true)
  {
    q.StartQuiz(shuffled);
    ShuffledQuestions(shuffled);
    for i := 0 to 5
      invariant q.Valid() && q.gameStarted && q.shuffledQuestions == shuffled
      invariant |q.choices| == i
      invariant i < 5 ==> !q.quizComplete && !q.showAnswer && q.currentQuestionIndex == i
      invariant i == 5 ==> q.quizComplete
      invariant forall k :: 0 <= k < i ==> q.choices[k] == shuffled[k].correctAnswer
    {
      q.HandleOptionSelect(shuffled[i].correctAnswer);
      q.HandleNextQuestion();
    }
    AllCorrectCount(shuffled, q.choices);
    OutcomeMeansFourCorrect(q);
    outcome := q.Outcome();
  }
}
