/**
 * The quiz-taking screen: one question at a time, one recorded answer per
 * question, a Next/Finish button, and a score counted from the answers.
 */
module QuizViewer {

  datatype Question = Question(question: string, options: seq<string>, correctAnswer: string)

  /**
   * Whether the i-th recorded answer is right. An answer beyond the end of
   * the quiz has no question to match and never counts.
   */
  predicate IsCorrectAt(answers: seq<string>, quiz: seq<Question>, i: nat)
    requires i < |answers|
  {
    i < |quiz| && answers[i] == quiz[i].correctAnswer
  }

  /** The positions of the right answers. */
  function CorrectPositions(answers: seq<string>, quiz: seq<Question>): set<nat>
  {
    set i: nat | i < |answers| && IsCorrectAt(answers, quiz, i)
  }

  /** The right answers of a non-empty list: those before the last one, plus the last if it is right. */
  lemma CorrectPositionsOfLast(answers: seq<string>, quiz: seq<Question>)
    requires answers != []
    ensures |answers| - 1 !in CorrectPositions(answers[..|answers| - 1], quiz)
    ensures CorrectPositions(answers, quiz) ==
      CorrectPositions(answers[..|answers| - 1], quiz) +
      (if IsCorrectAt(answers, quiz, |answers| - 1) then {|answers| - 1} else {})
  {
    var last := |answers| - 1;
    var front := answers[..last];
    assert forall i: nat | i < last :: IsCorrectAt(front, quiz, i) == IsCorrectAt(answers, quiz, i);
  }

  /**
   * The score, as the left-to-right reduction over the answers computes it:
   * the number of positions whose answer equals that question's correct
   * answer, so never more than the number of answers.
   */
  function Score(answers: seq<string>, quiz: seq<Question>): (r: nat)
    ensures r == |CorrectPositions(answers, quiz)|
    ensures r <= |answers|
  {
    if answers == [] then
      assert CorrectPositions(answers, quiz) == {};
      0
    else
      var last := |answers| - 1;
      CorrectPositionsOfLast(answers, quiz);
      Score(answers[..last], quiz) + (if IsCorrectAt(answers, quiz, last) then 1 else 0)
  }

  /** Recording one more answer raises the score by one if it is right and leaves it otherwise. */
  lemma ScoreOfAppended(answers: seq<string>, quiz: seq<Question>, option: string)
    ensures Score(answers + [option], quiz) ==
      Score(answers, quiz) +
      (if |answers| < |quiz| && option == quiz[|answers|].correctAnswer then 1 else 0)
  {
  }

  class Viewer {
    var quiz: seq<Question>
    var index: nat
    var answers: seq<string>
    var finished: bool

    /** At most one answer per question reached so far, and the index stays on a question. */
    ghost predicate Valid()
      reads this
    {
      |answers| <= index + 1 && (index == 0 || index < |quiz|)
    }

    /** The current question has its answer: exactly one answer per question up to it. */
    function HasAnsweredCurrent(): (r: bool)
      reads this
      ensures Valid() ==> (r <==> |answers| == index + 1)
    {
      |answers| > index
    }

    function CurrentScore(): nat
      reads this
    {
      Score(answers, quiz)
    }

    constructor (quiz: seq<Question>)
      ensures Valid()
      ensures this.quiz == quiz && index == 0 && answers == [] && !finished
    {
      this.quiz := quiz;
      index := 0;
      answers := [];
      finished := false;
    }

    /** A newly generated quiz replaces the old one and starts it from the top. */
    method LoadQuiz(quiz: seq<Question>)
      requires Valid()
      modifies this
      ensures Valid()
      ensures this.quiz == quiz && index == 0 && answers == [] && !finished
    {
      this.quiz := quiz;
      index := 0;
      answers := [];
      finished := false;
    }

    /**
     * Choosing an option. Ignored once the current question has an answer;
     * otherwise the option is appended and the earlier answers stay as they are.
     */
    method SelectAnswer(option: string)
      requires Valid()
      modifies this
      ensures Valid()
      ensures quiz == old(quiz) && index == old(index) && finished == old(finished)
      ensures old(HasAnsweredCurrent()) ==> answers == old(answers)
      ensures !old(HasAnsweredCurrent()) ==> answers == old(answers) + [option]
      ensures old(|answers|) == old(index) ==> HasAnsweredCurrent()
      ensures CurrentScore() == old(CurrentScore()) +
        (if !old(HasAnsweredCurrent()) && old(|answers|) < |quiz| && option == quiz[old(|answers|)].correctAnswer
         then 1 else 0)
    {
      if |answers| > index {
        return;
      }
      ScoreOfAppended(answers, quiz, option);
      answers := answers + [option];
    }

    /** Next Question while one remains, otherwise Finish Quiz. */
    method Next()
      requires Valid()
      modifies this
      ensures Valid()
      ensures quiz == old(quiz) && answers == old(answers)
      ensures old(index) < |quiz| - 1 ==> index == old(index) + 1 && finished == old(finished)
      ensures old(index) >= |quiz| - 1 ==> index == old(index) && finished
      ensures index <= if |quiz| == 0 then 0 else |quiz| - 1
      ensures old(HasAnsweredCurrent()) && index == old(index) + 1 ==> |answers| == index
    {
      if index < |quiz| - 1 {
        index := index + 1;
      } else {
        finished := true;
      }
    }

    /** Try Again: the same quiz from the top. */
    method Restart()
      requires Valid()
      modifies this
      ensures Valid()
      ensures quiz == old(quiz) && index == 0 && answers == [] && !finished
    {
      index := 0;
      answers := [];
      finished := false;
    }
  }

  /** The score shown on a valid viewer never exceeds the number of questions answered. */
  lemma ScoreWithinAnswers(v: Viewer)
    requires v.Valid()
    ensures v.CurrentScore() <= |v.answers| <= v.index + 1
  {
  }
}
