/** The multiple-choice dialog: one question at a time, an answer to pick,
    feedback on submit, and Next/Finish to move on or close. */
module Quiz {
  import opened Wrappers
  import opened Extractor

  const CORRECT := "Correct!"
  const INCORRECT_PREFIX := "Incorrect. The correct answer is: "

  class MultipleChoice {
    const questions: seq<Question>
    var currentQuestion: nat
    var selectedAnswer: Option<string>
    var showFeedback: bool

    /** The index always names a question of the list. */
    ghost predicate Valid()
      reads this
    {
      currentQuestion < |questions|
    }

    /** Mounting the dialog; it reads `questions[0]` at once, so the list must
        not be empty. */
    constructor (questions: seq<Question>)
      requires |questions| > 0
      ensures Valid() && this.questions == questions
      ensures currentQuestion == 0 && selectedAnswer == None && !showFeedback
    {
      this.questions := questions;
      currentQuestion := 0;
      selectedAnswer := None;
      showFeedback := false;
    }

    /** The question on screen. */
    function Current(): (q: Question)
      reads this
      requires Valid()
      ensures q in questions
    {
      questions[currentQuestion]
    }

    /** No question follows the current one. */
    predicate IsLast(): (r: bool)
      reads this
      requires Valid()
      ensures r <==> currentQuestion == |questions| - 1
    {
      !(currentQuestion < |questions| - 1)
    }

    /** `disabled={!selectedAnswer}`: nothing picked, or an empty option
        picked, which JavaScript treats as false. */
    predicate SubmitDisabled(): (r: bool)
      reads this
      ensures r <==> (selectedAnswer == None || selectedAnswer == Some(""))
    {
      !(selectedAnswer.Some? && selectedAnswer.value != "")
    }

    /** The picked option is the current question's correct answer. */
    predicate IsCorrect(): (r: bool)
      reads this
      requires Valid()
      ensures r ==> !SubmitDisabled() || Current().correctAnswer == ""
    {
      selectedAnswer == Some(Current().correctAnswer)
    }

    /** The feedback line shown after submitting. */
    function FeedbackText(): (r: string)
      reads this
      requires Valid()
      ensures r == CORRECT <==> IsCorrect()
      ensures !IsCorrect() ==>
        && |r| == |INCORRECT_PREFIX| + |Current().correctAnswer|
        && r[..|INCORRECT_PREFIX|] == INCORRECT_PREFIX
        && r[|INCORRECT_PREFIX|..] == Current().correctAnswer
    {
      if IsCorrect() then CORRECT
      else
        var r := INCORRECT_PREFIX + Current().correctAnswer;
        assert r[0] != CORRECT[0];
        r
    }

    /** The label of the button under the feedback. */
    function NextLabel(): (r: string)
      reads this
      requires Valid()
      ensures r == "Finish" <==> IsLast()
      ensures r == "Next Question" <==> !IsLast()
    {
      if currentQuestion < |questions| - 1 then "Next Question" else "Finish"
    }

    /** The option buttons: picking option `index` of the current question.
        They stay active while feedback is shown. */
    method SelectOption(index: nat)
      requires Valid()
      requires index < |Current().options|
      modifies this
      ensures Valid()
      ensures selectedAnswer == Some(old(Current()).options[index])
      ensures currentQuestion == old(currentQuestion) && showFeedback == old(showFeedback)
    {
      selectedAnswer := Some(questions[currentQuestion].options[index]);
    }

    /** The Submit Answer button: shows the feedback. */
    method HandleAnswer()
      requires Valid()
      modifies this
      ensures Valid()
      ensures showFeedback
      ensures currentQuestion == old(currentQuestion) && selectedAnswer == old(selectedAnswer)
    {
      showFeedback := true;
    }

    /** The Next Question / Finish button. Before the last question it moves
        on and clears the pick and the feedback; on the last one it changes
        nothing here and returns true, meaning the dialog asks to be closed. */
    method NextQuestion() returns (closed: bool)
      requires Valid()
      modifies this
      ensures Valid()
      ensures closed == old(IsLast())
      ensures !closed ==>
        currentQuestion == old(currentQuestion) + 1 && selectedAnswer == None && !showFeedback
      ensures closed ==>
        && currentQuestion == old(currentQuestion)
        && selectedAnswer == old(selectedAnswer) && showFeedback == old(showFeedback)
    {
      if currentQuestion < |questions| - 1 {
        currentQuestion := currentQuestion + 1;
        selectedAnswer := None;
        showFeedback := false;
        closed := false;
      } else {
        closed := true;
      }
    }
  }
}
