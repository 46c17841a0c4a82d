/** Whole interactions, each on a fresh chat page or dialog, with the outcome
    stated in the contract. */
module Scenarios {
  import opened Wrappers
  import opened Text
  import opened Extractor
  import opened Chat
  import opened Quiz

  /** A decoder for which no payload is a valid question. */
  function RejectAll(s: string): Option<Question> {
    None
  }

  /** A decoder that accepts every payload. */
  function AcceptAll(s: string): Option<Question> {
    Some(Question(s, [s], s))
  }

  /** An answer whose only block does not decode still stores a question
      list, the empty one, and opens the quiz: the dialog is mounted with no
      questions although it needs at least one. */
  method UndecodableBlockMountsEmptyQuiz() returns (mounted: bool, count: nat)
    ensures mounted && count == 0
  {
    var page := new ChatSession("sets");
    var content := OPEN + "x" + CLOSE;
    WrapRoundTrip("x", RejectAll);
    TrimFixpoint(content);
    page.ReceiveReply(Some(content), RejectAll);
    mounted := page.QuizMounted();
    count := |page.questions.value|;
  }

  /** A follow-up whose request fails keeps the user's message in the
      history, clears the input and stops loading. */
  method FailedReplyKeepsUserMessage(text: string) returns (history: seq<Message>, input: string, loading: bool)
    requires Trim(text) != ""
    ensures history == [Plain(User, Trim(text))] && input == "" && !loading
  {
    var page := new ChatSession("sets");
    page.SetUserInput(text);
    var request := page.SubmitUserMessage();
    page.ReceiveReply(None, RejectAll);
    history, input, loading := page.messages, page.userInput, page.isLoading;
  }

  /** An opening answer with a question block shows the read button under
      it; marking it read swaps in the Take Quiz button; taking the quiz
      hides both and mounts the dialog with the decoded question. */
  method ReadThenTakeQuiz(p: string) returns (readFirst: bool, quizAfterRead: bool, buttonsAfterOpen: bool, mounted: bool)
    requires forall k: nat :: !OccursAt(p, CLOSE, k)
    ensures readFirst && quizAfterRead && !buttonsAfterOpen && mounted
  {
    var page := new ChatSession("sets");
    var content := OPEN + p + CLOSE;
    WrapRoundTrip(p, AcceptAll);
    TrimFixpoint(content);
    page.ReceiveStartReply(Some(content), "1", AcceptAll);
    var m := page.messages[0];
    readFirst := page.ShowsReadButton(m);
    page.MarkAsRead("1");
    quizAfterRead := page.ShowsQuizButton(m) && !page.ShowsReadButton(m);
    page.OpenQuiz();
    buttonsAfterOpen := page.ShowsReadButton(m) || page.ShowsQuizButton(m);
    mounted := page.QuizMounted() && page.questions == Some([AcceptAll(Trim(p)).value]);
  }

  /** With two questions: answering the first and pressing Next moves on
      with a cleared pick; the second shows Finish, and pressing it asks to
      close the dialog. */
  method TwoQuestionRun(q1: Question, q2: Question) returns (firstClosed: bool, secondIndex: nat, pick: Option<string>, shownLabel: string, secondClosed: bool)
    requires |q1.options| > 0
    ensures !firstClosed && secondIndex == 1 && pick == None && shownLabel == "Finish" && secondClosed
  {
    var dialog := new MultipleChoice([q1, q2]);
    dialog.SelectOption(0);
    dialog.HandleAnswer();
    firstClosed := dialog.NextQuestion();
    secondIndex, pick := dialog.currentQuestion, dialog.selectedAnswer;
    shownLabel := dialog.NextLabel();
    secondClosed := dialog.NextQuestion();
  }

  /** A follow-up answer with one question block mounts the quiz on the page;
      the dialog built from the stored list shows Finish on its only question,
      and Finish closes it, after which the page no longer mounts it. */
  method AnswerQuizFinish(p: string) returns (mountedBefore: bool, shownLabel: string, closed: bool, mountedAfter: bool)
    requires forall k: nat :: !OccursAt(p, CLOSE, k)
    ensures mountedBefore && shownLabel == "Finish" && closed && !mountedAfter
  {
    var page := new ChatSession("sets");
    var content := OPEN + p + CLOSE;
    WrapRoundTrip(p, AcceptAll);
    TrimFixpoint(content);
    page.ReceiveReply(Some(content), AcceptAll);
    mountedBefore := page.QuizMounted();
    var dialog := new MultipleChoice(page.questions.value);
    shownLabel := dialog.NextLabel();
    closed := dialog.NextQuestion();
    if closed {
      page.CloseQuiz();
    }
    mountedAfter := page.QuizMounted();
  }

  /** A send whose answer fails, or has not arrived, adds the user message and
      takes nothing away: the cap of MAX_MESSAGES is not applied. */
  method UnansweredSend(page: ChatSession, text: string)
    requires page.Valid() && Trim(text) != ""
    modifies page
    ensures page.Valid()
    ensures page.messages == old(page.messages) + [Plain(User, Trim(text))]
    ensures |old(page.messages)| >= MAX_MESSAGES ==> |page.messages| > MAX_MESSAGES
  {
    page.SetUserInput(text);
    var request := page.SubmitUserMessage();
    page.ReceiveReply(None, RejectAll);
  }

  /** From a fresh page, any number of sends without an answer leave exactly
      those user messages in the history, however many there are. */
  method UnansweredSends(texts: seq<string>) returns (history: seq<Message>)
    requires forall j :: 0 <= j < |texts| ==> Trim(texts[j]) != ""
    ensures |history| == |texts|
    ensures forall j :: 0 <= j < |texts| ==> history[j] == Plain(User, Trim(texts[j]))
  {
    var page := new ChatSession("sets");
    var i := 0;
    while i < |texts|
      invariant 0 <= i <= |texts|
      invariant page.Valid()
      invariant |page.messages| == i
      invariant forall j :: 0 <= j < i ==> page.messages[j] == Plain(User, Trim(texts[j]))
    {
      UnansweredSend(page, texts[i]);
      i := i + 1;
    }
    history := page.messages;
  }
}
