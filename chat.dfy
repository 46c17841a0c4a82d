/** The chat page: the message history, the two request/response round trips
    to the completion service, and the flags that decide which buttons and
    whether the quiz are shown. */
module Chat {
  import opened Wrappers
  import opened Text
  import opened Extractor

  datatype Role = User | Assistant | System

  /** One chat message. `id` and `hasQuestions` are only ever set on the
      assistant's first answer. */
  datatype Message = Message(role: Role, content: string, id: Option<string>, hasQuestions: Option<bool>)

  /** Number of messages kept in the history and sent back as context. */
  const MAX_MESSAGES: nat := 20

  /** The system prompt sent with every follow-up request. */
  const SYSTEM_PROMPT: string := "You are a helpful tutor. After providing information to educate the user, ask comprehension questions to check the users understanding. Your goal is to make sure the user has learned the topic and to help them achieve this.\n    When you want to ask multiple choice questions, format them like this:\n    [MULTIPLE_CHOICE]\n    {\n      \"question\": \"Your question here?\",\n      \"options\": [\"Option 1\", \"Option 2\", \"Option 3\", \"Option 4\"],\n      \"correctAnswer\": \"Option 1\"\n    }\n    [/MULTIPLE_CHOICE]\n    You can include multiple question blocks in one response."

  /** The system prompt of the opening request; the same text indented more
      deeply in the source, so its lines carry more leading spaces. */
  const START_SYSTEM_PROMPT: string := "You are a helpful tutor. After providing information to educate the user, ask comprehension questions to check the users understanding. Your goal is to make sure the user has learned the topic and to help them achieve this.\n            When you want to ask multiple choice questions, format them like this:\n            [MULTIPLE_CHOICE]\n            {\n              \"question\": \"Your question here?\",\n              \"options\": [\"Option 1\", \"Option 2\", \"Option 3\", \"Option 4\"],\n              \"correctAnswer\": \"Option 1\"\n            }\n            [/MULTIPLE_CHOICE]\n            You can include multiple question blocks in one response."

  /** A message with only a role and content, as the requests build them. */
  function Plain(role: Role, content: string): Message {
    Message(role, content, None, None)
  }

  /** The user message that opens the conversation about `topic`. */
  function TopicPrompt(topic: string): string {
    "I want to learn about " + topic + ". Please explain it in simple terms."
  }

  /** The messages of the opening request. */
  function StartRequest(topic: string): (r: seq<Message>)
    ensures |r| == 2
    ensures r[0].role == System && r[1].role == User
    ensures StartsWith(r[1].content, "I want to learn about ")
    ensures |r[1].content| == |"I want to learn about "| + |topic| + |". Please explain it in simple terms."|
    ensures r[1].content[|"I want to learn about "|..|"I want to learn about "| + |topic|] == topic
  {
    [Plain(System, START_SYSTEM_PROMPT), Plain(User, TopicPrompt(topic))]
  }

  /** The opening request is the opening system prompt followed by a user
      message that names the topic between a fixed lead-in and a fixed closing
      sentence; neither message carries an id or a question flag. */
  lemma StartRequestSpec(topic: string)
    ensures var r := StartRequest(topic);
      var lead := "I want to learn about ";
      var tail := ". Please explain it in simple terms.";
      && r[0] == Plain(System, START_SYSTEM_PROMPT)
      && r[1].id.None? && r[1].hasQuestions.None?
      && r[1].content[..|lead|] == lead
      && r[1].content[|lead|..|lead| + |topic|] == topic
      && r[1].content[|lead| + |topic|..] == tail
  {
  }

  /** `s.slice(-n)` for `n > 0`: the last `n` elements, or all of them when
      there are fewer. (JavaScript reads `slice(-0)` as the whole array; the
      code only uses `n == MAX_MESSAGES`.) */
  function LastN<T>(s: seq<T>, n: nat): (r: seq<T>)
    ensures |r| == (if |s| < n then |s| else n)
    ensures r == s[|s| - |r|..]
  {
    if |s| > n then s[|s| - n..] else s
  }

  /** Keeping the last `n` after appending is keeping the last `n - 1` and then
      appending. */
  lemma LastNAppend<T>(s: seq<T>, x: T, n: nat)
    requires n > 0
    ensures LastN(s + [x], n) == LastN(s, n - 1) + [x]
  {
    var r := LastN(s + [x], n);
    var q := LastN(s, n - 1);
    assert |r| == |q| + 1;
    assert (s + [x])[|s| + 1 - |r|..|s|] == s[|s| - |q|..];
    assert r == (s + [x])[|s| + 1 - |r|..|s|] + [x];
  }

  /** The messages of a follow-up request: the system prompt, the last
      MAX_MESSAGES messages of the history as it was when the user pressed
      Send, and the new user message. */
  function FollowUpRequest(history: seq<Message>, newMsg: Message): (r: seq<Message>)
    ensures 2 <= |r| <= MAX_MESSAGES + 2
    ensures r[0].role == System && r[|r| - 1] == newMsg
  {
    [Plain(System, SYSTEM_PROMPT)] + LastN(history, MAX_MESSAGES) + [newMsg]
  }

  /** A follow-up request carries the system prompt first, the new message
      last, and in between the most recent messages of the history, at most
      MAX_MESSAGES of them. */
  lemma FollowUpRequestSpec(history: seq<Message>, newMsg: Message)
    ensures var r := FollowUpRequest(history, newMsg);
      && |r| == 2 + (if |history| < MAX_MESSAGES then |history| else MAX_MESSAGES)
      && r[0] == Plain(System, SYSTEM_PROMPT) && r[|r| - 1] == newMsg
      && r[1..|r| - 1] == history[|history| - (|r| - 2)..]
  {
    var r := FollowUpRequest(history, newMsg);
    assert r[1..|r| - 1] == LastN(history, MAX_MESSAGES);
  }

  /** Appends the assistant's answer and keeps at most MAX_MESSAGES messages. */
  function AppendCapped(history: seq<Message>, m: Message): (r: seq<Message>)
    ensures 0 < |r| <= MAX_MESSAGES
    ensures r[|r| - 1] == m
  {
    var updated := history + [m];
    if |updated| > MAX_MESSAGES then updated[|updated| - MAX_MESSAGES..] else updated
  }

  /** The capped history ends with the answer, preceded by the most recent
      MAX_MESSAGES - 1 messages of the history before it. */
  lemma AppendCappedSpec(history: seq<Message>, m: Message)
    ensures var r := AppendCapped(history, m);
      && |r| == (if |history| < MAX_MESSAGES then |history| + 1 else MAX_MESSAGES)
      && r[|r| - 1] == m
      && r[..|r| - 1] == LastN(history, MAX_MESSAGES - 1)
  {
    LastNAppend(history, m, MAX_MESSAGES);
  }

  /** What a successful answer yields: its trimmed content and the questions
      found in it. */
  datatype Reply = Reply(content: string, questions: Option<seq<Question>>)

  /** Validates an answer of the completion service. `reply` is the answer
      text, or None when the request failed, the status was not ok or the
      answer had no message content; an empty content is rejected as well. */
  function ProcessResponse(reply: Option<string>, decode: string -> Option<Question>): (r: Option<Reply>)
    ensures r.None? <==> (reply.None? || reply.value == "")
    ensures r.Some? ==> r.value.content == Trim(reply.value)
    ensures r.Some? ==> (r.value.questions.None? <==> !HasBlockFrom(r.value.content, 0))
    ensures r.Some? && r.value.questions.Some? ==>
      |r.value.questions.value| <= |Blocks(r.value.content, 0)|
  {
    if reply.None? || reply.value == "" then None
    else
      var content := Trim(reply.value);
      Some(Reply(content, ParseQuestions(content, decode)))
  }

  /** Only the first message of a history can carry an id. */
  ghost predicate OnlyFirstHasId(ms: seq<Message>) {
    forall j :: 0 < j < |ms| ==> ms[j].id.None?
  }

  /** Appending a message without id keeps OnlyFirstHasId. */
  lemma AppendKeepsOnlyFirst(ms: seq<Message>, m: Message)
    requires OnlyFirstHasId(ms) && m.id.None?
    ensures OnlyFirstHasId(ms + [m])
  {
  }

  /** Appending with the cap keeps OnlyFirstHasId as well. */
  lemma CappedKeepsOnlyFirst(ms: seq<Message>, m: Message)
    requires OnlyFirstHasId(ms) && m.id.None?
    ensures OnlyFirstHasId(AppendCapped(ms, m))
  {
    var r := AppendCapped(ms, m);
    AppendCappedSpec(ms, m);
    var q := LastN(ms, MAX_MESSAGES - 1);
    forall j | 0 < j < |r|
      ensures r[j].id.None?
    {
      if j < |r| - 1 {
        assert r[j] == q[j];
      }
    }
  }

  /** JavaScript truthiness of an optional string: present and not empty. */
  predicate Truthy(s: Option<string>) {
    s.Some? && s.value != ""
  }

  /** The observable state of a chat page, used to state what each handler
      changes. */
  datatype State = State(
    messages: seq<Message>,
    userInput: string,
    isLoading: bool,
    questions: Option<seq<Question>>,
    showQuestions: bool,
    readyForQuestions: bool,
    hasQuestions: bool,
    readMessages: set<string>)

  class ChatSession {
    const topic: string
    var messages: seq<Message>
    var userInput: string
    var isLoading: bool
    var questions: Option<seq<Question>>
    var showQuestions: bool
    var readyForQuestions: bool
    var hasQuestions: bool
    var readMessages: set<string>

    function View(): State
      reads this
    {
      State(messages, userInput, isLoading, questions, showQuestions,
            readyForQuestions, hasQuestions, readMessages)
    }

    /** What every handler keeps: nothing ever sets readyForQuestions,
        hasQuestions holds exactly when a question list is stored, and only
        the first message of the history can carry an id. */
    ghost predicate Valid()
      reads this
    {
      && !readyForQuestions
      && hasQuestions == questions.Some?
      && OnlyFirstHasId(messages)
    }

    constructor (topic: string)
      ensures Valid() && this.topic == topic
      ensures View() == State([], "", false, None, false, false, false, {})
    {
      this.topic := topic;
      messages := [];
      userInput := "";
      isLoading := false;
      questions := None;
      showQuestions := false;
      readyForQuestions := false;
      hasQuestions := false;
      readMessages := {};
    }

    /** `hasQuestions && readyForQuestions`: since nothing sets
        readyForQuestions this is always false. */
    predicate ShouldShowQuestions(): (r: bool)
      reads this
      requires Valid()
      ensures !r
    {
      hasQuestions && readyForQuestions
    }

    /** The quiz is mounted when it is to be shown and a question list is
        stored; the list may be empty. */
    predicate QuizMounted(): (r: bool)
      reads this
      requires Valid()
      ensures r ==> hasQuestions
    {
      showQuestions && questions.Some?
    }

    /** The "I've Read This" button under message `m`: only under a question
        bearing answer with an id that has not been marked read. */
    predicate ShowsReadButton(m: Message): (r: bool)
      reads this
      ensures r ==> m.role == Assistant && m.hasQuestions == Some(true)
      ensures r ==> Truthy(m.id) && m.id.value !in readMessages
    {
      m.role == Assistant && Truthy(m.id) && m.hasQuestions == Some(true)
      && m.id.value !in readMessages
    }

    /** The "Take Quiz" button under message `m`; never shown together with
        the read button. */
    predicate ShowsQuizButton(m: Message): (r: bool)
      reads this
      ensures r ==> !ShowsReadButton(m)
      ensures r <==> (m.role == Assistant && Truthy(m.id) && m.hasQuestions == Some(true)
                      && !showQuestions && !ShowsReadButton(m))
    {
      m.role == Assistant && Truthy(m.id) && m.hasQuestions == Some(true)
      && m.id.value in readMessages && !showQuestions
    }

    /** Only the first message of the history can show the read or the Take
        Quiz button, because only it can carry an id. */
    lemma ButtonsOnlyOnFirst(j: nat)
      requires Valid() && 0 < j < |messages|
      ensures !ShowsReadButton(messages[j]) && !ShowsQuizButton(messages[j])
    {
    }

    /** Synchronous part of startConversation: starts loading and returns the
        opening request. */
    method StartConversation() returns (request: seq<Message>)
      requires Valid()
      modifies this
      ensures Valid()
      ensures request == StartRequest(topic)
      ensures View() == old(View()).(isLoading := true)
    {
      isLoading := true;
      request := StartRequest(topic);
    }

    /** Completion of startConversation. On a valid answer the history is
        replaced by that one answer, stamped with `id` and whether it held
        questions, and a found question list is stored; in every case loading
        ends. */
    method ReceiveStartReply(reply: Option<string>, id: string, decode: string -> Option<Question>)
      requires Valid()
      modifies this
      ensures Valid()
      ensures var p := ProcessResponse(reply, decode);
        if p.None? then View() == old(View()).(isLoading := false)
        else if p.value.questions.None? then
          View() == old(View()).(isLoading := false,
                                 messages := [Message(Assistant, p.value.content, Some(id), Some(false))])
        else
          View() == old(View()).(isLoading := false,
                                 messages := [Message(Assistant, p.value.content, Some(id), Some(true))],
                                 questions := p.value.questions,
                                 hasQuestions := true)
    {
      var p := ProcessResponse(reply, decode);
      if p.Some? {
        var qs := p.value.questions;
        messages := [Message(Assistant, p.value.content, Some(id), Some(qs.Some?))];
        if qs.Some? {
          hasQuestions := true;
          questions := qs;
        }
      }
      isLoading := false;
    }

    /** The input field's change handler. */
    method SetUserInput(text: string)
      requires Valid()
      modifies this
      ensures Valid()
      ensures View() == old(View()).(userInput := text)
    {
      userInput := text;
    }

    /** Synchronous part of handleUserMessage (the Send button). A blank
        input does nothing. Otherwise the trimmed input is appended to the
        history, uncapped, the input is cleared, loading starts, and the
        follow-up request is returned; it is built from the history as it was
        before the append. Send is not disabled while loading. */
    method SubmitUserMessage() returns (request: Option<seq<Message>>)
      requires Valid()
      modifies this
      ensures Valid()
      ensures Trim(old(userInput)) == "" ==> request.None? && View() == old(View())
      ensures Trim(old(userInput)) != "" ==>
        var newMsg := Plain(User, Trim(old(userInput)));
        && request == Some(FollowUpRequest(old(messages), newMsg))
        && View() == old(View()).(messages := old(messages) + [newMsg], userInput := "", isLoading := true)
    {
      var text := Trim(userInput);
      if text == "" {
        return None;
      }
      var newMsg := Plain(User, text);
      AppendKeepsOnlyFirst(messages, newMsg);
      request := Some(FollowUpRequest(messages, newMsg));
      messages := messages + [newMsg];
      userInput := "";
      isLoading := true;
    }

    /** Completion of handleUserMessage. A valid answer is appended to the
        history as it is now, without id, and the history is capped at
        MAX_MESSAGES; found questions replace the stored ones and open the
        quiz. In every case loading ends. */
    method ReceiveReply(reply: Option<string>, decode: string -> Option<Question>)
      requires Valid()
      modifies this
      ensures Valid()
      ensures var p := ProcessResponse(reply, decode);
        if p.None? then View() == old(View()).(isLoading := false)
        else if p.value.questions.None? then
          View() == old(View()).(isLoading := false,
                                 messages := AppendCapped(old(messages), Plain(Assistant, p.value.content)))
        else
          View() == old(View()).(isLoading := false,
                                 messages := AppendCapped(old(messages), Plain(Assistant, p.value.content)),
                                 questions := p.value.questions,
                                 showQuestions := true,
                                 hasQuestions := true)
    {
      var p := ProcessResponse(reply, decode);
      if p.Some? {
        CappedKeepsOnlyFirst(messages, Plain(Assistant, p.value.content));
        messages := AppendCapped(messages, Plain(Assistant, p.value.content));
        if p.value.questions.Some? {
          hasQuestions := true;
          questions := p.value.questions;
          showQuestions := true;
        }
      }
      isLoading := false;
    }

    /** handleMarkAsRead: records `messageId` as read; marking twice changes
        nothing. */
    method MarkAsRead(messageId: string)
      requires Valid()
      modifies this
      ensures Valid()
      ensures View() == old(View()).(readMessages := old(readMessages) + {messageId})
      ensures messageId in old(readMessages) ==> View() == old(View())
      ensures forall m: Message :: m.id == Some(messageId) ==> !ShowsReadButton(m)
      ensures forall m: Message :: m.id != Some(messageId) ==>
        (ShowsReadButton(m) <==> old(ShowsReadButton(m)))
    {
      readMessages := readMessages + {messageId};
    }

    /** The "Take Quiz" button's click handler. */
    method OpenQuiz()
      requires Valid()
      modifies this
      ensures Valid()
      ensures View() == old(View()).(showQuestions := true)
    {
      showQuestions := true;
    }

    /** The quiz's onClose callback: hides the quiz and drops the question list. */
    method CloseQuiz()
      requires Valid()
      modifies this
      ensures Valid()
      ensures View() == old(View()).(showQuestions := false, questions := None,
                                     readyForQuestions := false, hasQuestions := false)
      ensures !QuizMounted()
    {
      showQuestions := false;
      questions := None;
      readyForQuestions := false;
      hasQuestions := false;
    }
  }
}
