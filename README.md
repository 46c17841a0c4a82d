# learning-chatbot in Dafny

A model of the logic of a small React tutoring chat. The user names a topic. The
page asks a completion service to explain it. Every answer may embed multiple-choice
questions between `[MULTIPLE_CHOICE]` and `[/MULTIPLE_CHOICE]` markers. The page
cuts those blocks out of the displayed text and renders ``` fences as code. Under
the first answer it offers an "I've Read This" button and then a "Take Quiz"
button, and it opens a dialog that walks through the questions one at a time.

Modules, following the two source files:

- `Wrappers`: the `Option` type.
- `Text`: the JavaScript string operations the code relies on. These are `trim()`
  with the ECMAScript whitespace set, `startsWith`, substring search, and
  `split('\n')` with its inverse `join`.
- `Extractor`: `parseQuestions` and the block removal of `formatChatText`. The
  global lazy regular expression becomes a left-to-right scan (`Blocks`). At each
  position it tries an open marker followed by the first close marker after it,
  and it resumes after the match. `JSON.parse`, together with the null filter
  after it, is an abstract partial decoder `decode: string -> Option<Question>`.
- `Formatter`: the line loop of `formatChatText`, written as a method (`FormatLines`)
  with the loop's own variables. It is proved equal to a structural reference
  reading, `Render`, whose properties are lemmas.
- `Chat`: the chat page as a class `ChatSession` with the page's state fields and
  one method per handler. Each `async` handler is split at its `await`: a
  synchronous part that returns the request it sends, and a continuation that
  takes the reply. The reply is the answer's content, or `None` when the request
  failed, the status was not ok, or the answer had no content.
- `Quiz`: the `MultipleChoice` dialog as a class with its three state fields.
- `Scenarios`: whole interactions on fresh objects, with their outcome stated in
  the contract.

The model follows the code in these points, where another design would be
plausible:

- Closing the quiz drops the question list and clears `hasQuestions`. It does
  not keep the list for reopening.
- Questions from a new answer replace the stored ones; they are not accumulated.
- The history cap of 20 is applied only when an assistant answer arrives. A user
  message is appended uncapped, a failed answer appends and caps nothing, and Send
  is not blocked while an answer is pending. So every send whose answer fails or
  has not yet arrived adds one message, and the history has no bound
  (`Scenarios.UnansweredSends`).
- The opening answer replaces the whole history, including any user messages sent
  before it arrived.

## Model

| member | source | states |
|---|---|---|
| Text.Trim | src/Chat.tsx:126 | `trim()` never lengthens a string, and its result neither starts nor ends with whitespace |
| Text.TrimIdempotent | src/Chat.tsx:126 | trimming an already trimmed string changes nothing |
| Text.TrimStartSpec | src/Chat.tsx:126 | `trim()` start part: drops a prefix made only of whitespace and leaves a suffix that is empty or starts with non-whitespace |
| Text.TrimEndSpec | src/Chat.tsx:126 | `trim()` end part: drops a suffix made only of whitespace and leaves a prefix that is empty or ends with non-whitespace |
| Text.TrimSpec | src/Chat.tsx:126 | `trim()` returns a contiguous slice of its input that starts and ends with non-whitespace; everything cut off on either side is whitespace |
| Text.TrimFixpoint | src/Chat.tsx:126 | a string is unchanged by `trim()` exactly when it is empty or has non-whitespace at both ends |
| Text.TrimAppendWhitespace | src/Chat.tsx:59 | a trailing newline or other whitespace does not change the trimmed result |
| Text.FindFrom | src/Chat.tsx:22 | substring search returns the first position at or after `from` where the pattern occurs, or None when it occurs nowhere from there on |
| Text.OccursInSlice | src/Chat.tsx:22 | an occurrence inside a slice is an occurrence in the whole string that ends within the slice |
| Text.Split | src/Chat.tsx:41 | `split('\n')` gives at least one piece, no piece contains the separator, and joining the pieces gives back the text |
| Text.SplitCons | src/Chat.tsx:41 | a separator-free first segment is split off as the first piece |
| Text.SplitNoSep | src/Chat.tsx:41 | a text without separator splits into exactly itself |
| Text.SplitJoin | src/Chat.tsx:41 | splitting the join of separator-free pieces gives back those pieces |
| Text.JoinSnoc | src/Chat.tsx:70 | joining after appending a piece is the old join, the separator, and the piece |
| Extractor.BlockAt | src/Chat.tsx:22 | a match attempt at `i` succeeds exactly with an open marker at `i` and the first close marker after it, and fails only when there is no open marker at `i` or no close marker after it |
| Extractor.NextBlock | src/Chat.tsx:22 | the next match from `from` is a block whose start is the first position from which a block can be matched; there is none exactly when no open marker is followed later by a close marker |
| Extractor.Blocks | src/Chat.tsx:22-23 | all matches: each is a block with the shortest payload, they are pairwise non-overlapping and in left-to-right order, and the list is empty exactly when no complete block exists |
| Extractor.BlocksIsScan | src/Chat.tsx:22-23 | the matches satisfy the declarative description of a global scan: first block from the current position, then continue after its end |
| Extractor.ScanUnique | src/Chat.tsx:22-23 | the declarative scan has exactly one solution, the computed match list |
| Extractor.BlockUnique | src/Chat.tsx:22 | two blocks starting at the same position are the same block (the lazy match is determined) |
| Extractor.PayloadHasNoClose | src/Chat.tsx:22 | a payload never contains a close marker |
| Extractor.Payloads | src/Chat.tsx:29 | one trimmed payload per matched block |
| Extractor.DecodeAll | src/Chat.tsx:27-34 | decoding and filtering never yields more questions than payloads |
| Extractor.DecodeAllAppend | src/Chat.tsx:27-34 | decode-and-filter distributes over concatenation, so survivors keep their block order |
| Extractor.DecodeAllDrop | src/Chat.tsx:30-34 | a payload that fails to decode is dropped without affecting the others |
| Extractor.DecodeAllEvery | src/Chat.tsx:27-29 | when every payload decodes, the result has one question per payload, in order |
| Extractor.DecodeAllNone | src/Chat.tsx:30-34 | when no payload decodes, the result is empty |
| Extractor.ParseQuestions | src/Chat.tsx:21-35 | `parseQuestions` returns null exactly when no open marker is followed later by a close marker, and otherwise a list no longer than the number of matched blocks |
| Extractor.ParseAllFail | src/Chat.tsx:25-34 | with at least one block and no decodable payload the result is the empty list, not null |
| Extractor.ParseAllDecode | src/Chat.tsx:27-29 | with every payload decodable the result holds each block's question in block order |
| Extractor.GapsLength | src/Chat.tsx:39 | removing non-overlapping spans shortens the text by exactly the characters they cover |
| Extractor.RemoveBlocks | src/Chat.tsx:39 | the block removal deletes exactly the matched spans, markers included; it leaves the text unchanged exactly when it has no complete block |
| Extractor.CloseHasNoBorder | src/Chat.tsx:22 | no character of the close marker after its first is `[`, so close markers cannot overlap |
| Extractor.WrapIsBlock | src/Chat.tsx:22 | a close-free payload wrapped in the markers is one block whose payload is that text |
| Extractor.WrapBlocks | src/Chat.tsx:22-23 | a wrapped close-free payload is the only match |
| Extractor.WholeBlock | src/Chat.tsx:22-23 | a text that is one block from end to end has that block as its only match |
| Extractor.WholeBlockParse | src/Chat.tsx:27-34 | such a text parses to its single payload's decoding, or to the empty list |
| Extractor.DecodeOne | src/Chat.tsx:27-34 | decoding one payload gives its question, or nothing when it fails |
| Extractor.WholeBlockRemoved | src/Chat.tsx:39 | such a text is removed entirely |
| Extractor.WrapRoundTrip | src/Chat.tsx:21-39 | wrapping a close-free payload in the markers and parsing it back gives one block holding the payload, the decoded question (or the empty list), and an empty display text |
| Formatter.FenceIsPrefix | src/Chat.tsx:48 | the fence test is exactly `startsWith('```')` |
| Formatter.FenceLanguage | src/Chat.tsx:52 | the language is taken from the opening line after the three backticks, and trimming it again changes nothing |
| Formatter.FirstFence | src/Chat.tsx:48-55 | finds the first fence line, or reports that none exists |
| Formatter.FirstFenceAt | src/Chat.tsx:48-55 | a fence with no fence before it is the first fence |
| Formatter.RenderClosedFence | src/Chat.tsx:48-65 | a closed fence gives one code element: its language is the opening line after the backticks, trimmed, and its content is the inner lines joined by newlines, trimmed |
| Formatter.RenderUnclosedFence | src/Chat.tsx:49-52 | a fence that is never closed emits nothing for itself or the lines after it |
| Formatter.RenderPlainPrefix | src/Chat.tsx:69-77 | each non-fence line outside a fence emits exactly one paragraph, in order |
| Formatter.RenderParagraphs | src/Chat.tsx:47-78 | every paragraph holds an input line that is not a fence, so a fence line never emits an element |
| Formatter.AccumulatedJoin | src/Chat.tsx:70 | the accumulated code content is the inner lines joined by newlines plus a final newline |
| Formatter.AccumulatedTrim | src/Chat.tsx:59 | trimming the accumulated content equals trimming the newline-joined inner lines |
| Formatter.StepParagraph | src/Chat.tsx:71-76 | a plain line outside a fence emits one paragraph and keeps the loop invariant (emitted so far, then the reading of the rest, is the reading of all) |
| Formatter.StepOpen | src/Chat.tsx:48-52 | a fence line outside a fence enters the fence state with the trimmed language and empty content, keeping the invariant |
| Formatter.ClosingFence | src/Chat.tsx:48-55 | with no fence in between, the first fence after the opening one is the closing line |
| Formatter.RenderFromOpen | src/Chat.tsx:53-64 | from the opening fence on, the reading is the code element for the fence followed by the reading after the closing line |
| Formatter.StepClose | src/Chat.tsx:53-65 | the closing fence emits one code element with the opening line's language and the trimmed accumulated content, and leaves the fence state |
| Formatter.StepInner | src/Chat.tsx:69-70 | a plain line inside a fence is appended with a newline to the content and keeps the fence-state invariant |
| Formatter.StepUnclosed | src/Chat.tsx:47-80 | input that ends inside a fence has emitted everything the reading gives |
| Formatter.FormatLines | src/Chat.tsx:43-80 | the `forEach` state machine produces exactly the reference reading of the lines |
| Formatter.FormatChatText | src/Chat.tsx:37-81 | `formatChatText` renders the lines of the text with its blocks removed; a text without blocks is rendered line by line as it is |
| Chat.StartRequest | src/Chat.tsx:146-164 | the opening request has two messages, a system message and then a user message whose text holds the topic right after the lead-in "I want to learn about " |
| Chat.StartRequestSpec | src/Chat.tsx:146-164 | the first message is exactly the opening system prompt; the user message is the lead-in, the topic and ". Please explain it in simple terms.", and neither message has an id or a question flag |
| Chat.LastN | src/Chat.tsx:218 | for n > 0, `slice(-n)` keeps the last min(length, n) elements (the code only uses n = 20) |
| Chat.LastNAppend | src/Chat.tsx:250-253 | keeping the last n after an append is keeping the last n-1 and then appending |
| Chat.FollowUpRequest | src/Chat.tsx:214-221 | a follow-up request starts with a system message, ends with the new user message, and holds at most 22 messages |
| Chat.FollowUpRequestSpec | src/Chat.tsx:214-221 | a follow-up request is the system message, then the last min(n, 20) messages from before the new one, then the new user message |
| Chat.AppendCapped | src/Chat.tsx:250-253 | after an answer arrives the history ends with it and holds between 1 and 20 messages |
| Chat.AppendCappedSpec | src/Chat.tsx:250-253 | after a reply the history is the last min(length, 19) of the old history followed by the reply, at most 20 in all |
| Chat.ProcessResponse | src/Chat.tsx:117-139 | an answer is rejected exactly when it is missing or empty; otherwise its content is trimmed, and it carries questions exactly when the content has a complete block |
| Chat.CappedKeepsOnlyFirst | src/Chat.tsx:250-253 | capping after an id-less reply keeps ids confined to the first message |
| Chat.ChatSession.constructor | src/Chat.tsx:87-94 | the page starts with empty history and input, no questions, nothing shown or loading, and no message read |
| Chat.ChatSession.ShouldShowQuestions | src/Chat.tsx:97 | `hasQuestions && readyForQuestions` is always false, because nothing sets `readyForQuestions` |
| Chat.ChatSession.QuizMounted | src/Chat.tsx:335 | the dialog is mounted only while `hasQuestions` holds |
| Chat.ChatSession.ShowsReadButton | src/Chat.tsx:286 | the read button appears only under an assistant answer that held questions and carries an id not yet marked read |
| Chat.ChatSession.ButtonsOnlyOnFirst | src/Chat.tsx:286-294 | in every reachable state only the first message of the history can show the read or the Take Quiz button, since later messages never carry an id |
| Chat.ChatSession.ShowsQuizButton | src/Chat.tsx:286-294 | the Take Quiz button and the read button are never shown for the same message |
| Chat.ChatSession.StartConversation | src/Chat.tsx:141-146 | starts loading and returns the opening request; nothing else changes |
| Chat.ChatSession.ReceiveStartReply | src/Chat.tsx:187-202 | a valid answer replaces the history with that answer, stamped with the id and whether it held questions, and its questions replace the stored ones; a failed request changes nothing but ends loading |
| Chat.ChatSession.SetUserInput | src/Chat.tsx:318 | the input field's value is replaced; nothing else changes |
| Chat.ChatSession.SubmitUserMessage | src/Chat.tsx:205-221 | a blank input changes nothing; otherwise the trimmed message is appended, the input cleared, loading started, and the follow-up request built from the history before the append |
| Chat.ChatSession.ReceiveReply | src/Chat.tsx:248-263 | a valid answer is appended without id and the history capped; found questions replace the stored ones and open the quiz; a failed request keeps the user message and only ends loading |
| Chat.ChatSession.MarkAsRead | src/Chat.tsx:267-269 | the id is added to the read set, nothing is removed, and marking twice changes nothing; afterwards no message with that id shows the read button, and the read button of every other message is as before |
| Chat.ChatSession.OpenQuiz | src/Chat.tsx:296 | the Take Quiz click shows the quiz and changes nothing else |
| Chat.ChatSession.CloseQuiz | src/Chat.tsx:338-343 | closing sets `showQuestions` false, `questions` null, `readyForQuestions` and `hasQuestions` false, and unmounts the dialog |
| Quiz.MultipleChoice.constructor | src/MultipleChoice.tsx:14-17 | the dialog starts at the first of a non-empty question list with no pick and no feedback |
| Quiz.MultipleChoice.Current | src/MultipleChoice.tsx:36 | the question shown is always one of the list |
| Quiz.MultipleChoice.IsLast | src/MultipleChoice.tsx:24 | the close branch is taken exactly on the last question |
| Quiz.MultipleChoice.SubmitDisabled | src/MultipleChoice.tsx:56 | Submit is disabled exactly when nothing, or an empty option, is picked |
| Quiz.MultipleChoice.IsCorrect | src/MultipleChoice.tsx:63 | a correct pick leaves Submit enabled unless the correct answer is empty |
| Quiz.MultipleChoice.FeedbackText | src/MultipleChoice.tsx:62-69 | the feedback is "Correct!" exactly when the pick equals the correct answer; otherwise it is the "Incorrect" prefix followed by the correct answer |
| Quiz.MultipleChoice.NextLabel | src/MultipleChoice.tsx:75 | the button reads "Finish" exactly on the last question, when `nextQuestion` would close; otherwise "Next Question" |
| Quiz.MultipleChoice.SelectOption | src/MultipleChoice.tsx:38-46 | picking option i selects that option of the current question and changes nothing else |
| Quiz.MultipleChoice.HandleAnswer | src/MultipleChoice.tsx:19-21 | submitting only shows the feedback |
| Quiz.MultipleChoice.NextQuestion | src/MultipleChoice.tsx:23-31 | before the last question it advances by one and clears pick and feedback; on the last it asks to close and changes nothing; the index stays within the list |
| Scenarios.UndecodableBlockMountsEmptyQuiz | src/Chat.tsx:255-258 | an answer whose only block does not decode mounts the quiz with an empty question list, which the dialog cannot display |
| Scenarios.FailedReplyKeepsUserMessage | src/Chat.tsx:206-263 | a failed follow-up leaves the user message in the history, the input cleared and loading ended |
| Scenarios.ReadThenTakeQuiz | src/Chat.tsx:286-296 | after an opening answer with questions the read button shows; marking read swaps in Take Quiz; taking it hides both and mounts the quiz with the decoded question |
| Scenarios.TwoQuestionRun | src/MultipleChoice.tsx:23-31 | with two questions, Next moves to the second with the pick cleared; the second shows Finish, and Finish asks to close |
| Scenarios.AnswerQuizFinish | src/Chat.tsx:335-343 | a follow-up answer with one question block mounts the quiz; its only question shows Finish; Finish closes the dialog and the page then unmounts it |
| Scenarios.UnansweredSend | src/Chat.tsx:206-263 | a send whose answer fails appends the user message and removes nothing, so a history already at 20 grows past 20 |
| Scenarios.UnansweredSends | src/Chat.tsx:206-263 | from a fresh page, any number of sends without an answer leave exactly that many user messages, in order |

## Left out

- The network call, the service endpoint, headers, the API key and the sampling parameters (model, temperature, max_tokens, top_p, penalties) are left out, because they are I/O. The reply is an input: its content, or `None` for any failure (fetch error, non-ok status, malformed JSON, missing message content).
- `console.log` and `console.error` are left out.
- `JSON.parse` is not modelled. It is an uninterpreted decoder returning `None` for anything that throws or parses to `null`. Values that parse but are not question-shaped are not distinguished. Nothing checks that `correctAnswer` is one of the options, and the model does not require it either.
- `Date.now()` is not modelled. The message id is a parameter of `ReceiveStartReply`.
- React scheduling, batching and `async` interleaving are left out. Each handler's two halves are separate methods, and callers may interleave them in any order. Because Send is not blocked while loading, several replies may be outstanding. Updater functions (`prev => …`) read the state at the time the reply is applied.
- The `useEffect` that reruns `startConversation` when the topic changes is not modelled. The topic is fixed per page, and the constructor followed by `StartConversation` models the single run on mount.
- A `questions` prop that changes while the dialog is mounted is not modelled: the dialog's list is fixed at construction.
- Quiz.MultipleChoice.constructor requires a non-empty question list, because the dialog reads `questions[0]` at once. The page does not ensure this: `Scenarios.UndecodableBlockMountsEmptyQuiz` shows it mounting the dialog with an empty list. The resulting runtime error is not modelled.
- Quiz.MultipleChoice.HandleAnswer and Quiz.MultipleChoice.NextQuestion do not require the button that triggers them to be visible. The source exposes Submit only while no feedback is shown, and Next/Finish only while it is.
- Markup, class names (including the code element's `language-…` class with its `plaintext` default), keys, the loading animation and the Back Home navigation are left out. The Back Home navigation is a route change.
- The `isRead` field of a message is never read or written in the code, and is left out.
- The home page and the router files are not part of this model. They hold no logic.
- Strings are sequences of characters. The source works on UTF-16 code units; the two agree for the markers, the fence and the whitespace set used here.
