# Editorial form: a Dafny model of its state-update rules

The editorial page is a single-page form. An editor composes a content item and posts it to a
content API: a title, a date, body paragraphs and multiple-choice questions. If the post
succeeds, the page offers to register the new item as the daily editorial for a chosen date.
All of its logic is the state-update rules inside the event handlers. This project lifts those
rules out as pure Dafny functions on immutable records and proves what they promise.

- `Sequences` holds the two index idioms both editors use, `map` with an index test and
  `filter` with an index test. Each is written element by element, as the source computes it.
- `QuestionEditor` models `src/components/QuestionsForm.jsx`. It has the question record, the
  editor's initial state and the option handlers. It also has the "has a Set Correct button"
  predicate and the "marked Correct" predicate; the mark is drawn inside that button, so an
  option without text is never marked. A replay of any sequence of edits keeps one invariant:
  an editor that starts with an option always has one. The module also has a soft invariant,
  `AnswerListed`: a non-empty correct answer is the text of some option. Deleting an option,
  adding one and pressing Set Correct keep it; retyping the correct option's text, or typing a
  different answer into the answer field, breaks it.
- `QuestionList` models the question-list handlers of `src/App.jsx`.
- `Paragraphs` models the paragraph normaliser: split on line feeds, trim, drop empty lines.
- `Submission` models the payload and the submit handler as a transition on the form state.
  The network call is replaced by an abstract reply given as input. The module also has the
  daily-assignment handler, a stream of user events, and the invariant that holds between events.
- `Wrappers` holds the `Option` type used for JavaScript fields that may be missing.

A create reply with an error status whose body is not JSON shows the JSON parse error's message,
not `HTTP error! Status: …`: `response.json()` throws inside the `try`, and the `catch` reports
that error's message (`src/App.jsx:76-78,95-98`). `ThrownMessage` and `Submit` state this.

## Model

| member | source | states |
|---|---|---|
| Sequences.ReplaceAt | src/components/QuestionsForm.jsx:14-16 | An index-tested `map` keeps the length, puts the new value at index `j`, and keeps every other element. An index outside the list changes nothing. |
| Sequences.RemoveAt | src/components/QuestionsForm.jsx:30 | An index-tested `filter` yields `xs[..j] + xs[j+1..]`, one element shorter. An index outside the list changes nothing. |
| QuestionEditor.Mount | src/components/QuestionsForm.jsx:4-6 | A missing statement or answer starts empty. Missing options start as one empty option. An options array that is present, even an empty one, is kept because an array is truthy. The editor starts with an option exactly when the props have none or a non-empty array. |
| QuestionEditor.MountPropsOf | src/components/QuestionsForm.jsx:4-6 | Mounting an editor on a question from the list reproduces that question exactly. |
| QuestionEditor.EditStatement | src/components/QuestionsForm.jsx:47 | The statement textarea changes the statement only. |
| QuestionEditor.ChangeOption | src/components/QuestionsForm.jsx:13-18 | The length is kept, option `j` gets the typed text, and every other option and field is unchanged. An index outside the list changes nothing. |
| QuestionEditor.AddOption | src/components/QuestionsForm.jsx:20-22 | Exactly one empty option is appended. The earlier options, the statement and the correct answer are unchanged. |
| QuestionEditor.DeleteOption | src/components/QuestionsForm.jsx:24-32 | With one option nothing changes. Otherwise the options become `options[..j] + options[j+1..]`, one fewer. The correct answer is cleared exactly when it equals the deleted text and kept otherwise. An in-range index is required only when the source would otherwise throw. |
| QuestionEditor.SetCorrect | src/components/QuestionsForm.jsx:35-37 | The correct answer becomes exactly the given text. The statement and options are unchanged. |
| QuestionEditor.ShownCorrectIffAnswer | src/components/QuestionsForm.jsx:65-77 | An option is marked Correct exactly when its text is non-empty and equals the correct answer. An empty correct answer marks no option. |
| QuestionEditor.PressSetCorrect | src/components/QuestionsForm.jsx:65-76 | Pressing the button of a non-empty option leaves a non-empty answer. That option is then marked Correct, and so is exactly every option with the same text. |
| QuestionEditor.PressSetCorrectUnique | src/components/QuestionsForm.jsx:65-77 | With pairwise different option texts, only the pressed option is marked Correct. Identical non-empty options are always marked together. |
| QuestionEditor.OptionHandlersKeepAnswerListed | src/components/QuestionsForm.jsx:20-37 | Deleting an option, adding one, or pressing Set Correct keeps a non-empty correct answer equal to some option's text. |
| QuestionEditor.ChangeOptionCanUnlistAnswer | src/components/QuestionsForm.jsx:13-18 | Retyping the option that is the correct answer leaves an answer that no option lists. |
| QuestionEditor.TypeCorrectAnswerCanUnlistAnswer | src/components/QuestionsForm.jsx:94-99 | Typing a text that no option has into the correct-answer field leaves an answer that no option lists. |
| QuestionEditor.Apply | src/components/QuestionsForm.jsx:13-37 | No single editor action removes the last option. |
| QuestionEditor.ReplayKeepsAnOption | src/components/QuestionsForm.jsx:20-32 | Starting from at least one option, no sequence of edits that does not throw leaves the question without options. |
| QuestionEditor.MountedEditorKeepsAnOption | src/components/QuestionsForm.jsx:5 | An editor mounted with no options array, or a non-empty one, never shows an empty option list. |
| QuestionList.AddQuestion | src/App.jsx:31-36 | Exactly one question is appended, with an empty statement, one empty option and an empty answer. The existing prefix is unchanged. |
| QuestionList.UpdateQuestion | src/App.jsx:38-43 | The length is kept, question `i` becomes the reported one, and all other questions are unchanged. An index outside the list changes nothing. |
| QuestionList.DeleteQuestion | src/App.jsx:45-47 | Exactly question `i` is removed, with length minus one and order kept. An index outside the list changes nothing. |
| QuestionList.ListHandlersKeepOptions | src/App.jsx:31-47 | Adding and deleting questions, and replacing a question with one that has options, keep every question with at least one option. |
| QuestionList.ReportedEditKeepsOptions | src/App.jsx:38-43 | An editor action reported for question `i` changes only question `i` and keeps every question with an option. |
| QuestionList.AddQuestions | src/App.jsx:31-36 | Pressing "Add New Question" `n` times appends `n` fresh questions after the unchanged list. |
| QuestionList.AddThenDelete | src/App.jsx:31-47 | Adding `n` questions and then deleting index `k` gives `n - 1` more questions than the start. An original at `k` is removed and the other originals keep their order; a `k` among the new questions keeps every original. Every entry after the surviving originals is a fresh question. |
| Paragraphs.Split | src/App.jsx:56 | `split('\n')` yields one more piece than there are line feeds, and no piece contains a line feed. |
| Paragraphs.JoinSplit | src/App.jsx:56 | Joining the pieces with line feeds restores the text. |
| Paragraphs.SplitJoin | src/App.jsx:56 | Splitting a join of line-feed-free pieces recovers the pieces. |
| Paragraphs.TrimStart | src/App.jsx:57 | The result is a suffix of the input. Everything dropped is white space, and the result does not start with white space. |
| Paragraphs.TrimEnd | src/App.jsx:57 | The result is a prefix of the input. Everything dropped is white space, and the result does not end with white space. |
| Paragraphs.Trim | src/App.jsx:57 | The result has no white space at either end. It is no longer than the input and uses only the input's characters. A trimmed text is returned unchanged. |
| Paragraphs.TrimIsInfix | src/App.jsx:57 | The trimmed text is an infix `s[a..b]` with only white space before `a` and after `b`. |
| Paragraphs.TrimEachIsInfix | src/App.jsx:57 | Every trimmed line is its input line with only white space cut from the two ends. |
| Paragraphs.TrimEach | src/App.jsx:57 | Line `k` of the result is line `k` of the input trimmed, and the count is kept. No line feed is introduced, and trimmed lines are left as they are. |
| Paragraphs.DropEmpty | src/App.jsx:58 | A string is in the result exactly when it is a non-empty line of the input. A list with no empty line is returned unchanged. |
| Paragraphs.Normalise | src/App.jsx:55-58 | Every paragraph is non-empty, trimmed and a single line. There are at most (line feeds + 1) paragraphs. |
| Paragraphs.NormaliseLine | src/App.jsx:55-58 | A text without line feeds gives its trimmed text as the one paragraph, or no paragraph when that is empty. |
| Paragraphs.NormaliseAfterLine | src/App.jsx:55-58 | A first line and a line feed contribute that line's trimmed text, unless empty, in front of the paragraphs of the rest. With `NormaliseLine` this fixes the result on every text. |
| Paragraphs.NormaliseIdempotent | src/App.jsx:55-58 | Normalising the normalised paragraphs joined by line feeds gives the same paragraphs. |
| Paragraphs.NormaliseExample | src/App.jsx:55-58 | `"Line one.\n\nLine two.  \n"` becomes `["Line one.", "Line two."]`. |
| Paragraphs.NormaliseBlankBetween | src/App.jsx:55-58 | Two lines with a blank line between them and a final line feed give the first line's paragraphs followed by the second's. |
| Submission.DecimalString | src/App.jsx:78 | The status code is printed as non-empty decimal digits without leading zeros, and reading them back gives the code. |
| Submission.ThrownMessage | src/App.jsx:76-78 | The thrown message is a rejection's or parse error's own text. Otherwise it is the body's `message` when truthy (the JavaScript or-default), and otherwise the prefix followed by the status. |
| Submission.ClassifyCreate | src/App.jsx:76-93 | The create call succeeds with an identifier exactly for an ok, readable reply with a truthy `_id`. It is the missing-identifier case for an ok, readable reply without one. Every other reply fails with the thrown message. |
| Submission.MakePayload | src/App.jsx:60-65 | Title, questions and date pass through unchanged. The paragraphs are the normalised input: non-empty, trimmed, at most one per input line. |
| Submission.BeginSubmit | src/App.jsx:52-67 | Before the call, the status is pending, loading is on, the payload is previewed, and nothing else changes. |
| Submission.Submit | src/App.jsx:50-101 | Afterwards loading is always off and the status is success or error. Success happens exactly for an ok reply with a truthy `_id`; it records the id and opens the prompt. An error keeps the id and the prompt as they were. The preview shows the missing-id notice, the server message, the status fallback or the thrown text, as the case may be. Form fields are unchanged. |
| Submission.ConfirmDaily | src/App.jsx:105-136 | Without a truthy id or a date, nothing changes and nothing is sent. Otherwise `{list:[id], date}` is sent and posting ends. The prompt closes only on an ok reply, the alert says posted or failed, and nothing else changes. |
| Submission.InitialSettled | src/App.jsx:7-24 | `Initial`, the form's opening state, is settled, with no questions, no identifier and the prompt closed. |
| Submission.GuardedEvents | src/App.jsx:141-254 | `Step`, the event wiring of the page, applies its guards. A submission with an empty title or paragraph text changes nothing, because both fields are `required`. A submission of a filled form ends in success or error with loading off. The prompt's date field and buttons do nothing while the prompt is closed, and a confirm that changes the form had an open prompt, a truthy identifier and a date. |
| Submission.StepKeepsSettled | src/App.jsx:31-163 | Every event `Step` handles keeps the form settled between events. No call is in flight, and the prompt is open or the status success only with a truthy identifier. |
| Submission.RunKeepsSettled | src/App.jsx:31-163 | Any run of events from a settled form ends settled. |
| Submission.OpenPromptSends | src/App.jsx:106-113 | Confirming the open prompt with a date always sends the recorded identifier with that date. |
| Submission.IdComesFromServer | src/App.jsx:86-88 | The recorded identifier is either the starting one or one returned by the create call of a submission in the run that the `required` fields and the disabled button let through. |
| Submission.NoDailyPostBeforeSuccess | src/App.jsx:105-113 | From a fresh form, no daily post is sent until a submission that reached the handler has had an identifier returned by its create call. Blocked submissions make no call and so never count. |
| Submission.CreatedThenDailyExample | src/App.jsx:86-113 | A reply `{"_id":"abc123"}` opens the prompt with today's date, and confirming for `2024-05-02` sends `{list:["abc123"], date:"2024-05-02"}`. |
| Submission.ServerMessageExample | src/App.jsx:76-78 | A 400 reply with message `title required` reports exactly that message. |
| Submission.StatusFallbackExample | src/App.jsx:78 | A 500 reply whose JSON body has no `message` (for example `{}`) reports `HTTP error! Status: 500`. |
| Submission.EmptyBodyExample | src/App.jsx:76-78 | A 500 reply with a truly empty body reports the JSON parse error's message, not `HTTP error! Status: 500`. |
| Submission.MissingIdExample | src/App.jsx:90-93 | A 201 reply with `{}` is the missing-identifier error, and the prompt stays closed. |

## Left out

- `fetch` and `response.json()` are replaced by the `Reply` input. A reply is a response (ok flag, status, and the `message` and `_id` fields or a parse error) or a rejection with its message. Request headers and URLs are not modelled.
- `JSON.stringify` text is not modelled. The preview pane holds the payload value, or the message and the payload, instead of their JSON text.
- `alert` and `console` are I/O. The daily alert appears only as the `Notice` value.
- React hooks are not modelled: `useState`, and the `useEffect` that reports each editor change to the list. Each handler is an explicit state-to-state function. `QuestionList.ReportedEditKeepsOptions` composes an editor action with the list update.
- The date `new Date().toISOString()` reads the clock, so today's date is the `today` parameter of `Initial`.
- JSX rendering and CSS are not modelled, apart from the "marked Correct" and "has a Set Correct button" predicates. The `required` fields and the disabled buttons appear only as guards in `Submission.Step`.
- The `key={index}` reuse of editor instances after a middle question is deleted is React reconciliation, not handler logic.
- A stale reply that arrives after the component is unmounted is not modelled. The model has no concurrency: each call settles before the next event.
- Submission.DecimalString: models `${status}` for the non-negative integer status codes `fetch` reports, not JavaScript's number-to-string conversion in general.
- A create or daily reply whose body is JSON `null` throws a `TypeError` when `.message` or `._id` is read. It is represented as `Unparsable` carrying that error's text.
- A truthy `message` that is not a string is converted with `String()` in the source. It is not modelled: `message` is a string or missing.
- The `|| ''` and `|| [...]` defaults treat only a missing or empty field as falsy. Non-string or non-array values in the props are not modelled.
- QuestionEditor.DeleteOption: a call with two or more options and an out-of-range index throws in the source. It is excluded by the precondition, and `Replay` ends in `None` at such an edit. The rendered buttons only ever pass in-range indices.
