/**
 The question editor: one question's statement, its ordered answer options and the
 free-text correct answer, with the editor's handlers as pure state updates.
 */
module QuestionEditor {
  import opened Wrappers
  import Sequences

  /** One answer option, `{ statement }`. */
  datatype Choice = Choice(statement: string)

  /** A question as the editor holds it and reports it upwards. */
  datatype Question = Question(statement: string, options: seq<Choice>, correctAnswer: string)

  const EmptyChoice: Choice := Choice("")

  /** The `question` prop the editor is mounted with; a field that is `undefined` is `None`. */
  datatype QuestionProps = QuestionProps(statement: Option<string>, options: Option<seq<Choice>>, correctAnswer: Option<string>)

  /** JavaScript `value || fallback` for a possibly missing string: the empty string is falsy. */
  function StringOr(value: Option<string>, fallback: string): string {
    if value.Some? && value.value != "" then value.value else fallback
  }

  /** The props a question already in the list is rendered with. */
  function PropsOf(q: Question): QuestionProps {
    QuestionProps(Some(q.statement), Some(q.options), Some(q.correctAnswer))
  }

  /**
   The editor's initial state. A missing statement or answer becomes empty, missing options
   become one empty option, and an options array that is present is kept even when it is
   empty, because an array is always truthy.
   */
  function Mount(p: QuestionProps): (q: Question)
    ensures q.statement == p.statement.GetOr("")
    ensures q.correctAnswer == p.correctAnswer.GetOr("")
    ensures p.options.None? ==> q.options == [EmptyChoice]
    ensures p.options.Some? ==> q.options == p.options.value
    ensures |q.options| >= 1 <==> (p.options.None? || |p.options.value| >= 1)
  {
    Question(StringOr(p.statement, ""), if p.options.Some? then p.options.value else [EmptyChoice],
             StringOr(p.correctAnswer, ""))
  }

  /** Mounting an editor on a question of the list reproduces that question exactly. */
  lemma MountPropsOf(q: Question)
    ensures Mount(PropsOf(q)) == q
  {
  }

  /** The statement textarea: replaces the question statement and nothing else. */
  function EditStatement(q: Question, text: string): (r: Question)
    ensures r.statement == text
    ensures r.options == q.options && r.correctAnswer == q.correctAnswer
  {
    q.(statement := text)
  }

  /**
   `handleOptionChange(j, value)`: the option at index `j` gets statement `value`, every
   other option and field is kept; an index outside the list changes nothing.
   */
  function ChangeOption(q: Question, j: int, value: string): (r: Question)
    ensures |r.options| == |q.options|
    ensures 0 <= j < |q.options| ==> r.options[j].statement == value
    ensures forall k :: 0 <= k < |q.options| && k != j ==> r.options[k] == q.options[k]
    ensures r.statement == q.statement && r.correctAnswer == q.correctAnswer
    ensures !(0 <= j < |q.options|) ==> r == q
  {
    var updated := if 0 <= j < |q.options| then q.options[j].(statement := value) else EmptyChoice;
    q.(options := Sequences.ReplaceAt(q.options, j, updated))
  }

  /** `addOption()`: one empty option appended, everything before it kept. */
  function AddOption(q: Question): (r: Question)
    ensures |r.options| == |q.options| + 1
    ensures r.options[..|q.options|] == q.options
    ensures r.options[|q.options|] == EmptyChoice
    ensures r.statement == q.statement && r.correctAnswer == q.correctAnswer
  {
    q.(options := q.options + [EmptyChoice])
  }

  /**
   `deleteOption(j)`. The last remaining option cannot be deleted. Otherwise option `j` is
   removed, the others keep their order, and the correct answer is cleared exactly when it
   equals the deleted option's text. With two or more options an index outside the list
   makes the source throw (it reads `options[j].statement`), so such a call is excluded.
   */
  function DeleteOption(q: Question, j: int): (r: Question)
    requires |q.options| > 1 ==> 0 <= j < |q.options|
    ensures |q.options| <= 1 ==> r == q
    ensures |q.options| > 1 ==> r.options == q.options[..j] + q.options[j + 1..]
    ensures |q.options| > 1 ==> |r.options| == |q.options| - 1
    ensures |q.options| > 1 && q.options[j].statement == q.correctAnswer ==> r.correctAnswer == ""
    ensures |q.options| > 1 && q.options[j].statement != q.correctAnswer ==> r.correctAnswer == q.correctAnswer
    ensures |q.options| >= 1 ==> |r.options| >= 1
    ensures r.statement == q.statement
  {
    if |q.options| > 1 then
      var answer := if q.options[j].statement == q.correctAnswer then "" else q.correctAnswer;
      q.(options := Sequences.RemoveAt(q.options, j), correctAnswer := answer)
    else
      q
  }

  /**
   `handleSetCorrect(text)`, and equally the manual correct-answer field: the correct
   answer becomes exactly `text`; statement and options are kept.
   */
  function SetCorrect(q: Question, text: string): (r: Question)
    ensures r.correctAnswer == text
    ensures r.statement == q.statement && r.options == q.options
  {
    q.(correctAnswer := text)
  }

  /** The "Set Correct" button is rendered only for an option with non-empty text. */
  predicate HasSetCorrectButton(o: Choice) {
    o.statement != ""
  }

  /**
   The button of an option reads "Correct" (and is drawn green) when its text equals the
   correct answer; an option without text has no button, so it is never marked.
   */
  predicate ShownCorrect(q: Question, o: Choice) {
    HasSetCorrectButton(o) && o.statement == q.correctAnswer
  }

  /**
   An option is marked exactly when it has text and that text is the correct answer; in
   particular an empty correct answer marks no option, even an option without text.
   */
  lemma ShownCorrectIffAnswer(q: Question, o: Choice)
    ensures ShownCorrect(q, o) <==> o.statement != "" && o.statement == q.correctAnswer
    ensures q.correctAnswer == "" ==> !ShownCorrect(q, o)
    ensures ShownCorrect(q, o) ==> q.correctAnswer != ""
  {
  }

  /**
   Pressing "Set Correct" on option `j` marks it "Correct", never leaves the answer empty, and
   marks exactly the options whose text equals option `j`'s.
   */
  lemma PressSetCorrect(q: Question, j: int)
    requires 0 <= j < |q.options| && HasSetCorrectButton(q.options[j])
    ensures var r := SetCorrect(q, q.options[j].statement);
      && r.correctAnswer != ""
      && ShownCorrect(r, r.options[j])
      && forall k :: 0 <= k < |r.options| ==>
           (ShownCorrect(r, r.options[k]) <==> r.options[k].statement == q.options[j].statement)
  {
  }

  /** Option texts are pairwise different. */
  predicate DistinctOptions(q: Question) {
    forall a, b :: 0 <= a < b < |q.options| ==> q.options[a].statement != q.options[b].statement
  }

  /**
   When option texts are distinct, pressing "Set Correct" on option `j` marks option `j`
   alone; two options with the same non-empty text are marked together.
   */
  lemma {:induction false} PressSetCorrectUnique(q: Question, j: int, k: int)
    requires 0 <= j < |q.options| && 0 <= k < |q.options|
    ensures var r := SetCorrect(q, q.options[j].statement);
      (DistinctOptions(q) && ShownCorrect(r, r.options[k]) ==> k == j)
      && (HasSetCorrectButton(q.options[j]) && q.options[k] == q.options[j] ==> ShownCorrect(r, r.options[k]))
  {
    if DistinctOptions(q) && k != j {
      if k < j {
        assert q.options[k].statement != q.options[j].statement;
      } else {
        assert q.options[j].statement != q.options[k].statement;
      }
    }
  }

  /** The soft invariant: a non-empty correct answer is the text of some option. */
  predicate AnswerListed(q: Question) {
    q.correctAnswer == "" || exists k :: 0 <= k < |q.options| && q.options[k].statement == q.correctAnswer
  }

  /** Deleting and adding options, and pressing "Set Correct", keep the soft invariant. */
  lemma {:induction false} OptionHandlersKeepAnswerListed(q: Question, j: int)
    requires AnswerListed(q)
    ensures 0 <= j < |q.options| ==> AnswerListed(DeleteOption(q, j))
    ensures AnswerListed(AddOption(q))
    ensures 0 <= j < |q.options| ==> AnswerListed(SetCorrect(q, q.options[j].statement))
  {
    if 0 <= j < |q.options| && |q.options| > 1 && q.correctAnswer != "" && q.options[j].statement != q.correctAnswer {
      var k :| 0 <= k < |q.options| && q.options[k].statement == q.correctAnswer;
      var r := DeleteOption(q, j);
      var k' := if k < j then k else k - 1;
      assert r.options[k'] == q.options[k];
    }
    if q.correctAnswer != "" {
      var k :| 0 <= k < |q.options| && q.options[k].statement == q.correctAnswer;
      assert AddOption(q).options[k] == q.options[k];
    }
    if 0 <= j < |q.options| {
      assert SetCorrect(q, q.options[j].statement).options[j].statement == q.options[j].statement;
    }
  }

  /** Editing the text of the option that is the correct answer breaks the soft invariant. */
  lemma ChangeOptionCanUnlistAnswer()
    ensures var q := Question("Q", [Choice("a")], "a");
      AnswerListed(q) && !AnswerListed(ChangeOption(q, 0, "b"))
  {
    var q := Question("Q", [Choice("a")], "a");
    assert q.options[0].statement == q.correctAnswer;
    var r := ChangeOption(q, 0, "b");
    assert r.options == [Choice("b")];
  }

  /** Typing a different text into the correct-answer field also breaks the soft invariant. */
  lemma TypeCorrectAnswerCanUnlistAnswer()
    ensures var q := Question("Q", [Choice("a")], "a");
      AnswerListed(q) && !AnswerListed(Apply(q, TypeCorrectAnswer("zzz")))
  {
    var q := Question("Q", [Choice("a")], "a");
    assert q.options[0].statement == q.correctAnswer;
  }

  /** One user action in the editor. */
  datatype Edit =
    | TypeStatement(text: string)
    | TypeOption(index: int, text: string)
    | PressAddOption
    | PressDeleteOption(index: int)
    | PressSetCorrect(text: string)
    | TypeCorrectAnswer(text: string)

  /** An edit the handlers can carry out without throwing. */
  predicate Applicable(q: Question, e: Edit) {
    e.PressDeleteOption? ==> (|q.options| > 1 ==> 0 <= e.index < |q.options|)
  }

  function Apply(q: Question, e: Edit): (r: Question)
    requires Applicable(q, e)
    ensures |q.options| >= 1 ==> |r.options| >= 1
  {
    match e
    case TypeStatement(text) => EditStatement(q, text)
    case TypeOption(j, text) => ChangeOption(q, j, text)
    case PressAddOption => AddOption(q)
    case PressDeleteOption(j) => DeleteOption(q, j)
    case PressSetCorrect(text) => SetCorrect(q, text)
    case TypeCorrectAnswer(text) => SetCorrect(q, text)
  }

  /** The state after a sequence of edits, or `None` once an edit throws. */
  function Replay(q: Question, edits: seq<Edit>): Option<Question>
    decreases |edits|
  {
    if |edits| == 0 then Some(q)
    else if !Applicable(q, edits[0]) then None
    else Replay(Apply(q, edits[0]), edits[1..])
  }

  /** Starting with at least one option, no sequence of edits leaves a question without options. */
  lemma {:induction false} ReplayKeepsAnOption(q: Question, edits: seq<Edit>)
    requires |q.options| >= 1
    ensures Replay(q, edits).Some? ==> |Replay(q, edits).value.options| >= 1
    decreases |edits|
  {
    if |edits| > 0 && Applicable(q, edits[0]) {
      ReplayKeepsAnOption(Apply(q, edits[0]), edits[1..]);
    }
  }

  /**
   An editor mounted without options, or with a non-empty options array, never shows an
   empty option list; a mounted empty array stays empty until an option is added.
   */
  lemma MountedEditorKeepsAnOption(p: QuestionProps, edits: seq<Edit>)
    requires p.options.None? || |p.options.value| >= 1
    ensures Replay(Mount(p), edits).Some? ==> |Replay(Mount(p), edits).value.options| >= 1
  {
    ReplayKeepsAnOption(Mount(p), edits);
  }
}
