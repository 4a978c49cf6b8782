/**
 The form's ordered list of questions and its three handlers: append a fresh
 question, replace the question an editor reports, delete a question by index.
 */
module QuestionList {
  import Sequences
  import opened QuestionEditor

  /** The question `handleAddQuestion` appends: empty statement, one empty option, no answer. */
  const NewQuestion: Question := Question("", [EmptyChoice], "")

  /** `handleAddQuestion()`: exactly one fresh question at the end, the rest untouched. */
  function AddQuestion(qs: seq<Question>): (r: seq<Question>)
    ensures |r| == |qs| + 1
    ensures r[..|qs|] == qs
    ensures r[|qs|].statement == "" && r[|qs|].correctAnswer == ""
    ensures r[|qs|].options == [Choice("")]
  {
    qs + [NewQuestion]
  }

  /**
   `handleUpdateQuestion(i, q)`: question `i` becomes `q`, every other question is kept;
   an index outside the list changes nothing.
   */
  function UpdateQuestion(qs: seq<Question>, i: int, q: Question): (r: seq<Question>)
    ensures |r| == |qs|
    ensures 0 <= i < |qs| ==> r[i] == q
    ensures forall k :: 0 <= k < |qs| && k != i ==> r[k] == qs[k]
    ensures !(0 <= i < |qs|) ==> r == qs
  {
    Sequences.ReplaceAt(qs, i, q)
  }

  /**
   `handleDeleteQuestion(i)`: exactly question `i` is removed and the rest keep their
   order; an index outside the list changes nothing.
   */
  function DeleteQuestion(qs: seq<Question>, i: int): (r: seq<Question>)
    ensures 0 <= i < |qs| ==> |r| == |qs| - 1
    ensures 0 <= i < |qs| ==> r == qs[..i] + qs[i + 1..]
    ensures 0 <= i < |qs| ==> forall k :: 0 <= k < |r| ==> r[k] == (if k < i then qs[k] else qs[k + 1])
    ensures !(0 <= i < |qs|) ==> r == qs
  {
    Sequences.RemoveAt(qs, i)
  }

  /** Every question in the list offers at least one option. */
  predicate AllHaveOptions(qs: seq<Question>) {
    forall k :: 0 <= k < |qs| ==> |qs[k].options| >= 1
  }

  /**
   The list handlers keep every question with an option, given that an editor reports
   only questions that have one (which `ReplayKeepsAnOption` guarantees for it).
   */
  lemma ListHandlersKeepOptions(qs: seq<Question>, i: int, q: Question)
    requires AllHaveOptions(qs)
    ensures AllHaveOptions(AddQuestion(qs))
    ensures AllHaveOptions(DeleteQuestion(qs, i))
    ensures |q.options| >= 1 ==> AllHaveOptions(UpdateQuestion(qs, i, q))
  {
  }

  /**
   An edit made in the editor of question `i` and reported upwards changes question `i`
   only, and keeps every question with an option.
   */
  lemma ReportedEditKeepsOptions(qs: seq<Question>, i: int, e: Edit)
    requires AllHaveOptions(qs)
    requires 0 <= i < |qs| && Applicable(qs[i], e)
    ensures var r := UpdateQuestion(qs, i, Apply(qs[i], e));
      AllHaveOptions(r) && |r| == |qs| && forall k :: 0 <= k < |qs| && k != i ==> r[k] == qs[k]
  {
  }

  /** `n` presses of "Add New Question". */
  function AddQuestions(qs: seq<Question>, n: nat): (r: seq<Question>)
    ensures |r| == |qs| + n
    ensures r[..|qs|] == qs
    ensures forall k :: |qs| <= k < |r| ==> r[k] == NewQuestion
  {
    if n == 0 then qs else AddQuestion(AddQuestions(qs, n - 1))
  }

  /**
   Adding `n` questions and deleting the one at `k`: a starting list loses exactly its
   `k`-th entry (or keeps all of its entries when `k` falls among the new ones), the rest
   in order, and every entry after the surviving start is a fresh question.
   */
  lemma {:induction false} AddThenDelete(qs: seq<Question>, n: nat, k: int)
    requires 0 <= k < |qs| + n
    ensures var r := DeleteQuestion(AddQuestions(qs, n), k);
      && |r| == |qs| + n - 1
      && (k < |qs| ==> r[..|qs| - 1] == qs[..k] + qs[k + 1..])
      && (k >= |qs| ==> r[..|qs|] == qs)
      && forall m :: (if k < |qs| then |qs| - 1 else |qs|) <= m < |r| ==> r[m] == NewQuestion
  {
    var all := AddQuestions(qs, n);
    var r := DeleteQuestion(all, k);
    if k < |qs| {
      assert r == all[..k] + all[k + 1..];
      assert all[..k] == qs[..k];
      assert r[..|qs| - 1] == qs[..k] + qs[k + 1..];
      forall m | |qs| - 1 <= m < |r| ensures r[m] == NewQuestion {
        assert r[m] == all[m + 1];
      }
    } else {
      assert r[..|qs|] == all[..|qs|];
      forall m | |qs| <= m < |r| ensures r[m] == NewQuestion {
        assert r[m] == (if m < k then all[m] else all[m + 1]);
      }
    }
  }
}
