/**
  The answer-list editor of a multiple-select question (src/pages/ModifQuestionMultipleSelect.tsx):
  adding, editing and removing answers, and the defaults applied to a question as it is loaded.
*/
module AnswerEditor {
  import opened QuizTypes

  /** An answer as edited; `id` is missing until the answer has been saved. */
  datatype EditorAnswer = EditorAnswer(id: Option<int>, answerText: string, isCorrect: bool, order: int)

  /** The two edits the answer rows make: the text field and the "correct" checkbox. */
  datatype FieldUpdate = SetAnswerText(text: string) | SetIsCorrect(checked: bool)

  /** The question fields shown by the editor. */
  datatype EditorQuestion = EditorQuestion(id: int, questionText: string, points: int, timeLimit: int, kind: string)

  /** `addAnswer`: a blank, incorrect, unsaved answer numbered one past the current length goes at the end. */
  function AddAnswer(answers: seq<EditorAnswer>): (r: seq<EditorAnswer>)
    ensures |r| == |answers| + 1
    ensures r[..|answers|] == answers
    ensures r[|answers|] == EditorAnswer(None, "", false, |answers| + 1)
  {
    answers + [EditorAnswer(None, "", false, |answers| + 1)]
  }

  /** One field of one answer replaced. */
  function Apply(a: EditorAnswer, update: FieldUpdate): EditorAnswer {
    match update
    case SetAnswerText(text) => a.(answerText := text)
    case SetIsCorrect(checked) => a.(isCorrect := checked)
  }

  /** `updateAnswer`, called by the row at `index`: that row gets the new field value, every other row
      and every other field stays as it was. */
  function UpdateAnswer(answers: seq<EditorAnswer>, index: nat, update: FieldUpdate): (r: seq<EditorAnswer>)
    requires index < |answers|
    ensures |r| == |answers|
    ensures forall i :: 0 <= i < |answers| && i != index ==> r[i] == answers[i]
    ensures r[index].id == answers[index].id && r[index].order == answers[index].order
    ensures update.SetAnswerText? ==> r[index].answerText == update.text && r[index].isCorrect == answers[index].isCorrect
    ensures update.SetIsCorrect? ==> r[index].isCorrect == update.checked && r[index].answerText == answers[index].answerText
  {
    answers[index := Apply(answers[index], update)]
  }

  /** `answers.filter((_, i) => i !== index)`: every position kept except `index`. */
  function KeepOthers(answers: seq<EditorAnswer>, index: int): (r: seq<EditorAnswer>)
    ensures |r| == |answers| - (if 0 <= index < |answers| then 1 else 0)
  {
    if answers == [] then []
    else KeepOthers(answers[..|answers| - 1], index) + (if |answers| - 1 == index then [] else [answers[|answers| - 1]])
  }

  /** `removeAnswer`: the answer at `index` is dropped and the others keep their order and their
      `order` numbers; an index outside the list drops nothing. */
  function RemoveAnswer(answers: seq<EditorAnswer>, index: int): (r: seq<EditorAnswer>)
    ensures 0 <= index < |answers| ==> r == answers[..index] + answers[index + 1..]
    ensures !(0 <= index < |answers|) ==> r == answers
  {
    KeepOthersSlice(answers, index);
    KeepOthers(answers, index)
  }

  lemma {:induction false} KeepOthersSlice(answers: seq<EditorAnswer>, index: int)
    ensures 0 <= index < |answers| ==> KeepOthers(answers, index) == answers[..index] + answers[index + 1..]
    ensures !(0 <= index < |answers|) ==> KeepOthers(answers, index) == answers
  {
    if answers != [] {
      var n := |answers| - 1;
      var front := answers[..n];
      var last: seq<EditorAnswer> := if n == index then [] else [answers[n]];
      assert KeepOthers(answers, index) == KeepOthers(front, index) + last;
      KeepOthersSlice(front, index);
      if index == n {
        assert answers[index + 1..] == [];
      } else if 0 <= index < n {
        assert front[..index] == answers[..index];
        assert front[index + 1..] + [answers[n]] == answers[index + 1..];
      } else {
        assert front + [answers[n]] == answers;
      }
    }
  }

  /** Removing the answer just added gives the list back. */
  lemma RemoveUndoesAdd(answers: seq<EditorAnswer>)
    ensures RemoveAnswer(AddAnswer(answers), |answers|) == answers
  {
    assert AddAnswer(answers)[..|answers|] == answers;
  }

  /** Removing does not renumber: when the answers are numbered 1..n and one other than the last is
      removed, the answer added next repeats the number of the answer now before it. */
  lemma RemoveThenAddRepeatsOrder(answers: seq<EditorAnswer>, index: nat)
    requires forall i :: 0 <= i < |answers| ==> answers[i].order == i + 1
    requires index + 1 < |answers|
    ensures var r := AddAnswer(RemoveAnswer(answers, index));
      |r| == |answers| && r[|r| - 1].order == r[|r| - 2].order == |answers|
  {
    var removed := RemoveAnswer(answers, index);
    assert removed[|removed| - 1] == answers[|answers| - 1];
  }

  /** The answers carry the numbers 1, 2, ... in list order, as `addAnswer` numbers them. */
  predicate Numbered(answers: seq<EditorAnswer>) {
    forall i :: 0 <= i < |answers| ==> answers[i].order == i + 1
  }

  /** Removing any answer but the last leaves a gap in the numbering. */
  lemma RemoveBreaksNumbering(answers: seq<EditorAnswer>, index: nat)
    requires Numbered(answers)
    requires index + 1 < |answers|
    ensures !Numbered(RemoveAnswer(answers, index))
  {
    var r := RemoveAnswer(answers, index);
    assert r[index] == answers[index + 1];
  }

  /** Each answer numbered by its position. */
  function Renumbered(answers: seq<EditorAnswer>): (r: seq<EditorAnswer>)
    ensures |r| == |answers| && Numbered(r)
    ensures forall i :: 0 <= i < |r| ==> r[i] == answers[i].(order := i + 1)
  {
    seq(|answers|, i requires 0 <= i < |answers| => answers[i].(order := i + 1))
  }

  /** Removal that renumbers the answers after the removed one, so that the numbering stays 1, 2, ... */
  function RemoveAnswerRenumbered(answers: seq<EditorAnswer>, index: int): (r: seq<EditorAnswer>)
    ensures |r| == |RemoveAnswer(answers, index)|
    ensures forall i :: 0 <= i < |r| ==> r[i] == RemoveAnswer(answers, index)[i].(order := i + 1)
  {
    Renumbered(RemoveAnswer(answers, index))
  }

  /** With the renumbering removal, every edit keeps the answers numbered 1, 2, ..., so that no two
      answers share an `order`. */
  lemma EditsKeepNumbering(answers: seq<EditorAnswer>, index: int, position: nat, update: FieldUpdate)
    requires Numbered(answers)
    ensures Numbered(AddAnswer(answers))
    ensures Numbered(RemoveAnswerRenumbered(answers, index))
    ensures position < |answers| ==> Numbered(UpdateAnswer(answers, position, update))
    ensures forall i, j :: 0 <= i < j < |answers| ==> answers[i].order != answers[j].order
  {
  }

  /** On a numbered list, removing the last answer needs no renumbering: both removals agree. */
  lemma RenumberedRemovalOfLast(answers: seq<EditorAnswer>)
    requires Numbered(answers) && |answers| >= 1
    ensures RemoveAnswerRenumbered(answers, |answers| - 1) == RemoveAnswer(answers, |answers| - 1)
  {
    var r, q := RemoveAnswerRenumbered(answers, |answers| - 1), RemoveAnswer(answers, |answers| - 1);
    assert forall i :: 0 <= i < |q| ==> q[i] == answers[i];
    assert forall i :: 0 <= i < |r| ==> r[i] == q[i];
  }

  /** The loaded question with `??` defaults: a missing text, points, time limit or type becomes '',
      1000, 30 and "MULTIPLE_SELECT"; a value that is present, 0 and '' included, is kept. */
  function LoadQuestion(id: int, questionText: Option<string>, points: Option<int>, timeLimit: Option<int>,
    kind: Option<string>): (q: EditorQuestion)
    ensures q.id == id
    ensures questionText.Some? ==> q.questionText == questionText.value
    ensures questionText.None? ==> q.questionText == ""
    ensures points.Some? ==> q.points == points.value
    ensures points.None? ==> q.points == 1000
    ensures timeLimit.Some? ==> q.timeLimit == timeLimit.value
    ensures timeLimit.None? ==> q.timeLimit == 30
    ensures kind.Some? ==> q.kind == kind.value
    ensures kind.None? ==> q.kind == "MULTIPLE_SELECT"
  {
    EditorQuestion(
      id,
      if questionText.Some? then questionText.value else "",
      if points.Some? then points.value else 1000,
      if timeLimit.Some? then timeLimit.value else 30,
      if kind.Some? then kind.value else "MULTIPLE_SELECT")
  }

  /** `answersData || []`: a missing answer list loads as the empty list. */
  function LoadAnswers(answersData: Option<seq<EditorAnswer>>): (r: seq<EditorAnswer>)
    ensures answersData.Some? ==> r == answersData.value
    ensures answersData.None? ==> r == []
  {
    if answersData.Some? then answersData.value else []
  }

  /** A stored time limit of 0 is shown as 0 by the editor, while the live game reads it as 30 seconds. */
  lemma ZeroTimeLimitDiffers(id: int, questionText: Option<string>, points: Option<int>, kind: Option<string>)
    ensures LoadQuestion(id, questionText, points, Some(0), kind).timeLimit == 0
    ensures TimeLimitOrDefault(Some(0)) == 30
  {
  }
}
