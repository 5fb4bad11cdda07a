/**
  The true/false question card (src/components/QuestionTrueFalse.tsx): which answers the "Vrai" and
  "Faux" buttons stand for, and which answer id a click submits.
*/
module QuestionTrueFalse {
  import opened QuizTypes
  import opened Text

  /** The two buttons. */
  datatype Side = TrueSide | FalseSide

  /** The answers behind the two buttons; a side may have none. */
  datatype Choices = Choices(trueAnswer: Option<ChoiceAnswer>, falseAnswer: Option<ChoiceAnswer>)
  {
    function Get(side: Side): Option<ChoiceAnswer> {
      if side == TrueSide then trueAnswer else falseAnswer
    }
  }

  /** `text?.toLowerCase().trim()`: no longer than the text, with no ASCII capital left and no
      whitespace at either end. */
  function Normalized(text: string): (r: string)
    ensures |r| <= |text|
    ensures forall k :: 0 <= k < |r| ==> !('A' <= r[k] <= 'Z')
    ensures r == [] || (!IsWhitespace(r[0]) && !IsWhitespace(r[|r| - 1]))
  {
    var lower := ToLower(text);
    TrimKeepsNoCapital(lower);
    Trim(lower)
  }

  /** Trimming a text without ASCII capitals leaves a shorter text without ASCII capitals. */
  lemma TrimKeepsNoCapital(s: string)
    requires forall k :: 0 <= k < |s| ==> !('A' <= s[k] <= 'Z')
    ensures |Trim(s)| <= |s|
    ensures forall k :: 0 <= k < |Trim(s)| ==> !('A' <= Trim(s)[k] <= 'Z')
  {
    var i := SkipWhitespace(s, 0);
    assert Trim(s) == s[i..SkipWhitespaceBack(s, i, |s|)];
  }

  /** A text that reads "vrai"/"true" (for the true side) or "faux"/"false" (for the false side) once
      lower-cased and trimmed; a missing text reads as neither, and so does any text shorter than four
      characters. */
  predicate IsLabel(text: Option<string>, side: Side)
    ensures IsLabel(text, side) ==> text.Some? && |text.value| >= 4
  {
    text.Some? &&
    if side == TrueSide then Normalized(text.value) == "vrai" || Normalized(text.value) == "true"
    else Normalized(text.value) == "faux" || Normalized(text.value) == "false"
  }

  /** No text reads as both labels. */
  lemma LabelsExclusive(text: Option<string>)
    ensures !(IsLabel(text, TrueSide) && IsLabel(text, FalseSide))
  {
  }

  /** Case does not matter: a text reads as a label exactly when its lower-cased form does. */
  lemma LabelIgnoresCase(text: string, side: Side)
    ensures IsLabel(Some(ToLower(text)), side) <==> IsLabel(Some(text), side)
  {
    ToLowerIdempotent(text);
  }

  /** Which answers are labelled for `side`, position by position. */
  function Labelled(answers: seq<ChoiceAnswer>, side: Side): (b: seq<bool>)
    ensures |b| == |answers|
    ensures forall j :: 0 <= j < |answers| ==> b[j] == IsLabel(answers[j].answerText, side)
  {
    seq(|answers|, j requires 0 <= j < |answers| => IsLabel(answers[j].answerText, side))
  }

  /** The first position from `start` on that holds `true`, or `|b|` when there is none. */
  function FirstTrue(b: seq<bool>, start: nat): (i: nat)
    requires start <= |b|
    ensures start <= i <= |b|
    ensures i < |b| ==> b[i]
    ensures forall j :: start <= j < i ==> !b[j]
    decreases |b| - start
  {
    if start == |b| || b[start] then start else FirstTrue(b, start + 1)
  }

  /** The position of the first answer labelled for `side`, or `|answers|` when there is none. */
  function FirstLabelled(answers: seq<ChoiceAnswer>, side: Side): (i: nat)
    ensures i <= |answers|
    ensures i < |answers| ==> IsLabel(answers[i].answerText, side)
    ensures forall j :: 0 <= j < i ==> !IsLabel(answers[j].answerText, side)
  {
    FirstTrue(Labelled(answers, side), 0)
  }

  /** `question.answers?.find(...)`: the first answer labelled for `side`, if any. */
  function Find(answers: Option<seq<ChoiceAnswer>>, side: Side): (r: Option<ChoiceAnswer>)
    ensures answers.None? ==> r.None?
    ensures answers.Some? ==>
      r == if FirstLabelled(answers.value, side) < |answers.value| then Some(answers.value[FirstLabelled(answers.value, side)]) else None
  {
    if answers.None? then None
    else
      var i := FirstLabelled(answers.value, side);
      if i < |answers.value| then Some(answers.value[i]) else None
  }

  /** The answer made up for a missing side: it borrows the given id and is never correct. */
  function Synthesized(id: int, side: Side): ChoiceAnswer {
    ChoiceAnswer(id, Some(if side == TrueSide then "Vrai" else "Faux"), false)
  }

  /** The first fallback, for a question with exactly one answer: the answer takes the true side when it
      reads as true and the false side otherwise; the other side is made up with its id plus 1000. */
  function LoneAnswerChoices(lone: ChoiceAnswer): (c: Choices)
    ensures c.trueAnswer.Some? && c.falseAnswer.Some?
    ensures c.trueAnswer == Some(lone) <==> IsLabel(lone.answerText, TrueSide)
    ensures c.falseAnswer == Some(lone) <==> !IsLabel(lone.answerText, TrueSide)
    ensures c.trueAnswer != Some(lone) ==> c.trueAnswer.value == ChoiceAnswer(lone.id + 1000, Some("Vrai"), false)
    ensures c.falseAnswer != Some(lone) ==> c.falseAnswer.value == ChoiceAnswer(lone.id + 1000, Some("Faux"), false)
  {
    if IsLabel(lone.answerText, TrueSide) then Choices(Some(lone), Some(Synthesized(lone.id + 1000, FalseSide)))
    else Choices(Some(Synthesized(lone.id + 1000, TrueSide)), Some(lone))
  }

  /** The last fallback, when neither side has an answer: ids 1 and 2, each correct when the question's
      `correctAnswerText` reads as its label. */
  function DefaultChoices(correctAnswerText: Option<string>): (c: Choices)
    ensures c.trueAnswer.Some? && c.trueAnswer.value.id == 1 && c.trueAnswer.value.answerText == Some("Vrai")
    ensures c.falseAnswer.Some? && c.falseAnswer.value.id == 2 && c.falseAnswer.value.answerText == Some("Faux")
    ensures c.trueAnswer.value.isCorrect <==> IsLabel(correctAnswerText, TrueSide)
    ensures c.falseAnswer.value.isCorrect <==> IsLabel(correctAnswerText, FalseSide)
    ensures !(c.trueAnswer.value.isCorrect && c.falseAnswer.value.isCorrect)
  {
    LabelsExclusive(correctAnswerText);
    Choices(
      Some(ChoiceAnswer(1, Some("Vrai"), IsLabel(correctAnswerText, TrueSide))),
      Some(ChoiceAnswer(2, Some("Faux"), IsLabel(correctAnswerText, FalseSide))))
  }

  /** The component's resolution of `trueAnswer` and `falseAnswer`: the two finds, then the one-answer
      fallback, then the default when both sides are still empty. */
  function Resolve(answers: Option<seq<ChoiceAnswer>>, correctAnswerText: Option<string>): (c: Choices)
    ensures c.trueAnswer.Some? || c.falseAnswer.Some?
  {
    var found :=
      if answers.Some? && |answers.value| == 1 then LoneAnswerChoices(answers.value[0])
      else Choices(Find(answers, TrueSide), Find(answers, FalseSide));
    if found.trueAnswer.None? && found.falseAnswer.None? then DefaultChoices(correctAnswerText) else found
  }

  /** A click on a button: the id passed to `onAnswer`, or nothing when the side has no answer. */
  function Click(c: Choices, side: Side): (id: Option<int>)
    ensures id.Some? <==> c.Get(side).Some?
    ensures id.Some? ==> id.value == c.Get(side).value.id
  {
    if c.Get(side).Some? then Some(c.Get(side).value.id) else None
  }

  /** Unless the question has exactly one answer, a side that some answer is labelled for gets the first
      such answer, and when some side is labelled the other side keeps what its own search found. */
  lemma ResolveFindsFirstLabelled(answers: seq<ChoiceAnswer>, correctAnswerText: Option<string>, side: Side)
    requires |answers| != 1
    requires FirstLabelled(answers, side) < |answers|
    ensures Resolve(Some(answers), correctAnswerText).Get(side) == Some(answers[FirstLabelled(answers, side)])
    ensures Resolve(Some(answers), correctAnswerText) == Choices(Find(Some(answers), TrueSide), Find(Some(answers), FalseSide))
  {
  }

  /** With exactly one answer both sides are defined: the answer itself goes to the true side exactly when
      it reads as true, and to the false side otherwise, whatever its label; the other side is made up
      with the answer's id plus 1000 and is not correct. */
  lemma ResolveLoneAnswer(lone: ChoiceAnswer, correctAnswerText: Option<string>)
    ensures var c := Resolve(Some([lone]), correctAnswerText);
      && c.trueAnswer.Some? && c.falseAnswer.Some?
      && (c.trueAnswer == Some(lone) <==> IsLabel(lone.answerText, TrueSide))
      && (c.falseAnswer == Some(lone) <==> !IsLabel(lone.answerText, TrueSide))
      && (IsLabel(lone.answerText, TrueSide) ==> c.falseAnswer == Some(ChoiceAnswer(lone.id + 1000, Some("Faux"), false)))
      && (!IsLabel(lone.answerText, TrueSide) ==> c.trueAnswer == Some(ChoiceAnswer(lone.id + 1000, Some("Vrai"), false)))
  {
    var c := Resolve(Some([lone]), correctAnswerText);
    assert c == LoneAnswerChoices(lone);
    assert Synthesized(lone.id + 1000, FalseSide) != lone && Synthesized(lone.id + 1000, TrueSide) != lone;
  }

  /** Without answers, or with several answers none of which reads as a label, the buttons stand for the
      made-up answers 1 ("Vrai") and 2 ("Faux"), each correct exactly when the question's
      `correctAnswerText` reads as its label, so at most one is. */
  lemma ResolveDefault(answers: Option<seq<ChoiceAnswer>>, correctAnswerText: Option<string>)
    requires answers.None? || |answers.value| != 1
    requires answers.Some? ==> forall i :: 0 <= i < |answers.value| ==>
      !IsLabel(answers.value[i].answerText, TrueSide) && !IsLabel(answers.value[i].answerText, FalseSide)
    ensures var c := Resolve(answers, correctAnswerText);
      && c.trueAnswer.Some? && c.trueAnswer.value.id == 1 && c.trueAnswer.value.answerText == Some("Vrai")
      && c.falseAnswer.Some? && c.falseAnswer.value.id == 2 && c.falseAnswer.value.answerText == Some("Faux")
      && (c.trueAnswer.value.isCorrect <==> IsLabel(correctAnswerText, TrueSide))
      && (c.falseAnswer.value.isCorrect <==> IsLabel(correctAnswerText, FalseSide))
      && !(c.trueAnswer.value.isCorrect && c.falseAnswer.value.isCorrect)
  {
    if answers.Some? {
      assert FirstLabelled(answers.value, TrueSide) == |answers.value|;
      assert FirstLabelled(answers.value, FalseSide) == |answers.value|;
    }
    assert Resolve(answers, correctAnswerText) == DefaultChoices(correctAnswerText);
    LabelsExclusive(correctAnswerText);
  }

  /** The two buttons never stand for the same answer. */
  lemma {:induction false} ResolveDistinct(answers: Option<seq<ChoiceAnswer>>, correctAnswerText: Option<string>)
    ensures var c := Resolve(answers, correctAnswerText);
      c.trueAnswer.Some? && c.falseAnswer.Some? ==> c.trueAnswer.value != c.falseAnswer.value
  {
    var c := Resolve(answers, correctAnswerText);
    if c.trueAnswer.Some? {
      LabelsExclusive(c.trueAnswer.value.answerText);
    }
  }

  /** With two or more answers of which only one side's label is found, the other button has no answer
      and clicking it submits nothing. */
  lemma OneSidedClickDoesNothing(answers: seq<ChoiceAnswer>, correctAnswerText: Option<string>, side: Side)
    requires |answers| >= 2
    requires FirstLabelled(answers, side) < |answers|
    requires FirstLabelled(answers, if side == TrueSide then FalseSide else TrueSide) == |answers|
    ensures Click(Resolve(Some(answers), correctAnswerText), if side == TrueSide then FalseSide else TrueSide).None?
    ensures Click(Resolve(Some(answers), correctAnswerText), side) == Some(answers[FirstLabelled(answers, side)].id)
  {
  }
}
