/**
  The short-answer question card (src/components/QuestionShortAnswer.tsx): the typed text is trimmed
  before it is submitted, and a blank answer is refused.
*/
module QuestionShortAnswer {
  import opened QuizTypes
  import opened Text

  /** `handleSubmit`: none (an alert) when the typed answer is blank; otherwise the text handed to
      `onAnswer`, which is never empty and starts and ends with something other than whitespace. */
  function SubmittedText(answer: string): (r: Option<string>)
    ensures r.None? <==> AllWhitespace(answer)
    ensures r.Some? ==> r.value != [] && !IsWhitespace(r.value[0]) && !IsWhitespace(r.value[|r.value| - 1])
  {
    TrimEmptyIffBlank(answer);
    if Trim(answer) == [] then None else Some(Trim(answer))
  }

  /** The submitted text is what the player typed with only surrounding whitespace removed. */
  lemma SubmittedTextIsSlice(answer: string)
    requires SubmittedText(answer).Some?
    ensures exists i, j ::
      && 0 <= i <= j <= |answer|
      && SubmittedText(answer).value == answer[i..j]
      && WhitespaceBetween(answer, 0, i)
      && WhitespaceBetween(answer, j, |answer|)
  {
    TrimIsSlice(answer);
  }

  /** Submitting is stable: the submitted text, typed again, is submitted unchanged. */
  lemma SubmittedTextStable(answer: string)
    requires SubmittedText(answer).Some?
    ensures SubmittedText(SubmittedText(answer).value) == SubmittedText(answer)
  {
    TrimIdempotent(answer);
  }
}
