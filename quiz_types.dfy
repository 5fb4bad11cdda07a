/**
  Values exchanged between the quiz clients and the live-session server: the roster entry, the
  host's review queue entry, and the question payload carried by `question_start`.
*/
module QuizTypes {

  /** A JavaScript value that may be `null` or `undefined` (`None`). */
  datatype Option<T> = None | Some(value: T)

  /** A roster entry (`Player` in src/utils/type.ts). */
  datatype Player = Player(id: string, pseudo: string, score: int)

  /** A short answer awaiting the host's verdict (`PendingAnswer` in src/utils/type.ts). */
  datatype PendingAnswer = PendingAnswer(
    playerId: string,
    playerPseudo: string,
    questionId: int,
    answerText: string,
    responseTime: int,
    potentialPoints: int,
    validated: bool)

  /** One option of a choice question; `answerText` may be missing from the payload. */
  datatype ChoiceAnswer = ChoiceAnswer(id: int, answerText: Option<string>, isCorrect: bool)

  /** The fields of the `question_start` question payload that the clients read. */
  datatype LiveQuestion = LiveQuestion(
    id: int,
    timeLimit: Option<int>,
    answers: Option<seq<ChoiceAnswer>>,
    correctAnswerText: Option<string>)

  /** `question.timeLimit || 30`: a missing or zero time limit is falsy and becomes 30 seconds;
      any other stored value, negative ones included, is kept. */
  function TimeLimitOrDefault(timeLimit: Option<int>): (t: int)
    ensures t != 0
    ensures timeLimit.Some? && timeLimit.value != 0 ==> t == timeLimit.value
    ensures timeLimit.None? || timeLimit.value == 0 ==> t == 30
  {
    if timeLimit.Some? && timeLimit.value != 0 then timeLimit.value else 30
  }
}
