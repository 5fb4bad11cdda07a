/**
  The player's client (src/pages/JoinQuiz.tsx). The page's `useState` fields form the record
  `PlayerState` held by a `PlayerClient`; every socket event, interval tick and click handler is a
  method that replaces it. Emitted socket events are returned to the caller; every `submit_answer`
  is also appended to a ghost log, so that the object invariant can say how many answers were sent
  since the last `question_start`.
*/
module JoinQuiz {
  import opened QuizTypes
  import opened Text

  /** The page's error banner: cleared, "fill in every field", or "this room does not exist". */
  datatype JoinError = NoError | FieldsMissing | RoomMissing

  /** The transient banner shown after the host validates a short answer. */
  datatype ValidationMessage = NoMessage | Validated(points: int) | Rejected

  datatype AnswerResult = AnswerResult(isCorrect: bool, pointsEarned: int)

  /** The three answer shapes of `submit_answer`: `answerId`, `answerIds` or `answerText`. */
  datatype Payload = SingleAnswer(answerId: int) | SeveralAnswers(answerIds: seq<int>) | TextAnswer(answerText: string)

  /** Events the player's client emits on the socket. */
  datatype Outgoing =
    | JoinRoom(pseudo: string, roomCode: string)
    | SubmitAnswer(roomCode: string, questionId: int, payload: Payload, responseTime: int)

  /** The page's `useState` fields (src/pages/JoinQuiz.tsx:10-31). */
  datatype PlayerState = PlayerState(
    pseudo: string,
    roomCode: string,
    players: seq<Player>,
    connected: bool,
    error: JoinError,
    gameStarted: bool,
    currentQuestion: Option<LiveQuestion>,
    questionIndex: int,
    totalQuestions: int,
    showReading: bool,
    readingTimer: int,
    canAnswer: bool,
    selectedAnswer: Option<int>,
    hasAnswered: bool,
    answerStartTime: Option<int>,
    timeRemaining: int,
    validationMessage: ValidationMessage,
    showResult: bool,
    lastAnswerResult: Option<AnswerResult>)
  {
    /** Submission is open: the answer window is on and nothing was sent for this question yet. */
    predicate AcceptsAnswer() {
      canAnswer && !hasAnswered
    }

    /** The condition of the answer-countdown effect. */
    predicate AnswerCountdownRuns() {
      canAnswer && !hasAnswered && timeRemaining > 0
    }

    /** The `submit_answer` message for the current question. */
    function Submission(payload: Payload, now: int): Outgoing
      requires currentQuestion.Some?
    {
      SubmitAnswer(roomCode, currentQuestion.value.id, payload, ResponseTime(answerStartTime, now))
    }
  }

  /** The initial `useState` values. */
  const InitialPlayerState := PlayerState("", "", [], false, NoError, false, None, 0, 0, false, ReadingSeconds,
    false, None, false, None, 0, NoMessage, false, None)



  /** Seconds of reading time before answers are accepted. */
  const ReadingSeconds := 10

  /** `Math.round(ms / 1000)`: JavaScript rounds halves upwards, so the result is the unique whole
      number of seconds within half a second of `ms`, halves going up. */
  function RoundToSeconds(ms: int): (s: int)
    ensures 1000 * s - 500 <= ms < 1000 * s + 500
  {
    (ms + 500) / 1000
  }

  /** The `responseTime` sent with an answer. A missing start time, and also a start time of 0
      (falsy in JavaScript), gives 0; otherwise the elapsed milliseconds are rounded to seconds. */
  function ResponseTime(answerStartTime: Option<int>, now: int): (seconds: int)
    ensures answerStartTime.None? || answerStartTime.value == 0 ==> seconds == 0
    ensures answerStartTime.Some? && answerStartTime.value != 0 ==>
      1000 * seconds - 500 <= now - answerStartTime.value < 1000 * seconds + 500
  {
    match answerStartTime
    case None => 0
    case Some(start) => if start == 0 then 0 else RoundToSeconds(now - start)
  }

  /** A response time is never negative when the clock has not gone backwards. */
  lemma ResponseTimeNonNegative(answerStartTime: Option<int>, now: int)
    requires answerStartTime.Some? ==> answerStartTime.value <= now
    ensures ResponseTime(answerStartTime, now) >= 0
  {
    if answerStartTime.Some? && answerStartTime.value != 0 {
      var s := ResponseTime(answerStartTime, now);
      assert 1000 * s + 500 > 0;
    }
  }

  /** `data.pointsEarned || 0`: the points sent, and none when the field is missing. A sent zero is
      falsy too, and `|| 0` turns it into the same zero. */
  function PointsOrZero(pointsEarned: Option<int>): (p: int)
    ensures pointsEarned.Some? ==> p == pointsEarned.value
    ensures pointsEarned.None? ==> p == 0
  {
    if pointsEarned.Some? then pointsEarned.value else 0
  }

  /** The `join_room` request of `handleJoin`: none when the pseudo or the room code is blank once
      trimmed; otherwise the pseudo as typed and the room code upper-cased. */
  function JoinRequest(pseudo: string, roomCode: string): (r: Option<Outgoing>)
    ensures r.None? <==> AllWhitespace(pseudo) || AllWhitespace(roomCode)
    ensures r.Some? ==> r.value.JoinRoom? && r.value.pseudo == pseudo && |r.value.roomCode| == |roomCode|
    ensures r.Some? ==> forall i :: 0 <= i < |roomCode| ==> r.value.roomCode[i] == UpperChar(roomCode[i])
  {
    TrimEmptyIffBlank(pseudo);
    TrimEmptyIffBlank(roomCode);
    if Trim(pseudo) == [] || Trim(roomCode) == [] then None
    else Some(JoinRoom(pseudo, ToUpper(roomCode)))
  }

  class PlayerClient {
    /** The page's `useState` fields. A handler's `set...` calls are applied together, so each
        method replaces this record once. */
    var state: PlayerState

    /** Every `submit_answer` emitted on the socket so far. */
    ghost var answersSent: seq<Outgoing>
    /** Length of `answersSent` when the last `question_start` arrived. */
    ghost var questionMark: nat

    /** The page's invariant. At most one answer has been sent since the last `question_start`, and
        exactly one once `hasAnswered` is set; the reading countdown stays within 0..10 and is positive
        while shown; reading and answering exclude each other; answering needs a question and a start time. */
    ghost predicate Valid()
      reads this
    {
      && questionMark <= |answersSent|
      && |answersSent| - questionMark == (if state.hasAnswered then 1 else 0)
      && 0 <= state.readingTimer <= ReadingSeconds
      && (state.showReading ==> state.readingTimer >= 1 && !state.canAnswer && !state.hasAnswered && state.currentQuestion.Some?)
      && (state.canAnswer ==> state.answerStartTime.Some? && state.currentQuestion.Some?)
      && (state.hasAnswered ==> state.currentQuestion.Some?)
    }

    /** The initial `useState` values. */
    constructor ()
      ensures Valid() && answersSent == [] && questionMark == 0
      ensures state == InitialPlayerState
    {
      state := InitialPlayerState;
      answersSent, questionMark := [], 0;
    }

    /** The pseudo input field. */
    method EditPseudo(value: string)
      requires Valid()
      modifies this
      ensures Valid() && answersSent == old(answersSent) && questionMark == old(questionMark)
      ensures state == old(state).(pseudo := value)
    {
      state := state.(pseudo := value);
    }

    /** The room-code input field upper-cases what is typed. */
    method EditRoomCode(value: string)
      requires Valid()
      modifies this
      ensures Valid() && answersSent == old(answersSent) && questionMark == old(questionMark)
      ensures state == old(state).(roomCode := ToUpper(value))
    {
      state := state.(roomCode := ToUpper(value));
    }

    /** `room_update`: the roster is replaced by the server's list. */
    method RoomUpdate(data: seq<Player>)
      requires Valid()
      modifies this
      ensures Valid() && answersSent == old(answersSent) && questionMark == old(questionMark)
      ensures state == old(state).(players := data)
    {
      state := state.(players := data);
    }

    /** `room_not_found`: the join failed, the page shows the error and is no longer connected. */
    method RoomNotFound()
      requires Valid()
      modifies this
      ensures Valid() && answersSent == old(answersSent) && questionMark == old(questionMark)
      ensures state == old(state).(error := RoomMissing, connected := false)
    {
      state := state.(error := RoomMissing, connected := false);
    }

    /** `game_started`. */
    method GameStarted()
      requires Valid()
      modifies this
      ensures Valid() && answersSent == old(answersSent) && questionMark == old(questionMark)
      ensures state == old(state).(gameStarted := true)
    {
      state := state.(gameStarted := true);
    }

    /** `answer_validated`: the host's verdict on a short answer is recorded and shown. */
    method AnswerValidated(isCorrect: bool, pointsEarned: int)
      requires Valid()
      modifies this
      ensures Valid() && answersSent == old(answersSent) && questionMark == old(questionMark)
      ensures state == old(state).(
        lastAnswerResult := Some(AnswerResult(isCorrect, pointsEarned)),
        showResult := true,
        validationMessage := if isCorrect then Validated(pointsEarned) else Rejected)
    {
      var message := if isCorrect then Validated(pointsEarned) else Rejected;
      state := state.(lastAnswerResult := Some(AnswerResult(isCorrect, pointsEarned)), showResult := true,
        validationMessage := message);
    }

    /** The three-second timeout armed by `answer_validated` clears the banner. */
    method ValidationMessageExpired()
      requires Valid()
      modifies this
      ensures Valid() && answersSent == old(answersSent) && questionMark == old(questionMark)
      ensures state == old(state).(validationMessage := NoMessage)
    {
      state := state.(validationMessage := NoMessage);
    }

    /** `answer_submitted`: only a successful, non-pending acknowledgement that carries `isCorrect`
        updates the last result, with missing points read as 0; any other acknowledgement changes nothing. */
    method AnswerSubmitted(success: bool, isCorrect: Option<bool>, pointsEarned: Option<int>, pending: Option<bool>)
      requires Valid()
      modifies this
      ensures Valid() && answersSent == old(answersSent) && questionMark == old(questionMark)
      ensures success && (pending.None? || !pending.value) && isCorrect.Some? ==>
        state == old(state).(lastAnswerResult := Some(AnswerResult(isCorrect.value, PointsOrZero(pointsEarned))))
      ensures !(success && (pending.None? || !pending.value) && isCorrect.Some?) ==> state == old(state)
    {
      var pendingFlag := pending.Some? && pending.value;
      if success && !pendingFlag && isCorrect.Some? {
        state := state.(lastAnswerResult := Some(AnswerResult(isCorrect.value, PointsOrZero(pointsEarned))));
      }
    }

    /** `question_start`: a new question resets every per-question field: reading for ten seconds,
        no answer allowed, sent or selected yet, no result, and the answer countdown at
        `timeLimit || 30`. */
    method QuestionStart(index: int, question: LiveQuestion, total: int)
      requires Valid()
      modifies this
      ensures Valid() && answersSent == old(answersSent) && questionMark == |answersSent|
      ensures state == old(state).(
        questionIndex := index,
        currentQuestion := Some(question),
        totalQuestions := total,
        showReading := true,
        readingTimer := ReadingSeconds,
        validationMessage := NoMessage,
        showResult := false,
        lastAnswerResult := None,
        canAnswer := false,
        selectedAnswer := None,
        hasAnswered := false,
        answerStartTime := None,
        timeRemaining := TimeLimitOrDefault(question.timeLimit))
    {
      state := state.(
        questionIndex := index,
        currentQuestion := Some(question),
        totalQuestions := total,
        showReading := true,
        readingTimer := ReadingSeconds,
        validationMessage := NoMessage,
        showResult := false,
        lastAnswerResult := None,
        canAnswer := false,
        selectedAnswer := None,
        hasAnswered := false,
        answerStartTime := None,
        timeRemaining := TimeLimitOrDefault(question.timeLimit));
      questionMark := |answersSent|;
    }

    /** One second of the reading interval, which runs only while `showReading && readingTimer > 0`.
        It counts down; the tick that sees 1 or less ends the reading phase, opens the answer window and
        records `now` as the answer start time. */
    method ReadingTick(now: int)
      requires Valid()
      modifies this
      ensures Valid() && answersSent == old(answersSent) && questionMark == old(questionMark)
      ensures !(old(state).showReading && old(state).readingTimer > 0) ==> state == old(state)
      ensures old(state).showReading && old(state).readingTimer > 1 ==>
        state == old(state).(readingTimer := old(state).readingTimer - 1)
      ensures old(state).showReading && 0 < old(state).readingTimer <= 1 ==>
        state == old(state).(readingTimer := 0, showReading := false, canAnswer := true, answerStartTime := Some(now))
    {
      if state.showReading && state.readingTimer > 0 {
        if state.readingTimer <= 1 {
          state := state.(readingTimer := 0, showReading := false, canAnswer := true, answerStartTime := Some(now));
        } else {
          state := state.(readingTimer := state.readingTimer - 1);
        }
      }
    }

    /** One second of the answer interval, which runs only while `canAnswer && !hasAnswered &&
        timeRemaining > 0`. It counts down; the tick that sees 1 or less closes the answer window and
        shows the result. Once the player has answered the countdown is frozen. */
    method AnswerTick()
      requires Valid()
      modifies this
      ensures Valid() && answersSent == old(answersSent) && questionMark == old(questionMark)
      ensures old(state).hasAnswered ==> state.timeRemaining == old(state).timeRemaining
      ensures !old(state).AnswerCountdownRuns() ==> state == old(state)
      ensures old(state).AnswerCountdownRuns() && old(state).timeRemaining > 1 ==>
        state == old(state).(timeRemaining := old(state).timeRemaining - 1)
      ensures old(state).AnswerCountdownRuns() && old(state).timeRemaining <= 1 ==>
        state == old(state).(timeRemaining := 0, canAnswer := false, showResult := true)
    {
      if state.canAnswer && !state.hasAnswered && state.timeRemaining > 0 {
        if state.timeRemaining <= 1 {
          state := state.(timeRemaining := 0, canAnswer := false, showResult := true);
        } else {
          state := state.(timeRemaining := state.timeRemaining - 1);
        }
      }
    }

    /** `handleJoin`: the error is cleared; a pseudo or room code that is blank after trimming sets the
        "fill in every field" error and sends nothing; otherwise `join_room` is sent with the pseudo as
        typed and the room code upper-cased, and the page counts as connected. */
    method HandleJoin() returns (sent: Option<Outgoing>)
      requires Valid()
      modifies this
      ensures Valid() && answersSent == old(answersSent) && questionMark == old(questionMark)
      ensures sent == JoinRequest(old(state).pseudo, old(state).roomCode)
      ensures sent.None? ==> state == old(state).(error := FieldsMissing)
      ensures sent.Some? ==> state == old(state).(error := NoError, connected := true)
    {
      sent := JoinRequest(state.pseudo, state.roomCode);
      if sent.None? {
        state := state.(error := FieldsMissing);
      } else {
        state := state.(error := NoError, connected := true);
      }
    }

    /** `handleSubmitAnswer` (true/false and single choice): a no-op unless an answer is accepted;
        otherwise the choice is selected, the player counts as having answered and one `submit_answer`
        is sent with the elapsed seconds. */
    method HandleSubmitAnswer(answerId: int, now: int) returns (sent: Option<Outgoing>)
      requires Valid()
      modifies this
      ensures Valid() && questionMark == old(questionMark)
      ensures !old(state).AcceptsAnswer() ==> sent == None && state == old(state) && answersSent == old(answersSent)
      ensures old(state).AcceptsAnswer() ==>
        && sent == Some(old(state).Submission(SingleAnswer(answerId), now))
        && state == old(state).(selectedAnswer := Some(answerId), hasAnswered := true)
        && answersSent == old(answersSent) + [sent.value]
    {
      if !state.canAnswer || state.hasAnswered {
        return None;
      }
      state := state.(selectedAnswer := Some(answerId));
      sent := Send(SingleAnswer(answerId), now);
    }

    /** `handleSubmitMultipleAnswers` (multiple select): as above, without touching the selected answer. */
    method HandleSubmitMultipleAnswers(answerIds: seq<int>, now: int) returns (sent: Option<Outgoing>)
      requires Valid()
      modifies this
      ensures Valid() && questionMark == old(questionMark)
      ensures !old(state).AcceptsAnswer() ==> sent == None && state == old(state) && answersSent == old(answersSent)
      ensures old(state).AcceptsAnswer() ==>
        && sent == Some(old(state).Submission(SeveralAnswers(answerIds), now))
        && state == old(state).(hasAnswered := true)
        && answersSent == old(answersSent) + [sent.value]
    {
      if !state.canAnswer || state.hasAnswered {
        return None;
      }
      sent := Send(SeveralAnswers(answerIds), now);
    }

    /** `handleSubmitTextAnswer` (short answer): as above, with the typed text. */
    method HandleSubmitTextAnswer(answerText: string, now: int) returns (sent: Option<Outgoing>)
      requires Valid()
      modifies this
      ensures Valid() && questionMark == old(questionMark)
      ensures !old(state).AcceptsAnswer() ==> sent == None && state == old(state) && answersSent == old(answersSent)
      ensures old(state).AcceptsAnswer() ==>
        && sent == Some(old(state).Submission(TextAnswer(answerText), now))
        && state == old(state).(hasAnswered := true)
        && answersSent == old(answersSent) + [sent.value]
    {
      if !state.canAnswer || state.hasAnswered {
        return None;
      }
      sent := Send(TextAnswer(answerText), now);
    }

    /** The part the three submit handlers share once the guard has passed: mark the question answered
        and emit `submit_answer`. */
    method Send(payload: Payload, now: int) returns (sent: Option<Outgoing>)
      requires Valid() && state.AcceptsAnswer()
      modifies this
      ensures Valid() && questionMark == old(questionMark)
      ensures sent == Some(old(state).Submission(payload, now))
      ensures state == old(state).(hasAnswered := true)
      ensures answersSent == old(answersSent) + [sent.value]
    {
      var message := state.Submission(payload, now);
      state := state.(hasAnswered := true);
      answersSent := answersSent + [message];
      sent := Some(message);
    }
  }

  /** Between two `question_start` events at most one `submit_answer` is sent, and one has been
      sent exactly when the page says the player has answered. */
  lemma AtMostOneSubmissionPerQuestion(client: PlayerClient)
    requires client.Valid()
    ensures |client.answersSent| - client.questionMark <= 1
    ensures client.state.hasAnswered <==> |client.answersSent| - client.questionMark == 1
  {
  }
}
