/**
  The host's page (src/pages/PlayQuizHost.tsx). The page's `useState` fields form the record
  `HostState` held by a `HostController`; every socket event, interval tick and button handler is a
  method that replaces it. Emitted socket events and `alert` messages are returned to the caller.
*/
module PlayQuizHost {
  import opened QuizTypes
  import opened Scoreboard

  /** What the host emits on the socket. */
  datatype HostEvent =
    | CreateRoom(roomCode: string, quizId: string)
    | StartGame(roomCode: string, questions: seq<LiveQuestion>)
    | NextQuestion(roomCode: string, questionIndex: int, questions: seq<LiveQuestion>)
    | ValidateAnswer(roomCode: string, playerId: string, questionId: int, isCorrect: bool)

  /** How the request for the quiz's questions ended: the request itself failed (the loading effect
      then stops), the server answered with an error status, or it answered with a body whose
      `questions` field may be missing. */
  datatype QuestionsReply = RequestFailed | NotOk | Received(questions: Option<seq<LiveQuestion>>)

  /** The `alert` messages: no player yet, no question loaded, end of the quiz. */
  datatype Alert = WaitForPlayers | NoQuestions | QuizOver

  /** Which of the four screens the page renders. */
  datatype Screen = Lobby | ScoreboardScreen | QuestionScreen | StartedScreen

  /** Seconds the host adds to the question's time limit for the players' reading phase. */
  const HostReadingSeconds := 10

  datatype HostState = HostState(
    roomCode: string,
    players: seq<Player>,
    gameStarted: bool,
    questions: seq<LiveQuestion>,
    currentQuestionIndex: int,
    showQuestion: bool,
    showScoreboard: bool,
    showCorrectAnswer: bool,
    timer: int,
    pendingAnswers: seq<PendingAnswer>)
  {
    /** The screen chosen by the page's render: the lobby before the game, then the scoreboard when it is
        shown, then the question when it is shown and the index names a loaded question. */
    function Screen(): (s: Screen)
      ensures s == Lobby <==> !gameStarted
      ensures s == ScoreboardScreen <==> gameStarted && showScoreboard
      ensures s == QuestionScreen <==>
        gameStarted && !showScoreboard && showQuestion && 0 <= currentQuestionIndex < |questions|
    {
      if !gameStarted then Lobby
      else if showScoreboard then ScoreboardScreen
      else if showQuestion && 0 <= currentQuestionIndex < |questions| then QuestionScreen
      else StartedScreen
    }

    /** The condition of the timer effect. */
    predicate TimerRuns() {
      showQuestion && timer > 0
    }

    /** The "next question" button is on the question screen and enabled once the timer is out. */
    predicate NextButtonEnabled() {
      Screen() == QuestionScreen && timer <= 0
    }
  }

  /** The initial `useState` values. */
  const InitialHostState := HostState("", [], false, [], 0, false, false, false, 0, [])

  class HostController {
    /** The page's `useState` fields. A handler's `set...` calls are applied together, so each
        method replaces this record once. */
    var state: HostState

    constructor ()
      ensures state == InitialHostState
    {
      state := InitialHostState;
    }

    /** The loading effect. When the quiz's own request fails (`infoOk` false) or the questions'
        request fails outright, the error is caught and only logged: nothing is stored and no room is
        created. Otherwise the questions are stored when their reply is a success, a body without a
        list storing the empty list; an error status leaves them as they were. The generated room code
        is then stored and `create_room` is emitted with it. */
    method QuizLoaded(quizId: string, infoOk: bool, reply: QuestionsReply, code: string)
      returns (sent: Option<HostEvent>)
      modifies this
      ensures sent.Some? <==> infoOk && !reply.RequestFailed?
      ensures sent.Some? ==> sent.value == CreateRoom(code, quizId)
      ensures sent.None? ==> state == old(state)
      ensures infoOk && reply.NotOk? ==> state == old(state).(roomCode := code)
      ensures infoOk && reply.Received? ==>
        state == old(state).(questions := if reply.questions.Some? then reply.questions.value else [], roomCode := code)
    {
      if !infoOk || reply.RequestFailed? {
        sent := None;
        return;
      }
      if reply.Received? {
        var questions := if reply.questions.Some? then reply.questions.value else [];
        state := state.(questions := questions);
      }
      state := state.(roomCode := code);
      sent := Some(CreateRoom(code, quizId));
    }

    /** `room_update`: the roster is replaced wholesale. */
    method RoomUpdate(data: seq<Player>)
      modifies this
      ensures state == old(state).(players := data)
    {
      state := state.(players := data);
    }

    /** `scores_update`: the roster is replaced wholesale. */
    method ScoresUpdate(updatedPlayers: seq<Player>)
      modifies this
      ensures state == old(state).(players := updatedPlayers)
    {
      state := state.(players := updatedPlayers);
    }

    /** `pending_answers_update`: the short answers awaiting review are replaced wholesale. */
    method PendingAnswersUpdate(answers: seq<PendingAnswer>)
      modifies this
      ensures state == old(state).(pendingAnswers := answers)
    {
      state := state.(pendingAnswers := answers);
    }

    /** `question_start`: the received index becomes current, the question is shown, the review queue is
        emptied and the timer is set to `timeLimit || 30` plus the reading time. Once the game has
        started and the scoreboard is closed, an index naming a loaded question brings up the
        question screen with a running timer. */
    method QuestionStart(questionIndex: int, question: LiveQuestion)
      modifies this
      ensures state == old(state).(
        currentQuestionIndex := questionIndex,
        showQuestion := true,
        pendingAnswers := [],
        timer := TimeLimitOrDefault(question.timeLimit) + HostReadingSeconds)
      ensures state.gameStarted && !state.showScoreboard && 0 <= questionIndex < |state.questions| ==>
        state.Screen() == QuestionScreen
      ensures question.timeLimit.None? || question.timeLimit.value >= 0 ==> state.TimerRuns()
    {
      state := state.(
        currentQuestionIndex := questionIndex,
        showQuestion := true,
        pendingAnswers := [],
        timer := TimeLimitOrDefault(question.timeLimit) + HostReadingSeconds);
    }

    /** One second of the timer interval, which runs only while `showQuestion && timer > 0`. It counts
        down; the tick that sees 1 or less stops at 0 and reveals the correct answer. The timer is
        never taken below 0, and the correct answer is revealed by no other tick. */
    method TimerTick()
      modifies this
      ensures !old(state).TimerRuns() ==> state == old(state)
      ensures old(state).TimerRuns() && old(state).timer > 1 ==> state == old(state).(timer := old(state).timer - 1)
      ensures old(state).TimerRuns() && old(state).timer <= 1 ==> state == old(state).(timer := 0, showCorrectAnswer := true)
      ensures old(state).TimerRuns() ==> state.timer >= 0
      ensures state.showCorrectAnswer != old(state).showCorrectAnswer ==> state.timer == 0
    {
      if state.showQuestion && state.timer > 0 {
        if state.timer <= 1 {
          state := state.(timer := 0, showCorrectAnswer := true);
        } else {
          state := state.(timer := state.timer - 1);
        }
      }
    }

    /** `handleStartGame`: with no player, or else with no question, an alert is shown and nothing else
        happens; otherwise `start_game` is emitted with the questions and the game counts as started. */
    method HandleStartGame() returns (sent: Option<HostEvent>, alert: Option<Alert>)
      modifies this
      ensures |old(state).players| == 0 ==> sent == None && alert == Some(WaitForPlayers) && state == old(state)
      ensures |old(state).players| != 0 && |old(state).questions| == 0 ==>
        sent == None && alert == Some(NoQuestions) && state == old(state)
      ensures |old(state).players| != 0 && |old(state).questions| != 0 ==>
        && sent == Some(StartGame(old(state).roomCode, old(state).questions))
        && alert == None
        && state == old(state).(gameStarted := true)
    {
      if |state.players| == 0 {
        return None, Some(WaitForPlayers);
      }
      if |state.questions| == 0 {
        return None, Some(NoQuestions);
      }
      sent, alert := Some(StartGame(state.roomCode, state.questions)), None;
      state := state.(gameStarted := true);
    }

    /** `handleNextQuestion`: the question and its correct answer are hidden and the scoreboard is shown.
        Its button is enabled only on the question screen once the timer is out; from there the page
        moves to the scoreboard. */
    method HandleNextQuestion()
      modifies this
      ensures state == old(state).(showQuestion := false, showCorrectAnswer := false, showScoreboard := true)
      ensures old(state).NextButtonEnabled() ==> old(state).timer <= 0 && state.Screen() == ScoreboardScreen
    {
      state := state.(showQuestion := false, showCorrectAnswer := false, showScoreboard := true);
    }

    /** `handleContinueToNextQuestion`: the scoreboard, the correct answer and the review queue are
        cleared in every case. `next_question` is emitted with the following index only when it names a
        loaded question; past the last one the "quiz over" alert is shown instead. The current index
        itself is left for the server's `question_start` to change. */
    method HandleContinueToNextQuestion() returns (sent: Option<HostEvent>, alert: Option<Alert>)
      modifies this
      ensures state == old(state).(showScoreboard := false, showCorrectAnswer := false, pendingAnswers := [])
      ensures state.currentQuestionIndex == old(state).currentQuestionIndex
      ensures old(state).currentQuestionIndex + 1 < |old(state).questions| ==>
        sent == Some(NextQuestion(old(state).roomCode, old(state).currentQuestionIndex + 1, old(state).questions))
        && alert == None
      ensures old(state).currentQuestionIndex + 1 >= |old(state).questions| ==> sent == None && alert == Some(QuizOver)
      ensures sent.Some? && old(state).currentQuestionIndex >= 0 ==>
        0 < sent.value.questionIndex < |sent.value.questions|
    {
      state := state.(showScoreboard := false, showCorrectAnswer := false, pendingAnswers := []);
      var nextIndex := state.currentQuestionIndex + 1;
      if nextIndex >= |state.questions| {
        return None, Some(QuizOver);
      }
      sent, alert := Some(NextQuestion(state.roomCode, nextIndex, state.questions)), None;
    }

    /** `handleValidateAnswer`: the host's verdict on a player's short answer is emitted for the current
        room; the page's state is not touched. */
    method HandleValidateAnswer(playerId: string, questionId: int, isCorrect: bool) returns (sent: HostEvent)
      ensures sent.ValidateAnswer? && sent.roomCode == state.roomCode
      ensures sent.playerId == playerId && sent.questionId == questionId && sent.isCorrect == isCorrect
    {
      sent := ValidateAnswer(state.roomCode, playerId, questionId, isCorrect);
    }

    /** The scoreboard screen sorts the roster array in place each time it renders: afterwards the roster
        is ranked by decreasing score, holds the same players, and keeps roster order among equal scores. */
    method RankPlayers()
      modifies this
      ensures state == old(state).(players := Ranking(old(state).players))
    {
      var roster := state.players;
      var a := new Player[|roster|](i requires 0 <= i < |roster| => roster[i]);
      assert a[..] == roster;
      SortByScore(a);
      state := state.(players := a[..]);
    }
  }
}
