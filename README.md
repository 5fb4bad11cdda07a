# Quiz front end: a Dafny model

This project models the client-side logic of a live quiz web front end (a React application in which
a host runs a quiz in a room and players join it with a room code). The server the pages talk to is
not part of this model; its messages are inputs and the messages sent to it are outputs.

- `text.dfy` (`Text`): `trim` with the ECMAScript whitespace set, ASCII case mapping, and the
  `/^\d+$/` test.
- `quiz_types.dfy` (`QuizTypes`): the roster entry, the review-queue entry and the question payload
  of `question_start`, plus the `timeLimit || 30` default.
- `join_quiz.dfy` (`JoinQuiz`): the player's page as a class `PlayerClient`. Its state is one record
  of the page's `useState` fields. There is one method per socket event, interval tick, input field and
  submit handler. The class invariant says that at most one `submit_answer` is sent per
  `question_start`.
- `play_quiz_host.dfy` (`PlayQuizHost`): the host's page as a class `HostController`. It covers the
  start checks, the question timer, and the question → scoreboard → next question cycle with its
  index bound.
- `scoreboard.dfy` (`Scoreboard`): the scoreboard order. A stable sort by decreasing score is
  specified as a function, proved to be an ordered permutation that keeps ties in roster order, and
  implemented as an in-place insertion sort on an array.
- `question_true_false.dfy` (`QuestionTrueFalse`): which answers the "Vrai"/"Faux" buttons stand
  for, with the two fallbacks.
- `question_multiple_select.dfy` (`QuestionMultipleSelect`): the tick/untick list and its submit
  guard.
- `question_short_answer.dfy` (`QuestionShortAnswer`): trimming and refusing blank answers.
- `answer_editor.dfy` (`AnswerEditor`): the answer-list editor of a multiple-select question and the
  defaults applied when a question is loaded.
- `modif_quiz.dfy` (`ModifQuiz`): extracting the quiz id from the editor page's URL.

Each page handler calls several `set...` functions. These are applied together when the handler
returns, so every method replaces the page's state record once and states the whole new record.
Clock readings (`Date.now()`), the generated room code and server payloads are parameters.

## Model

| member | source | states |
|---|---|---|
| Text.IsWhitespace | src/pages/JoinQuiz.tsx:155 | space, tab, line feed, carriage return, no-break space and the byte-order mark are whitespace; no digit, ASCII letter or slash is |
| Text.SkipWhitespace | src/pages/JoinQuiz.tsx:155 | the end of the leading whitespace: everything skipped is whitespace and the character reached is not |
| Text.SkipWhitespaceBack | src/pages/JoinQuiz.tsx:155 | the start of the trailing whitespace: everything skipped is whitespace and the character before is not |
| Text.Trim | src/components/QuestionShortAnswer.tsx:52 | a trimmed string is empty or starts and ends with a non-whitespace character |
| Text.TrimEmptyIffBlank | src/pages/JoinQuiz.tsx:155 | `trim()` is empty exactly when the input is all whitespace |
| Text.TrimIsSlice | src/components/QuestionShortAnswer.tsx:56 | the trimmed text is one slice of the input, with only whitespace before and after it |
| Text.TrimIdempotent | src/components/QuestionShortAnswer.tsx:56 | trimming twice is trimming once |
| Text.ToLower | src/components/QuestionTrueFalse.tsx:14 | the length is kept and each ASCII capital is lower-cased, character by character |
| Text.ToLowerIdempotent | src/components/QuestionTrueFalse.tsx:13 | lower-casing twice is lower-casing once |
| Text.ToUpper | src/pages/JoinQuiz.tsx:261 | the length is kept and each ASCII small letter is upper-cased, character by character |
| Text.ToUpperIdempotent | src/pages/JoinQuiz.tsx:163 | upper-casing a room code the input field already upper-cased changes nothing |
| Text.IsAllDigits | src/pages/ModifQuiz.tsx:73 | a string matching `/^\d+$/` is non-empty, has no slash and does not start with whitespace; the empty string never matches |
| QuizTypes.TimeLimitOrDefault | src/pages/JoinQuiz.tsx:89 | `timeLimit \|\| 30`: a missing or zero limit gives 30, any other value is kept, and the result is never 0 |
| JoinQuiz.RoundToSeconds | src/pages/JoinQuiz.tsx:182 | `Math.round(ms / 1000)` is the whole number of seconds within half a second of `ms`, with halves rounded up |
| JoinQuiz.ResponseTime | src/pages/JoinQuiz.tsx:181-183 | a null or zero (falsy) start time gives 0; otherwise the elapsed time rounded to seconds |
| JoinQuiz.ResponseTimeNonNegative | src/pages/JoinQuiz.tsx:181-183 | the response time is never negative when `now` is not before the start time |
| JoinQuiz.PointsOrZero | src/pages/JoinQuiz.tsx:71 | the points the server sent, or 0 when the field is missing |
| JoinQuiz.JoinRequest | src/pages/JoinQuiz.tsx:155-167 | no request exactly when the pseudo or the room code is blank after trimming; otherwise `join_room` with the pseudo unchanged and the room code upper-cased |
| JoinQuiz.PlayerClient.constructor | src/pages/JoinQuiz.tsx:10-31 | the initial field values, with the invariant holding and no answer sent |
| JoinQuiz.PlayerClient.EditPseudo | src/pages/JoinQuiz.tsx:276 | only the pseudo changes |
| JoinQuiz.PlayerClient.EditRoomCode | src/pages/JoinQuiz.tsx:261 | only the room code changes, and it is upper-cased |
| JoinQuiz.PlayerClient.RoomUpdate | src/pages/JoinQuiz.tsx:43-45 | the roster is replaced and nothing else changes |
| JoinQuiz.PlayerClient.RoomNotFound | src/pages/JoinQuiz.tsx:47-50 | the room-missing error is set and the page is no longer connected |
| JoinQuiz.PlayerClient.GameStarted | src/pages/JoinQuiz.tsx:52-54 | the game counts as started |
| JoinQuiz.PlayerClient.AnswerValidated | src/pages/JoinQuiz.tsx:56-63 | the verdict and points become the last result, the result is shown, and the banner says validated with the points or rejected |
| JoinQuiz.PlayerClient.ValidationMessageExpired | src/pages/JoinQuiz.tsx:64 | the banner is cleared and nothing else changes |
| JoinQuiz.PlayerClient.AnswerSubmitted | src/pages/JoinQuiz.tsx:67-74 | the last result changes only for a successful, non-pending acknowledgement carrying `isCorrect`, with missing points read as 0; otherwise nothing changes |
| JoinQuiz.PlayerClient.QuestionStart | src/pages/JoinQuiz.tsx:76-90 | every per-question field is reset: reading shown with 10 seconds, no answer allowed, selected or sent, no result, no start time, and the countdown at `timeLimit \|\| 30`; the answer count restarts |
| JoinQuiz.PlayerClient.ReadingTick | src/pages/JoinQuiz.tsx:110-128 | no change unless reading with time left; counts down by one; at 1 or less it ends reading, opens answering and records the start time |
| JoinQuiz.PlayerClient.AnswerTick | src/pages/JoinQuiz.tsx:131-148 | no change unless answering, not answered and with time left, so the countdown is frozen once answered; counts down by one; at 1 or less it closes answering and shows the result |
| JoinQuiz.PlayerClient.HandleJoin | src/pages/JoinQuiz.tsx:151-170 | sends exactly `JoinRequest` of the typed fields; on a blank field sets the error and stays disconnected, otherwise clears the error and connects |
| JoinQuiz.PlayerClient.HandleSubmitAnswer | src/pages/JoinQuiz.tsx:173-191 | a no-op unless answering and not yet answered; otherwise selects the answer, marks the question answered and sends one `submit_answer` with the answer id and response time |
| JoinQuiz.PlayerClient.HandleSubmitMultipleAnswers | src/pages/JoinQuiz.tsx:194-209 | the same guard; sends the selected ids once and marks the question answered |
| JoinQuiz.PlayerClient.HandleSubmitTextAnswer | src/pages/JoinQuiz.tsx:212-227 | the same guard; sends the text once and marks the question answered |
| JoinQuiz.PlayerClient.Send | src/pages/JoinQuiz.tsx:179-190 | the step the submit handlers share: the question becomes answered and exactly one message is appended to the sent answers |
| JoinQuiz.AtMostOneSubmissionPerQuestion | src/pages/JoinQuiz.tsx:173-227 | since the last `question_start` at most one answer has been sent, and one has been sent exactly when the page says the player has answered |
| Scoreboard.InsertByScore | src/pages/PlayQuizHost.tsx:257 | inserting a player adds exactly one entry |
| Scoreboard.Ranking | src/pages/PlayQuizHost.tsx:256-257 | the scoreboard has as many entries as the roster |
| Scoreboard.InsertByScorePermutes | src/pages/PlayQuizHost.tsx:257 | insertion keeps every player and adds the new one |
| Scoreboard.InsertByScoreRanked | src/pages/PlayQuizHost.tsx:257 | insertion into a list ordered by decreasing score keeps it ordered |
| Scoreboard.InsertByScoreStable | src/pages/PlayQuizHost.tsx:257 | among the players of any one score, the inserted player comes after those already there, whose order is kept |
| Scoreboard.RankingPermutes | src/pages/PlayQuizHost.tsx:256-257 | the scoreboard is a permutation of the roster |
| Scoreboard.RankingRanked | src/pages/PlayQuizHost.tsx:256-257 | scores never increase down the scoreboard |
| Scoreboard.RankingStable | src/pages/PlayQuizHost.tsx:256-257 | players with equal scores keep their roster order (`Array.prototype.sort` is stable) |
| Scoreboard.RankingOfRanked | src/pages/PlayQuizHost.tsx:256-257 | a roster already in scoreboard order is left unchanged |
| Scoreboard.RankingIdempotent | src/pages/PlayQuizHost.tsx:256-257 | sorting again on the next render changes nothing |
| Scoreboard.InsertByScoreAt | src/pages/PlayQuizHost.tsx:257 | the insertion places the player just after the last player scoring at least as much |
| Scoreboard.SortByScore | src/pages/PlayQuizHost.tsx:256-257 | the in-place sort leaves the array in `Ranking` order |
| Scoreboard.InsertLast | src/pages/PlayQuizHost.tsx:257 | one insertion pass: the sorted prefix grows by one element as `InsertByScore` says, and the rest of the array is untouched |
| Scoreboard.ShiftLower | src/pages/PlayQuizHost.tsx:257 | the players of the prefix that score less than the inserted one move one place right, and the gap is left just after the last player scoring at least as much |
| PlayQuizHost.HostState.Screen | src/pages/PlayQuizHost.tsx:179-301 | the lobby before the game; then the scoreboard if shown; then the question if shown and the index names a loaded question |
| PlayQuizHost.HostController.constructor | src/pages/PlayQuizHost.tsx:8-18 | the initial field values |
| PlayQuizHost.HostController.QuizLoaded | src/pages/PlayQuizHost.tsx:26-71 | when either request fails outright, nothing changes and no room is created; otherwise the questions are stored on a successful reply (a reply without a list stores the empty list, an error status keeps them), the room code is stored, and `create_room` is sent with it |
| PlayQuizHost.HostController.RoomUpdate | src/pages/PlayQuizHost.tsx:82-84 | the roster is replaced wholesale |
| PlayQuizHost.HostController.ScoresUpdate | src/pages/PlayQuizHost.tsx:86-88 | the roster is replaced wholesale |
| PlayQuizHost.HostController.PendingAnswersUpdate | src/pages/PlayQuizHost.tsx:90-92 | the review queue is replaced wholesale |
| PlayQuizHost.HostController.QuestionStart | src/pages/PlayQuizHost.tsx:94-100 | the index is set, the question is shown, the queue is emptied, and the timer is `(timeLimit \|\| 30) + 10`; after the start, with the scoreboard closed and an index in range, the question screen shows with the timer running |
| PlayQuizHost.HostController.TimerTick | src/pages/PlayQuizHost.tsx:111-127 | no change unless the question is shown with time left; counts down by one; at 1 or less it stops at 0 and reveals the answer; it never goes below 0 and reveals the answer only when reaching 0 |
| PlayQuizHost.HostController.HandleStartGame | src/pages/PlayQuizHost.tsx:130-141 | with no player, or else no question, it only alerts; otherwise it sends `start_game` and the game starts |
| PlayQuizHost.HostController.HandleNextQuestion | src/pages/PlayQuizHost.tsx:144-149 | the question and correct answer are hidden and the scoreboard shown; the enabled button requires the timer to be out and leads to the scoreboard |
| PlayQuizHost.HostController.HandleContinueToNextQuestion | src/pages/PlayQuizHost.tsx:152-164 | the scoreboard, correct-answer flag and queue are cleared and the index is unchanged; `next_question` goes out only with an index below the number of questions, otherwise a "quiz over" alert |
| PlayQuizHost.HostController.HandleValidateAnswer | src/pages/PlayQuizHost.tsx:167-174 | the verdict message carries the current room, player, question and verdict |
| PlayQuizHost.HostController.RankPlayers | src/pages/PlayQuizHost.tsx:256-257 | the roster becomes its `Ranking` and nothing else changes |
| QuestionTrueFalse.Normalized | src/components/QuestionTrueFalse.tsx:13 | `toLowerCase().trim()` is no longer than the text, has no ASCII capital, and neither starts nor ends with whitespace |
| QuestionTrueFalse.IsLabel | src/components/QuestionTrueFalse.tsx:12-20 | only a present text of at least four characters can read as a label |
| QuestionTrueFalse.LabelIgnoresCase | src/components/QuestionTrueFalse.tsx:13 | a text reads as a label exactly when its lower-cased form does |
| QuestionTrueFalse.LoneAnswerChoices | src/components/QuestionTrueFalse.tsx:24-44 | both sides are set; the lone answer takes the true side exactly when it reads as true and the false side otherwise; the other side is a new answer with id + 1000, the text "Vrai" or "Faux", not correct |
| QuestionTrueFalse.DefaultChoices | src/components/QuestionTrueFalse.tsx:47-60 | answers 1 "Vrai" and 2 "Faux"; each is correct exactly when the correct-answer text reads as its label, so never both |
| QuestionTrueFalse.LabelsExclusive | src/components/QuestionTrueFalse.tsx:13-21 | no text reads as both a true and a false label |
| QuestionTrueFalse.FirstLabelled | src/components/QuestionTrueFalse.tsx:13-21 | the position of the first answer with the side's label, with none before it |
| QuestionTrueFalse.Find | src/components/QuestionTrueFalse.tsx:13-21 | `find` returns the first labelled answer, or nothing when the list is missing or has none |
| QuestionTrueFalse.Resolve | src/components/QuestionTrueFalse.tsx:13-60 | at least one side always has an answer |
| QuestionTrueFalse.Click | src/components/QuestionTrueFalse.tsx:62-72 | a click passes the side's answer id, or nothing when the side is empty |
| QuestionTrueFalse.ResolveFindsFirstLabelled | src/components/QuestionTrueFalse.tsx:13-21 | unless there is exactly one answer, a labelled side gets the first answer with its label and both sides are the finds' results |
| QuestionTrueFalse.ResolveLoneAnswer | src/components/QuestionTrueFalse.tsx:24-44 | with one answer both sides are defined; it takes the true side exactly when it reads as true, otherwise the false side whatever its label; the other side has id + 1000 and is not correct |
| QuestionTrueFalse.ResolveDefault | src/components/QuestionTrueFalse.tsx:47-60 | with no answers, or no labelled answer among several, the sides are answers 1 "Vrai" and 2 "Faux"; each is correct exactly when the correct-answer text reads as its label, so at most one of them is |
| QuestionTrueFalse.ResolveDistinct | src/components/QuestionTrueFalse.tsx:13-60 | the two buttons never stand for the same answer |
| QuestionTrueFalse.OneSidedClickDoesNothing | src/components/QuestionTrueFalse.tsx:62-72 | with two or more answers and only one side labelled, the other button submits nothing and the labelled one submits the first labelled answer |
| QuestionMultipleSelect.Without | src/components/QuestionMultipleSelect.tsx:46 | the ids left are those of the selection other than the removed one |
| QuestionMultipleSelect.Toggle | src/components/QuestionMultipleSelect.tsx:41-51 | no change once answered; otherwise the ticked set is the old one with the id ticked or unticked |
| QuestionMultipleSelect.Submit | src/components/QuestionMultipleSelect.tsx:53-59 | an empty selection submits nothing; otherwise the selection is passed unchanged |
| QuestionMultipleSelect.ToggleAppends | src/components/QuestionMultipleSelect.tsx:47-49 | ticking a new id appends it at the end |
| QuestionMultipleSelect.WithoutAbsent | src/components/QuestionMultipleSelect.tsx:46 | filtering out an absent id changes nothing |
| QuestionMultipleSelect.WithoutSingle | src/components/QuestionMultipleSelect.tsx:46 | without duplicates, filtering out an id removes exactly its position |
| QuestionMultipleSelect.WithoutConcat | src/components/QuestionMultipleSelect.tsx:46 | filtering distributes over concatenation |
| QuestionMultipleSelect.ToggleRemoves | src/components/QuestionMultipleSelect.tsx:45-46 | unticking removes exactly that id and keeps the others in order |
| QuestionMultipleSelect.ToggleKeepsNoDuplicates | src/components/QuestionMultipleSelect.tsx:44-50 | a selection without duplicates stays without duplicates |
| QuestionMultipleSelect.ToggleTwice | src/components/QuestionMultipleSelect.tsx:44-50 | ticking then unticking a new id gives back the selection exactly |
| QuestionShortAnswer.SubmittedText | src/components/QuestionShortAnswer.tsx:50-57 | nothing is submitted exactly when the answer is blank; a submitted text is non-empty with no whitespace at either end |
| QuestionShortAnswer.SubmittedTextIsSlice | src/components/QuestionShortAnswer.tsx:56 | the submitted text is the typed text with surrounding whitespace removed |
| QuestionShortAnswer.SubmittedTextStable | src/components/QuestionShortAnswer.tsx:56 | submitting the submitted text again gives the same text (trim is the identity on it) |
| AnswerEditor.AddAnswer | src/pages/ModifQuestionMultipleSelect.tsx:144-151 | one more answer, the earlier ones unchanged, the new one blank, incorrect, unsaved and numbered old length + 1 |
| AnswerEditor.UpdateAnswer | src/pages/ModifQuestionMultipleSelect.tsx:153-157 | only the chosen field of the chosen answer changes; length, other answers and other fields are kept |
| AnswerEditor.RemoveAnswer | src/pages/ModifQuestionMultipleSelect.tsx:159-162 | an index in range drops exactly that answer and keeps the rest in order; any other index changes nothing |
| AnswerEditor.KeepOthers | src/pages/ModifQuestionMultipleSelect.tsx:160 | the filter drops one answer when the index is in range and none otherwise |
| AnswerEditor.KeepOthersSlice | src/pages/ModifQuestionMultipleSelect.tsx:160 | the index filter is the slice around the index |
| AnswerEditor.RemoveUndoesAdd | src/pages/ModifQuestionMultipleSelect.tsx:144-162 | removing the answer just added gives the list back |
| AnswerEditor.RemoveThenAddRepeatsOrder | src/pages/ModifQuestionMultipleSelect.tsx:144-162 | on answers numbered 1..n, removing one other than the last and then adding gives two answers with the same `order` |
| AnswerEditor.RemoveBreaksNumbering | src/pages/ModifQuestionMultipleSelect.tsx:159-162 | removing any answer but the last breaks the 1..n numbering |
| AnswerEditor.Renumbered | src/pages/ModifQuestionMultipleSelect.tsx:148 | each answer is numbered by its position, other fields kept |
| AnswerEditor.RemoveAnswerRenumbered | src/pages/ModifQuestionMultipleSelect.tsx:159-162 | removal followed by renumbering: the answers of `removeAnswer` numbered by position |
| AnswerEditor.EditsKeepNumbering | src/pages/ModifQuestionMultipleSelect.tsx:144-162 | add, update and the renumbering removal keep the 1..n numbering, so no two answers share an `order` |
| AnswerEditor.RenumberedRemovalOfLast | src/pages/ModifQuestionMultipleSelect.tsx:159-162 | removing the last answer gives the same list with both removals |
| AnswerEditor.LoadQuestion | src/pages/ModifQuestionMultipleSelect.tsx:61-67 | `??` defaults: missing text, points, time limit and type become '', 1000, 30 and "MULTIPLE_SELECT"; present values, 0 included, are kept |
| AnswerEditor.LoadAnswers | src/pages/ModifQuestionMultipleSelect.tsx:80 | a missing answer list loads as empty, a present one as it is |
| AnswerEditor.ZeroTimeLimitDiffers | src/pages/ModifQuestionMultipleSelect.tsx:65 | a stored time limit of 0 loads as 0 in the editor but is played as 30 seconds |
| ModifQuiz.SlashIndex | src/pages/ModifQuiz.tsx:75 | the position of the first slash, with none before it |
| ModifQuiz.Split | src/pages/ModifQuiz.tsx:75 | `split('/')` gives at least one piece, and no piece contains a slash |
| ModifQuiz.SplitConcat | src/pages/ModifQuiz.tsx:75 | the pieces of `x/y` are the pieces of `x` followed by those of `y` |
| ModifQuiz.JoinSplit | src/pages/ModifQuiz.tsx:75 | joining the pieces with slashes gives back the path |
| ModifQuiz.SplitJoin | src/pages/ModifQuiz.tsx:75 | splitting pieces without slashes joined by slashes gives back the pieces |
| ModifQuiz.NonEmpty | src/pages/ModifQuiz.tsx:75 | `filter(Boolean)` keeps only non-empty pieces |
| ModifQuiz.NonEmptyOfOne | src/pages/ModifQuiz.tsx:75 | a single piece is kept exactly when it is not empty |
| ModifQuiz.NonEmptyMembers | src/pages/ModifQuiz.tsx:75 | the kept pieces are exactly the non-empty pieces |
| ModifQuiz.NonEmptyConcat | src/pages/ModifQuiz.tsx:75 | the filter distributes over concatenation |
| ModifQuiz.Segments | src/pages/ModifQuiz.tsx:75 | the segments are exactly the non-empty pieces between slashes; none is empty and none contains a slash |
| ModifQuiz.LeadingSlashIgnored | src/pages/ModifQuiz.tsx:75 | a leading slash adds no segment |
| ModifQuiz.TrailingSlashIgnored | src/pages/ModifQuiz.tsx:75 | a trailing slash adds no segment |
| ModifQuiz.DoubledSlashIgnored | src/pages/ModifQuiz.tsx:75 | a doubled slash adds no segment |
| ModifQuiz.FirstNumeric | src/pages/ModifQuiz.tsx:76 | the position of the first all-digit segment, with none before it |
| ModifQuiz.QuizId | src/pages/ModifQuiz.tsx:69-78 | an all-digit query id wins; otherwise the first all-digit path segment; none exactly when no segment is all digits; any result is one or more digits |
| ModifQuiz.QuizIdFromPathIsSegment | src/pages/ModifQuiz.tsx:74-76 | an id taken from the path is one of its pieces |
| ModifQuiz.SecondSegmentNumeric | src/pages/ModifQuiz.tsx:74 | a path `/a/n/...` with `a` non-numeric and `n` numeric gives `n`, whatever follows |
| ModifQuiz.QuizIdExample | src/pages/ModifQuiz.tsx:74 | `/quiz/1/edit` gives "1" |

## Findings

| source | as written | input that shows it | evidently intended | confidence | as-written member | corrected member |
|---|---|---|---|---|---|---|
| src/pages/ModifQuestionMultipleSelect.tsx:159-162 | `removeAnswer` keeps the `order` numbers of the answers after the removed one, and `addAnswer` numbers the new answer by the list length, so two answers can share an `order` when the list is saved | answers numbered 1, 2, 3; remove the first, then add: the numbers are 2, 3, 3 | answers stay numbered 1..n, with no two sharing an `order` | medium, not executed | AnswerEditor.RemoveThenAddRepeatsOrder | AnswerEditor.EditsKeepNumbering |

`AnswerEditor.RemoveAnswer` and `AnswerEditor.RemoveBreaksNumbering` model the removal as written.
`AnswerEditor.RemoveAnswerRenumbered` is the corrected removal.

## Left out

- The Socket.IO transport is left out. Sending is modelled as returning the message; receiving is a method call.
  - When the socket is not connected yet, the code connects and sends `join_room` and `create_room` once the connection is up (src/pages/JoinQuiz.tsx:160-169, src/pages/PlayQuizHost.tsx:59-71). The model sends at once.
  - The `connect` and `disconnect` handlers only log, so they are left out.
  - `game_ended` only shows an alert, so it is left out.
- The HTTP `fetch` calls are left out. The host's loading effect (src/pages/PlayQuizHost.tsx:26-78) becomes `QuizLoaded`, which takes their outcomes as parameters.
  - A failed request for the quiz, or a questions request that fails outright, throws; the catch only logs to the console. The model then changes nothing and sends nothing. The logging is left out.
  - A questions reply whose body cannot be parsed as JSON throws the same way. It is passed to the model as `RequestFailed`.
  - The quiz title is only displayed, so it is not modelled.
  - The editor's question and answer loading becomes `LoadQuestion` and `LoadAnswers`.
  - Saving and the other requests are not modelled.
- `generateRoomCode` (src/pages/PlayQuizHost.tsx:21-23) depends on `Math.random`. The generated code is a parameter of `QuizLoaded`.
- Time and scheduling are left out.
  - `Date.now()` is the parameter `now`.
  - Every `setInterval` tick and the 3-second `setTimeout` are methods that may be called at any moment. The effect's condition is each method's no-op guard.
  - React applies each handler's state updates together, so each method is atomic.
- Rendering is left out, apart from the host's choice of screen (`Screen`).
  - This covers JSX, styling, `alert` (returned as a value), `localStorage` and routing.
  - It also covers the browser's `maxLength` limits on the room-code and pseudo inputs.
  - Error and banner messages are kept as enumerations, not their French texts.
- The other pages and components are not part of this model. These are Register, Login, Dashboard, CreateQuiz, CreateQuestion, the other question editors, and the QR-code and display-only components.
- JavaScript numbers are modelled as unbounded integers. Ids, scores, time limits and points therefore have no fractions, NaN or overflow.
- Text.ToLower: maps only the ASCII letters and leaves every other character as it is. JavaScript also lower-cases non-ASCII letters.
- Text.ToUpper: maps only the ASCII letters. JavaScript also upper-cases other letters, and can change a string's length (for example "ß" becomes "SS").
- JoinQuiz.PlayerClient.AnswerSubmitted: `isCorrect` is either present or absent. A `null` value, which the source's `!== undefined` test lets through, is not modelled.
- AnswerEditor.UpdateAnswer: requires an index inside the list, which is all the rows ever pass. It covers only the two fields the rows edit, `answerText` and `isCorrect`.
- PlayQuizHost.HostController.HandleNextQuestion: the handler itself has no guard. The button that calls it is disabled while `timer > 0`, and the method's contract states this as an implication.
- ModifQuiz.QuizId: URL parsing is not modelled; the query `id` and the path are inputs. The branch where `window` is undefined, which yields `undefined`, is also not modelled.
