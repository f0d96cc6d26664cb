# Quiz — a verified model of the quiz game's core

The Quiz app is a Next.js quiz game. Players solve quizzes alone and earn XP. They can also
queue for a category, be paired with an opponent, and play a turn-based match. Turns and
scores are kept in the database by server actions. This project models that core in Dafny
and proves properties about it:

- **Server actions** (`lib/actions/matchmaking.ts`, `lib/actions/multiplayer.ts`). Each one is
  an atomic step on a class `Store.Db`. The class holds the matchmaking queue, the matches
  table, the player-answer ledger, and the read-only quizzes and questions. A
  `Consistent` invariant states three things:
  - at most one waiting entry exists per (user, category);
  - every match is well formed;
  - every score equals 15 times that player's correct ledger rows, and ledger rows are unique
    per (match, user, question, round).

  Every action preserves this invariant.
- **Multiplayer card** (`components/MultiplayerQuizCard.tsx`). The card's React state is a
  class `TurnCard.Card`. Each handler is a method. The answer handler awaits the server, so it
  is two methods, `BeginSubmit` and `FinishSubmit`: any other method may run while a submit is
  in flight, and `FinishSubmit` uses what was captured at the click. The `forEach` that restores earlier answers
  is a loop proved against a reference function `Loaded`.
- **Match summary** (`components/MatchSummaryCard.tsx`). Pure functions for the viewer's
  perspective, the verdict (with JavaScript's `===` and `>` on possibly-null scores), and the
  answer breakdown.
- **Solo quiz card** (`components/QuestionCard.tsx`). A class `SoloQuiz.QuestionCard`. Its
  invariant ties the correct-answer count to the recorded choices.
- **Authoring forms** (`components/QuizForm/QuizForm.tsx`, `components/QuizForm/AnswerInput.tsx`
  and the older `components/QuizForm.tsx`):
  - the zod schema as a predicate;
  - the default question;
  - the exclusive "Correct?" checkbox, as a loop over the four answers proved against
    `ToggleCorrect`;
  - the question list as a class `QuizDraft.FormState`;
  - both `onSubmit` handlers, with the create action's reply as a parameter.

The environment is passed in as parameters:
- The signed-in user is a parameter, and so is the clock (`now: nat`).
- `Math.random()` is a real in [0, 1).
- The values of the `MAX_ROUNDS`, `QUESTIONS_PER_ROUND` and `XP_PER_CORRECT_ANSWER` constants
  are not modelled; they are kept as parameters.
- Database ids of new matches come from a counter.
- Whether a server call succeeds is a boolean parameter, or a reply datatype.

Facts about the code that the model keeps, each with the lines that show it:
- `findMatch` updates only the joiner's queue entries to "matched" (the two UPDATEs at
  `lib/actions/matchmaking.ts` lines 95-113 both filter on `userId`). The opponent's entry stays
  waiting (`Matchmaking.OpponentStaysWaiting`).
- `deleteMatchmakingQueueEntry` sets every entry of the (user, category) to "cancelled", whatever
  its status (`lib/actions/matchmaking.ts` lines 147-155 filter on user and category only).
- Solo play awards 15 XP per correct answer (`components/QuestionCard.tsx` line 35), although
  `__test__/QuestionCard.test.tsx` (lines 23 and 247) mocks and expects 10.
- The starting question index adds a block offset only when the viewer does not hold the turn
  (`components/MultiplayerQuizCard.tsx` lines 27-35). The match page renders the card only when
  it is the viewer's turn (`app/(root)/multiplayer/[id]/page.tsx`, lines 60-65), so from that page
  every turn starts at `(round - 1) * QUESTIONS_PER_ROUND`. Consecutive rounds advance by one
  block, not two (`TurnCard.OffsetBlockIsNextRoundsBlock`).
- `endPlayerTurn(matchId)` takes one argument (`lib/actions/multiplayer.ts` line 123). The round
  score the card passes at `components/MultiplayerQuizCard.tsx` line 172 is ignored.
- `submitMultiplayerAnswer` replies `{ success: true }` whether the answer was new or already
  stored (line 78). The transaction's own result at lines 46-51 is discarded, so a caller
  cannot tell the two cases apart.

## Model

| member | source | states |
|---|---|---|
| Ledger.FindByKey | lib/actions/multiplayer.ts:37-44 | the duplicate lookup finds the first row with the (match, user, question, round) key, and finds none exactly when no row has it |
| Ledger.OfPlayer | lib/actions/multiplayer.ts:54-74 | the rows of one player in one match are exactly the ledger rows with that match and user |
| Ledger.OfRound | lib/actions/multiplayer.ts:101-107 | the rows a player gets back are exactly the ledger rows with that match, user and round, each as many times as it occurs in the ledger |
| Ledger.AnsweredQuestions | lib/actions/multiplayer.ts:159-169 | the question ids counted for a player are exactly those of their rows in the match, over all rounds |
| Ledger.RoundScore | lib/actions/multiplayer.ts:109-116 | the round score is 15 times the number of correct rows, so at most 15 per row |
| Ledger.CorrectCountAppend | lib/actions/multiplayer.ts:54-74 | appending a row raises a player's correct count in a match by one exactly when the row is a correct row of that player in that match |
| Ledger.CorrectCountAbsent | database/schema.ts:88-89 | a match with no ledger rows has zero correct answers for anyone, matching the zero default scores |
| Ledger.AppendFreshKey | lib/actions/multiplayer.ts:37-67 | inserting a row whose key is absent keeps keys unique, and a replayed submit then finds that row, so a duplicate submit is a no-op |
| Queue.WaitingExists | lib/actions/matchmaking.ts:20-26 | the pre-insert check holds exactly when the queue holds a waiting entry of that user and category |
| Queue.NewestOpponent | lib/actions/matchmaking.ts:58-65 | the opponent is a waiting entry of the category from another user with the latest joinedAt; there is none exactly when no such entry exists |
| Queue.Restamp | lib/actions/matchmaking.ts:95-113 | the UPDATE sets the status of exactly the (user, category) entries and leaves every other entry unchanged |
| Queue.RestampIdempotent | lib/actions/matchmaking.ts:95-113 | running the same status update twice, as findMatch does, equals running it once |
| Queue.RestampLeavesNoWaiting | lib/actions/matchmaking.ts:144-155 | after marking a user's entries of a category matched or cancelled, none is waiting, and at most one waiting entry per (user, category) still holds |
| Queue.EnqueueKeepsAtMostOneWaiting | lib/actions/matchmaking.ts:20-43 | inserting a waiting entry only when none exists for the (user, category) keeps at most one waiting entry per pair |
| Queue.QuizzesIn | lib/actions/matchmaking.ts:130-132 | the candidates are exactly the quizzes of the category |
| Queue.RandomIndex | lib/actions/matchmaking.ts:134 | `Math.floor(Math.random() * n)` is a valid index for every random value in [0, 1) when n > 0 |
| Queue.SelectRandomQuizByCategory | lib/actions/matchmaking.ts:128-142 | no quiz exactly when the category has none; otherwise the drawn quiz belongs to the category |
| Store.Db.constructor | database/schema.ts:67-116 | an empty queue, matches table and ledger satisfy the store invariant |
| Matchmaking.NewMatch | lib/actions/matchmaking.ts:84-93 | the new match is in progress with the joiner as player1 holding the first turn, the opponent as player2, round 1 and zero scores |
| Matchmaking.AddMatchKeepsConsistency | lib/actions/matchmaking.ts:84-93 | inserting a fresh zero-score match under a new id keeps every score equal to 15 times the ledger's correct rows |
| Matchmaking.PairingKeepsConsistency | lib/actions/matchmaking.ts:84-113 | inserting the new match and marking the joiner's entries matched twice keeps the store consistent, and the second update changes nothing |
| Matchmaking.InsertMatch | lib/actions/matchmaking.ts:84-113 | the match is stored under the next id, the id counter advances, and exactly the joiner's entries of the category become matched |
| Matchmaking.FindMatch | lib/actions/matchmaking.ts:56-126 | no opponent, no quiz, or a new match paired with the newest opponent over the drawn quiz; only on pairing do the tables change, and then the joiner's entries become matched |
| Matchmaking.JoinMatchmaking | lib/actions/matchmaking.ts:14-54 | refused exactly when the user already waits in the category; otherwise a waiting entry is added and FindMatch's outcome follows on the extended queue |
| Matchmaking.DeleteMatchmakingQueueEntry | lib/actions/matchmaking.ts:144-159 | every entry of the (user, category) becomes cancelled, and the user no longer waits there |
| Matchmaking.OpponentStaysWaiting | lib/actions/matchmaking.ts:95-113 | after a pairing the opponent's own queue entry is unchanged and still waiting |
| Matchmaking.JoinResult.Message | lib/actions/matchmaking.ts:28-81 | every unsuccessful outcome carries a message, and only a pairing carries none |
| Matchmaking.RejoinRefused | lib/actions/matchmaking.ts:20-33 | a user who waits in a category keeps waiting through later joins and through status updates of other (user, category) pairs, so their next join there is refused |
| Matchmaking.QueuedJoinerIsRefused | lib/actions/matchmaking.ts:20-43 | a join that leaves the user queued without an opponent makes their next join in that category refused |
| Multiplayer.Credit | lib/actions/multiplayer.ts:54-74 | a correct answer adds 15 to the submitter's side only, and an incorrect one changes nothing; no other field of the match changes |
| Multiplayer.CreditKeepsScores | lib/actions/multiplayer.ts:54-74 | scoring a fresh row keeps every match's scores equal to 15 times each player's correct rows |
| Multiplayer.SubmitMultiplayerAnswer | lib/actions/multiplayer.ts:10-83 | match not found, not authorized and not your turn each fail exactly in their case, and the turn holder always succeeds; the success reply is the same whether the key was stored or not; a stored key changes nothing; otherwise one row is appended and the score credited |
| Multiplayer.GetPlayerAnswers | lib/actions/multiplayer.ts:85-121 | the two errors occur exactly in their cases and a player of the match always succeeds; the answers are exactly the caller's rows of that round, each as often as in the ledger, and the score is 15 per correct one |
| Multiplayer.QuestionCount | lib/actions/multiplayer.ts:152-157 | the distinct question count of a quiz is zero exactly when no question belongs to it |
| Multiplayer.NextTurn | lib/actions/multiplayer.ts:147-200 | the turn passes to the other player; the round advances exactly when player2 ends a turn; the match completes at `now` exactly when the new round passes MAX_ROUNDS or the next player has answered every question; nothing else changes |
| Multiplayer.ReplaceKeepsConsistency | lib/actions/multiplayer.ts:191-200 | storing a turn update that keeps players and scores keeps the store consistent |
| Multiplayer.EndPlayerTurn | lib/actions/multiplayer.ts:123-214 | fails exactly when the match is missing or the caller does not hold the turn, leaving the match unchanged; the turn holder always succeeds, and NextTurn is stored with the quiz's question count and the next player's distinct answered questions |
| Multiplayer.RoundIsTwoTurns | lib/actions/multiplayer.ts:147-177 | two consecutive turn ends starting from player1 give the turn back to player1 one round later |
| MatchSummary.Perspective | components/MatchSummaryCard.tsx:23-29 | the viewer sees player1's side as their own exactly when their id is player1's; anyone else sees player2's side as their own |
| MatchSummary.Judge | components/MatchSummaryCard.tsx:31-32 | a tie exactly when the scores are strictly equal; a win exactly when they differ and the user's exceeds the opponent's, null counting as 0; otherwise a loss |
| MatchSummary.OppositeVerdicts | components/MatchSummaryCard.tsx:31-32 | with distinct numeric scores one side wins exactly when the other loses, and there is no tie |
| MatchSummary.NullScores | components/MatchSummaryCard.tsx:31-32 | two null scores tie, a positive score beats null, and 0 against null is a loss from both sides |
| MatchSummary.Truncate | components/MatchSummaryCard.tsx:51-52 | texts of up to 50 characters are shown whole; longer ones as their first 50 characters followed by "..." |
| MatchSummary.TruncateShape | components/MatchSummaryCard.tsx:51-52 | a shown text has at most 53 characters and begins with the original's first 50 |
| MatchSummary.QuestionTextOf | components/MatchSummaryCard.tsx:40-42 | the text of the first question with the answer's id, or "" when the quiz has none |
| MatchSummary.Breakdown | components/MatchSummaryCard.tsx:34-59 | one row per answer, in order, with ✓ or ✗ by correctness and the question's truncated text |
| MatchSummary.Summarize | components/MatchSummaryCard.tsx:23-93 | the viewer's side and the opponent's are the match's two sides, the verdict is Judge of their scores, and each side's rows are the breakdown of that side's answers |
| MatchSummary.UnknownViewerSeesPlayer2Side | components/MatchSummaryCard.tsx:23-29 | a viewer who is not player1 gets exactly player2's summary |
| MatchSummary.ViewsDisagree | components/MatchSummaryCard.tsx:23-32 | with distinct scores player1 wins exactly when player2's view says lost |
| TurnCard.StartingQuestionIndex | components/MultiplayerQuizCard.tsx:27-35 | a viewer holding the turn starts at the round's first block, `(round - 1) * Q`; otherwise one block later; never negative from round 1 on |
| TurnCard.PageStartsAtRoundBlock | components/MultiplayerQuizCard.tsx:27-35 | for the turn holder as the match page numbers the players, the start is `(round - 1) * Q` |
| TurnCard.OffsetBlockIsNextRoundsBlock | components/MultiplayerQuizCard.tsx:27-35 | the non-holder's block is the holder's block plus Q, which is also the holder's block one round later |
| TurnCard.IndexOf | components/MultiplayerQuizCard.tsx:67-69 | `findIndex`: -1 exactly when no question has the id, otherwise the first index with it |
| TurnCard.Loaded | components/MultiplayerQuizCard.tsx:62-80 | the restored selections are keyed by valid question indexes |
| TurnCard.LoadedDomain | components/MultiplayerQuizCard.tsx:66-80 | an index is restored exactly when some returned answer's question is found at that index |
| TurnCard.LoadedLastWins | components/MultiplayerQuizCard.tsx:66-80 | a question answered by several rows keeps the last row's answer and correctness |
| TurnCard.Card.constructor | components/MultiplayerQuizCard.tsx:27-47 | the card starts at the starting index with no selections, zero score and count, loading, not submitting |
| TurnCard.Card.CurrentQuestion | components/MultiplayerQuizCard.tsx:49-52 | the current question exists exactly when the index is in range |
| TurnCard.Card.View | components/MultiplayerQuizCard.tsx:165-182 | "No more questions" exactly when there is no current question; the round summary exactly when there is one and the summary flag is set; otherwise the question |
| TurnCard.Card.SummaryLine | components/MultiplayerQuizCard.tsx:191-204 | a summary row shows ✓ or ✗ by the stored correctness and the truncated question text, "" for an index outside the list |
| TurnCard.Card.LoadPreviousAnswers | components/MultiplayerQuizCard.tsx:56-105 | with a failed or empty reply only loading ends; otherwise selections become Loaded of the answers, score and count come from the reply, and the summary shows once Q answers exist |
| TurnCard.Card.BeginSubmit | components/MultiplayerQuizCard.tsx:107-121 | ignored while a submit runs or without a question; otherwise records the choice at the current index, adds `xpPerCorrect` when correct and leaves the submit in flight with the index, the correctness and the count seen at the click |
| TurnCard.Card.FinishSubmit | components/MultiplayerQuizCard.tsx:122-145 | the submit ends; on acceptance the count becomes the count seen at the click plus one and the summary shows once a full round is answered; on refusal the choice at the captured index is deleted and the reward is taken back from the current score |
| TurnCard.Card.HandleAnswerSelect | components/MultiplayerQuizCard.tsx:107-155 | BeginSubmit then FinishSubmit with no other event between them: ignored while submitting or without a question; an accepted submit records the choice, adds XP_PER_CORRECT_ANSWER (`xpPerCorrect`) when correct, counts it and shows the summary once a full round is answered; a rejected one removes the choice and restores the score |
| TurnCard.Card.ClickAnswer | components/MultiplayerQuizCard.tsx:256-261 | on the question screen, answer buttons do nothing once the question is answered or a submit runs; otherwise the click has HandleAnswerSelect's full effect: on acceptance the choice, the `xpPerCorrect` score step, the count and the summary flag; on refusal answers and score exactly as before |
| TurnCard.Card.ClickNext | components/MultiplayerQuizCard.tsx:274-284 | on the question screen the Next button acts only after loading, on an answered question and with no submit running, and then moves to the next index |
| TurnCard.Card.HandleNextQuestion | components/MultiplayerQuizCard.tsx:157-163 | with Q answers the summary shows and the index stays; otherwise the index advances by one |
| SoloQuiz.CorrectText | components/QuestionCard.tsx:29 | the text of the first correct answer; none exactly when no answer is flagged correct |
| SoloQuiz.CountRightIgnoresOtherKey | components/QuestionCard.tsx:20-31 | recording a choice for an unanswered question leaves the correct count of the answered ones unchanged |
| SoloQuiz.CountRightAppend | components/QuestionCard.tsx:20-31 | marking a question answered raises the correct count by one exactly when its recorded choice equals the correct text |
| SoloQuiz.DistinctBound | components/QuestionCard.tsx:60-65 | a duplicate-free list of question indexes below n has at most n entries |
| SoloQuiz.QuizXp | components/QuestionCard.tsx:35 | the XP is 15 per correct answer |
| SoloQuiz.QuestionCard.constructor | components/QuestionCard.tsx:9-17 | the card starts at question 0 with nothing answered, no choices and a zero count |
| SoloQuiz.QuestionCard.CheckAnswer | components/QuestionCard.tsx:20-32 | the choice is stored, the question is marked answered, and the count rises by one exactly when the choice is the correct text |
| SoloQuiz.QuestionCard.ClickAnswer | components/QuestionCard.tsx:55-65 | on an answered question nothing changes; otherwise CheckAnswer happens and the invariant (count = correct choices, no question twice) holds |
| SoloQuiz.QuestionCard.Previous | components/QuestionCard.tsx:93-101 | moves back one question, never below 0 |
| SoloQuiz.QuestionCard.Next | components/QuestionCard.tsx:102-112 | moves forward one question, never past the last |
| SoloQuiz.QuestionCard.XpBound | components/QuestionCard.tsx:34-35 | the XP reported, 15 per correct answer, is at most 15 times the number of questions |
| QuizDraft.Accepts | components/QuizForm/QuizForm.tsx:29-53 | an accepted draft has title, description and category of at least 3, 10 and 3 characters, at least the minimum number of questions, each question text of at least 3 characters, and four answers of at least 2 characters per question |
| QuizDraft.SchemasNest | components/QuizForm/QuizForm.tsx:29-53 | every draft the current schema accepts the older one accepts too, and a one-question draft passes only the older one |
| QuizDraft.FlagsUnchecked | components/QuizForm/QuizForm.tsx:40-48 | the schema does not look at the correct flags: a question with no correct answer is accepted |
| QuizDraft.DefaultQuestion | components/QuizForm/QuizForm.tsx:55-63 | four answers, only the first correct, and the schema rejects it until filled in |
| QuizDraft.ToggleCorrect | components/QuizForm/AnswerInput.tsx:52-66 | checking an answer clears the other flags among the first four; unchecking changes only that answer |
| QuizDraft.CheckedIsOnlyCorrect | components/QuizForm/AnswerInput.tsx:52-66 | after checking, that answer is the single correct one of the four |
| QuizDraft.UncheckTouchesOnlyIt | components/QuizForm/AnswerInput.tsx:52-66 | unchecking changes only that answer's flag, so a question can end with no correct answer |
| QuizDraft.CheckTwiceIsCheckOnce | components/QuizForm/AnswerInput.tsx:52-66 | checking the same answer twice equals checking it once |
| QuizDraft.ToggleKeepsTexts | components/QuizForm/AnswerInput.tsx:58-63 | answer texts and descriptions never change |
| QuizDraft.FormState.constructor | components/QuizForm/QuizForm.tsx:73-81 | the form starts with one default question, not submitting, no error |
| QuizDraft.FormState.AppendQuestion | components/QuizForm/QuizForm.tsx:216-222 | "New Question" appends a default question |
| QuizDraft.FormState.RemoveOffered | components/QuizForm/QuizForm.tsx:205 | the Remove button is shown exactly when removing any one question leaves the list non-empty |
| QuizDraft.FormState.ClickRemove | components/QuizForm/QuizForm.tsx:199-207 | removal happens only when more than one question exists, so the list never becomes empty |
| AnswerInput.OnCheckedChange | components/QuizForm/AnswerInput.tsx:52-66 | the forEach over the other answers followed by the field change leaves the question's answers equal to ToggleCorrect, and nothing else changes |
| QuizForm.MessageOr | components/QuizForm/QuizForm.tsx:108-110 | a non-empty server message is taken as is; a missing or empty one gives exactly the fallback |
| QuizForm.OnSubmit | components/QuizForm/QuizForm.tsx:92-123 | the create action is called exactly when there are at least 6 questions, otherwise the error state is set to the six-question message; the page navigates exactly on success; each failure sets the error state to its message; submitting ends false |
| QuizForm.GuardUnreachableAfterSchema | components/QuizForm/QuizForm.tsx:51-103 | every schema-accepted draft has at least 6 questions, so the explicit guard never fires behind the resolver |
| LegacyQuizForm.LegacyDefaultQuestion | components/QuizForm.tsx:65-75 | the older form's question has four empty answers without description, only the first correct |
| LegacyQuizForm.LegacyOnSubmit | components/QuizForm.tsx:88-111 | the create action is always called; the page navigates unless the call throws, even after a refused create; the error state is set to the server message or its fallbacks |

The older form shares `FormState.AppendQuestion`, `FormState.ClickRemove` (lines 212-222 and
284-292 of `components/QuizForm.tsx`) and `AnswerInput.OnCheckedChange` (its lines 253-269).
It is built with no description on the default answers.

## Left out

- Persistence, authentication and framework effects:
  - database I/O, `getSessionUser` and the session lookup (the user is a parameter);
  - `revalidatePath`, toasts, `router.push`, `setTimeout` and console logging;
  - the styling of buttons.
- Transactions and concurrency: every server action is one atomic step. Interleavings of two
  players' requests are not modelled.
- The catch-all error replies of `joinMatchmaking` and `findMatch` ("Failed to join matchmaking
  queue", "An error occurred during matchmaking"). They arise from a thrown database error or a
  missing session (`user!.id` inside the `try`, `lib/actions/matchmaking.ts` lines 17-53).
  Neither is modelled: the user is always present and the database never throws.
- The nullable `player1Score`, `player2Score` and `roundNumber` columns are stored as integers.
  Every match is inserted with their defaults. The summary card does take possibly-null
  scores (`MatchSummary.Judge`).
- Generated UUIDs and timestamps: match ids come from a counter and time is a parameter.
- TurnCard.Card.LoadPreviousAnswers: the `highestIndex` the source computes is never used, so
  it is not modelled.
- The round-summary rows follow `Object.entries` order. The model states each row
  (`TurnCard.Card.SummaryLine`) but not their order.
- `finishRound` on the card only toggles `isSubmitting` around `endPlayerTurn` and a toast. It
  is not modelled separately.
- The solo card's `submitQuiz` call to `handleQuizSubmit` (the XP write) is left out. Only the
  XP amount is modelled.
- The solo card's `answeredQuestions` starts with a placeholder `{}` that is never a question.
  The model starts with an empty list.
- Multiplayer.GetPlayerAnswers: states which rows are returned and how often, not their order.
  The query has no `orderBy`.
- MatchSummary.Summarize: the card's default of an empty answer list for a side whose answers
  are undefined (components/MatchSummaryCard.tsx:35) is not modelled; a side's answers are
  always a list, and the caller passes the empty one for that case.
- TurnCard.Card.HandleAnswerSelect: the card's optimistic score step is the parameter
  `xpPerCorrect` (the client constant `XP_PER_CORRECT_ANSWER`), separate from the server's
  15-point credit (`Multiplayer.Credit`). The model does not relate the two, so the card's
  displayed round score may differ from the score the server stores.
- Queue.NewestOpponent: among waiting opponents with the same `joinedAt` it takes the later
  table row. The query's `orderBy desc(joinedAt)` leaves the choice among such ties open.
- SoloQuiz.QuestionCard.constructor: requires a non-empty question list. With none, the
  component crashes reading `post[0]` (`components/QuestionCard.tsx` lines 11-12), and that crash
  is not modelled.
- QuizForm.OnSubmit: the form never renders its `error` state; it shows only the schema's
  question-list message (`components/QuizForm/QuizForm.tsx` lines 125 and 210-214). The model
  sets the state and does not model its display.
- zod error messages: which message appears for which field is not modelled. Only acceptance
  is modelled.
- String lengths are counted in characters, not UTF-16 code units.
- The remainder of the create flow (`createQuizAction`) is not part of this model. Its reply
  is a parameter.
