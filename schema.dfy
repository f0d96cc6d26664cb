/**
 * Row shapes, enums and defaults of the persisted tables the match engine uses
 * (database/schema.ts). Identifiers are opaque strings; match ids are handed out
 * by a counter in the store, and timestamps are readings of a natural-number clock.
 */
module Schema {
  import opened Wrappers

  type UserId = string
  type QuizId = string
  type QuestionId = string
  type AnswerId = string
  type Category = string
  type MatchId = nat
  type Time = nat

  /** `matchmaking_status` enum. */
  datatype QueueStatus = Waiting | Matched | Cancelled

  /** `match_status` enum. */
  datatype MatchStatus = MatchWaiting | InProgress | Completed | MatchCancelled

  /** A `matchmaking_queue` row; its uuid key is its position in the table. */
  datatype QueueEntry = QueueEntry(userId: UserId, category: Category, joinedAt: Time, status: QueueStatus)

  /** The columns of a `quizzes` row that matchmaking reads. */
  datatype QuizRow = QuizRow(id: QuizId, category: Category)

  /** The columns of a `questions` row that the match engine reads. */
  datatype QuestionRow = QuestionRow(id: QuestionId, quizId: QuizId)

  /** A `matches` row (its id is the key it is stored under). */
  datatype Match = Match(
    quizId: QuizId,
    player1Id: UserId,
    player2Id: UserId,
    player1Score: int,
    player2Score: int,
    currentTurnPlayer: UserId,
    roundNumber: int,
    status: MatchStatus,
    createdAt: Time,
    completedAt: Option<Time>)

  /** A `player_answers` row: one entry of the answer ledger. */
  datatype PlayerAnswer = PlayerAnswer(
    matchId: MatchId,
    userId: UserId,
    questionId: QuestionId,
    answerId: AnswerId,
    isCorrect: bool,
    roundNumber: int,
    createdAt: Time)

  /** Points the server adds to a player's score for one correct answer. */
  const PointsPerCorrectAnswer: nat := 15

  /** Whether `user` is one of the two players of `m`. */
  predicate IsPlayer(m: Match, user: UserId)
  {
    user == m.player1Id || user == m.player2Id
  }

  /** The shape every match row keeps: two distinct players, one of them holding the turn,
      a round number of at least one, and a completion time exactly when completed. */
  predicate WellFormedMatch(m: Match)
  {
    m.player1Id != m.player2Id &&
    IsPlayer(m, m.currentTurnPlayer) &&
    m.roundNumber >= 1 &&
    (m.status == Completed <==> m.completedAt.Some?)
  }
}
