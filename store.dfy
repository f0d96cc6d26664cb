/**
 * The in-memory database the server actions run against: the matchmaking
 * queue, the quiz catalog (read only), the matches table and the answer ledger.
 * Each server action is one atomic step on it (one `db.transaction`).
 */
module Store {
  import opened Wrappers
  import opened Schema
  import opened Ledger
  import opened Queue

  /** Each player's score is 15 times the number of their correct ledger rows in that match. */
  predicate ScoresMatchLedger(matches: map<MatchId, Match>, ledger: seq<PlayerAnswer>)
  {
    forall id :: id in matches ==>
      matches[id].player1Score == PointsPerCorrectAnswer * Correct(OfPlayer(ledger, id, matches[id].player1Id)) &&
      matches[id].player2Score == PointsPerCorrectAnswer * Correct(OfPlayer(ledger, id, matches[id].player2Id))
  }

  /** Every ledger row belongs to a stored match. */
  predicate RowsBelongToMatches(matches: map<MatchId, Match>, ledger: seq<PlayerAnswer>)
  {
    forall a :: a in ledger ==> a.matchId in matches
  }

  /** The consistency rules of the stored tables, kept by every action. */
  predicate Consistent(queue: seq<QueueEntry>, matches: map<MatchId, Match>, nextMatchId: MatchId, ledger: seq<PlayerAnswer>)
  {
    AtMostOneWaiting(queue) &&
    (forall id :: id in matches ==> id < nextMatchId && WellFormedMatch(matches[id])) &&
    RowsBelongToMatches(matches, ledger) &&
    UniqueKeys(ledger) &&
    ScoresMatchLedger(matches, ledger)
  }

  class Db {
    var queue: seq<QueueEntry>
    const quizzes: seq<QuizRow>
    const questions: seq<QuestionRow>
    var matches: map<MatchId, Match>
    var nextMatchId: MatchId
    var ledger: seq<PlayerAnswer>

    ghost predicate Valid()
      reads this
    {
      Consistent(queue, matches, nextMatchId, ledger)
    }

    /** An empty queue, no matches and an empty ledger over a given quiz catalog. */
    constructor (quizzes: seq<QuizRow>, questions: seq<QuestionRow>)
      ensures Valid()
      ensures this.quizzes == quizzes && this.questions == questions
      ensures queue == [] && matches == map[] && ledger == []
    {
      this.quizzes := quizzes;
      this.questions := questions;
      queue := [];
      matches := map[];
      nextMatchId := 0;
      ledger := [];
    }
  }
}
