/**
 * The matchmaking server actions (lib/actions/matchmaking.ts): joining the queue
 * of a category, pairing with the newest waiting opponent over a random quiz of
 * that category, and cancelling.
 */
module Matchmaking {
  import opened Wrappers
  import opened Schema
  import opened Ledger
  import opened Queue
  import opened Store

  /** The outcomes of joinMatchmaking/findMatch; only `Paired` is reported with success = true. */
  datatype JoinResult = AlreadyQueued | NoOpponent | NoQuiz | Paired(matchId: MatchId)
  {
    predicate Success() { Paired? }

    function Message(): (text: string)
      ensures text == "" <==> Paired?
    {
      match this
      case AlreadyQueued => "Your already in matchmaking queue with this category!"
      case NoOpponent => "You have been added to the matchmaking queue. No opponent currently found"
      case NoQuiz => "No Quiz found!"
      case Paired(_) => ""
    }
  }

  /** The row findMatch inserts: the joiner is player1 and holds the first turn; the
      status is in progress and the defaults give round 1 and zero scores. */
  function NewMatch(quizId: QuizId, joiner: UserId, opponent: UserId, now: Time): (m: Match)
    requires joiner != opponent
    ensures WellFormedMatch(m) && m.status == InProgress && m.completedAt == None
    ensures m.player1Id == joiner && m.player2Id == opponent && m.currentTurnPlayer == joiner
    ensures m.roundNumber == 1 && m.player1Score == 0 && m.player2Score == 0
  {
    Match(quizId, joiner, opponent, 0, 0, joiner, 1, InProgress, now, None)
  }

  /** Adding a fresh match with no ledger rows keeps the store consistent. */
  lemma AddMatchKeepsConsistency(queue: seq<QueueEntry>, matches: map<MatchId, Match>, next: MatchId,
                                 ledger: seq<PlayerAnswer>, m: Match)
    requires Consistent(queue, matches, next, ledger)
    requires WellFormedMatch(m) && m.player1Score == 0 && m.player2Score == 0
    ensures Consistent(queue, matches[next := m], next + 1, ledger)
  {
    var ms := matches[next := m];
    assert next !in matches;
    forall a | a in ledger ensures a.matchId != next { }
    CorrectCountAbsent(ledger, next, m.player1Id);
    CorrectCountAbsent(ledger, next, m.player2Id);
    forall id | id in ms
      ensures ms[id].player1Score == PointsPerCorrectAnswer * Correct(OfPlayer(ledger, id, ms[id].player1Id))
      ensures ms[id].player2Score == PointsPerCorrectAnswer * Correct(OfPlayer(ledger, id, ms[id].player2Id))
    {
      if id != next { assert ms[id] == matches[id]; }
    }
    assert ScoresMatchLedger(ms, ledger);
    assert RowsBelongToMatches(ms, ledger);
    assert forall id :: id in ms ==> id < next + 1 && WellFormedMatch(ms[id]);
  }

  /** The pairing step as a whole (insert the match, mark the joiner's entries matched twice)
      keeps the store consistent. */
  lemma PairingKeepsConsistency(queue: seq<QueueEntry>, matches: map<MatchId, Match>, next: MatchId,
                                ledger: seq<PlayerAnswer>, m: Match, user: UserId, category: Category)
    requires Consistent(queue, matches, next, ledger)
    requires WellFormedMatch(m) && m.player1Score == 0 && m.player2Score == 0
    ensures var once := Restamp(queue, user, category, Matched);
      Restamp(once, user, category, Matched) == once &&
      Consistent(Restamp(once, user, category, Matched), matches[next := m], next + 1, ledger)
  {
    AddMatchKeepsConsistency(queue, matches, next, ledger, m);
    RestampLeavesNoWaiting(queue, user, category, Matched);
    RestampIdempotent(queue, user, category, Matched);
  }

  /** The writes of a pairing: the match is inserted under the next id, then the joiner's
      entries of the category are marked matched by two identical UPDATEs. */
  method InsertMatch(db: Db, m: Match, user: UserId, category: Category) returns (id: MatchId)
    requires db.Valid()
    requires WellFormedMatch(m) && m.player1Score == 0 && m.player2Score == 0
    modifies db`queue, db`matches, db`nextMatchId
    ensures db.Valid()
    ensures id == old(db.nextMatchId) && id !in old(db.matches) && db.nextMatchId == id + 1
    ensures db.matches == old(db.matches)[id := m]
    ensures db.queue == Restamp(old(db.queue), user, category, Matched)
  {
    id := db.nextMatchId;
    PairingKeepsConsistency(db.queue, db.matches, id, db.ledger, m, user, category);
    db.matches := db.matches[id := m];
    db.nextMatchId := id + 1;
    db.queue := Restamp(db.queue, user, category, Matched);
    db.queue := Restamp(db.queue, user, category, Matched);
  }

  /** findMatch: pair `user` with the newest waiting opponent of the category, over a quiz
      drawn with `random`. Only the joiner's entries are marked matched (twice, as in the
      source); the opponent's entries are left as they are. */
  method FindMatch(db: Db, user: UserId, category: Category, now: Time, random: real) returns (r: JoinResult)
    requires db.Valid()
    requires 0.0 <= random < 1.0
    modifies db`queue, db`matches, db`nextMatchId
    ensures db.Valid()
    ensures r != AlreadyQueued
    ensures r == NoOpponent <==> NewestOpponent(old(db.queue), user, category).None?
    ensures r == NoQuiz <==> NewestOpponent(old(db.queue), user, category).Some? &&
                             SelectRandomQuizByCategory(db.quizzes, category, random).None?
    ensures !r.Paired? ==> db.queue == old(db.queue) && db.matches == old(db.matches) && db.nextMatchId == old(db.nextMatchId)
    ensures r.Paired? ==>
      var opponent := old(db.queue)[NewestOpponent(old(db.queue), user, category).value];
      var quiz := SelectRandomQuizByCategory(db.quizzes, category, random).value;
      r.matchId == old(db.nextMatchId) && r.matchId !in old(db.matches) &&
      db.nextMatchId == old(db.nextMatchId) + 1 &&
      db.matches == old(db.matches)[r.matchId := NewMatch(quiz.id, user, opponent.userId, now)] &&
      db.queue == Restamp(old(db.queue), user, category, Matched)
  {
    var found := NewestOpponent(db.queue, user, category);
    if found.None? {
      return NoOpponent;
    }
    var opponent := db.queue[found.value];
    var quiz := SelectRandomQuizByCategory(db.quizzes, category, random);
    if quiz.None? {
      return NoQuiz;
    }
    var id := InsertMatch(db, NewMatch(quiz.value.id, user, opponent.userId, now), user, category);
    r := Paired(id);
  }

  /** joinMatchmaking: refused when the user already waits in this category; otherwise a
      waiting entry stamped `now` is added and pairing is tried once. */
  method JoinMatchmaking(db: Db, user: UserId, category: Category, now: Time, random: real) returns (r: JoinResult)
    requires db.Valid()
    requires 0.0 <= random < 1.0
    modifies db`queue, db`matches, db`nextMatchId
    ensures db.Valid()
    ensures r == AlreadyQueued <==> WaitingExists(old(db.queue), user, category)
    ensures r == AlreadyQueued ==> db.queue == old(db.queue) && db.matches == old(db.matches) && db.nextMatchId == old(db.nextMatchId)
    ensures r != AlreadyQueued ==>
      var queued := old(db.queue) + [QueueEntry(user, category, now, Waiting)];
      (r == NoOpponent <==> NewestOpponent(queued, user, category).None?) &&
      (r == NoQuiz <==> NewestOpponent(queued, user, category).Some? &&
                        SelectRandomQuizByCategory(db.quizzes, category, random).None?) &&
      (!r.Paired? ==> db.queue == queued && db.matches == old(db.matches) && db.nextMatchId == old(db.nextMatchId)) &&
      (r.Paired? ==>
        var opponent := queued[NewestOpponent(queued, user, category).value];
        var quiz := SelectRandomQuizByCategory(db.quizzes, category, random).value;
        r.matchId == old(db.nextMatchId) && db.nextMatchId == old(db.nextMatchId) + 1 &&
        db.matches == old(db.matches)[r.matchId := NewMatch(quiz.id, user, opponent.userId, now)] &&
        db.queue == Restamp(queued, user, category, Matched))
  {
    if WaitingExists(db.queue, user, category) {
      return AlreadyQueued;
    }
    var entry := QueueEntry(user, category, now, Waiting);
    EnqueueKeepsAtMostOneWaiting(db.queue, entry);
    db.queue := db.queue + [entry];
    r := FindMatch(db, user, category, now, random);
  }

  /** deleteMatchmakingQueueEntry: every entry of (user, category) becomes cancelled. */
  method DeleteMatchmakingQueueEntry(db: Db, user: UserId, category: Category)
    requires db.Valid()
    modifies db`queue
    ensures db.Valid()
    ensures db.queue == Restamp(old(db.queue), user, category, Cancelled)
    ensures !WaitingExists(db.queue, user, category)
  {
    RestampLeavesNoWaiting(db.queue, user, category, Cancelled);
    db.queue := Restamp(db.queue, user, category, Cancelled);
  }

  /** After a pairing the opponent's own entry is still waiting: only the joiner's entries
      are updated. */
  lemma OpponentStaysWaiting(queue: seq<QueueEntry>, user: UserId, category: Category)
    requires NewestOpponent(queue, user, category).Some?
    ensures var o := NewestOpponent(queue, user, category).value;
      Restamp(queue, user, category, Matched)[o] == queue[o] &&
      Restamp(queue, user, category, Matched)[o].status == Waiting
  {
  }

  /** Once a user waits in a category, later joins of anyone and status updates of other
      (user, category) pairs keep them waiting, so their next join there is refused; only
      a match or a cancel of their own entries ends that. */
  lemma RejoinRefused(queue: seq<QueueEntry>, user: UserId, category: Category,
                      later: seq<QueueEntry>, otherUser: UserId, otherCategory: Category, s: QueueStatus)
    requires WaitingExists(queue, user, category)
    requires otherUser != user || otherCategory != category
    ensures WaitingExists(queue + later, user, category)
    ensures WaitingExists(Restamp(queue, otherUser, otherCategory, s), user, category)
  {
    var i :| 0 <= i < |queue| && queue[i].userId == user && queue[i].category == category && queue[i].status == Waiting;
    assert (queue + later)[i] == queue[i];
    assert Restamp(queue, otherUser, otherCategory, s)[i] == queue[i];
  }

  /** A join that leaves the user queued without an opponent is refused the next time. */
  lemma QueuedJoinerIsRefused(queue: seq<QueueEntry>, user: UserId, category: Category, now: Time)
    ensures WaitingExists(queue + [QueueEntry(user, category, now, Waiting)], user, category)
  {
    var q := queue + [QueueEntry(user, category, now, Waiting)];
    assert q[|queue|].userId == user && q[|queue|].category == category && q[|queue|].status == Waiting;
  }
}
