/**
 * The match engine's server actions (lib/actions/multiplayer.ts): submitting an
 * answer to the ledger and scoring it, reading a player's answers of a round,
 * and ending a turn with the round and completion rules. `maxRounds` is the
 * MAX_ROUNDS constant of the deployment.
 */
module Multiplayer {
  import opened Wrappers
  import opened Schema
  import opened Ledger
  import opened Store

  /** The errors the actions throw. */
  datatype ActionError = MatchNotFound | NotAuthorized | NotYourTurn

  /** What getPlayerAnswers returns on success. */
  datatype RoundAnswers = RoundAnswers(answers: seq<PlayerAnswer>, roundScore: nat)

  /** The score update of a fresh submit: 15 points to the submitter's side when correct. */
  function Credit(m: Match, user: UserId, isCorrect: bool): (r: Match)
    ensures r.(player1Score := m.player1Score, player2Score := m.player2Score) == m
    ensures r.player1Score + r.player2Score == m.player1Score + m.player2Score + (if isCorrect then PointsPerCorrectAnswer else 0)
    ensures user == m.player1Id ==> r.player2Score == m.player2Score
    ensures user != m.player1Id ==> r.player1Score == m.player1Score
  {
    if !isCorrect then m
    else if m.player1Id == user then m.(player1Score := m.player1Score + PointsPerCorrectAnswer)
    else m.(player2Score := m.player2Score + PointsPerCorrectAnswer)
  }

  /** Scoring a fresh row of a player of its match keeps every score equal to 15 times that
      player's correct rows. */
  lemma CreditKeepsScores(matches: map<MatchId, Match>, ledger: seq<PlayerAnswer>, a: PlayerAnswer)
    requires ScoresMatchLedger(matches, ledger)
    requires a.matchId in matches && WellFormedMatch(matches[a.matchId]) && IsPlayer(matches[a.matchId], a.userId)
    ensures ScoresMatchLedger(matches[a.matchId := Credit(matches[a.matchId], a.userId, a.isCorrect)], ledger + [a])
  {
    var ms := matches[a.matchId := Credit(matches[a.matchId], a.userId, a.isCorrect)];
    var l := ledger + [a];
    forall id | id in ms
      ensures ms[id].player1Score == PointsPerCorrectAnswer * Correct(OfPlayer(l, id, ms[id].player1Id))
      ensures ms[id].player2Score == PointsPerCorrectAnswer * Correct(OfPlayer(l, id, ms[id].player2Id))
    {
      CorrectCountAppend(ledger, a, id, ms[id].player1Id);
      CorrectCountAppend(ledger, a, id, ms[id].player2Id);
    }
  }

  /** submitMultiplayerAnswer: checks, in order, that the match exists, that the caller plays in
      it and holds the turn. The reply is then `{ success: true }` whether or not the key was
      already in the ledger: a stored key changes nothing; otherwise one row is appended and a
      correct answer adds 15 to the caller's score. */
  method SubmitMultiplayerAnswer(db: Db, user: UserId, matchId: MatchId, questionId: QuestionId,
                                 answerId: AnswerId, isCorrect: bool, roundNumber: int, now: Time)
    returns (r: Result<(), ActionError>)
    requires db.Valid()
    modifies db`ledger, db`matches
    ensures db.Valid()
    ensures r == Failure(MatchNotFound) <==> matchId !in old(db.matches)
    ensures r == Failure(NotAuthorized) <==> matchId in old(db.matches) && !IsPlayer(old(db.matches)[matchId], user)
    ensures r == Failure(NotYourTurn) <==>
      matchId in old(db.matches) && IsPlayer(old(db.matches)[matchId], user) && old(db.matches)[matchId].currentTurnPlayer != user
    ensures r.Success? <==> matchId in old(db.matches) && old(db.matches)[matchId].currentTurnPlayer == user
    ensures r.Failure? || FindByKey(old(db.ledger), AnswerKey(matchId, user, questionId, roundNumber)).Some? ==>
      db.ledger == old(db.ledger) && db.matches == old(db.matches)
    ensures r.Success? && FindByKey(old(db.ledger), AnswerKey(matchId, user, questionId, roundNumber)).None? ==>
      db.ledger == old(db.ledger) + [PlayerAnswer(matchId, user, questionId, answerId, isCorrect, roundNumber, now)] &&
      db.matches == old(db.matches)[matchId := Credit(old(db.matches)[matchId], user, isCorrect)]
  {
    if matchId !in db.matches {
      return Failure(MatchNotFound);
    }
    var m := db.matches[matchId];
    if m.player1Id != user && m.player2Id != user {
      return Failure(NotAuthorized);
    }
    if m.currentTurnPlayer != user {
      return Failure(NotYourTurn);
    }
    var found := FindByKey(db.ledger, AnswerKey(matchId, user, questionId, roundNumber));
    if found.Some? {
      return Success(());
    }
    var row := PlayerAnswer(matchId, user, questionId, answerId, isCorrect, roundNumber, now);
    assert KeyOf(row) == AnswerKey(matchId, user, questionId, roundNumber);
    AppendFreshKey(db.ledger, row);
    CreditKeepsScores(db.matches, db.ledger, row);
    db.ledger := db.ledger + [row];
    db.matches := db.matches[matchId := Credit(m, user, isCorrect)];
    r := Success(());
  }

  /** getPlayerAnswers: the caller's rows of a round in a match they play, with their score. */
  function GetPlayerAnswers(matches: map<MatchId, Match>, ledger: seq<PlayerAnswer>, user: UserId,
                            matchId: MatchId, roundNumber: int): (r: Result<RoundAnswers, ActionError>)
    ensures r == Failure(MatchNotFound) <==> matchId !in matches
    ensures r == Failure(NotAuthorized) <==> matchId in matches && !IsPlayer(matches[matchId], user)
    ensures r.Success? <==> matchId in matches && IsPlayer(matches[matchId], user)
    ensures r.Success? ==> forall a :: a in r.value.answers <==>
      a in ledger && a.matchId == matchId && a.userId == user && a.roundNumber == roundNumber
    ensures r.Success? ==> forall a :: multiset(r.value.answers)[a] ==
                                      (if a.matchId == matchId && a.userId == user && a.roundNumber == roundNumber then multiset(ledger)[a] else 0)
    ensures r.Success? ==> r.value.roundScore == PointsPerCorrectAnswer * Correct(r.value.answers)
  {
    if matchId !in matches then Failure(MatchNotFound)
    else if !IsPlayer(matches[matchId], user) then Failure(NotAuthorized)
    else
      var answers := OfRound(ledger, matchId, user, roundNumber);
      Success(RoundAnswers(answers, RoundScore(answers)))
  }

  /** The number of distinct questions of a quiz (`countDistinct(questions.id)`). */
  function QuestionCount(questions: seq<QuestionRow>, quizId: QuizId): (n: nat)
    ensures n == 0 <==> forall q :: q in questions ==> q.quizId != quizId
  {
    var ids := set q | q in questions && q.quizId == quizId :: q.id;
    assert forall q :: q in questions && q.quizId == quizId ==> q.id in ids;
    |ids|
  }

  /** The player who is not holding the turn. */
  function NextPlayer(m: Match): UserId
  {
    if m.currentTurnPlayer == m.player1Id then m.player2Id else m.player1Id
  }

  /** The update endPlayerTurn makes: the turn passes to the other player, the round advances
      only when player2 ends a turn, and the match completes at time `now` when the new round
      passes `maxRounds` or the next player has answered as many distinct questions as the quiz has. */
  function NextTurn(m: Match, totalQuestions: nat, answeredByNext: nat, maxRounds: int, now: Time): (r: Match)
    ensures r.(currentTurnPlayer := m.currentTurnPlayer, roundNumber := m.roundNumber,
               status := m.status, completedAt := m.completedAt) == m
    ensures WellFormedMatch(m) ==> WellFormedMatch(r) && r.currentTurnPlayer != m.currentTurnPlayer
    ensures r.roundNumber == m.roundNumber + 1 <==> m.currentTurnPlayer == m.player2Id
    ensures r.roundNumber == m.roundNumber <==> m.currentTurnPlayer != m.player2Id
    ensures r.roundNumber > maxRounds || answeredByNext >= totalQuestions ==>
      r.status == Completed && r.completedAt == Some(now)
    ensures !(r.roundNumber > maxRounds || answeredByNext >= totalQuestions) ==>
      r.status == m.status && r.completedAt == m.completedAt
  {
    var newRound := if m.currentTurnPlayer == m.player2Id then m.roundNumber + 1 else m.roundNumber;
    var shouldEnd := newRound > maxRounds || answeredByNext >= totalQuestions;
    m.(currentTurnPlayer := NextPlayer(m),
       roundNumber := newRound,
       status := if shouldEnd then Completed else m.status,
       completedAt := if shouldEnd then Some(now) else m.completedAt)
  }

  /** Replacing a match by one with the same players and scores keeps the store consistent. */
  lemma ReplaceKeepsConsistency(queue: seq<QueueEntry>, matches: map<MatchId, Match>, next: MatchId,
                                ledger: seq<PlayerAnswer>, id: MatchId, m: Match)
    requires Consistent(queue, matches, next, ledger)
    requires id in matches && WellFormedMatch(m)
    requires m.player1Id == matches[id].player1Id && m.player2Id == matches[id].player2Id
    requires m.player1Score == matches[id].player1Score && m.player2Score == matches[id].player2Score
    ensures Consistent(queue, matches[id := m], next, ledger)
  {
    var ms := matches[id := m];
    forall k | k in ms
      ensures ms[k].player1Score == PointsPerCorrectAnswer * Correct(OfPlayer(ledger, k, ms[k].player1Id))
      ensures ms[k].player2Score == PointsPerCorrectAnswer * Correct(OfPlayer(ledger, k, ms[k].player2Id))
    {
    }
    assert ScoresMatchLedger(ms, ledger);
  }

  /** endPlayerTurn: fails when the match is missing or the caller does not hold the turn;
      otherwise stores NextTurn of the match, counting the quiz's questions and the next
      player's distinct answered questions in this match. */
  method EndPlayerTurn(db: Db, user: UserId, matchId: MatchId, maxRounds: int, now: Time)
    returns (r: Result<Match, ActionError>)
    requires db.Valid()
    modifies db`matches
    ensures db.Valid()
    ensures r == Failure(MatchNotFound) <==> matchId !in old(db.matches)
    ensures r == Failure(NotYourTurn) <==> matchId in old(db.matches) && old(db.matches)[matchId].currentTurnPlayer != user
    ensures r.Success? <==> matchId in old(db.matches) && old(db.matches)[matchId].currentTurnPlayer == user
    ensures r.Failure? ==> db.matches == old(db.matches)
    ensures r.Success? ==>
      var m := old(db.matches)[matchId];
      r.value == NextTurn(m, QuestionCount(db.questions, m.quizId),
                          |AnsweredQuestions(db.ledger, matchId, NextPlayer(m))|, maxRounds, now) &&
      db.matches == old(db.matches)[matchId := r.value]
  {
    if matchId !in db.matches {
      return Failure(MatchNotFound);
    }
    var m := db.matches[matchId];
    if m.currentTurnPlayer != user {
      return Failure(NotYourTurn);
    }
    var next := NextPlayer(m);
    var total := QuestionCount(db.questions, m.quizId);
    var answered := |AnsweredQuestions(db.ledger, matchId, next)|;
    var updated := NextTurn(m, total, answered, maxRounds, now);
    ReplaceKeepsConsistency(db.queue, db.matches, db.nextMatchId, db.ledger, matchId, updated);
    db.matches := db.matches[matchId := updated];
    r := Success(updated);
  }

  /** A full round is player1's turn followed by player2's: two turn ends starting with
      player1 holding the turn give the turn back to player1 one round later. */
  lemma RoundIsTwoTurns(m: Match, t1: nat, a1: nat, t2: nat, a2: nat, maxRounds: int, now1: Time, now2: Time)
    requires WellFormedMatch(m) && m.currentTurnPlayer == m.player1Id
    ensures var after := NextTurn(NextTurn(m, t1, a1, maxRounds, now1), t2, a2, maxRounds, now2);
      after.currentTurnPlayer == m.player1Id && after.roundNumber == m.roundNumber + 1
  {
  }
}
