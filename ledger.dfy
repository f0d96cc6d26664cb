/**
 * The answer ledger (`player_answers`): an append-only sequence of rows, the key
 * that makes a row unique, and the queries the match engine runs over it.
 */
module Ledger {
  import opened Wrappers
  import opened Schema

  /** (match, user, question, round): a player answers a question at most once per round. */
  datatype AnswerKey = AnswerKey(matchId: MatchId, userId: UserId, questionId: QuestionId, roundNumber: int)

  function KeyOf(a: PlayerAnswer): AnswerKey
  {
    AnswerKey(a.matchId, a.userId, a.questionId, a.roundNumber)
  }

  /** No two rows of the ledger share a key. */
  predicate UniqueKeys(ledger: seq<PlayerAnswer>)
  {
    forall i, j :: 0 <= i < j < |ledger| ==> KeyOf(ledger[i]) != KeyOf(ledger[j])
  }

  /** `findFirst` on the key: the position of the first row with key `k`, if any. */
  function FindByKey(ledger: seq<PlayerAnswer>, k: AnswerKey): (r: Option<nat>)
    ensures r.None? <==> forall i :: 0 <= i < |ledger| ==> KeyOf(ledger[i]) != k
    ensures r.Some? ==> r.value < |ledger| && KeyOf(ledger[r.value]) == k
    ensures r.Some? ==> forall i :: 0 <= i < r.value ==> KeyOf(ledger[i]) != k
  {
    if ledger == [] then None
    else if KeyOf(ledger[0]) == k then Some(0)
    else match FindByKey(ledger[1..], k)
      case None => None
      case Some(i) => Some(i + 1)
  }

  /** The rows of `user` in match `m`, in ledger order. */
  function OfPlayer(ledger: seq<PlayerAnswer>, m: MatchId, user: UserId): (r: seq<PlayerAnswer>)
    ensures forall a :: a in r <==> a in ledger && a.matchId == m && a.userId == user
    ensures |r| <= |ledger|
  {
    if ledger == [] then []
    else
      var rest := OfPlayer(ledger[1..], m, user);
      if ledger[0].matchId == m && ledger[0].userId == user then [ledger[0]] + rest else rest
  }

  /** The rows of `user` in match `m` for round `round`, in ledger order (`findMany`). */
  function OfRound(ledger: seq<PlayerAnswer>, m: MatchId, user: UserId, round: int): (r: seq<PlayerAnswer>)
    ensures forall a :: a in r <==> a in ledger && a.matchId == m && a.userId == user && a.roundNumber == round
    ensures forall a :: multiset(r)[a] ==
                        (if a.matchId == m && a.userId == user && a.roundNumber == round then multiset(ledger)[a] else 0)
    ensures |r| <= |ledger|
  {
    if ledger == [] then []
    else
      var rest := OfRound(ledger[1..], m, user, round);
      assert ledger == [ledger[0]] + ledger[1..];
      if ledger[0].matchId == m && ledger[0].userId == user && ledger[0].roundNumber == round
      then [ledger[0]] + rest else rest
  }

  /** The number of correct rows in `rows`. */
  function Correct(rows: seq<PlayerAnswer>): (n: nat)
    ensures n <= |rows|
  {
    if rows == [] then 0 else (if rows[0].isCorrect then 1 else 0) + Correct(rows[1..])
  }

  /** The `reduce` of getPlayerAnswers: 15 points for every correct row. */
  function RoundScore(rows: seq<PlayerAnswer>): (score: nat)
    ensures score == PointsPerCorrectAnswer * Correct(rows)
    ensures score <= PointsPerCorrectAnswer * |rows|
  {
    if rows == [] then 0
    else (if rows[0].isCorrect then PointsPerCorrectAnswer else 0) + RoundScore(rows[1..])
  }

  /** The distinct questions `user` has answered in match `m`, over all rounds
      (`countDistinct(playerAnswers.questionId)` counts this set). */
  function AnsweredQuestions(ledger: seq<PlayerAnswer>, m: MatchId, user: UserId): (answered: set<QuestionId>)
    ensures forall q :: q in answered <==> exists i :: 0 <= i < |ledger| && ledger[i].matchId == m &&
                                                      ledger[i].userId == user && ledger[i].questionId == q
  {
    set a | a in ledger && a.matchId == m && a.userId == user :: a.questionId
  }

  lemma {:induction false} CorrectConcat(x: seq<PlayerAnswer>, y: seq<PlayerAnswer>)
    ensures Correct(x + y) == Correct(x) + Correct(y)
  {
    if x == [] {
      assert x + y == y;
    } else {
      assert (x + y)[1..] == x[1..] + y;
      CorrectConcat(x[1..], y);
    }
  }

  /** Appending a row extends a player's rows by that row exactly when it is theirs. */
  lemma {:induction false} OfPlayerAppend(ledger: seq<PlayerAnswer>, a: PlayerAnswer, m: MatchId, user: UserId)
    ensures OfPlayer(ledger + [a], m, user)
         == OfPlayer(ledger, m, user) + (if a.matchId == m && a.userId == user then [a] else [])
  {
    if ledger == [] {
      assert ledger + [a] == [a];
    } else {
      assert (ledger + [a])[1..] == ledger[1..] + [a];
      OfPlayerAppend(ledger[1..], a, m, user);
    }
  }

  /** A player's correct-answer count grows by one exactly when the appended row is a correct row of theirs. */
  lemma CorrectCountAppend(ledger: seq<PlayerAnswer>, a: PlayerAnswer, m: MatchId, user: UserId)
    ensures Correct(OfPlayer(ledger + [a], m, user))
         == Correct(OfPlayer(ledger, m, user)) + (if a.matchId == m && a.userId == user && a.isCorrect then 1 else 0)
  {
    OfPlayerAppend(ledger, a, m, user);
    var extra := if a.matchId == m && a.userId == user then [a] else [];
    CorrectConcat(OfPlayer(ledger, m, user), extra);
    assert Correct(extra) == (if a.matchId == m && a.userId == user && a.isCorrect then 1 else 0) by {
      if extra != [] { assert extra[1..] == []; }
    }
  }

  /** A match with no rows in the ledger gives every player zero correct answers. */
  lemma {:induction false} CorrectCountAbsent(ledger: seq<PlayerAnswer>, m: MatchId, user: UserId)
    requires forall a :: a in ledger ==> a.matchId != m
    ensures Correct(OfPlayer(ledger, m, user)) == 0
  {
    if ledger != [] {
      assert forall a :: a in ledger[1..] ==> a in ledger;
      CorrectCountAbsent(ledger[1..], m, user);
    }
  }

  /** Appending a row whose key is absent keeps the keys unique, and the row is then found by its key. */
  lemma AppendFreshKey(ledger: seq<PlayerAnswer>, a: PlayerAnswer)
    requires UniqueKeys(ledger)
    requires FindByKey(ledger, KeyOf(a)).None?
    ensures UniqueKeys(ledger + [a])
    ensures FindByKey(ledger + [a], KeyOf(a)) == Some(|ledger|)
  {
    var l := ledger + [a];
    var k := KeyOf(a);
    assert forall i :: 0 <= i < |ledger| ==> KeyOf(ledger[i]) != k;
    forall i, j | 0 <= i < j < |l| ensures KeyOf(l[i]) != KeyOf(l[j]) {
      assert l[i] == ledger[i];
      if j < |ledger| { assert l[j] == ledger[j]; }
    }
    var r := FindByKey(l, k);
    assert KeyOf(l[|ledger|]) == k;
    assert r.Some?;
    forall i | 0 <= i < |ledger| ensures KeyOf(l[i]) != k { assert l[i] == ledger[i]; }
  }
}
