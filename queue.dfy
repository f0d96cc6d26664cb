/**
 * The matchmaking queue table as a value: the queries and bulk status updates
 * that lib/actions/matchmaking.ts runs against `matchmaking_queue`, and the
 * random quiz pick over `quizzes`.
 */
module Queue {
  import opened Wrappers
  import opened Schema

  /** Whether some entry of `user` for `category` is still waiting (the pre-insert check). */
  predicate WaitingExists(queue: seq<QueueEntry>, user: UserId, category: Category): (found: bool)
    ensures found <==> exists e :: e in queue && e.userId == user && e.category == category && e.status == Waiting
  {
    exists i :: 0 <= i < |queue| && queue[i].userId == user && queue[i].category == category && queue[i].status == Waiting
  }

  /** At most one waiting entry per (user, category). */
  predicate AtMostOneWaiting(queue: seq<QueueEntry>)
  {
    forall i, j :: 0 <= i < j < |queue| && queue[i].status == Waiting && queue[j].status == Waiting ==>
      queue[i].userId != queue[j].userId || queue[i].category != queue[j].category
  }

  /** The filter of the opponent query: a waiting entry in the category, of another user. */
  predicate IsOpponentFor(e: QueueEntry, user: UserId, category: Category)
  {
    e.category == category && e.status == Waiting && e.userId != user
  }

  /** The opponent query, ordered by `joinedAt` descending, first row: the position of a
      waiting entry of another user in the category that joined last. */
  function NewestOpponent(queue: seq<QueueEntry>, user: UserId, category: Category): (r: Option<nat>)
    ensures r.None? <==> forall i :: 0 <= i < |queue| ==> !IsOpponentFor(queue[i], user, category)
    ensures r.Some? ==> r.value < |queue| && IsOpponentFor(queue[r.value], user, category)
    ensures r.Some? ==> forall i :: 0 <= i < |queue| && IsOpponentFor(queue[i], user, category) ==>
                          queue[i].joinedAt <= queue[r.value].joinedAt
  {
    if queue == [] then None
    else
      var head := IsOpponentFor(queue[0], user, category);
      match NewestOpponent(queue[1..], user, category)
      case None => if head then Some(0) else None
      case Some(i) =>
        if head && queue[0].joinedAt > queue[i + 1].joinedAt then Some(0) else Some(i + 1)
  }

  /** `UPDATE matchmaking_queue SET status = s WHERE userId = user AND category = category`:
      every entry of (user, category) gets status `s`, whatever its status was; the rest are kept. */
  function Restamp(queue: seq<QueueEntry>, user: UserId, category: Category, s: QueueStatus): (r: seq<QueueEntry>)
    ensures |r| == |queue|
    ensures forall i :: 0 <= i < |queue| ==>
      r[i] == if queue[i].userId == user && queue[i].category == category then queue[i].(status := s) else queue[i]
  {
    if queue == [] then []
    else
      var e := queue[0];
      [if e.userId == user && e.category == category then e.(status := s) else e]
        + Restamp(queue[1..], user, category, s)
  }

  /** Running the same status update twice leaves the table as running it once. */
  lemma RestampIdempotent(queue: seq<QueueEntry>, user: UserId, category: Category, s: QueueStatus)
    ensures Restamp(Restamp(queue, user, category, s), user, category, s) == Restamp(queue, user, category, s)
  {
  }

  /** Leaving the waiting state never creates a second waiting entry, and no entry of the
      updated (user, category) is waiting afterwards. */
  lemma RestampLeavesNoWaiting(queue: seq<QueueEntry>, user: UserId, category: Category, s: QueueStatus)
    requires s != Waiting
    requires AtMostOneWaiting(queue)
    ensures AtMostOneWaiting(Restamp(queue, user, category, s))
    ensures !WaitingExists(Restamp(queue, user, category, s), user, category)
  {
  }

  /** Adding a waiting entry for a (user, category) that has none keeps at most one waiting entry per pair. */
  lemma EnqueueKeepsAtMostOneWaiting(queue: seq<QueueEntry>, e: QueueEntry)
    requires AtMostOneWaiting(queue)
    requires !WaitingExists(queue, e.userId, e.category)
    ensures AtMostOneWaiting(queue + [e])
  {
    var q := queue + [e];
    forall i, j | 0 <= i < j < |q| && q[i].status == Waiting && q[j].status == Waiting
      ensures q[i].userId != q[j].userId || q[i].category != q[j].category
    {
      assert q[i] == queue[i];
      if j < |queue| { assert q[j] == queue[j]; }
    }
  }

  /** The quizzes of a category, in table order (`findMany where category`). */
  function QuizzesIn(quizzes: seq<QuizRow>, category: Category): (r: seq<QuizRow>)
    ensures forall z :: z in r <==> z in quizzes && z.category == category
  {
    if quizzes == [] then []
    else
      var rest := QuizzesIn(quizzes[1..], category);
      if quizzes[0].category == category then [quizzes[0]] + rest else rest
  }

  /** `Math.floor(random * length)` for a draw `0 <= random < 1`. */
  function RandomIndex(random: real, length: nat): (k: int)
    requires 0.0 <= random < 1.0
    ensures length > 0 ==> 0 <= k < length
    ensures length == 0 ==> k == 0
  {
    var x := random * length as real;
    FloorBelow(random, length);
    x.Floor
  }

  lemma FloorBelow(random: real, length: nat)
    requires 0.0 <= random < 1.0
    ensures length > 0 ==> 0 <= (random * length as real).Floor < length
    ensures length == 0 ==> (random * length as real).Floor == 0
  {
    var n := length as real;
    var x := random * n;
    if length > 0 {
      assert x < n by { assert n - x == (1.0 - random) * n; }
      assert 0.0 <= x;
      assert x.Floor as real <= x;
      assert x.Floor < length;
    } else {
      assert x == 0.0;
    }
  }

  /** selectRandomQuizByCategory: the quiz at the drawn index among the category's quizzes;
      none exactly when the category has no quiz (the index of an empty list is undefined). */
  function SelectRandomQuizByCategory(quizzes: seq<QuizRow>, category: Category, random: real): (r: Option<QuizRow>)
    requires 0.0 <= random < 1.0
    ensures r.None? <==> forall z :: z in quizzes ==> z.category != category
    ensures r.Some? ==> r.value in quizzes && r.value.category == category
  {
    var inCategory := QuizzesIn(quizzes, category);
    var k := RandomIndex(random, |inCategory|);
    if 0 <= k < |inCategory| then
      assert inCategory[k] in inCategory;
      Some(inCategory[k])
    else None
  }
}
