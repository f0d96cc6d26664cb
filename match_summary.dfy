/**
 * The read model of the post-match summary (components/MatchSummaryCard.tsx):
 * whose side the viewer sees, the verdict with JavaScript's comparison of
 * nullable scores, and the per-answer breakdown with truncated question text.
 */
module MatchSummary {
  import opened Wrappers
  import opened Schema

  /** An answer as the summary receives it. */
  datatype AnswerItem = AnswerItem(questionId: QuestionId, isCorrect: bool)

  /** A question of the quiz: its id and its text. */
  datatype QuizQuestion = QuizQuestion(id: QuestionId, question: string)

  /** The match data the card renders; scores may be null. */
  datatype MatchResult = MatchResult(
    player1Id: UserId,
    player1Score: Option<int>,
    player2Score: Option<int>,
    player1Name: string,
    player2Name: string,
    player1Answers: seq<AnswerItem>,
    player2Answers: seq<AnswerItem>,
    questions: seq<QuizQuestion>)

  /** One player's score, name and answers. */
  datatype Side = Side(score: Option<int>, name: string, answers: seq<AnswerItem>)

  datatype Verdict = Tie | Won | Lost

  /** A breakdown line: the ✓/✗ mark and the shown question text. */
  datatype BreakdownRow = BreakdownRow(mark: string, text: string)

  /** What the card shows. */
  datatype Summary = Summary(verdict: Verdict, user: Side, opponent: Side,
                             userRows: seq<BreakdownRow>, opponentRows: seq<BreakdownRow>)

  function Player1Side(r: MatchResult): Side
  {
    Side(r.player1Score, r.player1Name, r.player1Answers)
  }

  function Player2Side(r: MatchResult): Side
  {
    Side(r.player2Score, r.player2Name, r.player2Answers)
  }

  /** The viewer's side and the opponent's: player1's side exactly when the viewer is player1,
      player2's side for anyone else, the opponent always the other side. */
  function Perspective(r: MatchResult, userId: UserId): (sides: (Side, Side))
    ensures userId == r.player1Id ==> sides == (Player1Side(r), Player2Side(r))
    ensures userId != r.player1Id ==> sides == (Player2Side(r), Player1Side(r))
  {
    var isPlayer1 := userId == r.player1Id;
    (if isPlayer1 then Player1Side(r) else Player2Side(r),
     if isPlayer1 then Player2Side(r) else Player1Side(r))
  }

  /** JavaScript's numeric conversion of a nullable score in `>`: null is 0. */
  function AsNumber(score: Option<int>): int
  {
    match score
    case None => 0
    case Some(n) => n
  }

  /** `isResultTie` is strict equality (null only equals null); `didUserWin` is `>` with null as 0. */
  function Judge(userScore: Option<int>, opponentScore: Option<int>): (v: Verdict)
    ensures v == Tie <==> userScore == opponentScore
    ensures v == Won <==> userScore != opponentScore && AsNumber(userScore) > AsNumber(opponentScore)
    ensures v == Lost <==> userScore != opponentScore && AsNumber(userScore) <= AsNumber(opponentScore)
  {
    var didUserWin := AsNumber(userScore) > AsNumber(opponentScore);
    var isResultTie := userScore == opponentScore;
    if isResultTie then Tie else if didUserWin then Won else Lost
  }

  /** For two different numeric scores, the two players see opposite verdicts. */
  lemma OppositeVerdicts(a: int, b: int)
    requires a != b
    ensures Judge(Some(a), Some(b)) == Won <==> Judge(Some(b), Some(a)) == Lost
    ensures Judge(Some(a), Some(b)) != Tie
  {
  }

  /** Null scores: two nulls tie, a positive score beats null, and 0 against null is
      a loss from both sides because 0 and null are not strictly equal and neither is greater. */
  lemma NullScores(n: int)
    requires n > 0
    ensures Judge(None, None) == Tie
    ensures Judge(Some(n), None) == Won && Judge(None, Some(n)) == Lost
    ensures Judge(Some(0), None) == Lost && Judge(None, Some(0)) == Lost
  {
  }

  /** substring(0, 50) followed by "..." when the text is longer than 50 characters. */
  function Truncate(text: string): (shown: string)
    ensures |text| <= 50 ==> shown == text
    ensures |text| > 50 ==> shown == text[..50] + "..."
  {
    var cut := if |text| < 50 then |text| else 50;
    text[..cut] + (if |text| > 50 then "..." else "")
  }

  /** The shown text is never longer than 53 characters and always starts with the
      text's first (up to) 50 characters. */
  lemma TruncateShape(text: string)
    ensures |Truncate(text)| <= 53
    ensures var n := if |text| < 50 then |text| else 50; Truncate(text)[..n] == text[..n]
  {
  }

  /** `quiz.questions.find(q => q.id === id)?.question || ""`. */
  function QuestionTextOf(questions: seq<QuizQuestion>, id: QuestionId): (text: string)
    ensures (forall q :: q in questions ==> q.id != id) ==> text == ""
    ensures forall i :: (0 <= i < |questions| && questions[i].id == id &&
                         forall j :: 0 <= j < i ==> questions[j].id != id) ==> text == questions[i].question
  {
    if questions == [] then ""
    else if questions[0].id == id then questions[0].question
    else QuestionTextOf(questions[1..], id)
  }

  function Mark(isCorrect: bool): string
  {
    if isCorrect then "✓" else "✗"
  }

  /** renderAnswerBreakdown: one row per answer, in order. */
  function Breakdown(answers: seq<AnswerItem>, questions: seq<QuizQuestion>): (rows: seq<BreakdownRow>)
    ensures |rows| == |answers|
    ensures forall i :: 0 <= i < |answers| ==>
      rows[i] == BreakdownRow(Mark(answers[i].isCorrect), Truncate(QuestionTextOf(questions, answers[i].questionId)))
  {
    if answers == [] then []
    else
      [BreakdownRow(Mark(answers[0].isCorrect), Truncate(QuestionTextOf(questions, answers[0].questionId)))]
        + Breakdown(answers[1..], questions)
  }

  /** The whole card for viewer `userId`. */
  function Summarize(r: MatchResult, userId: UserId): (s: Summary)
    ensures s.verdict == Judge(s.user.score, s.opponent.score)
    ensures {s.user, s.opponent} == {Player1Side(r), Player2Side(r)}
    ensures s.user == (if userId == r.player1Id then Player1Side(r) else Player2Side(r))
    ensures s.userRows == Breakdown(s.user.answers, r.questions)
    ensures s.opponentRows == Breakdown(s.opponent.answers, r.questions)
    ensures |s.userRows| == |s.user.answers| && |s.opponentRows| == |s.opponent.answers|
  {
    var (user, opponent) := Perspective(r, userId);
    Summary(Judge(user.score, opponent.score), user, opponent,
            Breakdown(user.answers, r.questions), Breakdown(opponent.answers, r.questions))
  }

  /** A viewer who is not player1, participant or not, sees exactly what player2 sees. */
  lemma UnknownViewerSeesPlayer2Side(r: MatchResult, player2Id: UserId, viewer: UserId)
    requires viewer != r.player1Id && player2Id != r.player1Id
    ensures Summarize(r, viewer) == Summarize(r, player2Id)
  {
  }

  /** With different numeric scores, the player1 view and the player2 view give opposite
      win/loss verdicts. */
  lemma ViewsDisagree(r: MatchResult, player2Id: UserId, a: int, b: int)
    requires player2Id != r.player1Id
    requires r.player1Score == Some(a) && r.player2Score == Some(b) && a != b
    ensures Summarize(r, r.player1Id).verdict == Won <==> Summarize(r, player2Id).verdict == Lost
    ensures Summarize(r, r.player1Id).verdict != Tie
  {
    OppositeVerdicts(a, b);
  }
}
