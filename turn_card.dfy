/**
 * The client-side turn state machine of a multiplayer match
 * (components/MultiplayerQuizCard.tsx): where the player's block of questions
 * starts, reloading the round's answers from the server, optimistic answering
 * with rollback, moving on, and when the round summary appears.
 * `perRound` is QUESTIONS_PER_ROUND and `xpPerCorrect` is XP_PER_CORRECT_ANSWER.
 */
module TurnCard {
  import opened Wrappers
  import opened Schema
  import opened Multiplayer
  import opened MatchSummary

  /** A question as the card receives it (its answers only reach the card through clicks). */
  datatype CardQuestion = CardQuestion(id: QuestionId, question: string)

  /** What the card remembers about an answered question. */
  datatype SelectedAnswer = SelectedAnswer(answerId: AnswerId, isCorrect: bool)

  /** The match fields the card reads. */
  datatype MatchView = MatchView(player1Id: UserId, player2Id: UserId, currentTurnPlayer: UserId, roundNumber: int)

  /** A submit awaiting the server: what the handler's closure captured at the click. */
  datatype Submission = Submission(index: int, answerId: AnswerId, isCorrect: bool, countAtClick: nat)

  /** What the card renders. */
  datatype Screen = NoMoreQuestions | RoundSummary | Asking(index: nat)

  /** Whether the viewer with `playerNumber` holds the turn. */
  predicate ViewerHoldsTurn(view: MatchView, playerNumber: int)
  {
    (playerNumber == 2 && view.currentTurnPlayer == view.player2Id) ||
    (playerNumber == 1 && view.currentTurnPlayer == view.player1Id)
  }

  /** The first question of the viewer's block: the round's block of `perRound` questions
      when the viewer holds the turn, the block after it otherwise. */
  function StartingQuestionIndex(view: MatchView, playerNumber: int, perRound: nat): (k: int)
    ensures ViewerHoldsTurn(view, playerNumber) ==> k == (view.roundNumber - 1) * perRound
    ensures !ViewerHoldsTurn(view, playerNumber) ==> k == (view.roundNumber - 1) * perRound + perRound
    ensures view.roundNumber >= 1 ==> k >= 0
  {
    (view.roundNumber - 1) * perRound + (if ViewerHoldsTurn(view, playerNumber) then 0 else perRound)
  }

  /** The match page renders the card only for the turn holder, with player number 1 for
      player1 and 2 otherwise; the card then always starts at the round's first block, so both
      players answer the same block of questions in a round. */
  lemma PageStartsAtRoundBlock(view: MatchView, user: UserId, perRound: nat)
    requires view.currentTurnPlayer == user
    requires user == view.player1Id || user == view.player2Id
    ensures var playerNumber := if view.player1Id == user then 1 else 2;
      StartingQuestionIndex(view, playerNumber, perRound) == (view.roundNumber - 1) * perRound
  {
  }

  /** The block a viewer without the turn would start at is the block the turn holder starts
      at one round later: consecutive rounds advance by one block of `perRound` questions. */
  lemma OffsetBlockIsNextRoundsBlock(view: MatchView, holder: int, other: int, perRound: nat)
    requires ViewerHoldsTurn(view, holder) && !ViewerHoldsTurn(view, other)
    ensures StartingQuestionIndex(view, other, perRound) == StartingQuestionIndex(view, holder, perRound) + perRound
    ensures StartingQuestionIndex(view, other, perRound)
         == StartingQuestionIndex(view.(roundNumber := view.roundNumber + 1), holder, perRound)
  {
    assert (view.roundNumber - 1) * perRound + perRound == view.roundNumber * perRound;
  }

  /** `questions.findIndex(q => q.id === id)`: the first position holding `id`, or -1. */
  function IndexOf(questions: seq<CardQuestion>, id: QuestionId): (k: int)
    ensures -1 <= k < |questions|
    ensures k == -1 <==> forall i :: 0 <= i < |questions| ==> questions[i].id != id
    ensures k >= 0 ==> questions[k].id == id && forall i :: 0 <= i < k ==> questions[i].id != id
  {
    if questions == [] then -1
    else if questions[0].id == id then 0
    else
      var k := IndexOf(questions[1..], id);
      if k == -1 then -1 else k + 1
  }

  /** The map loadPreviousAnswers builds: every server answer whose question is among the
      card's questions is stored at that question's index, in reply order. */
  function Loaded(questions: seq<CardQuestion>, answers: seq<PlayerAnswer>): (m: map<int, SelectedAnswer>)
    ensures forall k :: k in m ==> 0 <= k < |questions|
  {
    if answers == [] then map[]
    else
      var m := Loaded(questions, answers[..|answers| - 1]);
      var last := answers[|answers| - 1];
      var k := IndexOf(questions, last.questionId);
      if k == -1 then m else m[k := SelectedAnswer(last.answerId, last.isCorrect)]
  }

  /** The loaded indices are exactly the indices of the questions some answer refers to:
      answers for questions the card does not have are skipped. */
  lemma {:induction false} LoadedDomain(questions: seq<CardQuestion>, answers: seq<PlayerAnswer>, k: int)
    ensures k in Loaded(questions, answers) <==>
      k != -1 && exists j :: 0 <= j < |answers| && IndexOf(questions, answers[j].questionId) == k
  {
    if answers != [] {
      var prefix := answers[..|answers| - 1];
      var last := |answers| - 1;
      var kl := IndexOf(questions, answers[last].questionId);
      LoadedDomain(questions, prefix, k);
      assert k in Loaded(questions, answers) <==> k in Loaded(questions, prefix) || (k != -1 && k == kl);
      if k != -1 && k in Loaded(questions, prefix) {
        var j :| 0 <= j < |prefix| && IndexOf(questions, prefix[j].questionId) == k;
        assert answers[j] == prefix[j];
      }
      if k != -1 && (exists j :: 0 <= j < |answers| && IndexOf(questions, answers[j].questionId) == k) {
        var j :| 0 <= j < |answers| && IndexOf(questions, answers[j].questionId) == k;
        if j < last {
          assert prefix[j] == answers[j];
        }
      }
    }
  }

  /** The value stored at an index is the last answer in the reply for that question. */
  lemma {:induction false} LoadedLastWins(questions: seq<CardQuestion>, answers: seq<PlayerAnswer>, j: nat)
    requires j < |answers| && IndexOf(questions, answers[j].questionId) != -1
    requires forall l :: j < l < |answers| ==> answers[l].questionId != answers[j].questionId
    ensures var k := IndexOf(questions, answers[j].questionId);
      k in Loaded(questions, answers) && Loaded(questions, answers)[k] == SelectedAnswer(answers[j].answerId, answers[j].isCorrect)
  {
    var prefix := answers[..|answers| - 1];
    var last := answers[|answers| - 1];
    if j < |answers| - 1 {
      assert prefix[j] == answers[j];
      forall l | j < l < |prefix| ensures prefix[l].questionId != prefix[j].questionId {
        assert prefix[l] == answers[l];
      }
      LoadedLastWins(questions, prefix, j);
      assert last.questionId != answers[j].questionId;
      var k := IndexOf(questions, answers[j].questionId);
      assert IndexOf(questions, last.questionId) != k;
    }
  }

  class Card {
    const matchView: MatchView
    const questions: seq<CardQuestion>
    const perRound: nat
    const xpPerCorrect: nat
    var currentQuestionIndex: int
    var selectedAnswers: map<int, SelectedAnswer>
    var roundScore: int
    var answeredCount: nat
    var showRoundSummary: bool
    var isSubmitting: bool
    var isLoading: bool
    var pending: Option<Submission>

    /** The summary effect has run: a full round of answers always shows the summary; and a
        submit is in flight exactly while `isSubmitting` is set. */
    ghost predicate Valid()
      reads this
    {
      (answeredCount >= perRound ==> showRoundSummary) &&
      (isSubmitting <==> pending.Some?)
    }

    /** The initial state, after the summary effect's first run. */
    constructor (matchView: MatchView, playerNumber: int, questions: seq<CardQuestion>, perRound: nat, xpPerCorrect: nat)
      ensures Valid()
      ensures this.matchView == matchView && this.questions == questions
      ensures this.perRound == perRound && this.xpPerCorrect == xpPerCorrect
      ensures currentQuestionIndex == StartingQuestionIndex(matchView, playerNumber, perRound)
      ensures selectedAnswers == map[] && roundScore == 0 && answeredCount == 0
      ensures showRoundSummary == (perRound == 0) && !isSubmitting && isLoading && pending.None?
    {
      this.matchView := matchView;
      this.questions := questions;
      this.perRound := perRound;
      this.xpPerCorrect := xpPerCorrect;
      currentQuestionIndex := StartingQuestionIndex(matchView, playerNumber, perRound);
      selectedAnswers := map[];
      roundScore := 0;
      answeredCount := 0;
      showRoundSummary := 0 >= perRound;
      isSubmitting := false;
      isLoading := true;
      pending := None;
    }

    /** `questions[currentQuestionIndex] || null`. */
    function CurrentQuestion(): (q: Option<CardQuestion>)
      reads this
      ensures q.Some? <==> 0 <= currentQuestionIndex < |questions|
      ensures q.Some? ==> q.value == questions[currentQuestionIndex]
    {
      if 0 <= currentQuestionIndex < |questions| then Some(questions[currentQuestionIndex]) else None
    }

    /** What is rendered: without a current question nothing else matters; then the summary;
        otherwise the current question. */
    function View(): (s: Screen)
      reads this
      ensures s == NoMoreQuestions <==> CurrentQuestion().None?
      ensures s == RoundSummary <==> CurrentQuestion().Some? && showRoundSummary
      ensures s.Asking? ==> s.index == currentQuestionIndex && !showRoundSummary
    {
      if CurrentQuestion().None? then NoMoreQuestions
      else if showRoundSummary then RoundSummary
      else Asking(currentQuestionIndex)
    }

    /** A line of the round summary: the mark and the shortened text of the question at `index`. */
    function SummaryLine(index: int): (row: BreakdownRow)
      reads this
      requires index in selectedAnswers
      ensures row.mark == Mark(selectedAnswers[index].isCorrect)
      ensures row.text == Truncate(if 0 <= index < |questions| then questions[index].question else "")
    {
      var text := if 0 <= index < |questions| then questions[index].question else "";
      BreakdownRow(Mark(selectedAnswers[index].isCorrect), Truncate(text))
    }

    /** loadPreviousAnswers with the server's reply (`None` when the call failed): a non-empty
        reply replaces the answers, the round score and the answered count, and shows the summary
        when a full round was answered; otherwise only loading ends. */
    method LoadPreviousAnswers(reply: Option<RoundAnswers>)
      requires Valid()
      modifies this`selectedAnswers, this`roundScore, this`answeredCount, this`showRoundSummary, this`isLoading
      ensures Valid() && !isLoading
      ensures reply.None? || |reply.value.answers| == 0 ==>
        selectedAnswers == old(selectedAnswers) && roundScore == old(roundScore) &&
        answeredCount == old(answeredCount) && showRoundSummary == old(showRoundSummary)
      ensures reply.Some? && |reply.value.answers| > 0 ==>
        selectedAnswers == Loaded(questions, reply.value.answers) &&
        roundScore == reply.value.roundScore &&
        answeredCount == |reply.value.answers| &&
        showRoundSummary == (old(showRoundSummary) || |reply.value.answers| >= perRound)
    {
      isLoading := true;
      if reply.Some? && |reply.value.answers| > 0 {
        var answers := reply.value.answers;
        var loaded: map<int, SelectedAnswer> := map[];
        var i := 0;
        while i < |answers|
          invariant 0 <= i <= |answers|
          invariant loaded == Loaded(questions, answers[..i])
        {
          var k := IndexOf(questions, answers[i].questionId);
          if k != -1 {
            loaded := loaded[k := SelectedAnswer(answers[i].answerId, answers[i].isCorrect)];
          }
          assert answers[..i + 1][..i] == answers[..i];
          i := i + 1;
        }
        assert answers[..i] == answers;
        selectedAnswers := loaded;
        roundScore := reply.value.roundScore;
        answeredCount := |answers|;
        if |answers| >= perRound {
          showRoundSummary := true;
        }
      }
      isLoading := false;
    }

    /** The part of handleAnswerSelect before its await: unless a submit is running or there
        is no current question, the answer is recorded at the current index, a correct one adds
        the reward at once, and the submit is left in flight. */
    method BeginSubmit(answerId: AnswerId, isCorrect: bool)
      requires Valid()
      modifies this`selectedAnswers, this`roundScore, this`isSubmitting, this`pending
      ensures Valid()
      ensures old(isSubmitting) || old(CurrentQuestion()).None? ==>
        selectedAnswers == old(selectedAnswers) && roundScore == old(roundScore) &&
        isSubmitting == old(isSubmitting) && pending == old(pending)
      ensures !old(isSubmitting) && old(CurrentQuestion()).Some? ==>
        isSubmitting && pending == Some(Submission(currentQuestionIndex, answerId, isCorrect, answeredCount)) &&
        selectedAnswers == old(selectedAnswers)[currentQuestionIndex := SelectedAnswer(answerId, isCorrect)] &&
        roundScore == old(roundScore) + (if isCorrect then xpPerCorrect else 0)
    {
      if isSubmitting || CurrentQuestion().None? {
        return;
      }
      isSubmitting := true;
      pending := Some(Submission(currentQuestionIndex, answerId, isCorrect, answeredCount));
      selectedAnswers := selectedAnswers[currentQuestionIndex := SelectedAnswer(answerId, isCorrect)];
      if isCorrect {
        roundScore := roundScore + xpPerCorrect;
      }
    }

    /** The part of handleAnswerSelect after its await, with the server's verdict: an accepted
        submit sets the count to the one seen at the click plus one; a refused one deletes the
        record at the captured index and takes the reward back from the current score. Either
        way the submit ends, and the summary effect runs. */
    method FinishSubmit(serverAccepts: bool)
      requires Valid()
      modifies this`selectedAnswers, this`roundScore, this`answeredCount, this`showRoundSummary, this`isSubmitting, this`pending
      ensures Valid() && !isSubmitting
      ensures old(pending).None? ==>
        selectedAnswers == old(selectedAnswers) && roundScore == old(roundScore) &&
        answeredCount == old(answeredCount) && showRoundSummary == old(showRoundSummary)
      ensures old(pending).Some? && serverAccepts ==>
        selectedAnswers == old(selectedAnswers) && roundScore == old(roundScore) &&
        answeredCount == old(pending).value.countAtClick + 1 &&
        showRoundSummary == (old(showRoundSummary) || answeredCount >= perRound)
      ensures old(pending).Some? && !serverAccepts ==>
        selectedAnswers == old(selectedAnswers) - {old(pending).value.index} &&
        roundScore == old(roundScore) - (if old(pending).value.isCorrect then xpPerCorrect else 0) &&
        answeredCount == old(answeredCount) && showRoundSummary == old(showRoundSummary)
    {
      if pending.None? {
        return;
      }
      var submission := pending.value;
      if serverAccepts {
        answeredCount := submission.countAtClick + 1;
      } else {
        selectedAnswers := selectedAnswers - {submission.index};
        if submission.isCorrect {
          roundScore := roundScore - xpPerCorrect;
        }
      }
      isSubmitting := false;
      pending := None;
      if answeredCount >= perRound && !showRoundSummary {
        showRoundSummary := true;
      }
    }

    /** handleAnswerSelect run to its end with no other event during the await: BeginSubmit
        then FinishSubmit. An accepted submit counts the answer; a refused one leaves the
        answers without the current index and the score as before. */
    method HandleAnswerSelect(answerId: AnswerId, isCorrect: bool, serverAccepts: bool)
      requires Valid()
      modifies this`selectedAnswers, this`roundScore, this`answeredCount, this`showRoundSummary, this`isSubmitting, this`pending
      ensures Valid()
      ensures old(isSubmitting) || old(CurrentQuestion()).None? ==>
        selectedAnswers == old(selectedAnswers) && roundScore == old(roundScore) && answeredCount == old(answeredCount) &&
        showRoundSummary == old(showRoundSummary) && isSubmitting == old(isSubmitting) && pending == old(pending)
      ensures !old(isSubmitting) && old(CurrentQuestion()).Some? ==> !isSubmitting
      ensures !old(isSubmitting) && old(CurrentQuestion()).Some? && serverAccepts ==>
        selectedAnswers == old(selectedAnswers)[currentQuestionIndex := SelectedAnswer(answerId, isCorrect)] &&
        roundScore == old(roundScore) + (if isCorrect then xpPerCorrect else 0) &&
        answeredCount == old(answeredCount) + 1 &&
        showRoundSummary == (old(showRoundSummary) || answeredCount >= perRound)
      ensures !old(isSubmitting) && old(CurrentQuestion()).Some? && !serverAccepts ==>
        selectedAnswers == old(selectedAnswers) - {currentQuestionIndex} &&
        roundScore == old(roundScore) && answeredCount == old(answeredCount) &&
        showRoundSummary == old(showRoundSummary)
    {
      if isSubmitting || CurrentQuestion().None? {
        return;
      }
      BeginSubmit(answerId, isCorrect);
      FinishSubmit(serverAccepts);
    }

    /** An answer button's click, on the question screen (the only one that renders the
        buttons): ignored while submitting or once the current question is answered; a refused
        submit restores the answers and the score exactly. */
    method ClickAnswer(answerId: AnswerId, isCorrect: bool, serverAccepts: bool)
      requires Valid() && View().Asking?
      modifies this`selectedAnswers, this`roundScore, this`answeredCount, this`showRoundSummary, this`isSubmitting, this`pending
      ensures Valid()
      ensures old(currentQuestionIndex in selectedAnswers) || old(isSubmitting) ==>
        selectedAnswers == old(selectedAnswers) && roundScore == old(roundScore) && answeredCount == old(answeredCount) &&
        showRoundSummary == old(showRoundSummary) && isSubmitting == old(isSubmitting) && pending == old(pending)
      ensures !old(currentQuestionIndex in selectedAnswers) && !old(isSubmitting) ==>
        !isSubmitting &&
        (serverAccepts ==> selectedAnswers == old(selectedAnswers)[currentQuestionIndex := SelectedAnswer(answerId, isCorrect)] &&
                           roundScore == old(roundScore) + (if isCorrect then xpPerCorrect else 0) &&
                           answeredCount == old(answeredCount) + 1 &&
                           showRoundSummary == (old(showRoundSummary) || answeredCount >= perRound)) &&
        (!serverAccepts ==> selectedAnswers == old(selectedAnswers) && roundScore == old(roundScore) &&
                            answeredCount == old(answeredCount) && showRoundSummary == old(showRoundSummary))
    {
      if currentQuestionIndex !in selectedAnswers && !isSubmitting {
        HandleAnswerSelect(answerId, isCorrect, serverAccepts);
        assert !serverAccepts && old(CurrentQuestion()).Some? ==> selectedAnswers == old(selectedAnswers);
      }
    }

    /** The "Next Question" button of the question screen: rendered once loading is over,
        enabled when the current question is answered and no submit is running. A full round
        always shows the summary screen, so from this button the index just advances. */
    method ClickNext()
      requires Valid() && View().Asking?
      modifies this`currentQuestionIndex, this`showRoundSummary
      ensures Valid()
      ensures old(isLoading) || old(currentQuestionIndex !in selectedAnswers) || old(isSubmitting) ==>
        currentQuestionIndex == old(currentQuestionIndex) && showRoundSummary == old(showRoundSummary)
      ensures !old(isLoading) && old(currentQuestionIndex in selectedAnswers) && !old(isSubmitting) ==>
        currentQuestionIndex == old(currentQuestionIndex) + 1 && !showRoundSummary
    {
      if !isLoading && currentQuestionIndex in selectedAnswers && !isSubmitting {
        HandleNextQuestion();
      }
    }

    /** handleNextQuestion: with a full round answered it shows the summary, otherwise it moves
        to the next index. */
    method HandleNextQuestion()
      requires Valid()
      modifies this`currentQuestionIndex, this`showRoundSummary
      ensures Valid()
      ensures old(answeredCount) >= perRound ==> showRoundSummary && currentQuestionIndex == old(currentQuestionIndex)
      ensures old(answeredCount) < perRound ==>
        currentQuestionIndex == old(currentQuestionIndex) + 1 && showRoundSummary == old(showRoundSummary)
    {
      if answeredCount >= perRound {
        showRoundSummary := true;
      } else {
        currentQuestionIndex := currentQuestionIndex + 1;
      }
    }
  }
}
