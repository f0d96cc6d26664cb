/**
 * The single-player quiz card (components/QuestionCard.tsx): answering the
 * current question, moving between questions, and the XP of the finished quiz.
 * A question object is identified by its position in the list.
 */
module SoloQuiz {
  import opened Wrappers

  datatype Answer = Answer(text: string, isCorrect: bool)

  datatype Question = Question(question: string, answers: seq<Answer>)

  /** XP per correct answer in single play. */
  const XpPerCorrectAnswer: nat := 15

  /** `question.answers.find(a => a.isCorrect)?.text`: the text of the first answer flagged correct. */
  function CorrectText(answers: seq<Answer>): (t: Option<string>)
    ensures t.None? <==> forall i :: 0 <= i < |answers| ==> !answers[i].isCorrect
    ensures t.Some? ==> exists i :: 0 <= i < |answers| && answers[i].isCorrect && answers[i].text == t.value &&
                                    forall j :: 0 <= j < i ==> !answers[j].isCorrect
  {
    if answers == [] then None
    else if answers[0].isCorrect then Some(answers[0].text)
    else
      var t := CorrectText(answers[1..]);
      assert t.Some? ==> exists i :: 0 <= i < |answers| && answers[i].isCorrect && answers[i].text == t.value &&
                                     forall j :: 0 <= j < i ==> !answers[j].isCorrect by {
        if t.Some? {
          var i :| 0 <= i < |answers[1..]| && answers[1..][i].isCorrect && answers[1..][i].text == t.value &&
                   forall j :: 0 <= j < i ==> !answers[1..][j].isCorrect;
          assert answers[i + 1] == answers[1..][i];
          assert forall j :: 1 <= j < i + 1 ==> answers[j] == answers[1..][j - 1];
        }
      }
      t
  }

  /** Whether `chosen` counts as a correct answer to `q`. */
  predicate Right(chosen: string, q: Question)
  {
    CorrectText(q.answers) == Some(chosen)
  }

  /** The number of answered questions whose recorded answer is right. */
  function CountRight(post: seq<Question>, answered: seq<nat>, selected: map<nat, string>): (n: nat)
    ensures n <= |answered|
  {
    if answered == [] then 0
    else
      var i := answered[0];
      (if i < |post| && i in selected && Right(selected[i], post[i]) then 1 else 0)
        + CountRight(post, answered[1..], selected)
  }

  /** Recording an answer for a question not yet in the list does not change the verdict on the others. */
  lemma {:induction false} CountRightIgnoresOtherKey(post: seq<Question>, answered: seq<nat>, selected: map<nat, string>, i: nat, t: string)
    requires i !in answered
    ensures CountRight(post, answered, selected[i := t]) == CountRight(post, answered, selected)
  {
    if answered != [] {
      CountRightIgnoresOtherKey(post, answered[1..], selected, i, t);
    }
  }

  lemma {:induction false} CountRightAppend(post: seq<Question>, answered: seq<nat>, selected: map<nat, string>, i: nat)
    ensures CountRight(post, answered + [i], selected)
         == CountRight(post, answered, selected) + (if i < |post| && i in selected && Right(selected[i], post[i]) then 1 else 0)
  {
    if answered == [] {
      assert answered + [i] == [i];
    } else {
      assert (answered + [i])[1..] == answered[1..] + [i];
      CountRightAppend(post, answered[1..], selected, i);
    }
  }

  /** No question index occurs twice. */
  predicate Distinct(s: seq<nat>)
  {
    forall i, j :: 0 <= i < j < |s| ==> s[i] != s[j]
  }

  /** The indices occurring in `s`. */
  function Elements(s: seq<nat>): (e: set<nat>)
    ensures forall x :: x in e <==> x in s
  {
    if s == [] then {} else {s[0]} + Elements(s[1..])
  }

  /** The indices below `n`. */
  function Below(n: nat): (e: set<nat>)
    ensures forall x: nat :: x in e <==> x < n
    ensures |e| == n
  {
    if n == 0 then {} else Below(n - 1) + {n - 1}
  }

  lemma {:induction false} DistinctCard(s: seq<nat>)
    requires Distinct(s)
    ensures |Elements(s)| == |s|
  {
    if s != [] {
      DistinctCard(s[1..]);
      assert s[0] !in Elements(s[1..]);
    }
  }

  lemma SubsetCard(a: set<nat>, b: set<nat>)
    requires a <= b
    ensures |a| <= |b|
  {
    assert b == a + (b - a);
  }

  /** A list of distinct indices of a list of length n has at most n entries. */
  lemma DistinctBound(s: seq<nat>, n: nat)
    requires Distinct(s)
    requires forall k :: 0 <= k < |s| ==> s[k] < n
    ensures |s| <= n
  {
    DistinctCard(s);
    SubsetCard(Elements(s), Below(n));
  }

  /** submitQuiz: the XP earned. */
  function QuizXp(correctQuestions: nat): (xp: nat)
    ensures xp == XpPerCorrectAnswer * correctQuestions
  {
    correctQuestions * XpPerCorrectAnswer
  }

  class QuestionCard {
    const post: seq<Question>
    var currentQuestion: nat
    var answeredQuestions: seq<nat>
    var correctQuestions: nat
    var selectedAnswers: map<nat, string>

    /** The index stays on the list; each question is answered at most once, its answer is
        recorded, and the correct count is the number of recorded answers that are right. */
    ghost predicate Valid()
      reads this
    {
      |post| > 0 && currentQuestion < |post| &&
      (forall k :: 0 <= k < |answeredQuestions| ==> answeredQuestions[k] < |post|) &&
      Distinct(answeredQuestions) &&
      (forall i :: i in selectedAnswers <==> i in answeredQuestions) &&
      correctQuestions == CountRight(post, answeredQuestions, selectedAnswers)
    }

    /** Play starts at the first question with nothing answered. The card reads the first
        question while rendering, so an empty list is not accepted. */
    constructor (post: seq<Question>)
      requires |post| > 0
      ensures Valid() && this.post == post
      ensures currentQuestion == 0 && correctQuestions == 0
      ensures answeredQuestions == [] && selectedAnswers == map[]
    {
      this.post := post;
      currentQuestion := 0;
      answeredQuestions := [];
      correctQuestions := 0;
      selectedAnswers := map[];
    }

    /** Whether the answer buttons of the current question are disabled. */
    predicate Answered()
      reads this
    {
      currentQuestion in answeredQuestions
    }

    /** checkAnswer(title): record the chosen text, list the question as answered, and count it
        when it is the text of the first correct answer. */
    method CheckAnswer(title: string)
      requires currentQuestion < |post|
      modifies this`selectedAnswers, this`answeredQuestions, this`correctQuestions
      ensures selectedAnswers == old(selectedAnswers)[currentQuestion := title]
      ensures answeredQuestions == old(answeredQuestions) + [currentQuestion]
      ensures correctQuestions == old(correctQuestions) + (if Right(title, post[currentQuestion]) then 1 else 0)
    {
      selectedAnswers := selectedAnswers[currentQuestion := title];
      answeredQuestions := answeredQuestions + [currentQuestion];
      var correct := CorrectText(post[currentQuestion].answers);
      if correct.Some? && title == correct.value {
        correctQuestions := correctQuestions + 1;
      }
    }

    /** A click on an answer button: a disabled button does nothing, so no question is counted twice. */
    method ClickAnswer(title: string)
      requires Valid()
      modifies this`selectedAnswers, this`answeredQuestions, this`correctQuestions
      ensures Valid()
      ensures old(Answered()) ==>
        selectedAnswers == old(selectedAnswers) &&
        answeredQuestions == old(answeredQuestions) && correctQuestions == old(correctQuestions)
      ensures !old(Answered()) ==>
        selectedAnswers == old(selectedAnswers)[currentQuestion := title] &&
        answeredQuestions == old(answeredQuestions) + [currentQuestion] &&
        correctQuestions == old(correctQuestions) + (if Right(title, post[currentQuestion]) then 1 else 0)
    {
      if !Answered() {
        var i := currentQuestion;
        CountRightIgnoresOtherKey(post, answeredQuestions, selectedAnswers, i, title);
        CountRightAppend(post, answeredQuestions, selectedAnswers[i := title], i);
        CheckAnswer(title);
      }
    }

    /** The "Previous Question" button. */
    method Previous()
      requires Valid()
      modifies this`currentQuestion
      ensures Valid()
      ensures currentQuestion == if old(currentQuestion) > 0 then old(currentQuestion) - 1 else old(currentQuestion)
    {
      if currentQuestion > 0 {
        currentQuestion := currentQuestion - 1;
      }
    }

    /** The "Next Question" button. */
    method Next()
      requires Valid()
      modifies this`currentQuestion
      ensures Valid()
      ensures currentQuestion == if old(currentQuestion) < |post| - 1 then old(currentQuestion) + 1 else old(currentQuestion)
    {
      if currentQuestion < |post| - 1 {
        currentQuestion := currentQuestion + 1;
      }
    }

    /** The XP a submit reports is 15 per correct answer, and at most 15 per question. */
    lemma XpBound()
      requires Valid()
      ensures QuizXp(correctQuestions) <= XpPerCorrectAnswer * |post|
    {
      DistinctBound(answeredQuestions, |post|);
    }
  }
}
