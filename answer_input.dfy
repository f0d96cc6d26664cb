/**
 * The "Correct?" checkbox of an answer field (components/QuizForm/AnswerInput.tsx;
 * the older components/QuizForm.tsx has the same handler inline).
 */
module AnswerInput {
  import opened QuizDraft

  /** `form.setValue("questions.q.answers.j.isCorrect", v)`. */
  function SetFlag(questions: seq<DraftQuestion>, q: nat, j: nat, v: bool): (r: seq<DraftQuestion>)
    requires q < |questions| && j < |questions[q].answers|
    ensures |r| == |questions|
  {
    var answers := questions[q].answers;
    questions[q := questions[q].(answers := answers[j := answers[j].(isCorrect := v)])]
  }

  lemma ClearedNothing(answers: seq<DraftAnswer>, keep: nat)
    ensures Cleared(answers, keep, 0) == answers
  {
    assert forall j :: 0 <= j < |answers| ==> Cleared(answers, keep, 0)[j] == answers[j];
  }

  lemma ClearedStep(answers: seq<DraftAnswer>, keep: nat, i: nat)
    requires i < |answers| && i != keep
    ensures Cleared(answers, keep, i + 1) == Cleared(answers, keep, i)[i := answers[i].(isCorrect := false)]
  {
    var x, y := Cleared(answers, keep, i + 1), Cleared(answers, keep, i)[i := answers[i].(isCorrect := false)];
    assert forall j :: 0 <= j < |answers| ==> x[j] == y[j];
  }

  lemma ClearedSkip(answers: seq<DraftAnswer>, keep: nat, i: nat)
    requires i == keep || i >= |answers|
    ensures Cleared(answers, keep, i + 1) == Cleared(answers, keep, i)
  {
    var x, y := Cleared(answers, keep, i + 1), Cleared(answers, keep, i);
    assert forall j :: 0 <= j < |answers| ==> x[j] == y[j];
  }

  /** onCheckedChange: when checked, the other three indices of {0, 1, 2, 3} are set false one by
      one; then the answer's own flag takes the checkbox value. Nothing else changes. */
  method OnCheckedChange(form: FormState, questionIndex: nat, answerIndex: nat, checked: bool)
    requires form.Valid() && questionIndex < |form.questions| && answerIndex < 4
    modifies form`questions
    ensures form.Valid()
    ensures form.questions == old(form.questions)[questionIndex :=
      old(form.questions)[questionIndex].(answers := ToggleCorrect(old(form.questions)[questionIndex].answers, answerIndex, checked))]
  {
    ghost var before := form.questions;
    ghost var answers := before[questionIndex].answers;
    ClearedNothing(answers, answerIndex);
    if checked {
      var i := 0;
      while i < 4
        invariant 0 <= i <= 4
        invariant form.questions == before[questionIndex := before[questionIndex].(answers := Cleared(answers, answerIndex, i))]
      {
        if i != answerIndex {
          ClearedStep(answers, answerIndex, i);
          form.questions := SetFlag(form.questions, questionIndex, i, false);
        } else {
          ClearedSkip(answers, answerIndex, i);
        }
        i := i + 1;
      }
    }
    assert form.questions[questionIndex].answers == Cleared(answers, answerIndex, if checked then 4 else 0);
    form.questions := SetFlag(form.questions, questionIndex, answerIndex, checked);
  }
}
