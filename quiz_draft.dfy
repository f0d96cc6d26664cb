/**
 * A quiz as the authoring forms hold it (components/QuizForm/QuizForm.tsx and the
 * older components/QuizForm.tsx): the zod schema both forms validate with (they
 * differ only in the minimum number of questions), the default question, the
 * exclusive "Correct?" rule, and the form state with its question list.
 * String lengths are counted in characters.
 */
module QuizDraft {
  import opened Wrappers

  datatype DraftAnswer = DraftAnswer(text: string, isCorrect: bool, description: Option<string>)

  datatype DraftQuestion = DraftQuestion(question: string, answers: seq<DraftAnswer>)

  datatype Draft = Draft(title: string, description: string, category: string, questions: seq<DraftQuestion>)

  /** Minimum number of questions of the current form and of the older form. */
  const MinQuestions: nat := 6
  const LegacyMinQuestions: nat := 1

  /** Each question's answers: a text of at least 2 characters; the description is optional
      and nothing is required of the correctness flags. */
  predicate AnswerAccepted(a: DraftAnswer)
  {
    |a.text| >= 2
  }

  /** A question of at least 3 characters with exactly four accepted answers. */
  predicate QuestionAccepted(q: DraftQuestion)
  {
    |q.question| >= 3 && |q.answers| == 4 && forall a :: a in q.answers ==> AnswerAccepted(a)
  }

  /** `quizSchema` with `.min(minQuestions)` on the question list. */
  predicate Accepts(d: Draft, minQuestions: nat): (ok: bool)
    ensures ok ==> |d.questions| >= minQuestions
    ensures ok ==> forall k :: 0 <= k < |d.questions| ==>
      |d.questions[k].question| >= 3 && |d.questions[k].answers| == 4 && forall j :: 0 <= j < 4 ==> |d.questions[k].answers[j].text| >= 2
    ensures ok ==> |d.title| >= 3 && |d.description| >= 10 && |d.category| >= 3
  {
    var ok := |d.title| >= 3 && |d.description| >= 10 && |d.category| >= 3 &&
              (forall q :: q in d.questions ==> QuestionAccepted(q)) &&
              |d.questions| >= minQuestions;
    assert ok ==> forall k :: 0 <= k < |d.questions| ==> QuestionAccepted(d.questions[k]);
    assert forall k, j :: 0 <= k < |d.questions| && 0 <= j < |d.questions[k].answers| ==>
      d.questions[k].answers[j] in d.questions[k].answers;
    ok
  }

  /** Everything the current schema accepts the older one accepts too, but not the reverse:
      a one-question quiz passes only the older schema. */
  lemma SchemasNest(d: Draft, q: DraftQuestion)
    requires QuestionAccepted(q)
    ensures Accepts(d, MinQuestions) ==> Accepts(d, LegacyMinQuestions)
    ensures var one := Draft("Geo", "Capitals of Europe", "Geo", [q]);
      Accepts(one, LegacyMinQuestions) && !Accepts(one, MinQuestions)
  {
  }

  /** The number of answers marked correct. */
  function CorrectCount(answers: seq<DraftAnswer>): (n: nat)
    ensures n <= |answers|
    ensures n == 0 <==> forall j :: 0 <= j < |answers| ==> !answers[j].isCorrect
  {
    if answers == [] then 0 else (if answers[0].isCorrect then 1 else 0) + CorrectCount(answers[1..])
  }

  /** The schema does not look at the correctness flags: a question with no correct answer is
      accepted when its texts are long enough. */
  lemma FlagsUnchecked(q: DraftQuestion)
    requires |q.question| >= 3 && |q.answers| == 4 && forall a :: a in q.answers ==> |a.text| >= 2
    requires forall a :: a in q.answers ==> !a.isCorrect
    ensures QuestionAccepted(q) && CorrectCount(q.answers) == 0
  {
    ZeroCorrect(q.answers);
  }

  lemma {:induction false} ZeroCorrect(answers: seq<DraftAnswer>)
    requires forall a :: a in answers ==> !a.isCorrect
    ensures CorrectCount(answers) == 0
  {
    if answers != [] {
      assert forall a :: a in answers[1..] ==> a in answers;
      ZeroCorrect(answers[1..]);
    }
  }

  /** getDefaultQuestion (description "") and the older form's default (no description):
      an empty question with four empty answers of which only the first is correct. */
  function DefaultQuestion(description: Option<string>): (q: DraftQuestion)
    ensures |q.answers| == 4 && q.answers[0].isCorrect
    ensures forall j :: 1 <= j < 4 ==> !q.answers[j].isCorrect
    ensures CorrectCount(q.answers) == 1
    ensures !QuestionAccepted(q)
  {
    var a := DraftAnswer("", false, description);
    var q := DraftQuestion("", [a.(isCorrect := true), a, a, a]);
    assert CorrectCount(q.answers[3..]) == 0;
    assert CorrectCount(q.answers[2..]) == 0;
    assert CorrectCount(q.answers[1..]) == 0;
    q
  }

  /** The answers after `answers[i]`'s checkbox changes to `checked`: checking clears the flags
      of the other answers among the first four; unchecking touches only answer i. */
  function ToggleCorrect(answers: seq<DraftAnswer>, i: nat, checked: bool): (r: seq<DraftAnswer>)
    requires i < |answers|
    ensures |r| == |answers|
    ensures r[i] == answers[i].(isCorrect := checked)
    ensures forall j :: 0 <= j < |answers| && j != i ==>
      r[j] == if checked && j < 4 then answers[j].(isCorrect := false) else answers[j]
  {
    Cleared(answers, i, if checked then 4 else 0)[i := answers[i].(isCorrect := checked)]
  }

  /** The flags of the answers below `upTo`, other than `keep`, cleared. */
  function Cleared(answers: seq<DraftAnswer>, keep: nat, upTo: nat): (r: seq<DraftAnswer>)
    ensures |r| == |answers|
    ensures forall j :: 0 <= j < |answers| ==>
      r[j] == if j < upTo && j != keep then answers[j].(isCorrect := false) else answers[j]
  {
    seq(|answers|, j requires 0 <= j < |answers| =>
      if j < upTo && j != keep then answers[j].(isCorrect := false) else answers[j])
  }

  /** After checking an answer of a four-answer question it is the only correct one. */
  lemma CheckedIsOnlyCorrect(answers: seq<DraftAnswer>, i: nat)
    requires |answers| == 4 && i < 4
    ensures var r := ToggleCorrect(answers, i, true);
      CorrectCount(r) == 1 && r[i].isCorrect && forall j :: 0 <= j < 4 && j != i ==> !r[j].isCorrect
  {
    var r := ToggleCorrect(answers, i, true);
    CountOfFour(r);
  }

  lemma CountOfFour(a: seq<DraftAnswer>)
    requires |a| == 4
    ensures CorrectCount(a) == (if a[0].isCorrect then 1 else 0) + (if a[1].isCorrect then 1 else 0)
                             + (if a[2].isCorrect then 1 else 0) + (if a[3].isCorrect then 1 else 0)
  {
    assert a[3..][1..] == [];
    assert CorrectCount(a[3..]) == (if a[3].isCorrect then 1 else 0);
    assert a[2..][1..] == a[3..];
    assert CorrectCount(a[2..]) == (if a[2].isCorrect then 1 else 0) + CorrectCount(a[3..]);
    assert a[1..][1..] == a[2..];
    assert CorrectCount(a[1..]) == (if a[1].isCorrect then 1 else 0) + CorrectCount(a[2..]);
  }

  /** Unchecking an answer clears its flag only, so a question can end with no correct answer. */
  lemma UncheckTouchesOnlyIt(answers: seq<DraftAnswer>, i: nat)
    requires i < |answers|
    ensures ToggleCorrect(answers, i, false) == answers[i := answers[i].(isCorrect := false)]
  {
  }

  /** Checking the same answer twice gives the state of checking it once. */
  lemma CheckTwiceIsCheckOnce(answers: seq<DraftAnswer>, i: nat)
    requires i < |answers|
    ensures ToggleCorrect(ToggleCorrect(answers, i, true), i, true) == ToggleCorrect(answers, i, true)
  {
  }

  /** The texts and descriptions of all answers are left as they were. */
  lemma ToggleKeepsTexts(answers: seq<DraftAnswer>, i: nat, checked: bool)
    requires i < |answers|
    ensures forall j :: 0 <= j < |answers| ==>
      ToggleCorrect(answers, i, checked)[j].text == answers[j].text &&
      ToggleCorrect(answers, i, checked)[j].description == answers[j].description
  {
  }

  /** The state of an authoring form: its question field array, the submitting flag and the error. */
  class FormState {
    const defaultDescription: Option<string>
    var questions: seq<DraftQuestion>
    var submitting: bool
    var error: Option<string>

    /** The field array is never empty and every question has the four answer fields the UI renders. */
    ghost predicate Valid()
      reads this
    {
      |questions| >= 1 && forall k :: 0 <= k < |questions| ==> |questions[k].answers| == 4
    }

    /** The form starts with one default question, not submitting and with no error. */
    constructor (defaultDescription: Option<string>)
      ensures Valid() && this.defaultDescription == defaultDescription
      ensures questions == [DefaultQuestion(defaultDescription)]
      ensures !submitting && error == None
    {
      this.defaultDescription := defaultDescription;
      questions := [DefaultQuestion(defaultDescription)];
      submitting := false;
      error := None;
    }

    /** "New Question": append a default question. */
    method AppendQuestion()
      requires Valid()
      modifies this`questions
      ensures Valid()
      ensures questions == old(questions) + [DefaultQuestion(defaultDescription)]
    {
      questions := questions + [DefaultQuestion(defaultDescription)];
    }

    /** Whether the "Remove" button is rendered. */
    predicate RemoveOffered(): (ok: bool)
      reads this
      ensures Valid() ==>
        (ok <==> forall index :: 0 <= index < |questions| ==> |questions[..index] + questions[index + 1..]| >= 1)
    {
      assert |questions| == 1 ==> |questions[..0] + questions[1..]| == 0;
      |questions| > 1
    }

    /** A click on the "Remove" button of question `index`; without the button nothing happens,
        so the list never becomes empty. */
    method ClickRemove(index: nat)
      requires Valid() && index < |questions|
      modifies this`questions
      ensures Valid()
      ensures old(RemoveOffered()) ==> questions == old(questions)[..index] + old(questions)[index + 1..]
      ensures !old(RemoveOffered()) ==> questions == old(questions)
    {
      if RemoveOffered() {
        questions := questions[..index] + questions[index + 1..];
      }
    }
  }
}
