/**
 * Submitting the older authoring form (components/QuizForm.tsx). It has no
 * six-question guard, and a refused creation still reports success and navigates.
 */
module LegacyQuizForm {
  import opened Wrappers
  import opened QuizDraft
  import opened QuizForm

  const LegacyCreateFailed := "Failed to create quiz"
  const LegacyUnexpected := "An unexpected error occurred"

  /** The older form's initial and appended question: four empty answers without a
      description, only the first marked correct. */
  lemma LegacyDefaultQuestion()
    ensures var q := DefaultQuestion(None);
      q.question == "" && |q.answers| == 4 &&
      (forall j :: 0 <= j < 4 ==> q.answers[j].text == "" && q.answers[j].description == None) &&
      CorrectCount(q.answers) == 1 && q.answers[0].isCorrect
  {
  }

  /** onSubmit of the older form: the action is always called; a refusal or a missing reply
      sets the error, yet the success toast and the navigation home still run; only a thrown
      error stops them. The form ends not submitting. */
  method LegacyOnSubmit(form: FormState, data: Draft, reply: CreateReply) returns (navigated: bool)
    modifies form`submitting, form`error
    ensures !form.submitting
    ensures navigated <==> reply != Threw
    ensures form.error == match reply
      case Created => None
      case Refused(message) => Some(MessageOr(message, LegacyCreateFailed))
      case NoReply => Some(LegacyCreateFailed)
      case Threw => Some(LegacyUnexpected)
  {
    form.submitting := true;
    form.error := None;
    match reply {
      case Created =>
      case Refused(message) =>
        form.error := Some(MessageOr(message, LegacyCreateFailed));
      case NoReply =>
        form.error := Some(LegacyCreateFailed);
      case Threw =>
        form.error := Some(LegacyUnexpected);
    }
    navigated := reply != Threw;
    form.submitting := false;
  }
}
