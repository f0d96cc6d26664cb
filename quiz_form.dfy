/**
 * Submitting the current authoring form (components/QuizForm/QuizForm.tsx).
 * The creation call is external: its reply is a parameter.
 */
module QuizForm {
  import opened Wrappers
  import opened QuizDraft

  /** The replies of createQuizAction: success, a refusal with an optional message, no reply
      (the creator was not found), or a thrown error. */
  datatype CreateReply = Created | Refused(message: Option<string>) | NoReply | Threw

  const TooFewQuestions := "A quiz must contain at least 6 questions. Please add more questions."
  const CreateFailed := "An error occurred while creating the quiz."
  const Unexpected := "An unexpected error has occurred."

  /** `result?.error || fallback`: a missing or empty message falls back. */
  function MessageOr(message: Option<string>, fallback: string): (m: string)
    ensures m != "" || fallback == ""
    ensures message.Some? && message.value != "" ==> m == message.value
    ensures message.None? || message.value == "" ==> m == fallback
  {
    if message.Some? && message.value != "" then message.value else fallback
  }

  /** onSubmit: fewer than six questions sets the error and never calls createQuizAction;
      otherwise the action is called, and only a success navigates home. The form ends not
      submitting. */
  method OnSubmit(form: FormState, data: Draft, reply: CreateReply) returns (createCalled: bool, navigated: bool)
    modifies form`submitting, form`error
    ensures !form.submitting
    ensures createCalled <==> |data.questions| >= MinQuestions
    ensures !createCalled ==> form.error == Some(TooFewQuestions) && !navigated
    ensures createCalled ==> (navigated <==> reply == Created)
    ensures createCalled ==> form.error == match reply
      case Created => None
      case Refused(message) => Some(MessageOr(message, CreateFailed))
      case NoReply => Some(CreateFailed)
      case Threw => Some(Unexpected)
  {
    form.submitting := true;
    form.error := None;
    if |data.questions| < MinQuestions {
      form.error := Some(TooFewQuestions);
      form.submitting := false;
      return false, false;
    }
    createCalled := true;
    navigated := false;
    match reply {
      case Created =>
        navigated := true;
      case Refused(message) =>
        form.error := Some(MessageOr(message, CreateFailed));
      case NoReply =>
        form.error := Some(CreateFailed);
      case Threw =>
        form.error := Some(Unexpected);
    }
    form.submitting := false;
  }

  /** The form hands onSubmit only data its schema accepted, so the six-question guard never
      fires on that path. */
  lemma GuardUnreachableAfterSchema(data: Draft)
    requires Accepts(data, MinQuestions)
    ensures |data.questions| >= 6
  {
  }
}
