/**
 * The registration page of frontend/src/pages/RegisterPage.tsx: when the
 * submit button is enabled, when the password-mismatch warning shows, and
 * how a failed registration is turned into messages.
 */
module Registration {
  import opened Wrappers
  import opened PasswordRules
  import Serializers

  /** `isSubmitDisabled`. */
  function SubmitDisabled(loading: bool, isPasswordValid: bool, password: string, password2: string): (disabled: bool)
    ensures disabled <==> loading || !isPasswordValid || password != password2
  {
    loading || !isPasswordValid || password != password2
  }

  /** The mismatch warning under the confirmation field. */
  function ShowMismatch(password: string, password2: string): (shown: bool)
    ensures shown ==> password != password2
    ensures password == "" || password2 == "" ==> !shown
    ensures password != "" && password2 != "" ==> (shown <==> password != password2)
  {
    password != "" && password2 != "" && password != password2
  }

  /** With the page's own validity flag, an enabled submit means a strong, confirmed password. */
  lemma EnabledSubmitMeansStrongConfirmed(loading: bool, password: string, password2: string)
    requires !SubmitDisabled(loading, IsStrongPassword(password), password, password2)
    ensures password == password2 && IsStrongPassword(password) && IsStrongPassword(password2)
    ensures |password| >= MinLength
  {
  }

  /** Whenever the warning shows, the button is disabled; the converse fails for a weak password. */
  lemma MismatchDisablesSubmit(loading: bool, isPasswordValid: bool, password: string, password2: string)
    requires ShowMismatch(password, password2)
    ensures SubmitDisabled(loading, isPasswordValid, password, password2)
  {
  }

  /**
   * A request sent from an enabled button passes the server's password
   * comparison (UserRegistrationSerializer.validate, on the trimmed
   * fields), and neither password is blank once trimmed.
   */
  lemma EnabledSubmitPassesServerValidate(username: string, email: string, password: string, password2: string, loading: bool)
    requires !SubmitDisabled(loading, IsStrongPassword(password), password, password2)
    ensures Serializers.Validate(Serializers.Cleaned(Serializers.RegistrationInput(username, Some(email), password, password2))).Ok?
    ensures Serializers.Strip(password) != "" && Serializers.Strip(password2) != ""
  {
    var i :| 0 <= i < |password| && IsDigit(password[i]);
    Serializers.BlankIsAllSpace(password);
    assert !Serializers.IsSpace(password[i]);
  }

  // ---------------------------------------------------------------------
  // Failure feedback
  // ---------------------------------------------------------------------

  /**
   * What a failed request carries: no response (or a response whose data
   * is empty or missing), a text body, or a JSON object of field errors.
   */
  datatype ErrorPayload = NoResponse | TextPayload(text: string) | FieldPayload(fields: map<string, seq<string>>)

  const FixFormMessage: string := "Por favor, corrija os erros no formulário."
  const UnexpectedMessage: string := "Ocorreu um erro inesperado. Tente novamente."
  const LoginRoute: string := "/login"
  const RegisteredMessage: string := "Registo bem-sucedido! Faça o login."

  /** The banner message and the per-field errors shown after a failure. */
  datatype Feedback = Feedback(message: string, fieldErrors: map<string, seq<string>>)

  /**
   * The catch block: a non-empty text body is shown as it is; an object
   * becomes the field errors plus the generic message; anything else (no
   * response, or the falsy empty text) gives the unexpected-error message.
   */
  function FeedbackFor(p: ErrorPayload): (f: Feedback)
    ensures f.message != ""
    ensures p.TextPayload? && p.text != "" ==> f == Feedback(p.text, map[])
    ensures p.FieldPayload? ==> f == Feedback(FixFormMessage, p.fields)
    ensures p.NoResponse? || p == TextPayload("") ==> f == Feedback(UnexpectedMessage, map[])
  {
    match p {
      case NoResponse => Feedback(UnexpectedMessage, map[])
      case TextPayload(t) => if t == "" then Feedback(UnexpectedMessage, map[]) else Feedback(t, map[])
      case FieldPayload(fs) => Feedback(FixFormMessage, fs)
    }
  }

  /** The 400 body DRF sends for a failed registration: one message list per reported key. */
  function ServerErrorBody(keys: Serializers.ErrorKeys, message: string): (body: map<string, seq<string>>)
    ensures body.Keys == keys
  {
    map k | k in keys :: [message]
  }

  /**
   * A server rejection shows the generic message and marks exactly the
   * fields the serializer reported: a taken username marks "username" and
   * nothing about email.
   */
  lemma RejectionMarksReportedFields(input: Serializers.RegistrationInput, taken: set<string>, checks: Serializers.FieldChecks, message: string)
    requires Serializers.ValidateRegistration(input, taken, checks).Err?
    ensures var f := FeedbackFor(FieldPayload(ServerErrorBody(Serializers.ValidateRegistration(input, taken, checks).error, message)));
            f.message == FixFormMessage
            && f.fieldErrors.Keys == Serializers.ValidateRegistration(input, taken, checks).error
            && ("email" in f.fieldErrors <==> input.email.None? || !Serializers.EmailAccepted(Serializers.Strip(input.email.value), checks))
  {
    Serializers.RegistrationFieldKeys(input, taken, checks);
    var e := Serializers.ValidateRegistration(input, taken, checks).error;
    var f := FeedbackFor(FieldPayload(ServerErrorBody(e, message)));
    assert f.fieldErrors.Keys == e;
  }

  /** Where the page sends the browser after a success. */
  datatype Navigation = Navigation(route: string, message: string)

  /** The outcome of the `register` request. */
  datatype RegisterOutcome = Registered | Failed(payload: ErrorPayload)

  class RegisterPage {
    var username: string
    var email: string
    var password: string
    var password2: string
    var error: Option<string>
    var fieldErrors: map<string, seq<string>>
    var loading: bool
    /** The validity PasswordInput reports for the current password. */
    var isPasswordValid: bool
    var navigatedTo: Option<Navigation>

    /** The validity flag always matches the current password. */
    ghost predicate Valid()
      reads this
    {
      isPasswordValid == IsStrongPassword(password)
    }

    constructor()
      ensures Valid()
      ensures username == "" && email == "" && password == "" && password2 == ""
      ensures error == None && fieldErrors == map[] && !loading && !isPasswordValid && navigatedTo == None
    {
      username, email, password, password2 := "", "", "", "";
      error := None;
      fieldErrors := map[];
      loading := false;
      isPasswordValid := false;
      navigatedTo := None;
      EmptyIsWeak();
    }

    /** Every `required` input holds something, so the browser lets the form submit. */
    predicate RequiredFilled()
      reads this
    {
      username != "" && email != "" && password != "" && password2 != ""
    }

    /** Typing in the username field. */
    method SetUsername(u: string)
      modifies this
      requires Valid()
      ensures Valid()
      ensures username == u
      ensures email == old(email) && password == old(password) && password2 == old(password2)
      ensures isPasswordValid == old(isPasswordValid)
      ensures error == old(error) && fieldErrors == old(fieldErrors) && loading == old(loading)
      ensures navigatedTo == old(navigatedTo)
    {
      username := u;
    }

    /** Typing in the email field. */
    method SetEmail(e: string)
      modifies this
      requires Valid()
      ensures Valid()
      ensures email == e
      ensures username == old(username) && password == old(password) && password2 == old(password2)
      ensures isPasswordValid == old(isPasswordValid)
      ensures error == old(error) && fieldErrors == old(fieldErrors) && loading == old(loading)
      ensures navigatedTo == old(navigatedTo)
    {
      email := e;
    }

    /** Typing in the password field; PasswordInput reports the new validity. */
    method SetPassword(p: string)
      modifies this
      ensures Valid()
      ensures password == p && isPasswordValid == IsStrongPassword(p)
      ensures username == old(username) && email == old(email) && password2 == old(password2)
      ensures error == old(error) && fieldErrors == old(fieldErrors) && loading == old(loading)
      ensures navigatedTo == old(navigatedTo)
    {
      password := p;
      isPasswordValid := IsStrongPassword(p);
    }

    /** Typing in the confirmation field. */
    method SetPassword2(p: string)
      modifies this
      requires Valid()
      ensures Valid()
      ensures password2 == p
      ensures username == old(username) && email == old(email) && password == old(password)
      ensures error == old(error) && fieldErrors == old(fieldErrors) && loading == old(loading)
      ensures navigatedTo == old(navigatedTo)
    {
      password2 := p;
    }

    /**
     * handleSubmit, with `outcome` standing for the awaited request. The
     * request carries the four fields as typed; success navigates to the
     * login page, failure shows the feedback; loading always ends false.
     */
    method HandleSubmit(outcome: RegisterOutcome) returns (request: Serializers.RegistrationInput)
      modifies this
      requires Valid()
      ensures Valid()
      ensures request == Serializers.RegistrationInput(username, Some(email), password, password2)
      ensures username == old(username) && email == old(email)
      ensures password == old(password) && password2 == old(password2)
      ensures !loading
      ensures outcome.Registered? ==>
        error == None && fieldErrors == map[] && navigatedTo == Some(Navigation(LoginRoute, RegisteredMessage))
      ensures outcome.Failed? ==>
        error == Some(FeedbackFor(outcome.payload).message)
        && fieldErrors == FeedbackFor(outcome.payload).fieldErrors
        && navigatedTo == old(navigatedTo)
    {
      loading := true;
      error := None;
      fieldErrors := map[];
      request := Serializers.RegistrationInput(username, Some(email), password, password2);
      match outcome {
        case Registered =>
          navigatedTo := Some(Navigation(LoginRoute, RegisteredMessage));
        case Failed(payload) =>
          match payload {
            case TextPayload(t) =>
              if t != "" {
                error := Some(t);
              } else {
                error := Some(UnexpectedMessage);
              }
            case FieldPayload(fs) =>
              fieldErrors := fs;
              error := Some(FixFormMessage);
            case NoResponse =>
              error := Some(UnexpectedMessage);
          }
      }
      loading := false;
    }

    /**
     * Pressing the submit button. The browser submits only when the button
     * is enabled, every `required` field is non-empty and the `type="email"`
     * field holds a well-formed address; `emailWellFormed` stands for the
     * browser's verdict on the current email. A request that leaves carries
     * the four fields as typed, passes the server's password comparison and
     * carries a strong password; the page then ends as HandleSubmit leaves it.
     */
    method ClickSubmit(outcome: RegisterOutcome, emailWellFormed: bool) returns (sent: Option<Serializers.RegistrationInput>)
      modifies this
      requires Valid()
      ensures Valid()
      ensures sent.Some? <==> old(!SubmitDisabled(loading, isPasswordValid, password, password2) && RequiredFilled()) && emailWellFormed
      ensures sent.Some? ==> Serializers.Validate(Serializers.Cleaned(sent.value)).Ok? && IsStrongPassword(sent.value.password)
      ensures sent.Some? ==> Serializers.Strip(sent.value.password) != "" && Serializers.Strip(sent.value.password2) != ""
      ensures sent.Some? ==> sent.value == Serializers.RegistrationInput(old(username), Some(old(email)), old(password), old(password2))
      ensures sent.Some? ==> && username == old(username) && email == old(email)
                             && password == old(password) && password2 == old(password2)
                             && !loading
      ensures sent.Some? && outcome.Registered? ==>
        error == None && fieldErrors == map[] && navigatedTo == Some(Navigation(LoginRoute, RegisteredMessage))
      ensures sent.Some? && outcome.Failed? ==>
        error == Some(FeedbackFor(outcome.payload).message)
        && fieldErrors == FeedbackFor(outcome.payload).fieldErrors
        && navigatedTo == old(navigatedTo)
      ensures sent.None? ==> unchanged(this)
    {
      if !SubmitDisabled(loading, isPasswordValid, password, password2) && RequiredFilled() && emailWellFormed {
        EnabledSubmitPassesServerValidate(username, email, password, password2, loading);
        var request := HandleSubmit(outcome);
        sent := Some(request);
      } else {
        sent := None;
      }
    }
  }
}
