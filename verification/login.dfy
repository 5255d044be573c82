/** The login form: validation of email and password, and the submit handler with
    its demo credential check. */
module Login {
  import opened Wrappers
  import opened Fields
  import EmailPattern

  const DemoEmail := "admin@church.com"
  const DemoPassword := "password"
  const InvalidCredentials := "Invalid email or password. Please try again."
  const LoginFailed := "An error occurred. Please try again."

  /** The keys an error object can carry. */
  datatype Field = EmailField | PasswordField | GeneralField

  /** The form's error object; an absent field is a missing key. */
  datatype Errors = Errors(email: Option<string>, password: Option<string>, general: Option<string>) {

    /** `Object.keys(errors)`. */
    function Keys(): (k: set<Field>)
      ensures EmailField in k <==> email.Some?
      ensures PasswordField in k <==> password.Some?
      ensures GeneralField in k <==> general.Some?
      ensures k == {} <==> this == NoErrors
    {
      (if email.Some? then {EmailField} else {})
      + (if password.Some? then {PasswordField} else {})
      + (if general.Some? then {GeneralField} else {})
    }
  }

  const NoErrors := Errors(None, None, None)

  /** The component's state. */
  datatype Form = Form(email: string, password: string, isLoading: bool, errors: Errors)

  const Initial := Form("", "", false, NoErrors)

  /** What `validateForm` leaves behind: the new error object, and its return value. */
  datatype Checked = Checked(errors: Errors, ok: bool)

  /** Both fields are always checked; each gets at most one message; the form is
      valid exactly when no key was set. */
  function ValidateForm(email: string, password: string): (r: Checked)
    ensures r.errors.email == EmailError(email)
    ensures r.errors.password == PasswordError(password)
    ensures r.errors.general == None
    ensures r.ok <==> r.errors.Keys() == {}
    ensures r.ok <==> email != [] && EmailPattern.Matches(email) && |password| >= MinPasswordLength
  {
    var errors := Errors(EmailError(email), PasswordError(password), None);
    Checked(errors, errors.email == None && errors.password == None)
  }

  /** One press of the submit button: `inFlight` is the state while the submission is
      awaited (absent when nothing was submitted), `after` the state once the handler
      has finished, `notices` the callbacks it called, in order. */
  datatype Run = Run(inFlight: Option<Form>, after: Form, notices: seq<Notice>)

  /** `handleSubmit`, with the submission call's outcome as a parameter. The submit
      button is disabled while loading, so a loading form ignores the press. */
  function HandleSubmit(f: Form, outcome: Outcome): (r: Run)
    // fields are never edited by a submission
    ensures r.after.email == f.email && r.after.password == f.password
    // a submission starts exactly when the form is idle and valid
    ensures r.inFlight.Some? <==> !f.isLoading && ValidateForm(f.email, f.password).ok
    // invalid input: the new errors are shown, nothing is submitted, no callback runs
    ensures !f.isLoading && !ValidateForm(f.email, f.password).ok ==>
      r.after == f.(errors := ValidateForm(f.email, f.password).errors) && r.notices == []
    // valid input: errors cleared and loading set before the call is awaited
    ensures r.inFlight.Some? ==>
      r.inFlight.value == f.(isLoading := true, errors := NoErrors)
    // loading is cleared whatever the outcome
    ensures r.inFlight.Some? ==> !r.after.isLoading
    // the demo account, and nothing else, succeeds
    ensures r.notices == [Succeeded] <==>
      r.inFlight.Some? && outcome == Resolved && f.email == DemoEmail && f.password == DemoPassword
    ensures r.notices == [Succeeded] ==> r.after.errors == NoErrors
    ensures r.notices == [Failed("Invalid credentials")] <==>
      r.inFlight.Some? && outcome == Resolved && !(f.email == DemoEmail && f.password == DemoPassword)
    ensures r.notices == [Failed("Invalid credentials")] ==>
      r.after.errors == Errors(None, None, Some(InvalidCredentials))
    ensures r.notices == [Failed("Login failed")] <==> r.inFlight.Some? && outcome == Threw
    ensures r.notices == [Failed("Login failed")] ==>
      r.after.errors == Errors(None, None, Some(LoginFailed))
    ensures r.inFlight.None? ==> r.notices == [] && r.after.isLoading == f.isLoading
    // the button is disabled while loading: a press changes nothing
    ensures f.isLoading ==> r == Run(None, f, [])
  {
    if f.isLoading then Run(None, f, [])
    else
      var checked := ValidateForm(f.email, f.password);
      if !checked.ok then Run(None, f.(errors := checked.errors), [])
      else
        var pending := f.(isLoading := true, errors := NoErrors);
        match outcome
        case Threw =>
          Run(Some(pending), pending.(isLoading := false, errors := Errors(None, None, Some(LoginFailed))),
              [Failed("Login failed")])
        case Resolved =>
          if f.email == DemoEmail && f.password == DemoPassword then
            Run(Some(pending), pending.(isLoading := false), [Succeeded])
          else
            Run(Some(pending), pending.(isLoading := false, errors := Errors(None, None, Some(InvalidCredentials))),
                [Failed("Invalid credentials")])
  }

  /** Each press calls at most one callback, a general error is on screen exactly when
      `onError` was called, and field errors never share the screen with a general one. */
  lemma SubmitKeepsErrorsConsistent(f: Form, outcome: Outcome)
    requires !f.isLoading
    ensures |HandleSubmit(f, outcome).notices| <= 1
    ensures HandleSubmit(f, outcome).after.errors.general.Some? <==>
      exists reason :: Failed(reason) in HandleSubmit(f, outcome).notices
    ensures HandleSubmit(f, outcome).after.errors.general.Some? ==>
      HandleSubmit(f, outcome).after.errors.Keys() == {GeneralField}
  {
    var r := HandleSubmit(f, outcome);
    if r.after.errors.general.Some? {
      assert r.inFlight.Some?;
    }
  }

  /** While a submission is awaited, another press starts nothing. */
  lemma NoSubmitWhileLoading(f: Form, outcome: Outcome, next: Outcome)
    requires HandleSubmit(f, outcome).inFlight.Some?
    ensures HandleSubmit(HandleSubmit(f, outcome).inFlight.value, next).inFlight.None?
    ensures HandleSubmit(HandleSubmit(f, outcome).inFlight.value, next).notices == []
  {
  }

  /** Submitting the empty form shows exactly the two "required" messages. */
  lemma EmptyFormErrors()
    ensures HandleSubmit(Initial, Resolved).after.errors
      == Errors(Some(EmailRequired), Some(PasswordRequired), None)
    ensures HandleSubmit(Initial, Resolved).after.errors.Keys() == {EmailField, PasswordField}
    ensures HandleSubmit(Initial, Resolved).notices == []
  {
  }

  /** "invalid-email" is refused with the format message. */
  lemma InvalidEmailMessage(password: string)
    ensures ValidateForm("invalid-email", password).errors.email == Some(EmailInvalid)
  {
    var s := "invalid-email";
    assert forall k :: 0 <= k < |s| ==> s[k] != '@';
  }

  /** "123" is refused with the length message. */
  lemma ShortPasswordMessage()
    ensures ValidateForm("test@example.com", "123").errors.password == Some(PasswordTooShort)
  {
  }

  /** The demo email passes the format check. */
  lemma DemoEmailMatches()
    ensures EmailPattern.Matches(DemoEmail)
  {
    EmailPattern.AddressMatches("admin", "church", "com");
    assert "admin" + "@" + "church" + "." + "com" == DemoEmail;
  }

  /** The demo account signs in: one `onSuccess`, no error. */
  lemma DemoLoginSucceeds()
    ensures HandleSubmit(Initial.(email := DemoEmail, password := DemoPassword), Resolved).notices == [Succeeded]
    ensures HandleSubmit(Initial.(email := DemoEmail, password := DemoPassword), Resolved).after.errors == NoErrors
  {
    DemoEmailMatches();
    var f := Initial.(email := DemoEmail, password := DemoPassword);
    assert ValidateForm(f.email, f.password).ok;
  }

  /** A wrong password for the demo email is refused with the credentials message. */
  lemma WrongPasswordRefused()
    ensures HandleSubmit(Initial.(email := DemoEmail, password := "wrong1"), Resolved).notices
      == [Failed("Invalid credentials")]
    ensures HandleSubmit(Initial.(email := DemoEmail, password := "wrong1"), Resolved).after.errors.general
      == Some(InvalidCredentials)
  {
    DemoEmailMatches();
    var f := Initial.(email := DemoEmail, password := "wrong1");
    assert ValidateForm(f.email, f.password).ok;
    assert f.password != DemoPassword;
  }

  /** A five-letter password never reaches the credential check: the length rule
      stops the press first. */
  lemma FiveLetterPasswordNotSubmitted()
    ensures HandleSubmit(Initial.(email := DemoEmail, password := "wrong"), Resolved).inFlight.None?
    ensures HandleSubmit(Initial.(email := DemoEmail, password := "wrong"), Resolved).after.errors
      == Errors(None, Some(PasswordTooShort), None)
  {
    DemoEmailMatches();
    var f := Initial.(email := DemoEmail, password := "wrong");
    assert ValidateForm(f.email, f.password).errors == Errors(None, Some(PasswordTooShort), None);
  }
}
