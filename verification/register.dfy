/** The registration form: validation of name, email, password and confirmation, and
    the submit handler. */
module Register {
  import opened Wrappers
  import opened Text
  import opened Fields
  import EmailPattern

  const RegistrationFailed := "An error occurred during registration. Please try again."

  /** The keys an error object can carry. */
  datatype Field = NameField | EmailField | PasswordField | ConfirmField | GeneralField

  /** The form's error object; an absent field is a missing key. */
  datatype Errors = Errors(
    name: Option<string>,
    email: Option<string>,
    password: Option<string>,
    confirmPassword: Option<string>,
    general: Option<string>)
  {
    /** `Object.keys(errors)`. */
    function Keys(): (k: set<Field>)
      ensures NameField in k <==> name.Some?
      ensures EmailField in k <==> email.Some?
      ensures PasswordField in k <==> password.Some?
      ensures ConfirmField in k <==> confirmPassword.Some?
      ensures GeneralField in k <==> general.Some?
      ensures k == {} <==> this == NoErrors
    {
      (if name.Some? then {NameField} else {})
      + (if email.Some? then {EmailField} else {})
      + (if password.Some? then {PasswordField} else {})
      + (if confirmPassword.Some? then {ConfirmField} else {})
      + (if general.Some? then {GeneralField} else {})
    }
  }

  const NoErrors := Errors(None, None, None, None, None)

  /** The component's state. */
  datatype Form = Form(
    name: string,
    email: string,
    password: string,
    confirmPassword: string,
    isLoading: bool,
    errors: Errors)

  const Initial := Form("", "", "", "", false, NoErrors)

  /** What `validateForm` leaves behind: the new error object, and its return value. */
  datatype Checked = Checked(errors: Errors, ok: bool)

  /** The registration data passes every check. */
  predicate Acceptable(name: string, email: string, password: string, confirm: string) {
    && (exists i, j :: 0 <= i < j < |name| && !IsWs(name[i]) && !IsWs(name[j]))
    && email != [] && EmailPattern.Matches(email)
    && |password| >= MinPasswordLength
    && confirm == password
  }

  /** All four fields are always checked; each gets at most one message; the form is
      valid exactly when no key was set. */
  function ValidateForm(name: string, email: string, password: string, confirm: string): (r: Checked)
    ensures r.errors.name == NameError(name)
    ensures r.errors.email == EmailError(email)
    ensures r.errors.password == PasswordError(password)
    ensures r.errors.confirmPassword == ConfirmError(password, confirm)
    ensures r.errors.general == None
    ensures r.ok <==> r.errors.Keys() == {}
    ensures r.ok <==> Acceptable(name, email, password, confirm)
  {
    var errors := Errors(NameError(name), EmailError(email), PasswordError(password),
                         ConfirmError(password, confirm), None);
    Checked(errors, errors.name == None && errors.email == None && errors.password == None
                    && errors.confirmPassword == None)
  }

  /** One press of the submit button: `inFlight` is the state while the submission is
      awaited (absent when nothing was submitted), `after` the state once the handler
      has finished, `notices` the callbacks it called, in order. */
  datatype Run = Run(inFlight: Option<Form>, after: Form, notices: seq<Notice>)

  function Check(f: Form): Checked {
    ValidateForm(f.name, f.email, f.password, f.confirmPassword)
  }

  /** `handleSubmit`, with the submission call's outcome as a parameter. There is no
      credential check: a call that resolves always succeeds. The submit button is
      disabled while loading, so a loading form ignores the press. */
  function HandleSubmit(f: Form, outcome: Outcome): (r: Run)
    // fields are never edited by a submission
    ensures r.after.(isLoading := f.isLoading, errors := f.errors) == f
    // a submission starts exactly when the form is idle and valid
    ensures r.inFlight.Some? <==> !f.isLoading && Check(f).ok
    // invalid input: the new errors are shown, nothing is submitted, no callback runs
    ensures !f.isLoading && !Check(f).ok ==> r.after == f.(errors := Check(f).errors) && r.notices == []
    // valid input: errors cleared and loading set before the call is awaited
    ensures r.inFlight.Some? ==> r.inFlight.value == f.(isLoading := true, errors := NoErrors)
    // loading is cleared whatever the outcome
    ensures r.inFlight.Some? ==> !r.after.isLoading
    ensures r.notices == [Succeeded] <==> r.inFlight.Some? && outcome == Resolved
    ensures r.notices == [Succeeded] ==> r.after.errors == NoErrors
    ensures r.notices == [Failed("Registration failed")] <==> r.inFlight.Some? && outcome == Threw
    ensures r.notices == [Failed("Registration failed")] ==>
      r.after.errors == NoErrors.(general := Some(RegistrationFailed))
    ensures r.inFlight.None? ==> r.notices == [] && r.after.isLoading == f.isLoading
    // the button is disabled while loading: a press changes nothing
    ensures f.isLoading ==> r == Run(None, f, [])
  {
    if f.isLoading then Run(None, f, [])
    else
      var checked := Check(f);
      if !checked.ok then Run(None, f.(errors := checked.errors), [])
      else
        var pending := f.(isLoading := true, errors := NoErrors);
        match outcome
        case Threw =>
          Run(Some(pending), pending.(isLoading := false, errors := NoErrors.(general := Some(RegistrationFailed))),
              [Failed("Registration failed")])
        case Resolved =>
          Run(Some(pending), pending.(isLoading := false), [Succeeded])
  }

  /** The confirmation is judged on its own: a too-short password and a different
      confirmation are both reported by the same press. */
  lemma ConfirmIndependentOfPassword(name: string, email: string, password: string, confirm: string)
    requires 0 < |password| < MinPasswordLength
    requires confirm != [] && confirm != password
    ensures ValidateForm(name, email, password, confirm).errors.password == Some(PasswordTooShort)
    ensures ValidateForm(name, email, password, confirm).errors.confirmPassword == Some(ConfirmMismatch)
  {
  }

  /** A matching confirmation is accepted even when the password itself is refused. */
  lemma MatchingConfirmOfBadPassword(name: string, email: string, password: string)
    requires 0 < |password| < MinPasswordLength
    ensures ValidateForm(name, email, password, password).errors.confirmPassword == None
    ensures !ValidateForm(name, email, password, password).ok
  {
  }

  /** A whitespace-only name is reported as missing, not as too short. */
  lemma BlankNameIsRequired(name: string)
    requires forall k :: 0 <= k < |name| ==> IsWs(name[k])
    ensures ValidateForm(name, "", "", "").errors.name == Some(NameRequired)
  {
  }

  /** Each press calls at most one callback, a general error is on screen exactly when
      `onError` was called, and field errors never share the screen with a general one. */
  lemma SubmitKeepsErrorsConsistent(f: Form, outcome: Outcome)
    requires !f.isLoading
    ensures |HandleSubmit(f, outcome).notices| <= 1
    ensures HandleSubmit(f, outcome).after.errors.general.Some? <==>
      exists reason :: Failed(reason) in HandleSubmit(f, outcome).notices
    ensures HandleSubmit(f, outcome).after.errors.general.Some? ==>
      HandleSubmit(f, outcome).after.errors.Keys() == {GeneralField}
  {
    var r := HandleSubmit(f, outcome);
    if r.after.errors.general.Some? {
      assert r.inFlight.Some?;
    }
  }

  /** While a submission is awaited, another press starts nothing. The awaited form is
      the submitted one with loading set and errors cleared, whatever its fields are. */
  lemma NoSubmitWhileLoading(f: Form, next: Outcome)
    ensures HandleSubmit(f.(isLoading := true, errors := NoErrors), next).inFlight.None?
    ensures HandleSubmit(f.(isLoading := true, errors := NoErrors), next).notices == []
  {
  }

  /** Submitting the empty form shows exactly the four "required" messages. */
  lemma EmptyFormErrors()
    ensures HandleSubmit(Initial, Resolved).after.errors
      == Errors(Some(NameRequired), Some(EmailRequired), Some(PasswordRequired), Some(ConfirmRequired), None)
    ensures HandleSubmit(Initial, Resolved).after.errors.Keys()
      == {NameField, EmailField, PasswordField, ConfirmField}
    ensures HandleSubmit(Initial, Resolved).notices == []
  {
    assert IsBlank("");
    var expected := Errors(Some(NameRequired), Some(EmailRequired), Some(PasswordRequired), Some(ConfirmRequired), None);
    assert Check(Initial).errors == expected;
    assert HandleSubmit(Initial, Resolved).after == Initial.(errors := expected);
  }

  /** A registration that is acceptable but for a different confirmation gets the
      mismatch message and nothing else. */
  lemma OnlyMismatchReported(name: string, email: string, password: string, confirm: string)
    requires exists i, j :: 0 <= i < j < |name| && !IsWs(name[i]) && !IsWs(name[j])
    requires email != [] && EmailPattern.Matches(email)
    requires |password| >= MinPasswordLength
    requires confirm != [] && confirm != password
    ensures ValidateForm(name, email, password, confirm).errors
      == NoErrors.(confirmPassword := Some(ConfirmMismatch))
  {
  }
}
