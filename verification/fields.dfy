/** The per-field checks shared by the login and registration forms, their messages,
    and the shapes of a submission's outcome. */
module Fields {
  import opened Wrappers
  import opened Text
  import EmailPattern

  const NameRequired := "Name is required"
  const NameTooShort := "Name must be at least 2 characters"
  const EmailRequired := "Email is required"
  const EmailInvalid := "Please enter a valid email address"
  const PasswordRequired := "Password is required"
  const PasswordTooShort := "Password must be at least 6 characters"
  const ConfirmRequired := "Please confirm your password"
  const ConfirmMismatch := "Passwords do not match"

  /** The shortest accepted password and the shortest accepted trimmed name. */
  const MinPasswordLength := 6
  const MinNameLength := 2

  /** How the awaited submission call ended: it resolved, or it threw. */
  datatype Outcome = Resolved | Threw

  /** One call of a form's `onSuccess` or `onError(reason)` callback. */
  datatype Notice = Succeeded | Failed(reason: string)

  /** The email field's error. The field is not trimmed. */
  function EmailError(email: string): (r: Option<string>)
    ensures r == Some(EmailRequired) <==> email == []
    ensures r == Some(EmailInvalid) <==> email != [] && !EmailPattern.Matches(email)
    ensures r == None <==> email != [] && EmailPattern.Matches(email)
  {
    if email == [] then Some(EmailRequired)
    else if !EmailPattern.Matches(email) then Some(EmailInvalid)
    else None
  }

  /** The password field's error. The field is not trimmed. */
  function PasswordError(password: string): (r: Option<string>)
    ensures r == Some(PasswordRequired) <==> password == []
    ensures r == Some(PasswordTooShort) <==> 0 < |password| < MinPasswordLength
    ensures r == None <==> |password| >= MinPasswordLength
  {
    if password == [] then Some(PasswordRequired)
    else if |password| < MinPasswordLength then Some(PasswordTooShort)
    else None
  }

  /** The registration name's error, computed on the trimmed name: a name that is
      all whitespace counts as empty, and a name passes exactly when it holds two
      non-whitespace characters. */
  function NameError(name: string): (r: Option<string>)
    ensures r == Some(NameRequired) <==> IsBlank(name)
    ensures r == Some(NameTooShort) <==>
      !IsBlank(name) && !exists i, j :: 0 <= i < j < |name| && !IsWs(name[i]) && !IsWs(name[j])
    ensures r == None <==>
      exists i, j :: 0 <= i < j < |name| && !IsWs(name[i]) && !IsWs(name[j])
  {
    TrimAtLeastTwo(name);
    var trimmed := Trim(name);
    if trimmed == [] then Some(NameRequired)
    else if |trimmed| < MinNameLength then Some(NameTooShort)
    else None
  }

  /** The confirm-password error. It compares the raw strings and looks only at the
      two values, never at the password field's own error. */
  function ConfirmError(password: string, confirm: string): (r: Option<string>)
    ensures r == Some(ConfirmRequired) <==> confirm == []
    ensures r == Some(ConfirmMismatch) <==> confirm != [] && confirm != password
    ensures r == None <==> confirm != [] && confirm == password
  {
    if confirm == [] then Some(ConfirmRequired)
    else if password != confirm then Some(ConfirmMismatch)
    else None
  }
}
