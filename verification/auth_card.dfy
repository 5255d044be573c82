/** The card on the landing page that switches between the login and registration
    forms and, once a form succeeds, shows a success message in their place. */
module AuthCard {
  import opened Fields
  import Login

  datatype Mode = LoginMode | RegisterMode

  /** The card's state; an empty `successMessage` means none is set. */
  datatype Card = Card(mode: Mode, successMessage: string)

  const Initial := Card(LoginMode, "")

  const LoginSuccess := "Login successful! Redirecting to dashboard..."
  const RegisterSuccess := "Account created successfully! You are now logged in."

  /** The mode the switch button selects. */
  function Toggled(m: Mode): (r: Mode)
    ensures r != m
  {
    match m
    case LoginMode => RegisterMode
    case RegisterMode => LoginMode
  }

  /** `handleAuthSuccess`: the message depends on the mode the card is in. */
  function HandleAuthSuccess(c: Card): (r: Card)
    ensures r.mode == c.mode
    ensures r.successMessage != ""
    ensures r.successMessage == LoginSuccess <==> c.mode == LoginMode
    ensures r.successMessage == RegisterSuccess <==> c.mode == RegisterMode
  {
    match c.mode
    case LoginMode => c.(successMessage := LoginSuccess)
    case RegisterMode => c.(successMessage := RegisterSuccess)
  }

  /** `handleAuthError`: the error is only logged. */
  function HandleAuthError(c: Card, error: string): (r: Card)
    ensures r == c
  {
    c
  }

  // ---- what is rendered ----

  datatype FormKind = LoginForm | RegisterForm

  /** The card's content: the success banner, or one form with the switch underneath. */
  datatype Body = Banner(message: string) | Entry(form: FormKind, prompt: string, switchLabel: string)

  datatype View = View(title: string, subtitle: string, body: Body)

  function Title(m: Mode): (t: string)
    ensures t == "Sign In" <==> m == LoginMode
    ensures t == "Create Account" <==> m == RegisterMode
  {
    match m
    case LoginMode => "Sign In"
    case RegisterMode => "Create Account"
  }

  function Subtitle(m: Mode): (s: string)
    ensures s == "Sign in to access your church attendance dashboard" <==> m == LoginMode
    ensures s == "Create your account to get started" <==> m == RegisterMode
  {
    match m
    case LoginMode => "Sign in to access your church attendance dashboard"
    case RegisterMode => "Create your account to get started"
  }

  /** The question above the switch button, as the component writes it: the login
      text sits in a JavaScript string, where `&apos;` is not decoded, so the entity
      text itself reaches the page. */
  function PromptAsWritten(m: Mode): (p: string)
    ensures |p| > 0 && p[|p| - 1] == '?'
    ensures m == LoginMode ==> p == "Don" + "&apos;" + "t have an account?"
    ensures m == RegisterMode ==> p == "Already have an account?"
  {
    match m
    case LoginMode => "Don" + "&apos;" + "t have an account?"
    case RegisterMode => "Already have an account?"
  }

  /** The question above the switch button, with the apostrophe it evidently meant. */
  function Prompt(m: Mode): (p: string)
    ensures forall k :: 0 <= k < |p| ==> p[k] != '&'
    ensures m == RegisterMode ==> p == PromptAsWritten(m)
    ensures m == LoginMode ==> p == "Don" + "'" + "t have an account?"
  {
    match m
    case LoginMode => "Don" + "'" + "t have an account?"
    case RegisterMode => "Already have an account?"
  }

  /** The corrected login prompt is the written one with the entity `&apos;`
      replaced by the apostrophe it names. */
  lemma PromptDecodesEntity()
    ensures PromptAsWritten(LoginMode) == "Don" + "&apos;" + "t have an account?"
    ensures Prompt(LoginMode) == "Don" + "'" + "t have an account?"
  {
  }

  /** The login prompt as written shows the six characters of the entity, not an
      apostrophe. */
  lemma PromptShowsEntityText()
    ensures PromptAsWritten(LoginMode)[3..9] == "&apos;"
    ensures exists k :: 0 <= k < |PromptAsWritten(LoginMode)| && PromptAsWritten(LoginMode)[k] == '&'
  {
    var p := PromptAsWritten(LoginMode);
    assert p == "Don" + "&apos;" + "t have an account?";
    assert p[3] == '&';
  }

  /** The switch button names the other mode. */
  function SwitchLabel(m: Mode): (s: string)
    ensures s == Title(Toggled(m))
  {
    match m
    case LoginMode => "Create Account"
    case RegisterMode => "Sign In"
  }

  /** What the card renders in state `c`. */
  function Render(c: Card): (v: View)
    ensures v.title == Title(c.mode) && v.subtitle == Subtitle(c.mode)
    ensures v.body.Banner? <==> c.successMessage != ""
    ensures v.body.Banner? ==> v.body.message == c.successMessage
    ensures v.body.Entry? ==> (v.body.form == LoginForm <==> c.mode == LoginMode)
    ensures v.body.Entry? ==> v.body.switchLabel == Title(Toggled(c.mode))
    ensures v.body.Entry? ==> v.body.prompt == PromptAsWritten(c.mode)
  {
    var body :=
      if c.successMessage != "" then Banner(c.successMessage)
      else Entry(if c.mode == LoginMode then LoginForm else RegisterForm, PromptAsWritten(c.mode), SwitchLabel(c.mode));
    View(Title(c.mode), Subtitle(c.mode), body)
  }

  /** What the card would render with the login prompt's apostrophe decoded: the same
      view in every other respect, and no `&` left in the prompt. */
  function RenderCorrected(c: Card): (v: View)
    ensures v.body.Entry? <==> Render(c).body.Entry?
    ensures Render(c).body.Entry? ==> v == Render(c).(body := Render(c).body.(prompt := v.body.prompt))
    ensures !Render(c).body.Entry? ==> v == Render(c)
    ensures v.body.Entry? ==> forall k :: 0 <= k < |v.body.prompt| ==> v.body.prompt[k] != '&'
    ensures v.body.Entry? && c.mode == RegisterMode ==> v == Render(c)
    ensures v.body.Entry? ==> v.body.prompt == Prompt(c.mode)
  {
    var v := Render(c);
    if v.body.Entry? then v.(body := v.body.(prompt := Prompt(c.mode))) else v
  }

  /** Title and subtitle depend on the mode alone, and tell the two modes apart. */
  lemma HeadingByMode(c1: Card, c2: Card)
    ensures Render(c1).title == Render(c2).title <==> c1.mode == c2.mode
    ensures Render(c1).subtitle == Render(c2).subtitle <==> c1.mode == c2.mode
  {
    if c1.mode != c2.mode {
      assert Title(LoginMode)[0] == 'S' && Title(RegisterMode)[0] == 'C';
      assert |Subtitle(LoginMode)| != |Subtitle(RegisterMode)|;
    }
  }

  /** The card starts in login mode with no message, showing the login form. */
  lemma InitialView()
    ensures Render(Initial) == View("Sign In", "Sign in to access your church attendance dashboard",
                                    Entry(LoginForm, "Don&apos;t have an account?", "Create Account"))
  {
    assert PromptAsWritten(LoginMode) == "Don&apos;t have an account?";
    assert SwitchLabel(LoginMode) == "Create Account";
  }

  // ---- events ----

  /** What can reach the card: a click on the switch button, or a callback from the
      rendered form. */
  datatype Event = SwitchClicked | FormSucceeded | FormFailed(reason: string)

  /** One event. The switch button and the form exist only while no success message is
      set, so with a message set no event can occur and the state stays as it is. */
  function Step(c: Card, e: Event): (r: Card)
    ensures c.successMessage != "" ==> r == c
    ensures c.successMessage == "" && e == SwitchClicked ==> r == c.(mode := Toggled(c.mode))
    ensures c.successMessage == "" && e == FormSucceeded ==> r == HandleAuthSuccess(c)
    ensures e.FormFailed? ==> r == c
  {
    if c.successMessage != "" then c
    else
      match e
      case SwitchClicked => c.(mode := Toggled(c.mode))
      case FormSucceeded => HandleAuthSuccess(c)
      case FormFailed(reason) => HandleAuthError(c, reason)
  }

  /** The number of switch clicks in `es`. */
  function SwitchCount(es: seq<Event>): nat {
    if es == [] then 0 else (if es[0] == SwitchClicked then 1 else 0) + SwitchCount(es[1..])
  }

  /** `m` switched `n` times. */
  function SwitchedTimes(m: Mode, n: nat): Mode {
    if n % 2 == 0 then m else Toggled(m)
  }

  /** A sequence of events, in order. Once a message is set nothing changes again;
      until a form succeeds, only the mode moves, flipping once per click. */
  function Run(c: Card, es: seq<Event>): (r: Card)
    ensures c.successMessage != "" ==> r == c
    ensures c.successMessage == "" && FormSucceeded !in es ==>
      r == c.(mode := SwitchedTimes(c.mode, SwitchCount(es)))
    decreases |es|
  {
    if es == [] then c else Run(Step(c, es[0]), es[1..])
  }

  /** Two clicks on the switch bring the card back. */
  lemma SwitchTwiceRestores(c: Card)
    ensures Run(c, [SwitchClicked, SwitchClicked]) == c
  {
    assert Run(c, [SwitchClicked, SwitchClicked])
      == Run(Step(Step(c, SwitchClicked), SwitchClicked), []);
  }

  /** After the first success, no later event changes anything. */
  lemma SuccessIsTerminal(c: Card, before: seq<Event>, after: seq<Event>)
    requires c.successMessage == ""
    requires FormSucceeded !in before
    ensures Run(c, before + [FormSucceeded] + after) == Run(c, before + [FormSucceeded])
    ensures Run(c, before + [FormSucceeded]).successMessage != ""
  {
    RunAppend(c, before, [FormSucceeded]);
    RunAppend(c, before + [FormSucceeded], after);
    var mid := Run(c, before);
    assert Run(mid, [FormSucceeded]) == Step(mid, FormSucceeded);
  }

  /** Running `xs + ys` is running `xs`, then `ys`. */
  lemma {:induction false} RunAppend(c: Card, xs: seq<Event>, ys: seq<Event>)
    ensures Run(c, xs + ys) == Run(Run(c, xs), ys)
    decreases |xs|
  {
    if xs == [] {
      assert xs + ys == ys;
    } else {
      assert (xs + ys)[1..] == xs[1..] + ys;
      RunAppend(Step(c, xs[0]), xs[1..], ys);
    }
  }

  /** The form's callbacks, as card events. */
  function Callbacks(notices: seq<Notice>): (es: seq<Event>)
    ensures |es| == |notices|
    ensures forall k :: 0 <= k < |es| ==> (es[k] == FormSucceeded <==> notices[k] == Succeeded)
    ensures forall k :: 0 <= k < |es| && notices[k].Failed? ==> es[k] == FormFailed(notices[k].reason)
  {
    if notices == [] then []
    else
      (match notices[0]
       case Succeeded => [FormSucceeded]
       case Failed(reason) => [FormFailed(reason)]) + Callbacks(notices[1..])
  }

  /** Signing in with the demo account on a fresh card leaves the login success
      message in place of the form. */
  lemma DemoLoginShowsSuccess()
    ensures
      var run := Login.HandleSubmit(Login.Initial.(email := Login.DemoEmail, password := Login.DemoPassword), Resolved);
      Render(Run(Initial, Callbacks(run.notices))).body == Banner(LoginSuccess)
  {
    Login.DemoLoginSucceeds();
  }
}
