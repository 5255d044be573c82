# Church attendance tracker: authentication core in Dafny

This project models the authentication logic of a small Next.js application for tracking church attendance, and proves properties of that model. The logic lives in four places:

- **Login form.** It validates an email and a password, then submits them. The submission is a demo credential check against `admin@church.com` / `password`.
- **Registration form.** It validates a name, an email, a password and a confirmation, then submits them. There is no credential check.
- **Server-side authentication policy.** It has three parts:
  - a gate that emails a sign-in link only to a stored, verified user and rethrows delivery errors;
  - the `jwt` callback, which rebuilds a token's claims from the stored user when one exists;
  - the `session` callback, which copies the token's claims onto the session's user.
- **Authentication card.** It switches between the two forms. Once a form succeeds, it shows a success message that never goes away.

Everything is written as immutable datatypes and pure functions. The one exception is the regular-expression test, which is a method with a loop. The modules are:

- `Wrappers`: `Option`, standing in for `null` / `undefined`.
- `Text`: ECMAScript whitespace and `trim()`.
- `EmailPattern`: the email check `/\S+@\S+\.\S+/.test(s)`. It has two parts:
  - `Matches`, the declarative meaning: some `@`, with a non-whitespace character before it, is followed by a non-empty non-whitespace run, then a `.`, then a non-whitespace character;
  - `Test`, a one-pass scanner proved equal to `Matches`.
- `Fields`: the per-field checks and messages shared by both forms, and the `Outcome` of a submission call (`Resolved` or `Threw`).
- `Login` and `Register`: each form's `validateForm` and `handleSubmit`. A press of the submit button gives a `Run` with three parts:
  - the state while the call is awaited;
  - the state after the `finally`;
  - the callbacks called, in order.
- `AuthPolicy`: `sendVerificationRequest` and the `jwt` and `session` callbacks. The user store is a map from email to record. The mailer is a function from the message to an optional error message.
- `AuthCard`: the card's mode and success message, what it renders, and how events change it.

A five-character password such as `"wrong"` fails the length rule before any credential check, so the demo email with `"wrong"` is never submitted and never gets "Invalid email or password" (`Login.FiveLetterPasswordNotSubmitted`).

## Model

| member | source | states |
|---|---|---|
| Text.LeadingWs | src/components/auth/register-form.tsx:35 | the count of leading characters trimmed: all of them whitespace, and the next one (if any) not |
| Text.TrailingWs | src/components/auth/register-form.tsx:35 | the count of trailing characters trimmed: all of them whitespace, and the one before (if any) not |
| Text.TrimBounds | src/components/auth/register-form.tsx:35-37 | the slice `trim()` keeps: everything outside it is whitespace, and a non-empty slice starts and ends with non-whitespace |
| Text.Trim | src/components/auth/register-form.tsx:35-37 | the trimmed name is a slice of the input with only whitespace cut from either end; a non-empty result starts and ends with non-whitespace; the result is empty exactly when the input is all whitespace |
| Text.TrimAtLeastTwo | src/components/auth/register-form.tsx:37-38 | the trimmed name has at least 2 characters exactly when two distinct positions hold non-whitespace |
| EmailPattern.Matches | src/components/auth/login-form.tsx:24 | what the unanchored pattern `\S+@\S+\.\S+` accepts: an `@` after a non-whitespace character, a non-empty non-whitespace run, a `.`, then a non-whitespace character; any accepted string has at least 5 characters |
| EmailPattern.Test | src/components/auth/login-form.tsx:24 | the linear scan accepts a string exactly when the unanchored pattern `\S+@\S+\.\S+` matches somewhere in it |
| EmailPattern.OpenStep | src/components/auth/login-form.tsx:24 | reading one more character keeps a valid `@` open exactly when it is non-whitespace, or opens one when it is an `@` after non-whitespace |
| EmailPattern.ArmedStep | src/components/auth/login-form.tsx:24 | at least one non-whitespace character follows an open `@` exactly when the previous state was open and the new character is non-whitespace |
| EmailPattern.DotLastStep | src/components/auth/login-form.tsx:24 | a `.` completes `\S+@\S+\.` exactly when it arrives while an `@` is armed |
| EmailPattern.FoundStep | src/components/auth/login-form.tsx:24 | a whole match is found exactly when one was already found or a non-whitespace character follows a completing `.` |
| EmailPattern.MatchNeedsAtThenDot | src/components/auth/login-form.tsx:24 | every accepted string has an `@` and, at least two positions later, a `.` |
| EmailPattern.AddressMatches | src/components/auth/login-form.tsx:24 | `local@domain.tld` is accepted whenever the parts are non-empty and free of whitespace where the pattern requires it |
| EmailPattern.MatchesInContext | src/components/auth/login-form.tsx:24 | the pattern is unanchored: surrounding text, whitespace included, never stops a matching string from matching |
| Fields.EmailError | src/components/auth/login-form.tsx:22-26 | empty gives exactly "Email is required"; non-empty and not matching gives exactly "Please enter a valid email address"; otherwise no error (the registration form's lines 41-45 are identical) |
| Fields.PasswordError | src/components/auth/login-form.tsx:28-32 | empty gives "Password is required"; 1 to 5 characters gives "Password must be at least 6 characters"; 6 or more gives no error (registration lines 47-51 are identical) |
| Fields.NameError | src/components/auth/register-form.tsx:35-39 | an all-whitespace name gives "Name is required"; one non-whitespace character gives "Name must be at least 2 characters"; two or more give no error |
| Fields.ConfirmError | src/components/auth/register-form.tsx:53-57 | an empty confirmation gives "Please confirm your password"; any other confirmation that differs from the raw password gives "Passwords do not match"; an equal one gives no error |
| Login.Errors.Keys | src/components/auth/login-form.tsx:35 | `Object.keys` of the error object: a field is a key exactly when its message is set, and there are no keys exactly when no message is set |
| Login.ValidateForm | src/components/auth/login-form.tsx:19-36 | both fields are always checked, the general key is absent, and the result is true exactly when no key is set, that is, when the email is non-empty and matches and the password has at least 6 characters |
| Login.HandleSubmit | src/components/auth/login-form.tsx:38-65 | a press on a loading form (button disabled) changes nothing; a submission starts exactly when the form is idle and valid; invalid input shows the new errors and calls nothing; valid input clears errors and sets loading; only the demo credentials call `onSuccess`; other credentials call `onError("Invalid credentials")` with the credentials message; a throw calls `onError("Login failed")` with its message; loading always ends false |
| Login.SubmitKeepsErrorsConsistent | src/components/auth/login-form.tsx:41-64 | a press calls at most one callback; a general error is shown exactly when `onError` was called, and then it is the only key |
| Login.NoSubmitWhileLoading | src/components/auth/login-form.tsx:116 | while a submission is awaited, the disabled button starts nothing and calls nothing |
| Login.EmptyFormErrors | src/__tests__/auth.test.tsx:17-27 | the empty form shows exactly the two "required" messages and submits nothing |
| Login.InvalidEmailMessage | src/__tests__/auth.test.tsx:29-41 | "invalid-email" gets the format message |
| Login.ShortPasswordMessage | src/__tests__/auth.test.tsx:43-57 | "123" gets the length message |
| Login.DemoEmailMatches | src/components/auth/login-form.tsx:53 | the demo email passes the format check |
| Login.DemoLoginSucceeds | src/components/auth/login-form.tsx:53-54 | the demo account calls `onSuccess` once and leaves no error |
| Login.WrongPasswordRefused | src/components/auth/login-form.tsx:55-58 | a valid but wrong password for the demo email gets the credentials message and `onError("Invalid credentials")` |
| Login.FiveLetterPasswordNotSubmitted | src/components/auth/login-form.tsx:28-43 | the demo email with "wrong" is stopped by the length rule before any credential check |
| Register.Errors.Keys | src/components/auth/register-form.tsx:60 | `Object.keys` of the error object: a field is a key exactly when its message is set, and there are no keys exactly when no message is set |
| Register.ValidateForm | src/components/auth/register-form.tsx:27-61 | all four fields are always checked; the result is true exactly when the name has two non-whitespace characters, the email matches, the password has at least 6 characters and the confirmation equals it |
| Register.HandleSubmit | src/components/auth/register-form.tsx:63-86 | a press on a loading form (button disabled) changes nothing; a submission starts exactly when the form is idle and valid; invalid input shows the new errors and calls nothing; valid input clears errors and sets loading; every resolved call succeeds with one `onSuccess`; a throw calls `onError("Registration failed")` with the registration message; loading always ends false |
| Register.ConfirmIndependentOfPassword | src/components/auth/register-form.tsx:47-57 | a too-short password and a different confirmation are both reported by the same press |
| Register.MatchingConfirmOfBadPassword | src/components/auth/register-form.tsx:47-57 | a confirmation equal to a too-short password raises no confirm error, yet the form stays invalid |
| Register.BlankNameIsRequired | src/components/auth/register-form.tsx:35-36 | a whitespace-only name is reported as missing, not as too short |
| Register.SubmitKeepsErrorsConsistent | src/components/auth/register-form.tsx:66-85 | a press calls at most one callback; a general error is shown exactly when `onError` was called, and then it is the only key |
| Register.NoSubmitWhileLoading | src/components/auth/register-form.tsx:175 | while a submission is awaited, the disabled button starts nothing and calls nothing |
| Register.EmptyFormErrors | src/__tests__/auth.test.tsx:71-83 | the empty form shows exactly the four "required" messages and submits nothing |
| Register.OnlyMismatchReported | src/__tests__/auth.test.tsx:85-103 | any registration that is acceptable except for a different, non-empty confirmation gets only "Passwords do not match" |
| AuthPolicy.FindByEmail | lib/auth.ts:40-46 | the lookup finds a record exactly when one is stored under that exact email |
| AuthPolicy.Greeting | lib/email_templates/email_activation.tsx:16 | the message greets the stored name, or "Friend" when there is none |
| AuthPolicy.SendVerificationRequest | lib/auth.ts:38-65 | an unknown or unverified identifier sends nothing and returns normally; a verified one sends exactly one message to the identifier, from the provider address, with subject "Sign in to " followed by the host; the gate throws exactly when the mailer reports an error, with that message |
| AuthPolicy.WithheldLooksDelivered | lib/auth.ts:48-64 | a withheld link completes exactly as an accepted delivery does, so the caller cannot tell them apart |
| AuthPolicy.RecordFor | lib/auth.ts:80-84 | the `jwt` lookup finds a record exactly when the token has an email stored in the store, and it is the record stored under that email |
| AuthPolicy.ClaimsOf | lib/auth.ts:93-98 | the replacement token takes id, name, email and picture (the image) from the record and carries no other claim |
| AuthPolicy.Jwt | lib/auth.ts:79-99 | with a stored record, every claim comes from the record and all other claims are dropped; without one, nothing but the id changes: it takes the provider user's id on first sign-in and stays as it was otherwise |
| AuthPolicy.JwtIgnoresIncomingClaims | lib/auth.ts:80-98 | with a stored record, the result does not depend on the incoming claims or the provider user |
| AuthPolicy.JwtIdempotent | lib/auth.ts:80-98 | when every record is stored under its own email, reconciling again, with no user or the same user, changes nothing |
| AuthPolicy.JwtNotIdempotentWhenMiskeyed | lib/auth.ts:80-98 | without that proviso, a second pass can land on a different record |
| AuthPolicy.SessionFor | lib/auth.ts:69-78 | with a token, the session user's id, name, email and image become the token's id, name, email and picture; without one, the session is unchanged; the expiry is never touched |
| AuthPolicy.SessionShowsStoredProfile | lib/auth.ts:69-98 | after reconciliation, the session user is the stored record's current profile, whatever the session or token held before |
| AuthPolicy.SessionFallsBackToToken | lib/auth.ts:69-91 | without a record, on first sign-in the session user gets the provider's id and the token's other claims |
| AuthCard.Toggled | src/components/auth/auth-card.tsx:69 | the switch always selects the other mode |
| AuthCard.HandleAuthSuccess | src/components/auth/auth-card.tsx:15-29 | success sets a non-empty message: the login message exactly in login mode, the registration message exactly in register mode; the mode is kept |
| AuthCard.HandleAuthError | src/components/auth/auth-card.tsx:31-33 | an error changes no state |
| AuthCard.Title | src/components/auth/auth-card.tsx:38-40 | the title is "Sign In" exactly in login mode and "Create Account" exactly in register mode |
| AuthCard.Subtitle | src/components/auth/auth-card.tsx:41-46 | the subtitle is the dashboard sign-in line exactly in login mode and the get-started line exactly in register mode |
| AuthCard.PromptAsWritten | src/components/auth/auth-card.tsx:65 | the prompt as written is a question in both modes: in register mode "Already have an account?", in login mode "Don" then the six characters `&apos;` then "t have an account?" |
| AuthCard.Prompt | src/components/auth/auth-card.tsx:65 | corrected prompt: the login prompt is "Don't have an account?", no `&` is left in either mode's text, and the register prompt is unchanged |
| AuthCard.PromptDecodesEntity | src/components/auth/auth-card.tsx:65 | the corrected login prompt is the written one with `&apos;` replaced by an apostrophe |
| AuthCard.PromptShowsEntityText | src/components/auth/auth-card.tsx:65 | the login prompt as written carries the six characters `&apos;` instead of an apostrophe |
| AuthCard.SwitchLabel | src/components/auth/auth-card.tsx:72 | the switch button is labelled with the title of the other mode |
| AuthCard.Render | src/components/auth/auth-card.tsx:35-79 | title and subtitle follow the mode; the banner shows exactly when a message is set; otherwise exactly one form is shown, the one matching the mode, with the prompt as written and the switch labelled for the other mode |
| AuthCard.RenderCorrected | src/components/auth/auth-card.tsx:63-74 | corrected view: the same as the rendered view except that the prompt is the decoded one, "Don't have an account?" in login mode, with no `&` left; the register view is unchanged |
| AuthCard.HeadingByMode | src/components/auth/auth-card.tsx:38-46 | two cards show the same title, and the same subtitle, exactly when they are in the same mode |
| AuthCard.InitialView | src/components/auth/auth-card.tsx:12-13 | a fresh card shows "Sign In", its subtitle, the login form, the prompt `Don&apos;t have an account?` as written, and a "Create Account" switch |
| AuthCard.Step | src/components/auth/auth-card.tsx:49-76 | with a message set, no event changes anything; otherwise a click flips the mode, a success does exactly what `handleAuthSuccess` does (the message for the current mode), and an error changes nothing |
| AuthCard.Run | src/components/auth/auth-card.tsx:49-76 | a card with a message never changes; until a success, the only change is the mode, which flips once per click |
| AuthCard.SwitchTwiceRestores | src/components/auth/auth-card.tsx:69 | two clicks return the card to its state |
| AuthCard.SuccessIsTerminal | src/components/auth/auth-card.tsx:49-61 | after the first success, the message is set and no later event changes the card |
| AuthCard.Callbacks | src/components/auth/auth-card.tsx:57-61 | the form's callbacks become card events one for one: `onSuccess` exactly where a success event appears, and `onError(reason)` as an error event with the same reason |
| AuthCard.DemoLoginShowsSuccess | src/components/auth/auth-card.tsx:15-17 | the demo sign-in on a fresh card replaces the form with "Login successful! Redirecting to dashboard..." |

## Left out

- Markup, CSS classes and aria attributes are left out. The model keeps only what the card renders: titles, the banner, which form is shown, and the switch text.
- The field setters (`onChange`) are left out. They only store the typed value, and a submission reads the values as they are.
- The `setTimeout` delays and `console.log` / `console.error` calls are left out. Each submission is one step whose awaited call either resolves or throws.
- `onSuccess` and `onError` are optional props, called as `onSuccess?.()` / `onError?.(…)`. A `Notice` is a call made when the prop is given. When a prop is absent, as in a form rendered on its own, nothing is called, but the form's state changes the same way.
- `Outcome.Threw` stands for the awaited call throwing. The case where an `onSuccess` / `onError` callback itself throws inside the `try` is not modelled.
- React scheduling, unmounting during a submission, and double clicks are left out. "Disabled while loading" is modelled as a guard: a press on a loading form does nothing.
- The NextAuth / Prisma adapter / Google and Email provider configuration (`lib/auth.ts:12-37`) is external configuration and is left out.
- `new URL(url).host` is left out. The host is an input.
- The Resend transport is left out. It is the `mailer` parameter.
- The time-derived `X-Entity-Ref-ID` header is left out.
- A Prisma query that throws is left out. A lookup always returns a record or none.
- AuthPolicy.RecordFor: a token whose email claim is null or undefined finds no record here. Prisma reads `email: null` as "email is null" and would return the first user without an email. It drops an `email: undefined` filter and would return the first user of all. Neither query is modelled.
- AuthPolicy.Jwt: inherits that gap from `RecordFor`. A token with a null or undefined email claim is treated as having no stored record.
- Lookups match the exact string. No case folding is applied, and the code applies none.
- The rest of the email template body is left out. Only the greeting fallback is kept.
- `env.ts`, `next.config.mjs` and `lib/actions/create-user.ts` are left out. They load environment variables, configure the build, and wrap a validation schema that is not part of this model.
- Fields.PasswordError and Fields.NameError count characters as `seq<char>` code points. JavaScript's `length` counts UTF-16 units, which is larger for characters outside the Basic Multilingual Plane.
- Text.IsWs is the ECMAScript WhiteSpace and LineTerminator set as of current Unicode. The general lemmas do not depend on which characters are in it. The demo-account lemmas (`Login.DemoEmailMatches` and the lemmas that use it) need the letters of `admin@church.com` to be non-whitespace.

## Findings

| source | as written | input that shows it | evidently intended | confidence | as-written member | corrected member |
|---|---|---|---|---|---|---|
| src/components/auth/auth-card.tsx:65 | the login prompt `"Don&apos;t have an account?"` is a JavaScript string inside a JSX expression, where character references are not decoded | a fresh card in login mode renders `Don&apos;t have an account?` literally | `Don't have an account?` | high; not executed | AuthCard.PromptShowsEntityText | AuthCard.RenderCorrected |
