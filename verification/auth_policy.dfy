/** The server-side policy of the authentication options: the gate in front of the
    magic-link mailer, and the `jwt` and `session` callbacks that reconcile a token's
    claims with the stored user. The user store is a map from email to record (exact
    string match); the mailer is a function from the message to an optional error. */
module AuthPolicy {
  import opened Wrappers

  /** A stored user. `emailVerified` is the verification time, absent while unverified. */
  datatype UserRecord = UserRecord(
    id: string,
    name: Option<string>,
    email: Option<string>,
    image: Option<string>,
    emailVerified: Option<int>)

  /** The user store, keyed by the exact email string. */
  type Store = map<string, UserRecord>

  /** The record stored under `email`, if any. */
  function FindByEmail(store: Store, email: string): (r: Option<UserRecord>)
    ensures r.Some? <==> email in store
    ensures r.Some? ==> r.value == store[email]
  {
    if email in store then Some(store[email]) else None
  }

  /** Every record is stored under its own email. */
  ghost predicate EmailKeyed(store: Store) {
    forall e :: e in store ==> store[e].email == Some(e)
  }

  // ---- sendVerificationRequest ----

  /** The verification message handed to the mail provider. */
  datatype Mail = Mail(from: string, to: string, subject: string, url: string, host: string, greeting: string)

  /** How the gate returned: normally, or by throwing an error with a message. */
  datatype Completion = Returned | Raised(message: string)

  /** What one call of the gate did: the messages it handed to the mailer, in order,
      and how it completed. */
  datatype GateRun = GateRun(sent: seq<Mail>, completion: Completion)

  /** The name the message greets, with the template's fallback. */
  function Greeting(name: Option<string>): (g: string)
    ensures name.Some? ==> g == name.value
    ensures name.None? ==> g == "Friend"
  {
    name.GetOr("Friend")
  }

  /** A verified record is stored under `email`. */
  predicate IsVerified(store: Store, email: string) {
    email in store && store[email].emailVerified.Some?
  }

  /** `sendVerificationRequest` for sign-in email `identifier`, link `url` whose host
      is `host`, and provider sender address `from`. */
  function SendVerificationRequest(
    identifier: string, url: string, host: string, from: string,
    store: Store, mailer: Mail -> Option<string>): (r: GateRun)
    ensures |r.sent| <= 1
    // unknown or unverified: the mailer is never called and the gate returns
    ensures r.sent != [] <==> IsVerified(store, identifier)
    ensures !IsVerified(store, identifier) ==> r.completion == Returned
    // verified: exactly one message, to the identifier, from the provider, naming the host
    ensures r.sent != [] ==>
      && r.sent[0].to == identifier
      && r.sent[0].from == from
      && r.sent[0].subject == "Sign in to " + host
      && r.sent[0].url == url
      && r.sent[0].host == host
      && r.sent[0].greeting == Greeting(store[identifier].name)
    // a delivery error is rethrown with the provider's own message
    ensures r.completion.Raised? <==> r.sent != [] && mailer(r.sent[0]).Some?
    ensures r.completion.Raised? ==> r.completion.message == mailer(r.sent[0]).value
  {
    match FindByEmail(store, identifier)
    case None => GateRun([], Returned)
    case Some(user) =>
      if user.emailVerified.None? then GateRun([], Returned)
      else
        var mail := Mail(from, identifier, "Sign in to " + host, url, host, Greeting(user.name));
        match mailer(mail)
        case Some(message) => GateRun([mail], Raised(message))
        case None => GateRun([mail], Returned)
  }

  /** The caller cannot tell a withheld link from a delivered one: an unknown or
      unverified address completes exactly as a verified address whose message the
      provider accepted. */
  lemma WithheldLooksDelivered(
    identifier: string, url: string, host: string, from: string,
    store: Store, mailer: Mail -> Option<string>, verified: UserRecord)
    requires !IsVerified(store, identifier)
    requires verified.emailVerified.Some?
    requires forall m :: mailer(m) == None
    ensures SendVerificationRequest(identifier, url, host, from, store, mailer).completion
      == SendVerificationRequest(identifier, url, host, from, store[identifier := verified], mailer).completion
  {
    var after := SendVerificationRequest(identifier, url, host, from, store[identifier := verified], mailer);
    assert IsVerified(store[identifier := verified], identifier);
    assert mailer(after.sent[0]) == None;
  }

  // ---- callbacks.jwt ----

  /** A token's claims. `other` holds every claim besides the four the callbacks use. */
  datatype Token = Token(
    id: Option<string>,
    name: Option<string>,
    email: Option<string>,
    picture: Option<string>,
    other: map<string, string>)

  /** The user object the provider passes on first sign-in; only its id is read. */
  datatype ProviderUser = ProviderUser(id: string)

  /** The record for the token's email, if the token carries one. */
  function RecordFor(store: Store, token: Token): (r: Option<UserRecord>)
    ensures r.Some? <==> token.email.Some? && token.email.value in store
    ensures r.Some? ==> r.value == store[token.email.value]
  {
    if token.email.Some? then FindByEmail(store, token.email.value) else None
  }

  /** The token built wholly from a stored record. */
  function ClaimsOf(rec: UserRecord): (t: Token)
    ensures t.id == Some(rec.id) && t.name == rec.name && t.email == rec.email && t.picture == rec.image
    ensures t.other == map[]
  {
    Token(Some(rec.id), rec.name, rec.email, rec.image, map[])
  }

  /** `callbacks.jwt`: the stored record wins when there is one; otherwise only the id
      is patched, and only on first sign-in. */
  function Jwt(token: Token, user: Option<ProviderUser>, store: Store): (r: Token)
    // a record replaces every claim, the incoming ones dropped
    ensures RecordFor(store, token).Some? ==>
      var rec := RecordFor(store, token).value;
      r.id == Some(rec.id) && r.name == rec.name && r.email == rec.email
      && r.picture == rec.image && r.other == map[]
    // without a record nothing but the id can change
    ensures RecordFor(store, token).None? ==> r.(id := token.id) == token
    ensures RecordFor(store, token).None? && user.Some? ==> r.id == Some(user.value.id)
    ensures RecordFor(store, token).None? && user.None? ==> r == token
  {
    match RecordFor(store, token)
    case Some(rec) => ClaimsOf(rec)
    case None =>
      if user.Some? then token.(id := Some(user.value.id)) else token
  }

  /** When a record exists, the result does not depend on the incoming token's other
      claims or on the provider user. */
  lemma JwtIgnoresIncomingClaims(t1: Token, u1: Option<ProviderUser>, t2: Token, u2: Option<ProviderUser>, store: Store)
    requires t1.email == t2.email
    requires RecordFor(store, t1).Some?
    ensures Jwt(t1, u1, store) == Jwt(t2, u2, store)
  {
  }

  /** Reconciling twice against the same store, on a later refresh (no provider user)
      or with the same user again, gives what reconciling once gave, provided every
      record is stored under its own email. */
  lemma JwtIdempotent(token: Token, user: Option<ProviderUser>, again: Option<ProviderUser>, store: Store)
    requires EmailKeyed(store)
    requires again == None || again == user
    ensures Jwt(Jwt(token, user, store), again, store) == Jwt(token, user, store)
  {
    var once := Jwt(token, user, store);
    match RecordFor(store, token)
    case Some(rec) =>
      assert rec == store[token.email.value];
      assert once.email == Some(token.email.value);
      assert RecordFor(store, once) == Some(rec);
    case None =>
      assert once.email == token.email;
  }

  /** The proviso of `JwtIdempotent` is needed: a record filed under an email other
      than its own sends the second pass to a different record. */
  lemma JwtNotIdempotentWhenMiskeyed()
    ensures exists token: Token, store: Store ::
      Jwt(Jwt(token, None, store), None, store) != Jwt(token, None, store)
  {
    var a := UserRecord("1", None, Some("b@x.io"), None, None);
    var b := UserRecord("2", None, Some("b@x.io"), None, None);
    var store := map["a@x.io" := a, "b@x.io" := b];
    var token := Token(None, None, Some("a@x.io"), None, map[]);
    assert Jwt(token, None, store).id == Some("1");
    assert Jwt(Jwt(token, None, store), None, store).id == Some("2");
  }

  // ---- callbacks.session ----

  /** The user part of a session. */
  datatype SessionUser = SessionUser(id: Option<string>, name: Option<string>, email: Option<string>, image: Option<string>)

  datatype Session = Session(user: SessionUser, expires: string)

  /** `callbacks.session`: copy the token's claims onto `session.user`. */
  function SessionFor(token: Option<Token>, session: Session): (r: Session)
    ensures token.None? ==> r == session
    ensures token.Some? ==>
      && r.user.id == token.value.id
      && r.user.name == token.value.name
      && r.user.email == token.value.email
      && r.user.image == token.value.picture
    ensures r.expires == session.expires
  {
    match token
    case None => session
    case Some(t) => session.(user := SessionUser(t.id, t.name, t.email, t.picture))
  }

  /** After reconciliation, a session shows the stored record's current profile,
      whatever the session or the token held before. */
  lemma SessionShowsStoredProfile(token: Token, user: Option<ProviderUser>, store: Store, session: Session)
    requires RecordFor(store, token).Some?
    ensures SessionFor(Some(Jwt(token, user, store)), session).user ==
      var rec := RecordFor(store, token).value;
      SessionUser(Some(rec.id), rec.name, rec.email, rec.image)
  {
  }

  /** Without a record, the session shows the token's own claims, with the provider's
      id on first sign-in. */
  lemma SessionFallsBackToToken(token: Token, user: ProviderUser, store: Store, session: Session)
    requires RecordFor(store, token).None?
    ensures SessionFor(Some(Jwt(token, Some(user), store)), session).user ==
      SessionUser(Some(user.id), token.name, token.email, token.picture)
  {
  }
}
