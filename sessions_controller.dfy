/**
 * `SessionsController.store` of app/controllers/sessions_controller.ts: login.
 * The identifiers are lower-cased, the identifier combination is checked, the
 * credentials are verified for the email or else the username, and a token
 * with every ability is created for 7 days or 2 hours.
 */
module SessionsController {
  import opened Wrappers
  import opened Text
  import opened Vine
  import opened SessionValidator
  import opened Stores

  /** The reply of a login request. */
  datatype Outcome =
    | ValidationFailed(errors: seq<FieldError>)
    | Replied(http: int, status: string)
    | InvalidCredentials
    | SessionCreated(http: int, status: string, token: Token)

  const MISSING_IDENTIFIER := Replied(400, "e_missing_identifier")
  const MULTIPLE_IDENTIFIERS := Replied(400, "e_multiple_identifiers")

  const LONG_LIFETIME := "7 days"
  const SHORT_LIFETIME := "2 hours"

  /** What the controller does with a validated payload before touching a store. */
  datatype Plan =
    | Reject(reply: Outcome)
    | Verify(identifier: Option<string>, password: string, expiresIn: string)

  /** JavaScript truthiness of an optional string: present and non-empty. */
  predicate Truthy(s: Option<string>) {
    s.Some? && s.value != ""
  }

  /** `s?.toLowerCase()`: absence is kept, and a present value keeps its length and has no capitals. */
  function LowerOpt(s: Option<string>): (r: Option<string>)
    ensures r.Some? <==> s.Some?
    ensures r.Some? ==> IsLower(r.value) && |r.value| == |s.value|
  {
    if s.Some? then Some(Lower(s.value)) else None
  }

  /**
   * The action's steps before the credential check: lower-case both
   * identifiers, refuse when both are given, otherwise verify
   * `email ?? username` and pick the token lifetime.
   */
  function PlanLogin(p: SessionPayload): (plan: Plan)
    ensures plan != Reject(MULTIPLE_IDENTIFIERS)
    ensures plan.Reject? <==> Truthy(p.email) && Truthy(p.username)
    ensures plan.Reject? ==> plan.reply == MISSING_IDENTIFIER
    ensures plan.Verify? ==>
      && plan.identifier == (if p.email.Some? then Some(Lower(p.email.value)) else LowerOpt(p.username))
      && plan.password == p.password
      && (plan.expiresIn == LONG_LIFETIME <==> p.rememberMe == Some(true))
      && plan.expiresIn in {LONG_LIFETIME, SHORT_LIFETIME}
  {
    var email := LowerOpt(p.email);
    var username := LowerOpt(p.username);
    if Truthy(email) && Truthy(username) then
      Reject(MISSING_IDENTIFIER)
    else if Truthy(email) && Truthy(username) then
      Reject(MULTIPLE_IDENTIFIERS)
    else
      Verify(if email.Some? then email else username, p.password,
             if p.rememberMe == Some(true) then LONG_LIFETIME else SHORT_LIFETIME)
  }

  /** Neither identifier given: the request goes on to verification with none. */
  lemma NoIdentifierProceeds(password: string, rememberMe: Option<bool>)
    ensures PlanLogin(SessionPayload(None, None, password, rememberMe)).Verify?
    ensures PlanLogin(SessionPayload(None, None, password, rememberMe)).identifier == None
  {
  }

  /** One identifier given: it is the one verified, lower-cased. */
  lemma SingleIdentifierChosen(p: SessionPayload)
    requires p.email.Some? != p.username.Some?
    ensures PlanLogin(p).Verify?
    ensures PlanLogin(p).identifier == Some(Lower(if p.email.Some? then p.email.value else p.username.value))
  {
  }

  /**
   * The action on a validated payload: the plan, then `verifyCredentials` (a
   * parameter returning the user or nothing) and the new token.
   */
  function Authenticate(p: SessionPayload, verifyCredentials: (Option<string>, string) -> Option<User>)
    : (out: Outcome)
    ensures out != MULTIPLE_IDENTIFIERS && !out.ValidationFailed?
    ensures Truthy(p.email) && Truthy(p.username) ==> out == MISSING_IDENTIFIER
    ensures out.SessionCreated? <==>
      !(Truthy(p.email) && Truthy(p.username)) && verifyCredentials(PlanLogin(p).identifier, p.password).Some?
    ensures out.SessionCreated? ==>
      && out.http == 200 && out.status == "s_session_created"
      && out.token.abilities == ["*"]
      && out.token.expiresIn == (if p.rememberMe == Some(true) then LONG_LIFETIME else SHORT_LIFETIME)
      && Some(out.token.owner) == verifyCredentials(PlanLogin(p).identifier, p.password)
    ensures !(Truthy(p.email) && Truthy(p.username)) && verifyCredentials(PlanLogin(p).identifier, p.password).None?
            ==> out == InvalidCredentials
  {
    match PlanLogin(p)
    case Reject(reply) => reply
    case Verify(identifier, password, expiresIn) =>
      match verifyCredentials(identifier, password)
      case None => InvalidCredentials
      case Some(user) => SessionCreated(200, "s_session_created", Token(user, ["*"], expiresIn))
  }

  /**
   * The whole action as a function of the body: validation, then `Authenticate`.
   * A created session's token lasts 7 days exactly when the body sent
   * `rememberMe: true`.
   */
  function Login(data: Body, isEmail: string -> bool, verifyCredentials: (Option<string>, string) -> Option<User>)
    : (out: Outcome)
    ensures out.ValidationFailed? <==> Validate(data, isEmail).Err?
    ensures out.SessionCreated? ==>
      && out.token.abilities == ["*"]
      && out.token.expiresIn ==
         (if Field(data, "rememberMe") == Some(JBool(true)) then LONG_LIFETIME else SHORT_LIFETIME)
  {
    match Validate(data, isEmail)
    case Err(errors) => ValidationFailed(errors)
    case Ok(p) => Authenticate(p, verifyCredentials)
  }

  /** The controller action: only a created session writes, appending its token. */
  method Store(b: Backend, data: Body, isEmail: string -> bool,
               verifyCredentials: (Option<string>, string) -> Option<User>)
    returns (out: Outcome)
    modifies b`tokens
    ensures out == Login(data, isEmail, verifyCredentials)
    ensures b.tokens == if out.SessionCreated? then old(b.tokens) + [out.token] else old(b.tokens)
  {
    var validated := Validate(data, isEmail);
    if validated.Err? {
      return ValidationFailed(validated.error);
    }
    out := CreateSession(b, validated.value, verifyCredentials);
  }

  /** The steps after validation, with the source's early returns. */
  method CreateSession(b: Backend, p: SessionPayload, verifyCredentials: (Option<string>, string) -> Option<User>)
    returns (out: Outcome)
    modifies b`tokens
    ensures out == Authenticate(p, verifyCredentials)
    ensures b.tokens == if out.SessionCreated? then old(b.tokens) + [out.token] else old(b.tokens)
  {
    var email := LowerOpt(p.email);
    var username := LowerOpt(p.username);
    var password := p.password;

    if Truthy(email) && Truthy(username) {
      return MISSING_IDENTIFIER;
    } else if Truthy(email) && Truthy(username) {
      return MULTIPLE_IDENTIFIERS;
    }

    var user := verifyCredentials(if email.Some? then email else username, password);
    if user.None? {
      return InvalidCredentials;
    }
    var token := Token(user.value, ["*"], if p.rememberMe == Some(true) then LONG_LIFETIME else SHORT_LIFETIME);
    b.tokens := b.tokens + [token];
    return SessionCreated(200, "s_session_created", token);
  }
}
