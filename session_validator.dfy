/**
 * The login schema of app/validators/session.ts: an optional username and an
 * optional email, a required password and an optional `rememberMe` flag.
 */
module SessionValidator {
  import opened Wrappers
  import opened Text
  import opened Vine

  /**
   * A character the class `[a-zA-Z0-9.-_]` admits. Written this way the class
   * holds the range from `.` (0x2E) to `_` (0x5F), not the three characters.
   */
  predicate SessionUsernameChar(c: char) {
    'a' <= c <= 'z' || 'A' <= c <= 'Z' || '0' <= c <= '9' || '.' <= c <= '_'
  }

  predicate MatchesSessionPattern(s: string) {
    |s| > 0 && forall i :: 0 <= i < |s| ==> SessionUsernameChar(s[i])
  }

  /** The range admits `/ : @ [` and the like, but a hyphen (0x2D) falls outside it. */
  lemma PatternRange()
    ensures SessionUsernameChar('/') && SessionUsernameChar(':') && SessionUsernameChar('@')
    ensures SessionUsernameChar('[') && SessionUsernameChar('_') && SessionUsernameChar('.')
    ensures !SessionUsernameChar('-')
    ensures forall c: char :: '.' <= c <= '_' ==> SessionUsernameChar(c)
  {
  }

  /** A username with a hyphen, which registration admits, is refused at login. */
  lemma HyphenUsernameRefused(s: string)
    requires '-' in s
    ensures !MatchesSessionPattern(s)
  {
    var i :| 0 <= i < |s| && s[i] == '-';
    assert !SessionUsernameChar(s[i]);
  }

  /** username: optional; when present string, trim, regex, minLength(3), maxLength(12). */
  function CheckUsername(v: Option<JsValue>): (r: Check<Option<string>>)
    ensures Missing(v) ==> r == Ok(None)
    ensures r.Ok? <==> Missing(v) || (v.value.JStr? && MatchesSessionPattern(Trim(v.value.s))
                                      && 3 <= |Trim(v.value.s)| <= 12)
    ensures !Missing(v) && r.Ok? ==> r.value.Some?
    ensures r.Ok? && r.value.Some? ==>
      && v.Some? && v.value.JStr? && r.value.value == Trim(v.value.s)
      && IsTrimmed(r.value.value) && MatchesSessionPattern(r.value.value) && 3 <= |r.value.value| <= 12
    ensures (!Missing(v) && v.value.JStr? && MatchesSessionPattern(Trim(v.value.s))
             && 3 <= |Trim(v.value.s)| <= 12) ==> r == Ok(Some(Trim(v.value.s)))
  {
    if Missing(v) then Ok(None)
    else match RequiredString(v)
      case Err(rule) => Err(rule)
      case Ok(raw) =>
        var s := Trim(raw);
        if !MatchesSessionPattern(s) then Err("regex")
        else if |s| < 3 then Err("minLength")
        else if |s| > 12 then Err("maxLength")
        else Ok(Some(s))
  }

  /** email: optional; when present string, trim, email format. */
  function CheckEmail(v: Option<JsValue>, isEmail: string -> bool): (r: Check<Option<string>>)
    ensures Missing(v) ==> r == Ok(None)
    ensures r.Ok? <==> Missing(v) || (v.value.JStr? && isEmail(Trim(v.value.s)))
    ensures !Missing(v) && r.Ok? ==> r.value.Some?
    ensures r.Ok? && r.value.Some? ==>
      v.Some? && v.value.JStr? && r.value.value == Trim(v.value.s) && isEmail(r.value.value)
    ensures !Missing(v) && v.value.JStr? && isEmail(Trim(v.value.s)) ==> r == Ok(Some(Trim(v.value.s)))
  {
    if Missing(v) then Ok(None)
    else match RequiredString(v)
      case Err(rule) => Err(rule)
      case Ok(raw) =>
        var s := Trim(raw);
        if isEmail(s) then Ok(Some(s)) else Err("email")
  }

  /** password: required string, trimmed, with no length bound. */
  function CheckPassword(v: Option<JsValue>): (r: Check<string>)
    ensures r.Ok? <==> v.Some? && v.value.JStr?
    ensures r.Ok? ==> r.value == Trim(v.value.s)
  {
    match RequiredString(v)
    case Err(rule) => Err(rule)
    case Ok(raw) => Ok(Trim(raw))
  }

  /** rememberMe: optional boolean. */
  function CheckRememberMe(v: Option<JsValue>): (r: Check<Option<bool>>)
    ensures Missing(v) ==> r == Ok(None)
    ensures r.Ok? <==> Missing(v) || v.value.JBool?
    ensures !Missing(v) && v.value.JBool? ==> r == Ok(Some(v.value.b))
    ensures r.Ok? && r.value.Some? ==> v.Some? && v.value == JBool(r.value.value)
  {
    if Missing(v) then Ok(None)
    else if v.value.JBool? then Ok(Some(v.value.b))
    else Err("boolean")
  }

  /** The validated output of `createSessionValidator`. */
  datatype SessionPayload = SessionPayload(
    username: Option<string>,
    email: Option<string>,
    password: string,
    rememberMe: Option<bool>)

  /** `createSessionValidator.validate(data)`: the payload or every field's error. */
  function Validate(data: Body, isEmail: string -> bool): (r: Result<SessionPayload, seq<FieldError>>)
    ensures r.Ok? <==>
      CheckUsername(Field(data, "username")).Ok? &&
      CheckEmail(Field(data, "email"), isEmail).Ok? &&
      CheckPassword(Field(data, "password")).Ok? &&
      CheckRememberMe(Field(data, "rememberMe")).Ok?
    ensures r.Ok? ==>
      && r.value.username == CheckUsername(Field(data, "username")).value
      && r.value.email == CheckEmail(Field(data, "email"), isEmail).value
      && r.value.password == CheckPassword(Field(data, "password")).value
      && r.value.rememberMe == CheckRememberMe(Field(data, "rememberMe")).value
    ensures r.Err? ==> |r.error| > 0
  {
    var username := CheckUsername(Field(data, "username"));
    var email := CheckEmail(Field(data, "email"), isEmail);
    var password := CheckPassword(Field(data, "password"));
    var rememberMe := CheckRememberMe(Field(data, "rememberMe"));
    var errors := ErrorsOf("username", username) + ErrorsOf("email", email)
      + ErrorsOf("password", password) + ErrorsOf("rememberMe", rememberMe);
    if errors == [] then
      Ok(SessionPayload(username.value, email.value, password.value, rememberMe.value))
    else
      Err(errors)
  }

  /** Nothing asks for an identifier: a body holding only a password is accepted. */
  lemma NoIdentifierAccepted(password: string, isEmail: string -> bool)
    ensures Validate(map["password" := JStr(password)], isEmail)
         == Ok(SessionPayload(None, None, Trim(password), None))
  {
    var data := map["password" := JStr(password)];
    assert Field(data, "username") == None;
    assert Field(data, "email") == None;
    assert Field(data, "rememberMe") == None;
  }
}
