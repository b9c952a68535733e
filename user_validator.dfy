/**
 * The registration schema of app/validators/user.ts: the custom banned-word
 * rule and the five field chains (username, nickname, email, password,
 * emailCode).
 */
module UserValidator {
  import opened Wrappers
  import opened Text
  import opened Vine

  /** The `type` option the banned-word rule is created with. */
  datatype RuleType = UsernameRule | NicknameRule

  /**
   * The metadata a validation call may carry; a list the caller did not supply
   * is `None`.
   */
  datatype RegistrationMeta = RegistrationMeta(
    bannedUsernames: Option<seq<string>>,
    bannedNicknames: Option<seq<string>>)

  /** The metadata seen by a call that passes none. */
  const NO_META := RegistrationMeta(None, None)

  /** The characters the rule removes before matching. */
  const SEPARATORS: set<char> := {'.', '_', '-'}

  /** The rule's normalisation: lower-case, then drop every `.`, `_` and `-`. */
  function Normalize(s: string): (r: string)
    ensures IsLower(r)
    ensures forall i :: 0 <= i < |r| ==> r[i] != '.' && r[i] != '_' && r[i] != '-'
    ensures |r| <= |s|
  {
    var lowered := Lower(s);
    StripKeepsLower(lowered, SEPARATORS);
    Strip(lowered, SEPARATORS)
  }

  /** Normalising twice is normalising once. */
  lemma NormalizeIdempotent(s: string)
    ensures Normalize(Normalize(s)) == Normalize(s)
  {
    var n := Normalize(s);
    LowerOfLower(n);
    StripAbsent(n, SEPARATORS);
  }

  /** The list the rule consults: the one named by its type, empty when absent. */
  function BannedList(t: RuleType, meta: RegistrationMeta): seq<string> {
    if t == UsernameRule then meta.bannedUsernames.GetOr([]) else meta.bannedNicknames.GetOr([])
  }

  function ErrorCode(t: RuleType): string {
    if t == UsernameRule then "e_bad_username" else "e_bad_nickname"
  }

  /**
   * `isBannedRule`: the error code it reports for `value`, if any. Non-strings
   * are ignored; a string is reported iff some list word, lower-cased, occurs
   * in its normalised form.
   */
  function IsBannedRule(value: JsValue, t: RuleType, meta: RegistrationMeta): (report: Option<string>)
    ensures !value.JStr? ==> report == None
    ensures report.Some? <==> (value.JStr? &&
      exists k :: 0 <= k < |BannedList(t, meta)| && Contains(Normalize(value.s), Lower(BannedList(t, meta)[k])))
    ensures report.Some? ==> report.value == (if t == UsernameRule then "e_bad_username" else "e_bad_nickname")
  {
    if !value.JStr? then None
    else if AnyWordIn(BannedList(t, meta), Normalize(value.s)) then Some(ErrorCode(t))
    else None
  }

  /** A missing list is an empty list, and an empty list reports nothing. */
  lemma MissingListNeverReports(value: JsValue, t: RuleType)
    ensures IsBannedRule(value, t, NO_META) == None
  {
  }

  /** A list word holding `.`, `_` or `-` can never match, whatever the value. */
  lemma SeparatorWordNeverMatches(s: string, word: string, c: char)
    requires c in SEPARATORS && c in Lower(word)
    ensures !Contains(Normalize(s), Lower(word))
  {
    ContainsOnlyOwnChars(Normalize(s), Lower(word), c);
  }

  /** An empty list word matches every string value. */
  lemma EmptyWordMatchesAll(s: string, t: RuleType, meta: RegistrationMeta)
    requires "" in BannedList(t, meta)
    ensures IsBannedRule(JStr(s), t, meta) == Some(ErrorCode(t))
  {
    var k :| 0 <= k < |BannedList(t, meta)| && BannedList(t, meta)[k] == "";
    ContainsEmpty(Normalize(s));
    assert Lower(BannedList(t, meta)[k]) == "";
  }

  /** A character the username pattern `^[a-zA-Z0-9._-]+$` admits. */
  predicate UsernameChar(c: char) {
    'a' <= c <= 'z' || 'A' <= c <= 'Z' || '0' <= c <= '9' || c == '.' || c == '_' || c == '-'
  }

  predicate MatchesUsernamePattern(s: string) {
    |s| > 0 && forall i :: 0 <= i < |s| ==> UsernameChar(s[i])
  }

  /** The shape an accepted username has: pattern and length 3..12. */
  predicate UsernameShape(s: string) {
    MatchesUsernamePattern(s) && 3 <= |s| <= 12
  }

  /** The username's regex, minLength(3) and maxLength(12), in that order. */
  function UsernameShapeCheck(s: string): (r: Check<string>)
    ensures r.Ok? <==> UsernameShape(s)
    ensures r.Ok? ==> r.value == s
  {
    if !MatchesUsernamePattern(s) then Err("regex")
    else if |s| < 3 then Err("minLength")
    else if |s| > 12 then Err("maxLength")
    else Ok(s)
  }

  /** The banned-word rule as the last link of a chain: it passes the value on or reports its code. */
  function BannedCheck(s: string, t: RuleType, meta: RegistrationMeta): (r: Check<string>)
    ensures r.Ok? <==> IsBannedRule(JStr(s), t, meta).None?
    ensures r.Ok? ==> r.value == s
    ensures r.Err? ==> r.error == ErrorCode(t)
  {
    match IsBannedRule(JStr(s), t, meta)
    case Some(code) => Err(code)
    case None => Ok(s)
  }

  /** username: string, trim, regex, minLength(3), maxLength(12), banned rule. */
  function CheckUsername(v: Option<JsValue>, meta: RegistrationMeta): (r: Check<string>)
    ensures r.Ok? <==> (v.Some? && v.value.JStr? && UsernameShape(Trim(v.value.s))
                       && IsBannedRule(JStr(Trim(v.value.s)), UsernameRule, meta).None?)
    ensures r.Ok? ==> r.value == Trim(v.value.s) && IsTrimmed(r.value) && UsernameShape(r.value)
  {
    match RequiredString(v)
    case Err(rule) => Err(rule)
    case Ok(raw) =>
      var s := Trim(raw);
      match UsernameShapeCheck(s)
      case Err(rule) => Err(rule)
      case Ok(_) => BannedCheck(s, UsernameRule, meta)
  }

  /** nickname: string, trim, minLength(3), maxLength(12), banned rule; any characters. */
  function CheckNickname(v: Option<JsValue>, meta: RegistrationMeta): (r: Check<string>)
    ensures r.Ok? <==> (v.Some? && v.value.JStr? && 3 <= |Trim(v.value.s)| <= 12
                       && IsBannedRule(JStr(Trim(v.value.s)), NicknameRule, meta).None?)
    ensures r.Ok? ==> r.value == Trim(v.value.s) && IsTrimmed(r.value) && 3 <= |r.value| <= 12
  {
    match RequiredString(v)
    case Err(rule) => Err(rule)
    case Ok(raw) =>
      var s := Trim(raw);
      if |s| < 3 then Err("minLength")
      else if |s| > 12 then Err("maxLength")
      else BannedCheck(s, NicknameRule, meta)
  }

  /** email: string, trim, email format (the format test is a parameter). */
  function CheckEmail(v: Option<JsValue>, isEmail: string -> bool): (r: Check<string>)
    ensures r.Ok? <==> v.Some? && v.value.JStr? && isEmail(Trim(v.value.s))
    ensures r.Ok? ==> r.value == Trim(v.value.s) && IsTrimmed(r.value)
  {
    match RequiredString(v)
    case Err(rule) => Err(rule)
    case Ok(raw) =>
      var s := Trim(raw);
      if isEmail(s) then Ok(s) else Err("email")
  }

  /** password: string, trim, minLength(6), maxLength(24). */
  function CheckPassword(v: Option<JsValue>): (r: Check<string>)
    ensures r.Ok? <==> v.Some? && v.value.JStr? && 6 <= |Trim(v.value.s)| <= 24
    ensures r.Ok? ==> r.value == Trim(v.value.s) && IsTrimmed(r.value)
  {
    match RequiredString(v)
    case Err(rule) => Err(rule)
    case Ok(raw) =>
      var s := Trim(raw);
      if |s| < 6 then Err("minLength")
      else if |s| > 24 then Err("maxLength")
      else Ok(s)
  }

  /** emailCode: number, min(100000), max(999999); fractions are not refused. */
  function CheckEmailCode(v: Option<JsValue>): (r: Check<real>)
    ensures r.Ok? <==> v.Some? && v.value.JNum? && 100000.0 <= v.value.n <= 999999.0
    ensures r.Ok? ==> r.value == v.value.n
  {
    match RequiredNumber(v)
    case Err(rule) => Err(rule)
    case Ok(n) =>
      if n < 100000.0 then Err("min")
      else if n > 999999.0 then Err("max")
      else Ok(n)
  }

  /** The validated output of `registerUserValidator`. */
  datatype RegisterPayload = RegisterPayload(
    username: string,
    nickname: string,
    email: string,
    password: string,
    emailCode: real)

  /**
   * `registerUserValidator.validate(data, {meta})`: the payload when every
   * field passes, otherwise every failing field's error in schema order.
   */
  function Validate(data: Body, meta: RegistrationMeta, isEmail: string -> bool)
    : (r: Result<RegisterPayload, seq<FieldError>>)
    ensures r.Ok? <==>
      CheckUsername(Field(data, "username"), meta).Ok? &&
      CheckNickname(Field(data, "nickname"), meta).Ok? &&
      CheckEmail(Field(data, "email"), isEmail).Ok? &&
      CheckPassword(Field(data, "password")).Ok? &&
      CheckEmailCode(Field(data, "emailCode")).Ok?
    ensures r.Ok? ==>
      && r.value.username == CheckUsername(Field(data, "username"), meta).value
      && r.value.nickname == CheckNickname(Field(data, "nickname"), meta).value
      && r.value.email == CheckEmail(Field(data, "email"), isEmail).value
      && r.value.password == CheckPassword(Field(data, "password")).value
      && r.value.emailCode == CheckEmailCode(Field(data, "emailCode")).value
    ensures r.Ok? ==>
      && UsernameShape(r.value.username) && IsTrimmed(r.value.username)
      && 3 <= |r.value.nickname| <= 12 && IsTrimmed(r.value.nickname)
      && isEmail(r.value.email) && IsTrimmed(r.value.email)
      && 6 <= |r.value.password| <= 24 && IsTrimmed(r.value.password)
      && 100000.0 <= r.value.emailCode <= 999999.0
    ensures r.Err? ==> (|r.error| > 0 &&
      forall e | e in r.error :: e.field in {"username", "nickname", "email", "password", "emailCode"})
  {
    var username := CheckUsername(Field(data, "username"), meta);
    var nickname := CheckNickname(Field(data, "nickname"), meta);
    var email := CheckEmail(Field(data, "email"), isEmail);
    var password := CheckPassword(Field(data, "password"));
    var emailCode := CheckEmailCode(Field(data, "emailCode"));
    var errors := ErrorsOf("username", username) + ErrorsOf("nickname", nickname)
      + ErrorsOf("email", email) + ErrorsOf("password", password)
      + ErrorsOf("emailCode", emailCode);
    if username.Ok? && nickname.Ok? && email.Ok? && password.Ok? && emailCode.Ok? then
      Ok(RegisterPayload(username.value, nickname.value, email.value, password.value, emailCode.value))
    else
      Err(errors)
  }
}
