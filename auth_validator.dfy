/**
 * The send-code schema of app/validators/auth.ts: a required email, checked
 * without trimming, and a required `type` that must be `"verifyEmail"`.
 */
module AuthValidator {
  import opened Wrappers
  import opened Vine

  const VERIFY_EMAIL := "verifyEmail"

  /** email: string, email format; the value is not trimmed first. */
  function CheckEmail(v: Option<JsValue>, isEmail: string -> bool): (r: Check<string>)
    ensures r.Ok? <==> v.Some? && v.value.JStr? && isEmail(v.value.s)
    ensures r.Ok? ==> r.value == v.value.s
  {
    match RequiredString(v)
    case Err(rule) => Err(rule)
    case Ok(s) => if isEmail(s) then Ok(s) else Err("email")
  }

  /** type: `vine.enum(["verifyEmail"])`, the single admitted value. */
  function CheckType(v: Option<JsValue>): (r: Check<string>)
    ensures r.Ok? <==> v == Some(JStr(VERIFY_EMAIL))
    ensures r.Ok? ==> r.value == VERIFY_EMAIL
  {
    if Missing(v) then Err("required")
    else if v.value == JStr(VERIFY_EMAIL) then Ok(VERIFY_EMAIL)
    else Err("enum")
  }

  /** The validated output of `sendEmailCodeValidator`; it has no code field. */
  datatype SendCodePayload = SendCodePayload(email: string, kind: string)

  function Validate(data: Body, isEmail: string -> bool): (r: Result<SendCodePayload, seq<FieldError>>)
    ensures r.Ok? <==> CheckEmail(Field(data, "email"), isEmail).Ok? && Field(data, "type") == Some(JStr(VERIFY_EMAIL))
    ensures r.Ok? ==> r.value == SendCodePayload(data["email"].s, VERIFY_EMAIL) && isEmail(r.value.email)
    ensures r.Err? ==> |r.error| > 0
  {
    var email := CheckEmail(Field(data, "email"), isEmail);
    var kind := CheckType(Field(data, "type"));
    var errors := ErrorsOf("email", email) + ErrorsOf("type", kind);
    if errors == [] then Ok(SendCodePayload(email.value, kind.value)) else Err(errors)
  }
}
