/**
 * The part of the VineJS validation library that the three schemas use: request
 * bodies as JSON values, the required/optional/string/number/boolean type checks,
 * and the per-field error that a failing rule reports. Within one field the rules
 * run in order and the first failing one is reported; all fields are checked and
 * their errors collected in the order the schema declares them.
 */
module Vine {
  import opened Wrappers

  /** A JSON value as the body parser produces it; JSON numbers are reals. */
  datatype JsValue = JStr(s: string) | JNum(n: real) | JBool(b: bool) | JNull | JOther

  /** `request.all()`: field name to value; a missing key is an undefined field. */
  type Body = map<string, JsValue>

  /** One reported error: the field and the rule (or custom error code) that failed. */
  datatype FieldError = FieldError(field: string, rule: string)

  /** The outcome of one field's rule chain: its output value or the failing rule. */
  type Check<T> = Result<T, string>

  function Field(data: Body, name: string): Option<JsValue> {
    if name in data then Some(data[name]) else None
  }

  /** Undefined and null both count as a missing value. */
  predicate Missing(v: Option<JsValue>) {
    v.None? || v.value.JNull?
  }

  /** `vine.string()` on a required field. */
  function RequiredString(v: Option<JsValue>): (r: Check<string>)
    ensures r.Ok? <==> v.Some? && v.value.JStr?
    ensures r.Ok? ==> r.value == v.value.s
    ensures r.Err? ==> r.error == (if Missing(v) then "required" else "string")
  {
    if Missing(v) then Err("required")
    else if v.value.JStr? then Ok(v.value.s)
    else Err("string")
  }

  /** `vine.number()` on a required field. */
  function RequiredNumber(v: Option<JsValue>): (r: Check<real>)
    ensures r.Ok? <==> v.Some? && v.value.JNum?
    ensures r.Ok? ==> r.value == v.value.n
  {
    if Missing(v) then Err("required")
    else if v.value.JNum? then Ok(v.value.n)
    else Err("number")
  }

  /** The error list of one field: empty when its chain passed, else one error for the failed rule. */
  function ErrorsOf<T>(name: string, c: Check<T>): (errs: seq<FieldError>)
    ensures |errs| <= 1
    ensures c.Ok? <==> errs == []
    ensures forall e | e in errs :: e.field == name && c.Err? && e.rule == c.error
  {
    if c.Ok? then [] else [FieldError(name, c.error)]
  }
}
