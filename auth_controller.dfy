/**
 * `AuthController.sendEmailCode` of app/controllers/auth_controller.ts: refuse
 * an email that is already registered, draw a six-digit code, put it in the
 * session's single code slot and queue a mail carrying it.
 */
module AuthController {
  import opened Wrappers
  import opened Text
  import opened Vine
  import opened AuthValidator
  import opened Stores
  import UserValidator
  import UsersController

  const MIN_CODE := 100000
  const MAX_CODE := 999999
  const SENDER := "account@mail.pdnode.com"
  const SUBJECT_PREFIX := "Your email verification code: "
  const VIEW := "emails/verify_email"

  /** The reply of a send-code request. */
  datatype Outcome =
    | ValidationFailed(errors: seq<FieldError>)
    | Aborted(http: int, status: string)
    | Replied(http: int, status: string)

  const ALREADY_REGISTERED := Aborted(400, "err_email_already_register")
  const SENT := Replied(200, "succ_email_send")

  /**
   * `Math.floor(r * (max - min + 1)) + min` for a draw `r` of `Math.random()`,
   * which lies in [0, 1).
   */
  function CodeFromRandom(r: real): (code: int)
    requires 0.0 <= r < 1.0
    ensures MIN_CODE <= code <= MAX_CODE
  {
    (r * (MAX_CODE - MIN_CODE + 1) as real).Floor + MIN_CODE
  }

  /** The two ends of the range are both reachable. */
  lemma CodeRangeEnds()
    ensures CodeFromRandom(0.0) == MIN_CODE
    ensures CodeFromRandom(899999.0 / 900000.0) == MAX_CODE
  {
  }

  /** The mail queued for `email`: the code appears in the subject and in the view data. */
  function CodeMail(email: string, code: nat): (m: Mail)
    ensures m.to == email && m.from == SENDER && m.view == VIEW && m.code == code
    ensures |m.subject| > |SUBJECT_PREFIX| && m.subject[..|SUBJECT_PREFIX|] == SUBJECT_PREFIX
    ensures m.subject[|SUBJECT_PREFIX|..] == Decimal(code)
  {
    Mail(email, SENDER, SUBJECT_PREFIX + Decimal(code), VIEW, code)
  }

  /** The code read back from the subject is the code in the view data. */
  lemma SubjectCarriesCode(email: string, code: nat)
    ensures ParseDecimal(CodeMail(email, code).subject[|SUBJECT_PREFIX|..]) == CodeMail(email, code).code
  {
    DecimalRoundTrip(code);
  }

  /** Different codes give different subjects. */
  lemma SubjectsDiffer(email: string, c1: nat, c2: nat)
    requires c1 != c2
    ensures CodeMail(email, c1).subject != CodeMail(email, c2).subject
  {
    if CodeMail(email, c1).subject == CodeMail(email, c2).subject {
      DecimalInjective(c1, c2);
    }
  }

  /**
   * The reply to a send-code request: validation errors, the abort for a
   * registered email, or success. It does not depend on the draw.
   */
  function Reply(users: set<User>, data: Body, isEmail: string -> bool): (out: Outcome)
    ensures out == SENT <==> Validate(data, isEmail).Ok? && !HasEmail(users, data["email"].s)
    ensures out == ALREADY_REGISTERED <==> Validate(data, isEmail).Ok? && HasEmail(users, data["email"].s)
    ensures out.ValidationFailed? <==> Validate(data, isEmail).Err?
  {
    match Validate(data, isEmail)
    case Err(errors) => ValidationFailed(errors)
    case Ok(p) => if HasEmail(users, p.email) then ALREADY_REGISTERED else SENT
  }

  /**
   * The controller action. On success the session slot holds the new code,
   * whatever it held before, and one mail is queued; the Redis code store that
   * registration reads is not written.
   */
  method SendEmailCode(b: Backend, data: Body, isEmail: string -> bool, r: real)
    returns (out: Outcome)
    requires 0.0 <= r < 1.0
    modifies b`sessionCode, b`outbox
    ensures out == Reply(old(b.users), data, isEmail)
    ensures out == SENT ==> b.sessionCode == Some(CodeFromRandom(r))
    ensures out == SENT ==> b.outbox == old(b.outbox) + [CodeMail(data["email"].s, CodeFromRandom(r))]
    ensures out != SENT ==> b.sessionCode == old(b.sessionCode) && b.outbox == old(b.outbox)
  {
    var validated := Validate(data, isEmail);
    if validated.Err? {
      return ValidationFailed(validated.error);
    }
    out := Issue(b, validated.value.email, r);
  }

  /** The steps after validation: the existence read, the draw, the slot write and the mail. */
  method Issue(b: Backend, email: string, r: real) returns (out: Outcome)
    requires 0.0 <= r < 1.0
    modifies b`sessionCode, b`outbox
    ensures out == (if HasEmail(old(b.users), email) then ALREADY_REGISTERED else SENT)
    ensures out == SENT ==> b.sessionCode == Some(CodeFromRandom(r))
    ensures out == SENT ==> b.outbox == old(b.outbox) + [CodeMail(email, CodeFromRandom(r))]
    ensures out != SENT ==> b.sessionCode == old(b.sessionCode) && b.outbox == old(b.outbox)
  {
    if HasEmail(b.users, email) {
      return ALREADY_REGISTERED;
    }
    var randomCode := CodeFromRandom(r);
    b.sessionCode := Some(randomCode);
    b.outbox := b.outbox + [CodeMail(email, randomCode)];
    return SENT;
  }

  /**
   * Sending a code and then registering with it: the code went to the session
   * slot, so for an email with no Redis entry the registration cannot succeed,
   * and the second send replaces the first code in the slot.
   */
  method SendThenRegister(b: Backend, email: string, isEmail: string -> bool, r1: real, r2: real,
                          p: UserValidator.RegisterPayload, cfg: UsersController.BannedConfig)
    returns (created: bool)
    requires 0.0 <= r1 < 1.0 && 0.0 <= r2 < 1.0
    requires email !in b.codes && !HasEmail(b.users, email) && p.email == email
    modifies b`sessionCode, b`outbox, b`codes, b`users
    ensures b.sessionCode == Some(CodeFromRandom(r2))
    ensures !created
  {
    var first := Issue(b, email, r1);
    var second := Issue(b, email, r2);
    assert b.codes == old(b.codes);
    UsersController.MissingCodeNeverCreates(UsersController.Tables(b.codes, b.users), p, cfg, false);
    var out := UsersController.StoreValidated(b, p, cfg, false);
    created := out == UsersController.CREATED;
  }
}
