/**
 * `UsersController.store` of app/controllers/users_controller.ts: registration
 * as a single pass over the request that stops at the first rejection, in this
 * order: validation, banned username, banned nickname, wrong or missing code,
 * identifier taken, create failure. Only a successful pass writes: it adds one
 * user row and deletes that email's code.
 */
module UsersController {
  import opened Wrappers
  import opened Text
  import opened Vine
  import opened UserValidator
  import opened Stores

  /** The banned lists of the configuration file, `config.banned`. */
  datatype BannedConfig = BannedConfig(username: seq<string>, nickname: seq<string>)

  /** The reply: a validation failure from the schema, or an HTTP status and a status string. */
  datatype Outcome = ValidationFailed(errors: seq<FieldError>) | Replied(http: int, status: string)

  const BAD_USERNAME := Replied(400, "e_bad_username")
  const BAD_NICKNAME := Replied(400, "e_bad_nickname")
  const WRONG_CODE := Replied(400, "e_wrong_email_code")
  const IDENTIFIER_TAKEN := Replied(400, "e_username_or_email_existing")
  const CREATE_FAILED := Replied(500, "e_create_user_failed")
  const CREATED := Replied(201, "s_user_created")

  /** The two tables registration touches: Redis codes by email, and the user table. */
  datatype Tables = Tables(codes: map<string, int>, users: set<User>)

  /** What one request leaves behind: the reply and the tables afterwards. */
  datatype Step = Step(outcome: Outcome, tables: Tables)

  /**
   * The controller's normalisation `toLowerCase().replace(/\./g, '')`: only the
   * dot is removed, unlike the validator rule's `Normalize`.
   */
  function NormalizeName(s: string): (r: string)
    ensures IsLower(r)
    ensures forall i :: 0 <= i < |r| ==> r[i] != '.'
    ensures |r| <= |s|
  {
    var lowered := Lower(s);
    StripKeepsLower(lowered, {'.'});
    Strip(lowered, {'.'})
  }

  lemma NormalizeNameIdempotent(s: string)
    ensures NormalizeName(NormalizeName(s)) == NormalizeName(s)
  {
    var n := NormalizeName(s);
    LowerOfLower(n);
    StripAbsent(n, {'.'});
  }

  /** The two normalisations differ: the controller keeps `_` and `-`. */
  lemma NormalizationsDiffer()
    ensures NormalizeName("a_b") == "a_b"
    ensures Normalize("a_b") == "ab"
  {
    assert Lower("a_b") == "a_b";
    assert Strip("a_b", {'.'}) == "a_b";
    assert Strip("a_b", SEPARATORS) == "ab";
  }

  /** The validator's normalisation is the controller's with `_` and `-` removed as well. */
  lemma NormalizeRefinesNormalizeName(s: string)
    ensures Normalize(s) == Strip(NormalizeName(s), {'_', '-'})
  {
    NormalizeStripsInTurn(Lower(s));
  }

  lemma {:induction false} NormalizeStripsInTurn(s: string)
    ensures Strip(s, {'.', '_', '-'}) == Strip(Strip(s, {'.'}), {'_', '-'})
  {
    if s != [] {
      NormalizeStripsInTurn(s[1..]);
    }
  }

  /** A nickname made only of dots normalises to the empty string. */
  lemma DotsNormalizeToEmpty(s: string)
    requires forall i :: 0 <= i < |s| ==> s[i] == '.'
    ensures NormalizeName(s) == ""
  {
    assert IsLower(s);
    LowerOfLower(s);
    StripEverything(s, {'.'});
  }

  /**
   * The row `User.create` is given: normalised username, raw email, nickname or
   * null. The stored username is lower-case and dot-free whatever was sent.
   */
  function NewUser(p: RegisterPayload): (u: User)
    ensures IsLower(u.username) && forall i :: 0 <= i < |u.username| ==> u.username[i] != '.'
    ensures u.nickname.None? <==> p.nickname == ""
  {
    User(NormalizeName(p.username), p.email, if p.nickname == "" then None else Some(p.nickname), p.password)
  }

  /**
   * Registration of a validated payload against the tables, from the banned
   * checks on; `createFails` stands for `User.create` throwing.
   */
  function Admit(t: Tables, p: RegisterPayload, cfg: BannedConfig, createFails: bool): (r: Step)
    ensures r.outcome.Replied?
    ensures r.outcome != CREATED ==> r.tables == t
    ensures r.outcome == BAD_USERNAME <==> AnyWordIn(cfg.username, NormalizeName(p.username))
    ensures r.outcome == BAD_NICKNAME <==>
      && !AnyWordIn(cfg.username, NormalizeName(p.username))
      && NormalizeName(p.nickname) != "" && AnyWordIn(cfg.nickname, NormalizeName(p.nickname))
    ensures r.outcome == CREATED <==>
      && !AnyWordIn(cfg.username, NormalizeName(p.username))
      && !(NormalizeName(p.nickname) != "" && AnyWordIn(cfg.nickname, NormalizeName(p.nickname)))
      && p.email in t.codes && t.codes[p.email] as real == p.emailCode
      && !HasEmail(t.users, p.email) && !HasUsername(t.users, p.username) && !createFails
    ensures r.outcome == CREATED ==>
      && p.email in t.codes && t.codes[p.email] as real == p.emailCode
      && !HasEmail(t.users, p.email) && !HasUsername(t.users, p.username) && !createFails
      && r.tables.users == t.users + {NewUser(p)} && NewUser(p) !in t.users
      && |r.tables.users| == |t.users| + 1
      && r.tables.codes.Keys == t.codes.Keys - {p.email}
      && forall e :: e in r.tables.codes ==> r.tables.codes[e] == t.codes[e]
    ensures EmailsUnique(t.users) ==> EmailsUnique(r.tables.users)
  {
    var username := NormalizeName(p.username);
    var nickname := NormalizeName(p.nickname);
    if AnyWordIn(cfg.username, username) then Step(BAD_USERNAME, t)
    else if nickname != "" && AnyWordIn(cfg.nickname, nickname) then Step(BAD_NICKNAME, t)
    else if p.email !in t.codes || p.emailCode != t.codes[p.email] as real then Step(WRONG_CODE, t)
    else if HasEmail(t.users, p.email) || HasUsername(t.users, p.username) then Step(IDENTIFIER_TAKEN, t)
    else if createFails then Step(CREATE_FAILED, t)
    else
      var u := NewUser(p);
      assert u !in t.users;
      Step(CREATED, Tables(t.codes - {p.email}, t.users + {u}))
  }

  /**
   * One registration request: the schema applied without metadata, as the
   * controller calls it, then `Admit`. A user is created only when the body's
   * `emailCode` is the number stored for the body's trimmed email; that code is
   * then deleted and the table grows by one row.
   */
  function Register(t: Tables, data: Body, cfg: BannedConfig, isEmail: string -> bool, createFails: bool)
    : (r: Step)
    ensures r.outcome.ValidationFailed? <==> Validate(data, NO_META, isEmail).Err?
    ensures r.outcome != CREATED ==> r.tables == t
    ensures r.outcome == CREATED ==>
      && "email" in data && data["email"].JStr?
      && var email := Trim(data["email"].s);
      && email in t.codes
      && Field(data, "emailCode") == Some(JNum(t.codes[email] as real))
      && r.tables.codes.Keys == t.codes.Keys - {email}
      && |r.tables.users| == |t.users| + 1
  {
    match Validate(data, NO_META, isEmail)
    case Err(errors) => Step(ValidationFailed(errors), t)
    case Ok(p) => Admit(t, p, cfg, createFails)
  }

  /**
   * The controller action: validate the body, then run the checks on the
   * payload. Only the code store and the user table can change.
   */
  method Store(b: Backend, data: Body, cfg: BannedConfig, isEmail: string -> bool, createFails: bool)
    returns (out: Outcome)
    modifies b`codes, b`users
    ensures Step(out, Tables(b.codes, b.users))
         == Register(Tables(old(b.codes), old(b.users)), data, cfg, isEmail, createFails)
  {
    var validated := Validate(data, NO_META, isEmail);
    if validated.Err? {
      return ValidationFailed(validated.error);
    }
    out := StoreValidated(b, validated.value, cfg, createFails);
  }

  /**
   * The steps after validation, in the source's order and with its early
   * returns: banned username, banned nickname (skipped when the normalised
   * nickname is empty), the stored code, the two existence reads, the insert and
   * the code deletion.
   */
  method StoreValidated(b: Backend, p: RegisterPayload, cfg: BannedConfig, createFails: bool)
    returns (out: Outcome)
    modifies b`codes, b`users
    ensures Step(out, Tables(b.codes, b.users)) == Admit(Tables(old(b.codes), old(b.users)), p, cfg, createFails)
  {
    var normalizedUsername := NormalizeName(p.username);
    var normalizedNickname := NormalizeName(p.nickname);
    if AnyWordIn(cfg.username, normalizedUsername) {
      return BAD_USERNAME;
    }
    if normalizedNickname != "" {
      if AnyWordIn(cfg.nickname, normalizedNickname) {
        return BAD_NICKNAME;
      }
    }

    var storedCode: Option<int> := if p.email in b.codes then Some(b.codes[p.email]) else None;
    if storedCode.None? || p.emailCode != storedCode.value as real {
      return WRONG_CODE;
    }

    var userByEmail := HasEmail(b.users, p.email);
    var userByUsername := HasUsername(b.users, p.username);
    if userByEmail || userByUsername {
      return IDENTIFIER_TAKEN;
    }

    if createFails {
      return CREATE_FAILED;
    }
    b.users := b.users + {NewUser(p)};
    b.codes := b.codes - {p.email};
    return CREATED;
  }

  /**
   * The controller's own banned check: a list word holding a dot can never
   * match, since the normalised name has none; a word with `_` or `-` still can.
   */
  lemma DotWordNeverMatches(s: string, word: string)
    requires '.' in Lower(word)
    ensures !Contains(NormalizeName(s), Lower(word))
  {
    ContainsOnlyOwnChars(NormalizeName(s), Lower(word), '.');
  }

  /** A banned word with an underscore matches a name holding it: `_` is not removed here. */
  lemma UnderscoreWordMatches()
    ensures AnyWordIn(["_"], NormalizeName("_"))
  {
    var name: string := "_";
    assert Lower(name) == name;
    assert Strip(name, {'.'}) == name;
    assert OccursAt(name, name, 0);
  }

  /**
   * The schema's banned-word rule never fires here: the controller passes no
   * metadata, so the username and nickname chains reduce to their shape rules.
   */
  lemma SchemaRuleSilent(v: Option<JsValue>)
    ensures CheckUsername(v, NO_META).Ok? <==> v.Some? && v.value.JStr? && UsernameShape(Trim(v.value.s))
    ensures CheckNickname(v, NO_META).Ok? <==> v.Some? && v.value.JStr? && 3 <= |Trim(v.value.s)| <= 12
  {
    if v.Some? && v.value.JStr? {
      MissingListNeverReports(JStr(Trim(v.value.s)), UsernameRule);
      MissingListNeverReports(JStr(Trim(v.value.s)), NicknameRule);
    }
  }

  /** A banned username is refused before any later check, and nothing is written. */
  lemma BannedUsernameFirst(t: Tables, p: RegisterPayload, cfg: BannedConfig, createFails: bool)
    requires AnyWordIn(cfg.username, NormalizeName(p.username))
    ensures Admit(t, p, cfg, createFails) == Step(BAD_USERNAME, t)
  {
  }

  /** A nickname of dots alone skips the nickname check, whatever the list holds. */
  lemma DotNicknameSkipsCheck(t: Tables, p: RegisterPayload, cfg: BannedConfig, createFails: bool)
    requires forall i :: 0 <= i < |p.nickname| ==> p.nickname[i] == '.'
    ensures Admit(t, p, cfg, createFails).outcome != BAD_NICKNAME
  {
    DotsNormalizeToEmpty(p.nickname);
  }

  /** With no code stored for the email, or a different one, the reply is a wrong code and nothing changes. */
  lemma WrongCodeRejected(t: Tables, p: RegisterPayload, cfg: BannedConfig, createFails: bool)
    requires !AnyWordIn(cfg.username, NormalizeName(p.username))
    requires !(NormalizeName(p.nickname) != "" && AnyWordIn(cfg.nickname, NormalizeName(p.nickname)))
    requires p.email !in t.codes || t.codes[p.email] as real != p.emailCode
    ensures Admit(t, p, cfg, createFails) == Step(WRONG_CODE, t)
  {
  }

  /** Without a stored code for the email no request can create a user. */
  lemma MissingCodeNeverCreates(t: Tables, p: RegisterPayload, cfg: BannedConfig, createFails: bool)
    requires p.email !in t.codes
    ensures Admit(t, p, cfg, createFails).outcome != CREATED
  {
  }

  /** A fractional code passes the schema but never equals a stored code. */
  lemma FractionalCodeNeverCreates(t: Tables, p: RegisterPayload, cfg: BannedConfig, createFails: bool)
    requires p.emailCode.Floor as real != p.emailCode
    ensures Admit(t, p, cfg, createFails).outcome != CREATED
  {
  }

  /** A taken email or exact raw username is refused with nothing written. */
  lemma TakenIdentifierRejected(t: Tables, p: RegisterPayload, cfg: BannedConfig, createFails: bool)
    requires !AnyWordIn(cfg.username, NormalizeName(p.username))
    requires !(NormalizeName(p.nickname) != "" && AnyWordIn(cfg.nickname, NormalizeName(p.nickname)))
    requires p.email in t.codes && t.codes[p.email] as real == p.emailCode
    requires HasEmail(t.users, p.email) || HasUsername(t.users, p.username)
    ensures Admit(t, p, cfg, createFails) == Step(IDENTIFIER_TAKEN, t)
  {
  }

  /** A failed create is a server error and the email's code stays for a retry. */
  lemma CreateFailureKeepsCode(t: Tables, p: RegisterPayload, cfg: BannedConfig)
    requires !AnyWordIn(cfg.username, NormalizeName(p.username))
    requires !(NormalizeName(p.nickname) != "" && AnyWordIn(cfg.nickname, NormalizeName(p.nickname)))
    requires p.email in t.codes && t.codes[p.email] as real == p.emailCode
    requires !HasEmail(t.users, p.email) && !HasUsername(t.users, p.username)
    ensures Admit(t, p, cfg, true) == Step(CREATE_FAILED, t)
    ensures p.email in Admit(t, p, cfg, true).tables.codes
  {
  }

  /** `A.b` is a well-formed username that the controller stores as `ab`. */
  lemma SampleUsername()
    ensures UsernameShape("A.b") && NormalizeName("A.b") == "ab"
  {
    assert Lower("A.b") == "a.b";
    assert Strip("a.b", {'.'}) == "ab";
  }

  /**
   * The pre-check looks for the raw username while the row stores the normalised
   * one: a user `ab` exists, a request for `A.b` passes every check, and the
   * table then holds two rows with username `ab`.
   */
  lemma RawUsernamePrecheckAdmitsDuplicate()
    ensures var existing := User("ab", "a@x.io", Some("abc"), "secret1");
      var t := Tables(map["b@x.io" := 123456], {existing});
      var p := RegisterPayload("A.b", "abc", "b@x.io", "secret1", 123456.0);
      var r := Admit(t, p, BannedConfig([], []), false);
      && UsernameShape(p.username)
      && r.outcome == CREATED
      && r.tables.users == {existing, User("ab", "b@x.io", Some("abc"), "secret1")}
      && !UsernamesUnique(r.tables.users)
  {
    var existing := User("ab", "a@x.io", Some("abc"), "secret1");
    var t := Tables(map["b@x.io" := 123456], {existing});
    var p := RegisterPayload("A.b", "abc", "b@x.io", "secret1", 123456.0);
    var created := User("ab", "b@x.io", Some("abc"), "secret1");
    SampleUsername();
    assert NewUser(p) == created;
    assert !HasEmail(t.users, "b@x.io") by {
      assert existing.email != "b@x.io";
    }
    assert !HasUsername(t.users, "A.b") by {
      assert existing.username != "A.b";
    }
    var r := Admit(t, p, BannedConfig([], []), false);
    assert r.outcome == CREATED;
    assert r.tables.users == {existing, created};
    assert existing != created && existing.username == created.username;
  }
}
