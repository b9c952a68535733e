# Account backend: registration, login and email codes in Dafny

This project models the request-handling core of the pdnode account backend,
an AdonisJS service. The core has three controller actions and the three VineJS
schemas they validate against:

- **Registration** (`UsersController.store`) validates the body and refuses
  banned usernames and nicknames. It then checks the six-digit email code held
  in Redis under `user.email.code:<email>` and refuses an email or username that
  is already taken. Finally it inserts the user and deletes the code.
- **Login** (`SessionsController.store`) lower-cases the identifiers and checks
  how they are combined. It verifies the credentials and creates an access token
  for 2 hours, or for 7 days with `rememberMe`.
- **Sending a code** (`AuthController.sendEmailCode`) refuses a registered
  email. It then draws a code in [100000, 999999], stores it in the session and
  queues a mail that carries it.

The modules are:

- `Wrappers`: `Option` and `Result`.
- `Text`: the JavaScript string operations the core uses. These are
  `toLowerCase` (ASCII letters), a global character-class `replace`, `includes`,
  `trim` with the ECMAScript whitespace set, and the decimal rendering of a
  number in a template string.
- `Vine`: request bodies as JSON values, and the required and type checks of
  VineJS. Within a field the first failing rule is reported. All fields are
  checked and their errors collected.
- `UserValidator`, `SessionValidator`, `AuthValidator`: the three schemas. In
  `UserValidator` this includes the custom banned-word rule `isBannedRule`.
- `Stores`: the external state as one class `Backend`. It holds the Redis code
  map, the user table, the session's code slot, the token table and the mail
  queue.
- `UsersController`, `SessionsController`, `AuthController`: each action is
  modelled twice.
  - A pure function gives the reply and the new tables: `Admit`,
    `Authenticate` and `Reply`.
  - A module-level method that takes the `Backend` object follows the
    source's early returns and is proved equal to that function. It changes
    only the fields of `Backend` it names.

The model follows the code as written; the code's inconsistencies show up as
lemmas:

- The controller removes only `.` from usernames. The schema's rule removes
  `.`, `_` and `-` (`NormalizationsDiffer`).
- Banned words are lower-cased but not normalised. Under the schema's rule a
  word containing `.`, `_` or `-` never matches (`SeparatorWordNeverMatches`).
  Under the controller's own check only a word containing `.` never matches; a
  word with `_` or `-` still can (`DotWordNeverMatches`, `UnderscoreWordMatches`).
- The existence check looks up the raw username, but the row stores the
  normalised one (`RawUsernamePrecheckAdmitsDuplicate`).
- `sendEmailCode` puts the code in the session slot. Registration reads the
  per-email Redis key, which nothing in the core writes (`SendThenRegister`).
- Supplying both identifiers gives `e_missing_identifier`. Supplying neither
  goes on to credential verification. `e_multiple_identifiers` is unreachable
  (`PlanLogin`, `NoIdentifierProceeds`).
- The login username class `[a-zA-Z0-9.-_]` is a range from `.` to `_`. It
  refuses `-` (`PatternRange`, `HyphenUsernameRefused`).
- The registration schema requires a nickname.
- The controller validates without metadata, so the schema's banned-word rule
  never reports (`SchemaRuleSilent`).

## Model

| member | source | states |
|---|---|---|
| Text.Lower | app/validators/user.ts:24 | lower-casing keeps the length and maps each character on its own, ASCII capitals to small letters |
| Text.LowerOfLower | app/controllers/users_controller.ts:25 | lower-casing a string with no capitals returns it unchanged |
| Text.Strip | app/validators/user.ts:24 | the global replace leaves no listed character, adds none and is no longer than its input |
| Text.StripAbsent | app/validators/user.ts:24 | removing characters that do not occur changes nothing |
| Text.StripEverything | app/validators/user.ts:24 | removing every character that occurs leaves the empty string |
| Text.StripConcat | app/validators/user.ts:24 | removal distributes over concatenation |
| Text.StripIdempotent | app/validators/user.ts:24 | removing twice is removing once |
| Text.StripKeepsLower | app/validators/user.ts:24 | removal keeps a lower-case string lower-case |
| Text.Contains | app/validators/user.ts:33 | `includes`: the word occurs as a contiguous block of the string |
| Text.ContainsEmpty | app/validators/user.ts:32-34 | the empty word is included in every string |
| Text.ContainsOnlyOwnChars | app/validators/user.ts:33 | a word with a character the string lacks is never included |
| Text.StripKeepsOccurrence | app/validators/user.ts:24-34 | a separator-free word found in a value is still found after the separators are removed |
| Text.AnyWordIn | app/validators/user.ts:32-34 | `some` over the list is true iff some lower-cased list word is included in the string |
| Text.TrimStart | app/validators/user.ts:49-53 | the result is a suffix of the input not starting with whitespace, and everything dropped before it is whitespace |
| Text.TrimEnd | app/validators/user.ts:49-53 | the result is a prefix of the input not ending with whitespace, and everything dropped after it is whitespace |
| Text.TrimBlock | app/validators/user.ts:49-53 | a suffix after leading whitespace, cut before trailing whitespace, is a block of the input with only whitespace around it |
| Text.Trim | app/validators/user.ts:49-53 | `trim` yields a block of the input with no whitespace at either end, and only whitespace was removed before and after that block |
| Text.TrimTrimmed | app/validators/user.ts:49-53 | trimming an already trimmed string changes nothing |
| Text.Decimal | app/controllers/auth_controller.ts:28 | a number renders as at least one digit with no leading zero |
| Text.DecimalRoundTrip | app/controllers/auth_controller.ts:28 | parsing the rendered number gives the number back |
| Text.DecimalInjective | app/controllers/auth_controller.ts:28 | distinct numbers render to distinct strings |
| Vine.RequiredString | app/validators/user.ts:49 | `vine.string()` accepts exactly a present string and outputs it; otherwise it reports `required` or `string` |
| Vine.RequiredNumber | app/validators/user.ts:54 | `vine.number()` accepts exactly a present number and outputs it |
| UserValidator.Normalize | app/validators/user.ts:24 | the rule's normal form is lower-case, has no `.`, `_` or `-`, and is no longer than the value |
| UserValidator.NormalizeIdempotent | app/validators/user.ts:24 | normalising twice is normalising once |
| UserValidator.BannedList | app/validators/user.ts:27-29 | the rule consults the list named by its type, an absent list being empty |
| UserValidator.IsBannedRule | app/validators/user.ts:14-45 | non-strings are ignored; a string is reported iff a lower-cased list word occurs in its normal form, with `e_bad_username` or `e_bad_nickname` by rule type |
| UserValidator.MissingListNeverReports | app/validators/user.ts:27-29 | without metadata the list defaults to empty and the rule never reports |
| UserValidator.SeparatorWordNeverMatches | app/validators/user.ts:24-34 | a list word containing `.`, `_` or `-` can never match, since only the value is normalised |
| UserValidator.EmptyWordMatchesAll | app/validators/user.ts:32-34 | an empty list word makes every string value reported |
| UserValidator.MatchesUsernamePattern | app/validators/user.ts:49 | `^[a-zA-Z0-9._-]+$`: non-empty, every character a letter, digit, `.`, `_` or `-` |
| UserValidator.UsernameShapeCheck | app/validators/user.ts:49-50 | the regex, minLength and maxLength rules pass iff the value matches the pattern with length 3..12, and pass it on unchanged |
| UserValidator.BannedCheck | app/validators/user.ts:50-51 | the banned-word link passes iff the rule reports nothing, and otherwise fails with the rule's code |
| UserValidator.CheckUsername | app/validators/user.ts:49-50 | username passes iff it is a string whose trimmed form matches the pattern, has length 3..12 and is not banned; it outputs the trimmed form |
| UserValidator.CheckNickname | app/validators/user.ts:51 | nickname passes iff it is a string whose trimmed form has length 3..12 and is not banned; it outputs the trimmed form |
| UserValidator.CheckEmail | app/validators/user.ts:52 | email passes iff it is a string whose trimmed form is an email; it outputs the trimmed form |
| UserValidator.CheckPassword | app/validators/user.ts:53 | password passes iff it is a string whose trimmed form has length 6..24 |
| UserValidator.CheckEmailCode | app/validators/user.ts:54 | emailCode passes iff it is a number in [100000, 999999], fractions included |
| UserValidator.Validate | app/validators/user.ts:47-56 | the payload is returned iff all five chains pass, with each chain's output, so it has the trimmed shapes and bounds the schema declares; otherwise a non-empty error list over the schema's fields |
| SessionValidator.MatchesSessionPattern | app/validators/session.ts:5 | `^[a-zA-Z0-9.-_]+$`: non-empty, every character a letter, a digit or in the range `.`..`_` |
| SessionValidator.PatternRange | app/validators/session.ts:5 | the class `.-_` admits everything from `.` to `_` (such as `/ : @ [`) but not `-` |
| SessionValidator.HyphenUsernameRefused | app/validators/session.ts:5 | a username containing `-` never matches the login pattern |
| SessionValidator.CheckUsername | app/validators/session.ts:5 | absent passes as absent; a present value passes iff it is a string whose trimmed form matches the pattern with length 3..12, and is then output present and trimmed |
| SessionValidator.CheckEmail | app/validators/session.ts:6 | absent passes as absent; a present value passes iff it is a string whose trimmed form is an email, and is then output present and trimmed |
| SessionValidator.CheckPassword | app/validators/session.ts:7 | password passes iff it is a string; it outputs the trimmed form, with no length bound |
| SessionValidator.CheckRememberMe | app/validators/session.ts:8 | rememberMe passes iff it is absent or a boolean; a sent boolean is output as sent |
| SessionValidator.Validate | app/validators/session.ts:3-10 | the payload is returned iff all four chains pass, with each chain's output; otherwise a non-empty error list |
| SessionValidator.NoIdentifierAccepted | app/validators/session.ts:3-10 | a body with only a password is accepted with both identifiers absent |
| AuthValidator.CheckEmail | app/validators/auth.ts:5 | email passes iff it is a string that is an email as given, untrimmed |
| AuthValidator.CheckType | app/validators/auth.ts:6 | type passes iff it is exactly the string `verifyEmail` |
| AuthValidator.Validate | app/validators/auth.ts:3-9 | accepted iff email and type pass; the payload carries the email as sent |
| UsersController.NormalizeName | app/controllers/users_controller.ts:25-26 | the controller's normal form is lower-case, has no `.` and is no longer than the name |
| UsersController.NormalizeNameIdempotent | app/controllers/users_controller.ts:25 | normalising twice is normalising once |
| UsersController.NormalizationsDiffer | app/controllers/users_controller.ts:25 | `a_b` keeps its underscore in the controller but loses it under the schema rule |
| UsersController.NormalizeStripsInTurn | app/validators/user.ts:24 | removing the three separators at once equals removing `.` and then `_` and `-` |
| UsersController.NormalizeRefinesNormalizeName | app/controllers/users_controller.ts:25 | the schema rule's form is the controller's form with `_` and `-` also removed |
| UsersController.DotsNormalizeToEmpty | app/controllers/users_controller.ts:26 | a nickname of dots only normalises to the empty string |
| UsersController.NewUser | app/controllers/users_controller.ts:58-63 | the stored username is lower-case and dot-free whatever was sent; the nickname is null exactly when it is empty |
| UsersController.Admit | app/controllers/users_controller.ts:25-79 | a rejection leaves both tables unchanged; `e_bad_username` iff the username is banned, `e_bad_nickname` iff it is not but a non-empty normalised nickname is; creation iff neither is banned, the stored code matches, the email and raw username are free and the insert succeeds. Creation adds exactly the new row (one more user), deletes only that email's code and keeps emails unique |
| UsersController.Register | app/controllers/users_controller.ts:21-79 | validation fails iff the schema without metadata refuses the body; a rejection changes nothing; creation needs the body's `emailCode` to equal the code stored for the trimmed email, deletes that code and adds one row |
| UsersController.Store | app/controllers/users_controller.ts:21-80 | the action's reply and new tables are the schema without metadata followed by `Admit`, writing only codes and users |
| UsersController.StoreValidated | app/controllers/users_controller.ts:25-79 | the early-return steps produce exactly `Admit`'s reply and tables |
| UsersController.DotWordNeverMatches | app/controllers/users_controller.ts:29 | a banned word containing `.` never matches the controller's normal form |
| UsersController.UnderscoreWordMatches | app/controllers/users_controller.ts:29 | the banned word `_` matches the name `_` in the controller's check, since only `.` is removed |
| UsersController.SchemaRuleSilent | app/controllers/users_controller.ts:23 | validated without metadata, username and nickname pass iff their shape rules pass |
| UsersController.BannedUsernameFirst | app/controllers/users_controller.ts:29-30 | a banned normalised username is refused with `e_bad_username` whatever follows, and nothing changes |
| UsersController.DotNicknameSkipsCheck | app/controllers/users_controller.ts:32-35 | a nickname of dots is never refused as banned |
| UsersController.WrongCodeRejected | app/controllers/users_controller.ts:37-43 | past the banned checks, a missing or different stored code gives `e_wrong_email_code` and no change |
| UsersController.MissingCodeNeverCreates | app/controllers/users_controller.ts:37-43 | without a stored code for the email no user is ever created |
| UsersController.FractionalCodeNeverCreates | app/controllers/users_controller.ts:41 | a fractional code passes the schema but never creates a user |
| UsersController.TakenIdentifierRejected | app/controllers/users_controller.ts:46-53 | past the code check, an existing email or raw username gives `e_username_or_email_existing` and no change |
| UsersController.CreateFailureKeepsCode | app/controllers/users_controller.ts:57-76 | a failing insert replies 500 `e_create_user_failed` and keeps the code and the users |
| UsersController.SampleUsername | app/controllers/users_controller.ts:25 | `A.b` is a well-formed username stored as `ab` |
| UsersController.RawUsernamePrecheckAdmitsDuplicate | app/controllers/users_controller.ts:46-64 | with a user `ab` present, registering `A.b` succeeds and leaves two rows with username `ab` |
| SessionsController.Truthy | app/controllers/sessions_controller.ts:23 | JavaScript truthiness of an optional string: present and non-empty |
| SessionsController.PlanLogin | app/controllers/sessions_controller.ts:19-31 | both identifiers truthy gives `e_missing_identifier`, `e_multiple_identifiers` never occurs; otherwise the email if present else the username is verified, with 7 days iff rememberMe is true |
| SessionsController.NoIdentifierProceeds | app/controllers/sessions_controller.ts:23-29 | with neither identifier the request goes on to verification with none |
| SessionsController.SingleIdentifierChosen | app/controllers/sessions_controller.ts:29 | with one identifier, that identifier lower-cased is verified |
| SessionsController.Authenticate | app/controllers/sessions_controller.ts:19-34 | a session is created iff the identifiers are not both given and verification finds a user, and otherwise the reply is `e_missing_identifier` or invalid credentials; the token belongs to that user, has ability `*` and lasts 7 days if rememberMe is true, else 2 hours |
| SessionsController.Login | app/controllers/sessions_controller.ts:16-34 | validation fails iff the schema refuses the body; a created session's token has ability `*` and lasts 7 days exactly when the body sent `rememberMe: true`, else 2 hours |
| SessionsController.Store | app/controllers/sessions_controller.ts:16-36 | the reply is validation followed by `Authenticate`; a token is appended iff a session is created |
| SessionsController.CreateSession | app/controllers/sessions_controller.ts:19-34 | the early-return steps produce exactly `Authenticate`'s reply and append its token only on success |
| Stores.HasEmail | app/controllers/users_controller.ts:47 | `User.findBy("email", …)` finds a row: some user has exactly that email |
| Stores.HasUsername | app/controllers/users_controller.ts:48 | `User.findBy("username", …)` finds a row: some user has exactly that username |
| AuthController.CodeFromRandom | app/controllers/auth_controller.ts:17-20 | every draw in [0, 1) yields a code in [100000, 999999] |
| AuthController.CodeRangeEnds | app/controllers/auth_controller.ts:20 | both ends of the range are reachable |
| AuthController.CodeMail | app/controllers/auth_controller.ts:24-30 | the mail goes to the email from the fixed sender with the verify view; its subject is the fixed prefix followed by the code |
| AuthController.SubjectCarriesCode | app/controllers/auth_controller.ts:28-29 | the number read from the subject is the code in the view data |
| AuthController.SubjectsDiffer | app/controllers/auth_controller.ts:28 | different codes give different subjects |
| AuthController.Reply | app/controllers/auth_controller.ts:9-32 | success iff validation passes and the email is not registered; a registered email aborts with `err_email_already_register` |
| AuthController.SendEmailCode | app/controllers/auth_controller.ts:7-33 | the reply is `Reply`; on success the session slot holds the new code and one mail is appended; otherwise nothing changes |
| AuthController.Issue | app/controllers/auth_controller.ts:11-32 | after validation: abort on a registered email, else overwrite the slot and queue the mail |
| AuthController.SendThenRegister | app/controllers/auth_controller.ts:22 | after two sends the slot holds the second code, and registering that email, which has no Redis entry, never creates a user |

## Left out

- Case folding: only ASCII letters are lower-cased. Unicode case mapping and UTF-16 length counting are not modelled, and lengths count code points.
- Email format: `vine.string().email()` is the parameter `isEmail`.
- VineJS coercion: numeric and boolean strings are not coerced. The model assumes the banned-word rule sees an empty metadata object when a call passes none.
- HTTP status of validation failures and of failed credential checks: these are `ValidationFailed` and `InvalidCredentials` with no status.
- Credentials: `User.verifyCredentials` is a parameter. Password hashing, timing and the ORM are not part of this model.
- User rows: ids, timestamps, hashing of the stored password and any unique index of the database are not modelled. Lookups match exactly, with no database collation.
- `User.create` failure is the parameter `createFails`. Its error logging is left out.
- Tokens: the token value, its storage format and expiry enforcement are left out. A token is its owner, abilities and lifetime string.
- Redis: TTLs and the reading of a stored string through `Number()` are left out, and codes are stored as integers. The code deletion is not awaited in the source, but here it takes effect at once.
- The two existence lookups run concurrently in the source; here they run one after the other, since no other request interleaves.
- `Math.random()` is a parameter in [0, 1).
- Mail transport is left out: `sendLater` appends to an outbox.
- Exceptions from `redis.get`, `User.findBy`, `accessTokens.create` and `mail.sendLater` are not caught by the controllers and end as framework error replies; the model has no such failures. In particular a `sendLater` failure after `session.put` would leave the session slot written, which the model does not show.
- JSON numbers are modelled as exact reals, not IEEE doubles; no rounding of large or long-fraction codes is modelled.
- Not part of this model: rate limiting, routes, kernel configuration loading (the banned lists are the parameter `BannedConfig`), deployment tests and the test script.
