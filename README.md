# User login page with authentication — a Dafny model

This project models the authentication core of a small Express application
and its two browser scripts:

- **the server** (index.js): the `authenticateJWT` gate (session user first,
  then a bearer token checked by `jwt.verify`), and the `/register`,
  `/login`, `/dashboard` and `/logout` handlers working on a users
  collection (the four fields of models/usermodel.js) and the caller's
  server-side session;
- **the blur-time field validator** (public/javascripts/app.js):
  `validateField`, which picks at most one message by an else-if chain over
  the trimmed value, and `isValidEmail`, an anchored pattern;
- **the submit helper** (public/auth.js): `validateEmail`, an unanchored
  pattern, the two checks made before the form is sent, what is done with
  the server's answer, and what the logout link does with its answer.

The modules:

| file | module | what it holds |
|---|---|---|
| js_builtins.dfy | `JsBuiltins` | the JavaScript built-ins the core leans on, with their own contracts: truthiness of a string, `String.prototype.trim` (ECMAScript whitespace and line terminators), `split` on one character, `parseInt` (sign, `0x` prefix, leading digits, NaN) |
| server.dfy | `Server` | the gate as a function, the handlers as methods of the class `AuthServer` whose fields are the users collection and the session, and three request sequences |
| field_validation.dfy | `FieldValidation` | `isValidEmail` proved equal to the anchored pattern `^[^\s@]+@[^\s@]+\.[^\s@]+$`, and `validateField` |
| auth_client.dfy | `AuthClient` | `validateEmail` proved equal to the unanchored pattern `\S+@\S+\.\S+`, and the submit, answer and logout decisions |
| consistency.dfy | `Consistency` | how the three layers' checks relate to each other |

How the environment enters the model:

- bcrypt is a record of two functions, `hash` and `compare`. The
  constructor of `AuthServer` requires `Sound`: a digest is never the
  password itself, and `compare` accepts a password against any digest made
  from it. `Server.SoundSatisfiable` shows this can be met.
- `jwt.verify` with the server's secret at the time of the request is a
  parameter `verify: string -> Option<Identity>`. `None` stands for a bad
  signature or an expired token.
- The salt bcrypt draws is a parameter of `Register`.
- Whether `require("./models/usermodel")` succeeded is the constant
  `modelAvailable`.
- A database call that throws (`findOne`, `save`) or a session store that
  reports an error is a boolean parameter of the handler.
- A record's Mongo `_id` is its position in `users`.
- A ghost field `secrets` remembers the password and salt behind each stored
  digest. The class invariant `Valid` holds four things: every stored
  password is such a digest, emails are unique, the session names an existing
  record with that record's email, and bcrypt is `Sound`.

## Model

| member | source | states |
|---|---|---|
| JsBuiltins.Trim | public/javascripts/app.js:30 | `value.trim()`: the result is the input with whitespace removed from both ends only; it is empty exactly when the input is all whitespace, and otherwise neither end is whitespace |
| JsBuiltins.TrimIdempotent | public/javascripts/app.js:30 | trimming a trimmed value changes nothing |
| JsBuiltins.TrimUnpadded | public/javascripts/app.js:30 | a non-empty value with no whitespace at either end is its own trim |
| JsBuiltins.Split | index.js:113 | `split(" ")`: at least one field, the fields joined by the separator give back the input, and no field contains the separator |
| JsBuiltins.SplitAfterSeparator | index.js:113 | splitting `a + sep + b`, where `a` has no separator, gives `a` followed by the fields of `b` |
| JsBuiltins.SplitFirstField | index.js:113 | the first field of `a + b` is `a` when `b` is empty or starts with the separator |
| JsBuiltins.ParseInt | public/javascripts/app.js:55 | `parseInt(value)` is a number exactly when, after leading whitespace and one sign, a decimal digit follows (or, after a `0x`/`0X` prefix, a hexadecimal digit); the number is negative only when the first non-blank character is '-' |
| JsBuiltins.ShowNatDigits | public/javascripts/app.js:55 | the decimal numeral of `n` is all digits, starts with '0' only for 0, and reads back as `n` |
| JsBuiltins.ParseIntShowPrefix | public/javascripts/app.js:55 | `parseInt` of an integer's numeral followed by anything that is not a further digit (nor `x` after a lone 0) is that integer |
| JsBuiltins.ParseIntLeadingDigits | public/javascripts/app.js:55 | `parseInt` of a value starting with `k` digits and then a non-digit is the decimal value of those digits, leading zeros included; only a lone 0 followed by `x` or `X` is excepted |
| JsBuiltins.ParseIntSign | public/javascripts/app.js:55 | a leading '-' negates the unsigned parse of the rest (no further whitespace or sign is skipped after it) |
| JsBuiltins.ParseIntNonNumeric | public/javascripts/app.js:55 | a value whose first non-blank character is no digit and no sign parses to NaN |
| Server.BearerToken | index.js:112-113 | a token exists exactly when the header is a non-empty string holding a space, and the token holds no space |
| Server.BearerTokenOf | index.js:112-113 | a header `scheme token[ more]` yields exactly `token` |
| Server.Gate | index.js:105-120 | the request passes exactly when there is a session user or a non-empty token that verifies; the session user wins; with no session the identity passed on is the verified payload; a refusal is 403 when a token was given and 401 when none was |
| Server.SessionIgnoresHeader | index.js:107-110 | with a session user, the header and the verifier make no difference |
| Server.GateBearer | index.js:112-119 | without a session, `Bearer <token>` passes with exactly the token's payload, or gets 403 when it does not verify |
| Server.GateNoToken | index.js:112-114 | no header, `Bearer` alone and `Bearer  abc` (double space) all get 401, not 403 |
| Server.FindByEmail | index.js:146 | `findOne({ email })`: the first record whose email is exactly the string given, or none when no record has it |
| Server.AuthServer.constructor | index.js:74-81 | the server starts with an empty collection, no session, and the model availability given |
| Server.AuthServer.Register | index.js:132-171 | 400, then 500 without a model, 500 when the lookup throws, 409 for a known email, 500 when saving throws, each leaving users and session unchanged; otherwise exactly one record is appended with a digest that differs from the password and matches it, the session becomes that record and the answer is 201 with its id and email; the invariant is kept |
| Server.AuthServer.Login | index.js:174-199 | the collection never changes; 400, 500 and 500 as in register; an unknown email and a wrong password give the same 401 and keep the session; a matching password gives 200 and signs the client in as the found record; the password a record was registered with always gets 200 |
| Server.AuthServer.Dashboard | index.js:202-211 | the gate's refusal is passed through; then 500 without a model, 404 when the id names no record, else 200 with that record's profile; a signed-in client always sees its own email |
| Server.AuthServer.Logout | index.js:214-223 | a session store error gives 500 and changes nothing; otherwise 200, the `sid` and `token` cookies cleared, no session, the collection unchanged |
| Server.RegisterLogoutLogin | index.js:132-211 | after a successful registration, logging out and logging in with the same email and password succeeds and the dashboard shows the registered email |
| Server.RegisterTwice | index.js:146-150 | a second registration with the same email gets 409 and adds no record |
| Server.LogoutThenDashboard | index.js:214-223 | after a successful logout, the dashboard without a token gets 401 |
| FieldValidation.IsValidEmail | public/javascripts/app.js:69-72 | accepts exactly the strings matching `^[^\s@]+@[^\s@]+\.[^\s@]+$` |
| FieldValidation.ValidateField | public/javascripts/app.js:29-67 | a blank value is "required"; an email-typed value fails exactly when its trim does not match the address pattern; a password-typed value fails exactly when its trim is shorter than 6; the age rule fails exactly when the earlier rules passed, the name is `age` and `parseInt` gives a number outside 13..120; the value is valid exactly when no rule fails; only the four messages occur |
| FieldValidation.OrdinaryFieldValid | public/javascripts/app.js:38-60 | a non-blank field that is neither email- nor password-typed and not named `age` is valid |
| FieldValidation.AgeRange | public/javascripts/app.js:54-59 | an age written as an integer followed by a suffix that is empty, or starts with a non-digit (not `x`/`X` after a lone 0) and does not end in whitespace, is valid exactly inside 13..120 |
| FieldValidation.AgeRule | public/javascripts/app.js:54-59 | with `parseInt` of the trimmed value equal to `n`, the age field is valid exactly when 13 <= n <= 120 |
| FieldValidation.AgeNonNumeric | public/javascripts/app.js:54-59 | a value that does not start with a digit or a sign parses to NaN and passes the age rule |
| FieldValidation.EmailFieldNamedAge | public/javascripts/app.js:44-59 | an email-typed field named `age` holding a well-formed address whose whole local part is an integer's numeral still meets the age rule: valid exactly when that integer is inside 13..120 |
| AuthClient.ValidateEmail | public/auth.js:21-23 | accepts exactly the strings containing a match of `\S+@\S+\.\S+` somewhere |
| AuthClient.CheckSubmission | public/auth.js:32-39 | the form is sent exactly when the email is non-empty and contains an address and the password has at least 6 characters untrimmed; the email message comes first, then the password message |
| AuthClient.ResponseAction | public/auth.js:47-56 | the browser goes to `/dashboard` exactly when the answer is 2xx; otherwise it shows the body's `error`, else its `message`, else "Authentication failed", and never an empty message |
| Consistency.FieldEmailPassesSubmit | public/auth.js:21-23 | every value whose trim the field validator accepts as an address, the submit check accepts too |
| Consistency.EmbeddedAddressPasses | public/auth.js:21-23 | a field-valid address anywhere inside a value makes the submit check accept the value |
| Consistency.SubmitAcceptsSurroundingText | public/auth.js:21-23 | an address surrounded by other text passes the submit check; when the text before it has a space after some non-blank character, that space survives `trim()` and the field validator refuses the value as an email |
| Consistency.SpaceSurvivesTrim | public/javascripts/app.js:30 | a space with non-blank characters on both sides of it is still in the trimmed value |
| Consistency.SpacedValueNotEmail | public/javascripts/app.js:30-47 | an email-typed field whose trimmed value holds a space gets "Please enter a valid email address", whatever its name |
| Consistency.SubmitAcceptsRepeatedAt | public/auth.js:21-23 | `a@@b.c`-shaped values pass the submit check and fail the field validator |
| Consistency.BlankPasswordIsSent | public/auth.js:36-39 | a password of six or more spaces is sent by the submit handler though the field validator calls it empty |
| Consistency.SentFormHasFields | public/auth.js:32-39 | a form the submit handler sends never gets the server's 400 "Email and password required" |
| Consistency.SubmitLogin | public/auth.js:28-56 | the login form end to end: a form the page refuses shows its own message and keeps the session; a sent form shows the server's 500 text without a model or on a lookup failure; an unknown email and a wrong password both show "Invalid credentials" and keep the session; a matching password goes to `/dashboard` signed in as the found record; the collection never changes |
| Consistency.SubmitRegister | public/auth.js:28-56 | the register form end to end: a form the page refuses shows its own message and changes nothing; a sent form shows the server's 500 text without a model; a lookup that throws and a failed save both show "Server error" and change nothing; a known email shows "User with this email already exists" and changes nothing; otherwise the page goes to `/dashboard` with one record appended after the old ones, which stay as they were, and the session on it |
| Consistency.LogoutFromPage | public/auth.js:65-76 | the logout link end to end: when the session is destroyed the page goes to `/login` with no session and the collection unchanged; when the store reports an error the page shows "Could not logout" and nothing changes |

## Left out

- public/three-login.js (the page's 3D background) is not part of this model.
- Start-up and infrastructure are not modelled: the Mongo connection, dotenv, cookie and session middleware settings, static files, the view engine, `listen`, and the error-handling middleware at index.js:226-229. The old code commented out at index.js:1-42 is not modelled either.
- The pages the `GET` routes render are not modelled. The dashboard's page is modelled as the view name plus the record passed to it.
- The token `jwt.sign` makes at registration (index.js:156-158) is never sent or stored, so it is not modelled. Signing, secrets, `iat` and `exp` sit inside the `verify` parameter.
- bcrypt's cost factor and salt generation are not modelled. They sit inside the `Crypto` record and the `salt` parameter.
- Server.AuthServer.Register and Server.AuthServer.Login: the request body fields are strings or absent. JSON values of other types are not modelled. An operator object would reach `findOne` (index.js:146, 186), and a password that is not a string makes `bcrypt.hash` or `bcrypt.compare` throw (index.js:152, 189), giving 500. Mongoose casting `age` to a Number is not modelled, and a cast that fails is covered by `saveFails`.
- Server.AuthServer.Register and Server.AuthServer.Login: requests run one at a time. The race between `findOne` and `save` under concurrent registrations is not modelled. The schema has no unique index, so under concurrency the uniqueness invariant `Valid` would not hold.
- Server.AuthServer.Dashboard: `findById` is outside any try/catch. A database error, or an id that is not a valid ObjectId, raises an exception that the model does not cover. Ids are natural numbers here.
- Server.AuthServer: the class holds the session of the one client making the requests. Several clients with separate sessions are not modelled, and neither is cookie expiry (one hour).
- The collection starts empty in the model. A pre-populated database is not modelled, though `FindByEmail` itself is the general first-match lookup.
- FieldValidation.ValidateField and AuthClient.CheckSubmission: Dafny characters are Unicode scalar values. JavaScript's `length` counts UTF-16 code units, so a password with characters outside the Basic Multilingual Plane is longer in JavaScript than here.
- JsBuiltins.ParseIntShowPrefix and the other `parseInt` lemmas: JavaScript numbers are doubles. A numeral beyond 2^53 loses precision there, but that never changes the comparison with 13 and 120. `-0` is treated as 0.
- The page-side effects of public/javascripts/app.js are not modelled (showing and clearing the message, styling, the other methods of `AuthSystem`).
- The page-side effects of public/auth.js are not modelled. This covers writing into the page, `fetch` and its target (`form.action || pathname`), and network errors with their "Network error" messages. A `res.json()` that fails to parse is also left out. An `error` or `message` value that is not a string is left out too.

## Behaviour of the code worth knowing

- Emails are compared as exact strings, with no case folding or trimming (index.js:146, 186).
- Without a session, a token that fails `jwt.verify` gets 403; a missing or empty token gets 401 (index.js:114-116).
- Uniqueness of emails is a `findOne` followed by a `save` (index.js:146-154). It is not an atomic constraint.
- The token `jwt.sign` makes at registration is discarded, never returned (index.js:156-158).
- Logout answers 500 when the session store reports an error (index.js:216-218).
- The client's blur-time and submit-time email checks are different patterns. `Consistency` proves that the submit check is the weaker of the two.
