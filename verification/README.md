# LocalBite credentials: sign-up, log-in and the auth routes in Dafny

This project models the credential flow of the LocalBite restaurant-discovery
app. It has two parts.

- The Express backend's `POST /api/register` and `POST /api/login` handlers.
  They are pure functions over an in-memory users collection: a map from
  exact email to a user document `{id, username, email, password, name?}`.
  bcryptjs is a pair of function values, `hash(rounds, salt, password)` and
  `compare(password, digest)`. The one fact the proofs assume about bcrypt is
  stated as the predicate `CompareAcceptsOwnHash`, used as a precondition and
  never as an axiom. `jwt.sign` becomes a token record `{id, email, iat, exp}`
  with `exp = iat + 900` seconds.
- The mobile client's sign-up and log-in screens: the form checks, the
  `touched` flag and error texts, the gate in `onCreate` / `onLogin`, the
  disabled button, and the request bodies they send.

Strings are JavaScript strings: sequences of UTF-16 code units
(`JsText.CodeUnit`), so `length` is exact. `trim` and the regular-expression
classes `\s` / `\S` share one whitespace predicate: ECMAScript WhiteSpace plus
LineTerminator. The email check `/\S+@\S+\.\S+/.test(email.trim())` is first
stated as what the regular expression means: some substring splits as
non-whitespace, `@`, non-whitespace, `.`, non-whitespace. It is proved equal to
a condition on two indices. A linear scan is proved to decide it.

Each awaited call that can reject sets a fault flag: `User.findOne`,
`bcrypt.hash`, `save` and `bcrypt.compare`. `jwt.sign` is taken to throw
when `JWT_SECRET` is unset or empty, and to succeed otherwise (see
"Left out" for the one other case). Every such failure reaches the handler's
`catch` and becomes `500 {message: "Server error"}`. The salt, the new
document's id, the clock and the secret are inputs of each request (`Env`).

Files: `js_text.dfy` (code units, whitespace, trim), `email_pattern.dfy`,
`signup_screen.dfy`, `login_screen.dfy`, `auth_routes.dfy` (the two handlers),
`auth_service.dfy` (the handlers as a state machine over request sequences),
`end_to_end.dfy` (client and backend together), `options.dfy`.

Behaviour of the code worth knowing:

- The code has no atomic create and no "already exists" on a lost race.
- It does not validate the body on the server.
- The handler sets no `createdAt`; the user schema is not part of this model.
- Login reports `user.name`, which registration never sets. So a freshly
  registered user logs in with no `name`, as `RegisterThenLogin` states.
- The seed script's `users` documents have no `password` field
  (SourceCode/LocalBite.js:21-30). A login with a seeded email reaches
  `bcrypt.compare(password, undefined)`, which rejects, so the answer is 500,
  while an unknown email gets 400. The model reaches this case only through
  the `compareThrows` flag; `CompareFailureRevealsKnownEmail` states that the
  two answers differ.

## Model

| member | source | states |
|---|---|---|
| JsText.Trim | SourceCode/LocalBiteApp/app/signup.tsx:36 | the result is a slice of the input whose two ends are not whitespace, and everything cut off on either side is whitespace |
| JsText.TrimOfPadded | SourceCode/LocalBiteApp/app/signup.tsx:36 | converse of `Trim`'s contract: trimming whitespace-padded `t` gives `t` back whenever `t` has no whitespace at its ends |
| JsText.TrimIdempotent | SourceCode/LocalBiteApp/app/login.tsx:35 | trimming an already-trimmed string changes nothing |
| EmailPattern.RegexTestIffShape | SourceCode/LocalBiteApp/app/signup.tsx:35 | the unanchored `\S+@\S+\.\S+` matches exactly when there is an `@` at a ≥ 1 and a `.` at d ≥ a+2, with non-whitespace before the `@`, everywhere between them and right after the `.` |
| JsText.TrimIgnoresPadding | SourceCode/LocalBiteApp/app/signup.tsx:35-36 | adding whitespace on either side of any string does not change its trim |
| JsText.TrimmedLengthAtLeastTwo | SourceCode/LocalBiteApp/app/signup.tsx:36 | the trim has two or more units exactly when the string holds two non-whitespace units |
| EmailPattern.EmailOk | SourceCode/LocalBiteApp/app/signup.tsx:35 | `emailOk` holds exactly when the regular expression matches the trimmed email |
| EmailPattern.Test | SourceCode/LocalBiteApp/app/login.tsx:35 | one left-to-right scan answers true exactly when the regular expression matches |
| EmailPattern.AcceptsPlainAddress | SourceCode/LocalBiteApp/app/signup.tsx:35 | `jane@x.com` passes the email check |
| EmailPattern.AcceptsPaddedAddress | SourceCode/LocalBiteApp/app/signup.tsx:35 | whitespace around an address is trimmed before testing, so `"  a@b.c "` passes |
| EmailPattern.RejectsMissingDot | SourceCode/LocalBiteApp/app/signup.tsx:35 | `a@b` fails: there is no `.` after the `@` |
| SignupScreen.NameOk | SourceCode/LocalBiteApp/app/signup.tsx:36 | `nameOk` holds exactly when the name contains at least two non-whitespace units |
| SignupScreen.EmailOk | SourceCode/LocalBiteApp/app/signup.tsx:35 | `emailOk` holds exactly when `\S+@\S+\.\S+` matches the trimmed email |
| SignupScreen.PassOk | SourceCode/LocalBiteApp/app/signup.tsx:37 | `passOk`: the password has at least six code units, untrimmed |
| SignupScreen.MatchOk | SourceCode/LocalBiteApp/app/signup.tsx:38 | `matchOk`: the confirmation equals the password and is not empty |
| SignupScreen.CanCreate | SourceCode/LocalBiteApp/app/signup.tsx:40 | `canCreate`: all four checks pass; the button is disabled otherwise |
| SignupScreen.NameErrorShown | SourceCode/LocalBiteApp/app/signup.tsx:102 | "Enter your name." shows when the form is touched and the name check fails |
| SignupScreen.EmailErrorShown | SourceCode/LocalBiteApp/app/signup.tsx:117 | "Enter a valid email." shows when the form is touched and the email check fails |
| SignupScreen.PassErrorShown | SourceCode/LocalBiteApp/app/signup.tsx:131 | "Min 6 characters." shows when the form is touched and the password check fails |
| SignupScreen.MatchErrorShown | SourceCode/LocalBiteApp/app/signup.tsx:145 | "Passwords must match." shows when the form is touched and the confirmation check fails |
| SignupScreen.OnCreate | SourceCode/LocalBiteApp/app/signup.tsx:74-81 | the form always becomes touched with its inputs unchanged; a request is sent iff name, email, password and confirmation checks all pass; it carries the untrimmed name, email and password |
| SignupScreen.ConfirmationLength | SourceCode/LocalBiteApp/app/signup.tsx:37-38 | a password that passes the length check and is confirmed makes the confirmation at least six units long |
| SignupScreen.SentBodyPassesChecks | SourceCode/LocalBiteApp/app/signup.tsx:35-55 | every register body sent has a username of two or more units once trimmed, a well-shaped email once trimmed, and a password of six or more units |
| SignupScreen.ErrorShownIffNotSent | SourceCode/LocalBiteApp/app/signup.tsx:102-145 | after `onCreate`, some error text is shown exactly when the request was held back |
| SignupScreen.Step | SourceCode/LocalBiteApp/app/signup.tsx:94-151 | each edit replaces exactly its own field and sends nothing; a blur sets touched; a press on the enabled button sets touched and sends the current name, email and password; a press on the disabled button changes nothing; a request is sent only by such a press, and touched is never cleared |
| SignupScreen.Run | SourceCode/LocalBiteApp/app/signup.tsx:94-151 | a session sends at most one request per event, and none without a press |
| SignupScreen.RunSendsOnlyValidBodies | SourceCode/LocalBiteApp/app/signup.tsx:148-151 | over any sequence of edits, blurs and presses, every register body sent passes the client checks, and touched stays set |
| SignupScreen.BlankCannotCreate | SourceCode/LocalBiteApp/app/signup.tsx:29-40 | the empty initial form cannot create an account, and pressing on it does nothing |
| LoginScreen.EmailOk | SourceCode/LocalBiteApp/app/login.tsx:35 | `emailOk` holds exactly when `\S+@\S+\.\S+` matches the trimmed email |
| LoginScreen.PasswordOk | SourceCode/LocalBiteApp/app/login.tsx:36 | `passwordOk`: the password has at least six code units, untrimmed |
| LoginScreen.CanLogin | SourceCode/LocalBiteApp/app/login.tsx:37 | `canLogin`: both checks pass |
| LoginScreen.EmailErrorShown | SourceCode/LocalBiteApp/app/login.tsx:107-109 | "Enter a valid email" shows when the form is touched and the email check fails |
| LoginScreen.PasswordErrorShown | SourceCode/LocalBiteApp/app/login.tsx:124-126 | "Minimum 6 characters" shows when the form is touched and the password check fails |
| LoginScreen.OnLogin | SourceCode/LocalBiteApp/app/login.tsx:70-75 | the form always becomes touched; the login request is sent iff the email and password checks pass, carrying email and password exactly as typed |
| LoginScreen.ErrorShownIffNotSent | SourceCode/LocalBiteApp/app/login.tsx:107-126 | after `onLogin`, the email error shows iff the email check fails and the password error iff the password check fails; some error shows iff no request was sent |
| LoginScreen.UntouchedShowsNothing | SourceCode/LocalBiteApp/app/login.tsx:107-109 | an untouched form shows no error text, whatever has been typed |
| LoginScreen.PaddedEmailSentAsTyped | SourceCode/LocalBiteApp/app/login.tsx:35-51 | whitespace around any email `t` does not change the email check, and when `t` and the password pass, the request carries the padded email exactly as typed |
| LoginScreen.Step | SourceCode/LocalBiteApp/app/login.tsx:96-148 | each edit replaces exactly its own field and sends nothing; a blur sets touched; a press on the enabled button sets touched and sends the current email and password; a press on the disabled button changes nothing; a request is sent only by such a press, and touched is never cleared |
| LoginScreen.Run | SourceCode/LocalBiteApp/app/login.tsx:96-148 | a session sends at most one request per event, and none without a press |
| LoginScreen.RunSendsOnlyValidBodies | SourceCode/LocalBiteApp/app/login.tsx:35-75 | over any session, every login body sent has a well-shaped email and a password of six or more units |
| AuthRoutes.Sign | SourceCode/startup-backend/routes/auth.js:45-47 | signing fails iff the secret is unset or empty; the token carries the document's id and email, issued now and expiring 900 seconds later |
| AuthRoutes.Register | SourceCode/startup-backend/routes/auth.js:9-32 | an existing email gets 400 "User already exists" with no change, even when hashing would fail. 201 "User created successfully" iff the email is new and nothing rejects. Then exactly one document is added, holding that email, the username, the bcrypt hash at cost 10 and no name. Any failure gives 500 "Server error". The answer is 500 exactly when the lookup rejects, or the email is new and hashing or saving rejects. A non-201 answer leaves the collection unchanged, and existing documents are never altered |
| AuthRoutes.Login | SourceCode/startup-backend/routes/auth.js:35-62 | unknown email or wrong password gets 400 "invalid credentials"; a failing call or an unusable secret gets 500 "Server error"; 200 iff the email is known, the password matches and the secret is set, with a token for the document's id and email expiring in 15 minutes and the user `{id, name, email}` |
| AuthRoutes.RegisterPreservesInvariants | SourceCode/startup-backend/routes/auth.js:15-24 | registration keeps every document under its own email, and keeps ids distinct when the new id is unused |
| AuthRoutes.SecondRegistrationRefused | SourceCode/startup-backend/routes/auth.js:15-17 | after a successful registration, registering the same email again, with any password, gets 400 and changes nothing |
| AuthRoutes.RejectionsIndistinguishable | SourceCode/startup-backend/routes/auth.js:39-43 | an unknown email and a wrong password get the identical status and body |
| AuthRoutes.CompareFailureRevealsKnownEmail | SourceCode/startup-backend/routes/auth.js:39-43 | when `bcrypt.compare` rejects for a known email the answer is 500, while the same request for an unknown email gets 400 |
| AuthRoutes.RegisterThenLogin | SourceCode/startup-backend/routes/auth.js:19-55 | when a password matches its own hash, a successful register followed by a login with the same email and password succeeds; the token is for the new document, and the reported user has no name |
| AuthRoutes.TokenLifetimeWindow | SourceCode/startup-backend/routes/auth.js:47 | an issued token is still valid 14 minutes after issue and expired at 15 and 16 minutes |
| AuthRoutes.RegisterAnswerIgnoresPassword | SourceCode/startup-backend/routes/auth.js:13-31 | the register answer is the same for every password and salt, so it carries no password material |
| AuthRoutes.LoginAnswerIgnoresPasswordAndHash | SourceCode/startup-backend/routes/auth.js:45-57 | two successful logins whose documents differ at most in the stored hash, with any passwords, get identical answers, so no password or hash reaches the body or token |
| AuthService.Handle | SourceCode/startup-backend/routes/auth.js:9-62 | a login never writes; no request changes or removes a document; a new document only appears under the email of a register call answered 201 |
| AuthService.Serve | SourceCode/startup-backend/routes/auth.js:9-62 | one answer per request |
| AuthService.ServeAnswersInOrder | SourceCode/startup-backend/routes/auth.js:9-62 | the k-th answer is the handler's answer to the k-th request, given the collection left by the requests before it |
| AuthService.ServeOnlyAddsRegisteredDocuments | SourceCode/startup-backend/routes/auth.js:15-24 | over any request sequence, no document changes or disappears. Every new email was created by a register call answered 201, and documents stay keyed by their own email |
| AuthService.LoginsNeverWrite | SourceCode/startup-backend/routes/auth.js:35-62 | any sequence of login requests leaves the collection exactly as it was |
| EndToEnd.SignedUpUserCanLogIn | SourceCode/LocalBiteApp/app/login.tsx:35-37 | any input that enables "Create account" also passes the log-in checks with the same email and password. With a new address and no failures, registration is answered 201 and the following login 200 |

## Left out

- Concurrency: two registrations of one email interleaving between the lookup and the save. Nothing in the handler guards this, and only the sequential reading is modelled.
- bcrypt and JWT internals: salting, the cost factor's effect, hash encoding and token signatures. A token is its claims. The secret is an input (`Env.secret`), and only whether it is set and non-empty matters; the signature it would produce is not represented.
- AuthRoutes.Sign: with a non-empty secret the model always signs. Depending on the jsonwebtoken version, `jwt.sign` may also throw under HS256 when the secret parses as an asymmetric (PEM) private key; the library version and key parsing are not part of this model, so that 500 is not modelled.
- The database: queries are exact-match lookups in a map, and document ids are an input. The `User` schema and its validation are not part of this model; a rejected save is the `saveThrows` fault.
- Request bodies with missing or non-string fields. How Mongoose treats `{email: undefined}` depends on query casting that is not part of this model. The model takes the three fields to be strings.
- A missing `req.body` (`undefined` or `null`): destructuring it throws synchronously, which the same `catch` would turn into 500. The model has no such input. Other non-object bodies only yield undefined fields, and `express.json()` in its default strict mode (SourceCode/startup-backend/server.js:12) parses only objects and arrays.
- Logging: the register handler writes the request body, including the plaintext password (SourceCode/startup-backend/routes/auth.js:11), the existing document with its hash (line 16), the new hash (line 20) and the new document (line 23) to the server console. The model has no log, so `RegisterAnswerIgnoresPassword` and `LoginAnswerIgnoresPasswordAndHash` cover responses only.
- The screens' `fetch`, alerts and navigation, JSX and styles. The log-in screen's request handler is broken as written: it assigns `reponse`, reads `response`, and calls `Response.json()`. Only the body it would send is modelled.
- The server bootstrap (middleware, database connection, ping route, `listen`) and the seed script: wiring and data with no logic of their own; the seeded users' missing `password` is noted above.
- Token verification happens outside this backend. `Unexpired` only states the usual rule: a token is accepted while the clock is before `exp`.
