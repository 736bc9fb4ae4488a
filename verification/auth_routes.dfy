/** The two Express handlers of the backend, POST /api/register and
    POST /api/login, as pure functions over an in-memory user collection.
    Each awaited call that can reject (the collection query, bcrypt, the
    document save) is represented by a fault flag; a rejection lands in the
    handler's `catch` and becomes the generic server error. */
module AuthRoutes {
  import opened JsText
  import opened Options

  /** The cost factor passed to `bcrypt.hash`. */
  const SaltRounds: nat := 10
  /** `expiresIn: '15m'`, in the seconds a JSON Web Token counts in. */
  const TokenLifetime: int := 15 * 60

  const UserExists: JsString := Ascii("User already exists")
  const UserCreated: JsString := Ascii("User created successfully")
  const InvalidCredentials: JsString := Ascii("invalid credentials")
  const LoginSucceeded: JsString := Ascii("login successful")
  const ServerError: JsString := Ascii("Server error")

  /** The document identifier the database gives a new user. */
  type ObjectId = nat

  /** A bcrypt hash string as stored in the `password` field. */
  datatype Digest = Digest(encoded: JsString)

  /** A user document. Registration fills `username`; the optional `name` is
      what login reports back. */
  datatype Record = Record(id: ObjectId, username: JsString, email: JsString, password: Digest, name: Option<JsString>)

  /** The users collection, looked up by exact email. */
  type Store = map<JsString, Record>

  /** bcryptjs as the handlers use it: `hash(rounds, salt, password)` and
      `compare(password, digest)`. The salt bcrypt draws at random is an
      input here. */
  datatype Bcrypt = Bcrypt(hash: (nat, JsString, JsString) -> Digest, compare: (JsString, Digest) -> bool)

  /** The one property of bcrypt the handlers rely on: a password matches
      any hash made from it. */
  ghost predicate CompareAcceptsOwnHash(b: Bcrypt) {
    forall rounds, salt, p :: b.compare(p, b.hash(rounds, salt, p))
  }

  /** Which awaited call rejects during one request. */
  datatype Faults = Faults(findThrows: bool, hashThrows: bool, saveThrows: bool, compareThrows: bool)

  const NoFaults := Faults(false, false, false, false)

  /** Everything a request depends on besides the collection and its body:
      bcrypt, the random salt, the id the new document gets, the clock in
      seconds, the `JWT_SECRET` environment variable and the faults. */
  datatype Env = Env(bcrypt: Bcrypt, salt: JsString, freshId: ObjectId, now: int, secret: Option<JsString>, faults: Faults)

  datatype RegisterRequest = RegisterRequest(username: JsString, email: JsString, password: JsString)
  datatype LoginRequest = LoginRequest(email: JsString, password: JsString)

  /** The claims of a signed token: the payload the handler builds plus the
      issue and expiry times `jwt.sign` adds. The signature is not modelled. */
  datatype Token = Token(id: ObjectId, email: JsString, iat: int, exp: int)

  datatype PublicUser = PublicUser(id: ObjectId, name: Option<JsString>, email: JsString)

  datatype Body =
    | Message(message: JsString)
    | LoginSuccess(message: JsString, token: Token, user: PublicUser)

  datatype Response = Response(status: nat, body: Body)

  datatype Handled = Handled(response: Response, store: Store)

  const Rejected := Response(400, Message(InvalidCredentials))
  const Failed := Response(500, Message(ServerError))

  /** `jwt.sign(payload, secret, {expiresIn: '15m'})`: it throws when the
      secret is missing or empty, and otherwise stamps the payload with the
      current time and an expiry fifteen minutes later. */
  function Sign(id: ObjectId, email: JsString, secret: Option<JsString>, now: int): (t: Option<Token>)
    ensures t.Some? <==> secret.Some? && secret.value != []
    ensures t.Some? ==> t.value.id == id && t.value.email == email
    ensures t.Some? ==> t.value.iat == now && t.value.exp - t.value.iat == TokenLifetime
  {
    if secret.None? || secret.value == [] then None
    else Some(Token(id, email, now, now + TokenLifetime))
  }

  /** A verifier accepts a token up to, but not including, its expiry second. */
  predicate Unexpired(t: Token, clock: int) {
    clock < t.exp
  }

  /** POST /api/register. An email already present is refused with 400
      before anything is hashed; otherwise exactly one document is added
      under that email, holding the username and the hash of the password,
      and the answer is 201. Every failure leaves the collection as it was,
      and no answer carries anything but a fixed message. */
  function Register(store: Store, req: RegisterRequest, env: Env): (h: Handled)
    ensures h.response.body.Message?
    ensures h.response.status == 201 || h.response.status == 400 || h.response.status == 500
    ensures !env.faults.findThrows && req.email in store ==> h == Handled(Response(400, Message(UserExists)), store)
    ensures h.response.status == 201 <==>
              req.email !in store && !env.faults.findThrows && !env.faults.hashThrows && !env.faults.saveThrows
    ensures h.response.status == 201 ==> h.response.body.message == UserCreated
    ensures h.response.status == 500 <==>
              env.faults.findThrows || (req.email !in store && (env.faults.hashThrows || env.faults.saveThrows))
    ensures h.response.status == 500 ==> h.response == Failed
    ensures h.response.status != 201 ==> h.store == store
    ensures h.response.status == 201 ==>
              && req.email !in store
              && h.store.Keys == store.Keys + {req.email}
              && h.store[req.email] == Record(env.freshId, req.username, req.email,
                                              env.bcrypt.hash(SaltRounds, env.salt, req.password), None)
    ensures forall e | e in store :: e in h.store && h.store[e] == store[e]
  {
    if env.faults.findThrows then Handled(Failed, store)
    else if req.email in store then Handled(Response(400, Message(UserExists)), store)
    else if env.faults.hashThrows then Handled(Failed, store)
    else
      var digest := env.bcrypt.hash(SaltRounds, env.salt, req.password);
      var user := Record(env.freshId, req.username, req.email, digest, None);
      if env.faults.saveThrows then Handled(Failed, store)
      else Handled(Response(201, Message(UserCreated)), store[req.email := user])
  }

  /** POST /api/login. An unknown email and a wrong password get the same
      400 answer; a match gets a token for the document's id and email and
      the document's public fields. Login never writes. */
  function Login(store: Store, req: LoginRequest, env: Env): (r: Response)
    ensures r.status == 200 || r.status == 400 || r.status == 500
    ensures r.status == 400 ==> r == Rejected
    ensures r.status == 500 ==> r == Failed
    ensures r.status == 400 <==>
              && !env.faults.findThrows
              && (req.email !in store
                  || (!env.faults.compareThrows && !env.bcrypt.compare(req.password, store[req.email].password)))
    ensures r.status == 200 <==>
              && !env.faults.findThrows && !env.faults.compareThrows
              && req.email in store && env.bcrypt.compare(req.password, store[req.email].password)
              && env.secret.Some? && env.secret.value != []
    ensures r.status == 200 ==>
              var u := store[req.email];
              r.body == LoginSuccess(LoginSucceeded,
                                     Token(u.id, u.email, env.now, env.now + TokenLifetime),
                                     PublicUser(u.id, u.name, u.email))
  {
    if env.faults.findThrows then Failed
    else if req.email !in store then Rejected
    else
      var user := store[req.email];
      if env.faults.compareThrows then Failed
      else if !env.bcrypt.compare(req.password, user.password) then Rejected
      else match Sign(user.id, user.email, env.secret, env.now)
        case None => Failed
        case Some(token) => Response(200, LoginSuccess(LoginSucceeded, token, PublicUser(user.id, user.name, user.email)))
  }

  /** Every document sits under its own email. */
  ghost predicate KeyedByEmail(store: Store) {
    forall e | e in store :: store[e].email == e
  }

  ghost predicate DistinctIds(store: Store) {
    forall e1, e2 | e1 in store && e2 in store && e1 != e2 :: store[e1].id != store[e2].id
  }

  predicate IdInUse(store: Store, id: ObjectId) {
    exists e | e in store :: store[e].id == id
  }

  /** Registration keeps one document per email with the document under its
      own address, and keeps ids distinct when the new id is unused. */
  lemma RegisterPreservesInvariants(store: Store, req: RegisterRequest, env: Env)
    requires KeyedByEmail(store)
    ensures KeyedByEmail(Register(store, req, env).store)
    ensures DistinctIds(store) && !IdInUse(store, env.freshId) ==> DistinctIds(Register(store, req, env).store)
  {
  }

  /** A second registration of an address that registered successfully is
      refused, whatever the password, and changes nothing. */
  lemma SecondRegistrationRefused(store: Store, first: RegisterRequest, second: RegisterRequest, env1: Env, env2: Env)
    requires Register(store, first, env1).response.status == 201
    requires second.email == first.email && !env2.faults.findThrows
    ensures var h := Register(store, first, env1).store;
            Register(h, second, env2) == Handled(Response(400, Message(UserExists)), h)
  {
  }

  /** An unknown email and a known email with the wrong password get one and
      the same answer, so a caller cannot tell them apart. */
  lemma RejectionsIndistinguishable(s1: Store, r1: LoginRequest, e1: Env, s2: Store, r2: LoginRequest, e2: Env)
    requires !e1.faults.findThrows && r1.email !in s1
    requires !e2.faults.findThrows && !e2.faults.compareThrows
    requires r2.email in s2 && !e2.bcrypt.compare(r2.password, s2[r2.email].password)
    ensures Login(s1, r1, e1) == Login(s2, r2, e2) == Rejected
  {
  }

  /** When `bcrypt.compare` rejects for a known email (as it does for a
      document with no `password` field), the answer is 500, while the same
      request for an unknown email gets 400: the two can be told apart. */
  lemma CompareFailureRevealsKnownEmail(store: Store, req: LoginRequest, env: Env)
    requires !env.faults.findThrows && env.faults.compareThrows && req.email in store
    ensures Login(store, req, env) == Failed
    ensures Login(store - {req.email}, req, env) == Rejected
  {
  }

  /** Register then log in with the same email and password: the login
      succeeds, the token is for the new document, and the user it reports
      has no `name`, because registration only fills `username`. */
  lemma RegisterThenLogin(store: Store, req: RegisterRequest, env: Env, env2: Env)
    requires CompareAcceptsOwnHash(env.bcrypt) && env2.bcrypt == env.bcrypt
    requires Register(store, req, env).response.status == 201
    requires env2.faults == NoFaults && env2.secret.Some? && env2.secret.value != []
    ensures var r := Login(Register(store, req, env).store, LoginRequest(req.email, req.password), env2);
            && r.status == 200
            && r.body.token == Token(env.freshId, req.email, env2.now, env2.now + TokenLifetime)
            && r.body.user == PublicUser(env.freshId, None, req.email)
  {
  }

  /** The token a login issues is accepted through the fourteenth minute and
      refused from the fifteenth on. */
  lemma TokenLifetimeWindow(store: Store, req: LoginRequest, env: Env)
    requires Login(store, req, env).status == 200
    ensures Unexpired(Login(store, req, env).body.token, env.now + 14 * 60)
    ensures !Unexpired(Login(store, req, env).body.token, env.now + 15 * 60)
    ensures !Unexpired(Login(store, req, env).body.token, env.now + 16 * 60)
  {
  }

  /** The register answer does not depend on the password or the salt. */
  lemma RegisterAnswerIgnoresPassword(store: Store, req: RegisterRequest, env: Env, p: JsString, salt: JsString)
    ensures Register(store, req, env).response
         == Register(store, req.(password := p), env.(salt := salt)).response
  {
  }

  /** A successful login answer depends on the document but not on the
      password given or the hash stored: two logins that both succeed on
      documents that differ at most in their hash answer alike. */
  lemma LoginAnswerIgnoresPasswordAndHash(store: Store, req: LoginRequest, env: Env, p: JsString, d: Digest)
    requires req.email in store
    requires Login(store, req, env).status == 200
    requires var s2 := store[req.email := store[req.email].(password := d)];
             Login(s2, req.(password := p), env).status == 200
    ensures var s2 := store[req.email := store[req.email].(password := d)];
            Login(store, req, env) == Login(s2, req.(password := p), env)
  {
  }
}
