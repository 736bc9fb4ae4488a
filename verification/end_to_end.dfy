/** The two screens and the backend together: what a person who signed up
    can then do from the log-in screen. */
module EndToEnd {
  import opened Options
  import SignupScreen
  import LoginScreen
  import opened AuthRoutes

  /** The register request the backend receives for a sign-up body. */
  function ToRegisterRequest(b: SignupScreen.RegisterBody): RegisterRequest {
    RegisterRequest(b.username, b.email, b.password)
  }

  function ToLoginRequest(b: LoginScreen.LoginBody): LoginRequest {
    LoginRequest(b.email, b.password)
  }

  /** Whoever could press "Create account" can press "Log in" with the same
      email and password: the log-in checks are no stricter than the sign-up
      checks. When the address was new and nothing fails, the registration
      is accepted and the following log-in is answered with a token for the
      new document. */
  lemma SignedUpUserCanLogIn(f: SignupScreen.Form, store: Store, env: Env, env2: Env, touched: bool)
    requires SignupScreen.CanCreate(f)
    requires f.email !in store && env.faults == NoFaults
    requires CompareAcceptsOwnHash(env.bcrypt) && env2.bcrypt == env.bcrypt
    requires env2.faults == NoFaults && env2.secret.Some? && env2.secret.value != []
    ensures var g := LoginScreen.Form(f.email, f.pass, touched);
            && LoginScreen.CanLogin(g)
            && var h := Register(store, ToRegisterRequest(SignupScreen.OnCreate(f).1.value), env);
               && h.response.status == 201
               && Login(h.store, ToLoginRequest(LoginScreen.OnLogin(g).1.value), env2).status == 200
  {
  }
}
