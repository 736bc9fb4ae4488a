/** The log-in screen of the mobile client: two text inputs, the `touched`
    flag, the two checks that gate the button, the error texts, and the body
    of the POST /api/login request. */
module LoginScreen {
  import opened JsText
  import opened Options
  import EmailPattern

  const MinPasswordLength := 6

  datatype Form = Form(email: JsString, password: JsString, touched: bool)

  /** The JSON body of POST /api/login. */
  datatype LoginBody = LoginBody(email: JsString, password: JsString)

  /** The same email check as the sign-up screen. */
  predicate EmailOk(f: Form)
    ensures EmailOk(f) <==> EmailPattern.RegexTest(Trim(f.email))
  {
    EmailPattern.EmailOk(f.email)
  }

  predicate PasswordOk(f: Form) {
    |f.password| >= MinPasswordLength
  }

  predicate CanLogin(f: Form) {
    EmailOk(f) && PasswordOk(f)
  }

  predicate EmailErrorShown(f: Form) { f.touched && !EmailOk(f) }
  predicate PasswordErrorShown(f: Form) { f.touched && !PasswordOk(f) }

  /** `onLogin`: the form becomes touched, and the login request is sent,
      with the email and password exactly as typed, only when both checks
      pass. */
  function OnLogin(f: Form): (r: (Form, Option<LoginBody>))
    ensures r.0.touched && r.0.email == f.email && r.0.password == f.password
    ensures r.1.Some? <==> EmailOk(f) && PasswordOk(f)
    ensures r.1.Some? ==> r.1.value == LoginBody(f.email, f.password)
  {
    var f' := f.(touched := true);
    if !CanLogin(f) then (f', None) else (f', Some(LoginBody(f.email, f.password)))
  }

  /** After `onLogin`, an error text is on screen exactly when the request
      was held back, and each text names the check that failed. */
  lemma ErrorShownIffNotSent(f: Form)
    ensures EmailErrorShown(OnLogin(f).0) <==> !EmailOk(f)
    ensures PasswordErrorShown(OnLogin(f).0) <==> !PasswordOk(f)
    ensures (EmailErrorShown(OnLogin(f).0) || PasswordErrorShown(OnLogin(f).0)) <==> OnLogin(f).1.None?
  {
  }

  /** An untouched form shows no error, whatever has been typed. */
  lemma UntouchedShowsNothing(f: Form)
    requires !f.touched
    ensures !EmailErrorShown(f) && !PasswordErrorShown(f)
  {
  }

  /** Trimming is only for the check: an email padded with whitespace on
      either side passes exactly when the bare address does, and the request
      then carries the padded email exactly as typed. */
  lemma PaddedEmailSentAsTyped(p: JsString, t: JsString, q: JsString, password: JsString, touched: bool)
    requires AllWhitespace(p) && AllWhitespace(q)
    ensures EmailPattern.EmailOk(p + t + q) <==> EmailPattern.EmailOk(t)
    ensures EmailPattern.EmailOk(t) && |password| >= MinPasswordLength ==>
              OnLogin(Form(p + t + q, password, touched)).1 == Some(LoginBody(p + t + q, password))
  {
    TrimIgnoresPadding(p, t, q);
  }

  datatype Event =
    | EditEmail(email: JsString)
    | EditPassword(password: JsString)
    | Blur
    | Press

  /** One event; the button is disabled while `canLogin` is false. */
  function Step(f: Form, e: Event): (r: (Form, Option<LoginBody>))
    ensures f.touched ==> r.0.touched
    ensures r.1.Some? ==> e.Press? && CanLogin(f) && r.1.value == LoginBody(f.email, f.password)
    ensures e.Press? && !CanLogin(f) ==> r == (f, None)
    ensures e.Press? && CanLogin(f) ==> r == (f.(touched := true), Some(LoginBody(f.email, f.password)))
    ensures e.EditEmail? ==> r == (f.(email := e.email), None)
    ensures e.EditPassword? ==> r == (f.(password := e.password), None)
    ensures e.Blur? ==> r == (f.(touched := true), None)
  {
    match e
    case EditEmail(v) => (f.(email := v), None)
    case EditPassword(v) => (f.(password := v), None)
    case Blur => (f.(touched := true), None)
    case Press => if CanLogin(f) then OnLogin(f) else (f, None)
  }

  /** A session: the final form and the login requests sent, in order.
      Only presses send, at most one request each. */
  function Run(f: Form, es: seq<Event>): (r: (Form, seq<LoginBody>))
    ensures |r.1| <= |es|
    ensures (forall k | 0 <= k < |es| :: !es[k].Press?) ==> r.1 == []
    decreases |es|
  {
    if es == [] then (f, [])
    else
      var (f', sent) := Step(f, es[0]);
      var (g, rest) := Run(f', es[1..]);
      (g, (if sent.Some? then [sent.value] else []) + rest)
  }

  /** Over any session, every login request sent carries an email of the
      right shape and a password of at least six units. */
  lemma {:induction false} RunSendsOnlyValidBodies(f: Form, es: seq<Event>)
    ensures forall b | b in Run(f, es).1 ::
              EmailPattern.EmailOk(b.email) && |b.password| >= MinPasswordLength
    ensures f.touched ==> Run(f, es).0.touched
    decreases |es|
  {
    if es != [] {
      var (f', sent) := Step(f, es[0]);
      RunSendsOnlyValidBodies(f', es[1..]);
    }
  }
}
