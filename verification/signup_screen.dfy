/** The sign-up screen of the mobile client: four text inputs, a `touched`
    flag that turns the error texts on, the four checks and their conjunction
    that gates the button, and the body of the POST /api/register request. */
module SignupScreen {
  import opened JsText
  import opened Options
  import EmailPattern

  const MinNameLength := 2
  const MinPasswordLength := 6

  /** The screen's state: the inputs exactly as typed, and `touched`. */
  datatype Form = Form(name: JsString, email: JsString, pass: JsString, confirm: JsString, touched: bool)

  /** The JSON body of POST /api/register. */
  datatype RegisterBody = RegisterBody(username: JsString, email: JsString, password: JsString)

  const Blank := Form([], [], [], [], false)

  /** The trimmed name has two or more units: the name holds at least two
      non-whitespace units. */
  predicate NameOk(f: Form)
    ensures NameOk(f) <==> exists i, j | 0 <= i < j < |f.name| :: !IsWhitespace(f.name[i]) && !IsWhitespace(f.name[j])
  {
    TrimmedLengthAtLeastTwo(f.name);
    |Trim(f.name)| >= MinNameLength
  }

  predicate EmailOk(f: Form)
    ensures EmailOk(f) <==> EmailPattern.RegexTest(Trim(f.email))
  {
    EmailPattern.EmailOk(f.email)
  }

  /** The password is measured as typed, without trimming. */
  predicate PassOk(f: Form) {
    |f.pass| >= MinPasswordLength
  }

  predicate MatchOk(f: Form) {
    f.confirm == f.pass && |f.confirm| > 0
  }

  predicate CanCreate(f: Form) {
    NameOk(f) && EmailOk(f) && PassOk(f) && MatchOk(f)
  }

  /** The four error texts under the inputs. */
  predicate NameErrorShown(f: Form) { f.touched && !NameOk(f) }
  predicate EmailErrorShown(f: Form) { f.touched && !EmailOk(f) }
  predicate PassErrorShown(f: Form) { f.touched && !PassOk(f) }
  predicate MatchErrorShown(f: Form) { f.touched && !MatchOk(f) }

  predicate AnyErrorShown(f: Form) {
    NameErrorShown(f) || EmailErrorShown(f) || PassErrorShown(f) || MatchErrorShown(f)
  }

  /** `onCreate`: the form becomes touched whatever its contents, and the
      register request, carrying the untrimmed inputs, is sent exactly when
      all four checks pass. */
  function OnCreate(f: Form): (r: (Form, Option<RegisterBody>))
    ensures r.0.touched
    ensures r.0.name == f.name && r.0.email == f.email && r.0.pass == f.pass && r.0.confirm == f.confirm
    ensures r.1.Some? <==> NameOk(f) && EmailOk(f) && PassOk(f) && MatchOk(f)
    ensures r.1.Some? ==> r.1.value == RegisterBody(f.name, f.email, f.pass)
  {
    var f' := f.(touched := true);
    if !CanCreate(f) then (f', None)
    else (f', Some(RegisterBody(username := f.name, email := f.email, password := f.pass)))
  }

  /** A password that passes the length check and is confirmed makes the
      confirmation at least as long as the minimum too. */
  lemma ConfirmationLength(f: Form)
    requires PassOk(f) && MatchOk(f)
    ensures |f.confirm| >= MinPasswordLength
  {
  }

  /** Whatever reaches the server from this screen passes the client checks:
      a name of two or more units once trimmed, an email of the right shape
      once trimmed, and a password of six or more units. */
  lemma SentBodyPassesChecks(f: Form)
    requires OnCreate(f).1.Some?
    ensures |Trim(OnCreate(f).1.value.username)| >= MinNameLength
    ensures EmailPattern.EmailOk(OnCreate(f).1.value.email)
    ensures |OnCreate(f).1.value.password| >= MinPasswordLength
  {
  }

  /** After `onCreate`, an error text is on screen exactly when the request
      was held back: the user is never left without either. */
  lemma ErrorShownIffNotSent(f: Form)
    ensures AnyErrorShown(OnCreate(f).0) <==> OnCreate(f).1.None?
  {
  }

  /** What the user can do on this screen. */
  datatype Event =
    | EditName(name: JsString)
    | EditEmail(email: JsString)
    | EditPass(pass: JsString)
    | EditConfirm(confirm: JsString)
    | Blur
    | Press

  /** One event. Leaving any input marks the form touched; the button is
      disabled while the checks fail, so a press then does nothing; an
      enabled press runs `onCreate`. */
  function Step(f: Form, e: Event): (r: (Form, Option<RegisterBody>))
    ensures f.touched ==> r.0.touched
    ensures r.1.Some? ==> e.Press? && CanCreate(f) && r.1.value == RegisterBody(f.name, f.email, f.pass)
    ensures e.Press? && !CanCreate(f) ==> r == (f, None)
    ensures e.Press? && CanCreate(f) ==> r == (f.(touched := true), Some(RegisterBody(f.name, f.email, f.pass)))
    ensures e.EditName? ==> r == (f.(name := e.name), None)
    ensures e.EditEmail? ==> r == (f.(email := e.email), None)
    ensures e.EditPass? ==> r == (f.(pass := e.pass), None)
    ensures e.EditConfirm? ==> r == (f.(confirm := e.confirm), None)
    ensures e.Blur? ==> r == (f.(touched := true), None)
  {
    match e
    case EditName(v) => (f.(name := v), None)
    case EditEmail(v) => (f.(email := v), None)
    case EditPass(v) => (f.(pass := v), None)
    case EditConfirm(v) => (f.(confirm := v), None)
    case Blur => (f.(touched := true), None)
    case Press => if CanCreate(f) then OnCreate(f) else (f, None)
  }

  /** A session: the final form and the register requests sent, in order.
      Only presses send, at most one request each. */
  function Run(f: Form, es: seq<Event>): (r: (Form, seq<RegisterBody>))
    ensures |r.1| <= |es|
    ensures (forall k | 0 <= k < |es| :: !es[k].Press?) ==> r.1 == []
    decreases |es|
  {
    if es == [] then (f, [])
    else
      var (f', sent) := Step(f, es[0]);
      var (g, rest) := Run(f', es[1..]);
      (g, (if sent.Some? then [sent.value] else []) + rest)
  }

  /** Over any session, every register request sent passes the client checks
      on its own fields, and once touched the form stays touched. */
  lemma {:induction false} RunSendsOnlyValidBodies(f: Form, es: seq<Event>)
    ensures forall b | b in Run(f, es).1 ::
              |Trim(b.username)| >= MinNameLength && EmailPattern.EmailOk(b.email) && |b.password| >= MinPasswordLength
    ensures f.touched ==> Run(f, es).0.touched
    decreases |es|
  {
    if es != [] {
      var (f', sent) := Step(f, es[0]);
      RunSendsOnlyValidBodies(f', es[1..]);
    }
  }

  /** The blank screen cannot send anything until it has been edited. */
  lemma BlankCannotCreate()
    ensures !CanCreate(Blank)
    ensures Step(Blank, Press) == (Blank, None)
  {
  }
}
