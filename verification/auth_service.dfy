/** The backend as a state machine: the users collection is the state and a
    sequence of requests, each handled to completion before the next, drives
    it. Only this sequential reading is modelled. */
module AuthService {
  import opened JsText
  import opened AuthRoutes

  datatype Request = RegisterCall(reg: RegisterRequest) | LoginCall(login: LoginRequest)

  /** One request with the environment it runs in. */
  datatype Call = Call(request: Request, env: Env)

  /** Route one request to its handler. */
  function Handle(store: Store, c: Call): (h: Handled)
    ensures c.request.LoginCall? ==> h.store == store
    ensures forall e | e in store :: e in h.store && h.store[e] == store[e]
    ensures forall e | e in h.store && e !in store ::
              c.request.RegisterCall? && e == c.request.reg.email && h.response.status == 201
  {
    match c.request
    case RegisterCall(r) => Register(store, r, c.env)
    case LoginCall(r) => Handled(Login(store, r, c.env), store)
  }

  /** Handle the calls in order; the final collection and every answer. */
  function Serve(store: Store, calls: seq<Call>): (r: (Store, seq<Response>))
    ensures |r.1| == |calls|
    decreases |calls|
  {
    if calls == [] then (store, [])
    else
      var h := Handle(store, calls[0]);
      var (last, answers) := Serve(h.store, calls[1..]);
      (last, [h.response] + answers)
  }

  /** The `k`-th answer is what the `k`-th call gets from the collection
      left by the calls before it. */
  lemma {:induction false} ServeAnswersInOrder(store: Store, calls: seq<Call>)
    ensures forall k | 0 <= k < |calls| ::
              Serve(store, calls).1[k] == Handle(Serve(store, calls[..k]).0, calls[k]).response
    decreases |calls|
  {
    if calls != [] {
      var h := Handle(store, calls[0]);
      ServeAnswersInOrder(h.store, calls[1..]);
      forall k | 0 <= k < |calls|
        ensures Serve(store, calls).1[k] == Handle(Serve(store, calls[..k]).0, calls[k]).response
      {
        if k == 0 {
          assert calls[..0] == [];
        } else {
          assert calls[..k][0] == calls[0];
          assert calls[..k][1..] == calls[1..][..k - 1];
        }
      }
    }
  }

  /** The `k`-th call registered `e` and was answered 201. */
  ghost predicate CreatedBy(calls: seq<Call>, answers: seq<Response>, k: int, e: JsString) {
    && 0 <= k < |calls| && k < |answers|
    && calls[k].request.RegisterCall? && calls[k].request.reg.email == e
    && answers[k].status == 201
  }

  /** Over any sequence of requests: no document is ever changed or removed,
      every document that appears was created by a register call answered
      201, and each document stays under its own email. */
  lemma {:induction false} ServeOnlyAddsRegisteredDocuments(store: Store, calls: seq<Call>)
    ensures var (last, answers) := Serve(store, calls);
            forall e | e in store :: e in last && last[e] == store[e]
    ensures var (last, answers) := Serve(store, calls);
            forall e | e in last && e !in store :: exists k :: CreatedBy(calls, answers, k, e)
    ensures KeyedByEmail(store) ==> KeyedByEmail(Serve(store, calls).0)
    decreases |calls|
  {
    if calls != [] {
      var h := Handle(store, calls[0]);
      ServeOnlyAddsRegisteredDocuments(h.store, calls[1..]);
      var (last, answers) := Serve(store, calls);
      var (last', answers') := Serve(h.store, calls[1..]);
      assert answers == [h.response] + answers';
      forall e | e in last && e !in store
        ensures exists k :: CreatedBy(calls, answers, k, e)
      {
        if e in h.store {
          assert CreatedBy(calls, answers, 0, e);
        } else {
          var k :| CreatedBy(calls[1..], answers', k, e);
          assert CreatedBy(calls, answers, k + 1, e);
        }
      }
      if KeyedByEmail(store) {
        match calls[0].request
        case RegisterCall(r) => RegisterPreservesInvariants(store, r, calls[0].env);
        case LoginCall(_) =>
      }
    }
  }

  /** A run of login requests alone leaves the collection exactly as it was. */
  lemma {:induction false} LoginsNeverWrite(store: Store, calls: seq<Call>)
    requires forall k | 0 <= k < |calls| :: calls[k].request.LoginCall?
    ensures Serve(store, calls).0 == store
    decreases |calls|
  {
    if calls != [] {
      LoginsNeverWrite(store, calls[1..]);
    }
  }
}
