/** app/login/page.tsx: the sign-in form's submit handler. */
module LoginPage {
  import opened Wrappers
  import opened Effects
  import Http
  import AuthApi
  import Storage
  import AuthGuard

  const DashboardPath := "/dashboard"

  /** The form's React state. */
  datatype State = State(email: string, password: string, remember: bool, loading: bool, error: Option<string>)

  const Initial := State("", "", false, false, None)

  /** The synchronous part of `onSubmit`: ignored while a sign-in is in
      flight; otherwise the error is cleared, the form is marked loading and
      the current credentials are sent. */
  function StartSubmit(s: State): (step: Step<State, (string, string)>)
    ensures s.loading ==> step == Step(s, None)
    ensures !s.loading ==> step.next == s.(loading := true, error := None)
    ensures !s.loading ==> step.issued == Some((s.email, s.password))
  {
    if s.loading then Step(s, None)
    else Step(s.(loading := true, error := None), Some((s.email, s.password)))
  }

  /** How `loginAdmin` settling ends the submit: success stores the returned
      token and then replaces the route with the dashboard; failure stores
      nothing and shows the rejection's message ("Login failed" for a thrown
      non-`Error`). Loading ends either way; the credentials stay. */
  function SubmitSettled(s: State, outcome: Outcome<Http.Envelope<string>>): (r: (State, seq<Effect>))
    ensures !r.0.loading && r.0.email == s.email && r.0.password == s.password
    ensures outcome.Ok? ==> r.1 == [StoreToken(outcome.value.payload), Redirect(DashboardPath)] && r.0.error == s.error
    ensures outcome.Err? ==> r.1 == [] && r.0.error == Some(ErrorText(outcome.message, AuthApi.LoginFailed))
    ensures (exists t :: StoreToken(t) in r.1) <==> outcome.Ok?
  {
    match outcome
    case Ok(env) => (s.(loading := false), [StoreToken(env.payload), Redirect(DashboardPath)])
    case Err(m) => (s.(loading := false, error := Some(ErrorText(m, AuthApi.LoginFailed))), [])
  }

  /** A whole submit against the server's reply: the request sent (none while
      loading), the final state and the effects. */
  function Submit(s: State, reply: Http.Reply<string>): (r: (State, seq<Effect>, Option<Http.Request>))
    ensures s.loading ==> r == (s, [], None)
    ensures !s.loading ==> r.2 == Some(AuthApi.LoginRequest(s.email, s.password))
    ensures !s.loading ==> !r.0.loading
    ensures !s.loading && (Redirect(DashboardPath) in r.1) ==>
      reply.Answered? && Http.IsOk(reply.status) && reply.body.Json?
  {
    var start := StartSubmit(s);
    if start.issued.None? then (s, [], None)
    else
      var call := AuthApi.LoginAdmin(s.email, s.password, reply);
      var settled := SubmitSettled(start.next, call.outcome);
      (settled.0, settled.1, call.sent)
  }

  /** A failed sign-in shows exactly the message the data layer produced: the
      page's own fallback is never reached, since `loginAdmin` always
      rejects with an `Error`. A non-OK reply shows the server's message, or
      "Login failed". */
  lemma FailureShowsServerMessage(s: State, reply: Http.Reply<string>)
    requires !s.loading && reply.Answered? && !Http.IsOk(reply.status)
    ensures Submit(s, reply).0.error == Some(Http.FailureText(reply.body, AuthApi.LoginFailed))
    ensures Submit(s, reply).1 == []
  {
  }

  /** After a successful sign-in in a browser, the token the server returned
      is the one stored, and the guard of the page the visitor is sent to
      finds it and asks for its validation. A failed sign-in leaves storage
      untouched. */
  lemma SignInThenGuard(entries: map<string, string>, s: State, reply: Http.Reply<string>, valid: bool)
    requires !s.loading
    ensures var r := Submit(s, reply);
      var h := ApplyToStorage(Storage.Browser(entries), r.1);
      && (r.1 == [] ==> h == Storage.Browser(entries))
      && (r.1 != [] ==>
           && Storage.GetToken(h, false) == Some(reply.body.envelope.payload)
           && (reply.body.envelope.payload != "" ==>
                AuthGuard.Guard(Storage.GetToken(h, false), valid, AuthGuard.Redirecting)[0]
                  == Validate(reply.body.envelope.payload)))
  {
    var r := Submit(s, reply);
    if r.1 != [] {
      var t := reply.body.envelope.payload;
      var h0 := Storage.Browser(entries);
      var h1 := Storage.SetToken(h0, t, false);
      assert r.1 == [StoreToken(t), Redirect(DashboardPath)];
      assert ApplyToStorage(h0, r.1) == ApplyToStorage(h1, r.1[1..]);
      assert ApplyToStorage(h1, r.1[1..]) == ApplyToStorage(h1, r.1[2..]);
      assert r.1[2..] == [];
    }
  }
}
