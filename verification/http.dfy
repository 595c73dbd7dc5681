/** The request/response plumbing shared by the data-layer functions: how a
    request is described, what `fetch` can settle to, and how a reply becomes
    either the parsed envelope or an `Error` with a message. */
module Http {
  import opened Wrappers

  datatype Method = Get | Post | Put | Delete

  /** A request as the client builds it: its HTTP method, path below the API base URL,
      query parameters in insertion order, headers, the members of the JSON
      body if there is one, and whether `cache: "no-store"` is set. */
  datatype Request = Request(
    verb: Method,
    path: string,
    query: seq<(string, string)>,
    headers: seq<(string, string)>,
    body: Option<seq<(string, string)>>,
    noStore: bool)

  /** The value of the first pair named `key`, as `URLSearchParams.get` or a
      header lookup would find it. */
  function Lookup(pairs: seq<(string, string)>, key: string): (r: Option<string>)
    ensures r.Some? ==> (key, r.value) in pairs
    ensures r.Some? ==> exists i :: FirstNamed(pairs, key, i) && pairs[i].1 == r.value
    ensures r.None? ==> forall i :: 0 <= i < |pairs| ==> pairs[i].0 != key
  {
    if pairs == [] then None
    else if pairs[0].0 == key then
      assert FirstNamed(pairs, key, 0);
      Some(pairs[0].1)
    else
      var r := Lookup(pairs[1..], key);
      assert r.Some? ==> exists i :: FirstNamed(pairs, key, i) && pairs[i].1 == r.value by {
        if r.Some? {
          var i :| FirstNamed(pairs[1..], key, i) && pairs[1..][i].1 == r.value;
          assert FirstNamed(pairs, key, i + 1);
        }
      }
      r
  }

  /** Position `i` holds the first pair named `key`. */
  ghost predicate FirstNamed(pairs: seq<(string, string)>, key: string, i: int) {
    0 <= i < |pairs| && pairs[i].0 == key && forall j :: 0 <= j < i ==> pairs[j].0 != key
  }

  /** A lookup in a concatenation finds the first list's entry if it has one. */
  lemma {:induction false} LookupAppend(a: seq<(string, string)>, b: seq<(string, string)>, key: string)
    ensures Lookup(a + b, key) == if Lookup(a, key).Some? then Lookup(a, key) else Lookup(b, key)
  {
    if a != [] {
      assert (a + b)[1..] == a[1..] + b;
      LookupAppend(a[1..], b, key);
    } else {
      assert a + b == b;
    }
  }

  /** The authentication scheme prefix of section 2.1 of RFC 6750. */
  const BearerPrefix := "Bearer "

  /** `Bearer ${token}`: the scheme, one space, then the token unchanged, so the
      token can be read back from the header value. */
  function Bearer(token: string): (r: string)
    ensures |r| == |BearerPrefix| + |token|
    ensures r[..|BearerPrefix|] == BearerPrefix && r[|BearerPrefix|..] == token
  {
    BearerPrefix + token
  }

  /** Two different tokens never produce the same header value. */
  lemma BearerInjective(a: string, b: string)
    requires Bearer(a) == Bearer(b)
    ensures a == b
  {
    assert a == Bearer(a)[|BearerPrefix|..];
  }

  const AcceptJson := ("Accept", "application/json")
  const ContentTypeJson := ("Content-Type", "application/json")

  function Authorization(token: string): (string, string) {
    ("Authorization", Bearer(token))
  }

  /** A parsed JSON response body: its `message` member (absent, or not a
      string) and the rest of what the endpoint returns. */
  datatype Envelope<T> = Envelope(message: Option<string>, payload: T)

  /** The pagination block of a list response. */
  datatype Pagination = Pagination(page: int, limit: int, total: int, hasNextPage: bool, hasPrevPage: bool)

  /** What `res.json()` gives: a parse failure (a `SyntaxError` with a message)
      or the parsed envelope. */
  datatype Body<T> = NotJson(reason: string) | Json(envelope: Envelope<T>)

  /** What `await fetch(...)` settles to: a rejection (a `TypeError` with a
      message, e.g. a network failure) or a response with a status and a body. */
  datatype Reply<T> = Rejected(reason: string) | Answered(status: int, body: Body<T>)

  /** `res.ok`. */
  predicate IsOk(status: int) {
    200 <= status <= 299
  }

  /** The message of the `Error` a data function throws on a non-OK response:
      the body's `message` when it is truthy, else the operation's default; a
      body that does not parse keeps the default. */
  function FailureText<T>(body: Body<T>, default: string): (r: string)
    ensures body.Json? && Truthy(body.envelope.message) ==> r == body.envelope.message.value
    ensures body.NotJson? || !Truthy(body.envelope.message) ==> r == default
  {
    match body
    case NotJson(_) => default
    case Json(e) => OrElse(e.message, default)
  }

  /** Turns a reply into the data function's settlement when the success body
      is parsed and returned. Every failure is an `Error` with a message. */
  function Settle<T>(reply: Reply<T>, default: string): (r: Outcome<Envelope<T>>)
    ensures r.Err? ==> r.message.Some?
    ensures r.Ok? <==> reply.Answered? && IsOk(reply.status) && reply.body.Json?
    ensures r.Ok? ==> r.value == reply.body.envelope
    ensures reply.Rejected? ==> r == Err(Some(reply.reason))
    ensures reply.Answered? && !IsOk(reply.status) ==> r == Err(Some(FailureText(reply.body, default)))
    ensures reply.Answered? && IsOk(reply.status) && reply.body.NotJson? ==> r == Err(Some(reply.body.reason))
  {
    match reply
    case Rejected(reason) => Err(Some(reason))
    case Answered(status, body) =>
      if !IsOk(status) then Err(Some(FailureText(body, default)))
      else match body
        case NotJson(reason) => Err(Some(reason))
        case Json(e) => Ok(e)
  }

  /** The same for a data function that ignores the success body: any OK
      status succeeds, whatever the body. */
  function SettleIgnoringBody<T>(reply: Reply<T>, default: string): (r: Outcome<()>)
    ensures r.Err? ==> r.message.Some?
    ensures r.Ok? <==> reply.Answered? && IsOk(reply.status)
    ensures reply.Rejected? ==> r == Err(Some(reply.reason))
    ensures reply.Answered? && !IsOk(reply.status) ==> r == Err(Some(FailureText(reply.body, default)))
  {
    match reply
    case Rejected(reason) => Err(Some(reason))
    case Answered(status, body) =>
      if IsOk(status) then Ok(()) else Err(Some(FailureText(body, default)))
  }

  /** One call of a data function: the request it sent, if it got that far,
      and how its promise settled. */
  datatype Call<T> = Call(sent: Option<Request>, outcome: Outcome<T>)

  const NotAuthenticated := "Not authenticated"

  /** `if (!token)` fails exactly for a missing or empty token. */
  predicate HasToken(token: Option<string>) {
    token.Some? && token.value != ""
  }
}
