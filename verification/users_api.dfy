/** data/users.ts: listing, searching and ban-toggling users. */
module UsersApi {
  import opened Wrappers
  import opened Http
  import Text

  /** A user as the API returns it. `displayName` and `name` may be missing. */
  datatype UserSummary = UserSummary(
    id: string,
    email: string,
    createdAt: string,
    isBanned: bool,
    avatarUrl: Option<string>,
    displayName: Option<string>,
    name: Option<string>,
    username: string)

  /** The `data` and `pagination` members of a list or search response. */
  datatype UserPage = UserPage(data: seq<UserSummary>, pagination: Option<Pagination>)

  /** `GetAllUsersParams`; every member may be left out. */
  datatype ListParams = ListParams(page: Option<int>, limit: Option<int>, search: Option<string>)

  const DefaultPage := 1
  const DefaultLimit := 40
  const FetchUsersFailed := "Failed to fetch users"
  const SearchUsersFailed := "Failed to search users"
  const ToggleBanFailed := "Failed to toggle ban"

  /** The `getAllUsers` request: page and limit always sent, defaulting to 1
      and 40, and `search` only when it is a non-empty string. */
  function ListRequest(token: string, p: ListParams): (r: Request)
    ensures r.verb == Get && r.path == "/admin/get-all-users" && r.body == None && r.noStore
    ensures r.headers == [AcceptJson, Authorization(token)]
    ensures Lookup(r.query, "page") == Some(Text.ShowInt(p.page.GetOr(DefaultPage)))
    ensures Lookup(r.query, "limit") == Some(Text.ShowInt(p.limit.GetOr(DefaultLimit)))
    ensures Lookup(r.query, "search") == (if Truthy(p.search) then p.search else None)
    ensures |r.query| == (if Truthy(p.search) then 3 else 2)
  {
    var base := [("page", Text.ShowInt(p.page.GetOr(DefaultPage))),
                 ("limit", Text.ShowInt(p.limit.GetOr(DefaultLimit)))];
    var query := if Truthy(p.search) then base + [("search", p.search.value)] else base;
    LookupAppend(base, [("search", p.search.GetOr(""))], "search");
    Request(Get, "/admin/get-all-users", query, [AcceptJson, Authorization(token)], None, true)
  }

  /** `getAllUsers(params)`: without a token it fails with "Not authenticated"
      before sending anything; otherwise the envelope on success, or the
      server's message, else "Failed to fetch users", on a non-OK reply. */
  function GetAllUsers(token: Option<string>, p: ListParams, reply: Reply<UserPage>): (c: Call<Envelope<UserPage>>)
    ensures !HasToken(token) ==> c == Call(None, Err(Some(NotAuthenticated)))
    ensures HasToken(token) ==> c.sent == Some(ListRequest(token.value, p))
    ensures c.outcome.Err? ==> c.outcome.message.Some?
    ensures c.outcome.Ok? <==> HasToken(token) && reply.Answered? && IsOk(reply.status) && reply.body.Json?
    ensures c.outcome.Ok? ==> c.outcome.value == reply.body.envelope
    ensures HasToken(token) && reply.Answered? && !IsOk(reply.status) ==>
      c.outcome == Err(Some(FailureText(reply.body, FetchUsersFailed)))
  {
    if !HasToken(token) then Call(None, Err(Some(NotAuthenticated)))
    else Call(Some(ListRequest(token.value, p)), Settle(reply, FetchUsersFailed))
  }

  /** `searchUsers` takes either a bare query string or a parameter object. */
  datatype SearchArg = ByQuery(q: string) | ByParams(query: string, page: Option<int>, limit: Option<int>)

  /** A number is truthy when present and non-zero. */
  predicate TruthyInt(n: Option<int>) {
    n.Some? && n.value != 0
  }

  /** The `searchUsers` request: a bare string sends only `query`; an object
      always sends `query`, and `page`/`limit` only when truthy (so 0 is
      left out). */
  function SearchRequest(token: string, a: SearchArg): (r: Request)
    ensures r.verb == Get && r.path == "/admin/search-users" && r.body == None && r.noStore
    ensures r.headers == [AcceptJson, Authorization(token)]
    ensures Lookup(r.query, "query") == Some(if a.ByQuery? then a.q else a.query)
    ensures Lookup(r.query, "page") ==
      (if a.ByParams? && TruthyInt(a.page) then Some(Text.ShowInt(a.page.value)) else None)
    ensures Lookup(r.query, "limit") ==
      (if a.ByParams? && TruthyInt(a.limit) then Some(Text.ShowInt(a.limit.value)) else None)
    ensures a.ByQuery? ==> |r.query| == 1
    ensures a.ByParams? ==>
      |r.query| == 1 + (if TruthyInt(a.page) then 1 else 0) + (if TruthyInt(a.limit) then 1 else 0)
  {
    var query := (match a
      case ByQuery(q) => [("query", q)]
      case ByParams(q, page, limit) =>
        var head := [("query", q)] + (if TruthyInt(page) then [("page", Text.ShowInt(page.value))] else []);
        var tail := if TruthyInt(limit) then [("limit", Text.ShowInt(limit.value))] else [];
        LookupAppend(head, tail, "limit");
        LookupAppend(head, tail, "page");
        LookupAppend(head, tail, "query");
        head + tail);
    Request(Get, "/admin/search-users", query, [AcceptJson, Authorization(token)], None, true)
  }

  /** `searchUsers(arg)`: the same token rule and error selection as
      `getAllUsers`, with default "Failed to search users". */
  function SearchUsers(token: Option<string>, a: SearchArg, reply: Reply<UserPage>): (c: Call<Envelope<UserPage>>)
    ensures !HasToken(token) ==> c == Call(None, Err(Some(NotAuthenticated)))
    ensures HasToken(token) ==> c.sent == Some(SearchRequest(token.value, a))
    ensures c.outcome.Err? ==> c.outcome.message.Some?
    ensures c.outcome.Ok? <==> HasToken(token) && reply.Answered? && IsOk(reply.status) && reply.body.Json?
    ensures c.outcome.Ok? ==> c.outcome.value == reply.body.envelope
    ensures HasToken(token) && reply.Answered? && !IsOk(reply.status) ==>
      c.outcome == Err(Some(FailureText(reply.body, SearchUsersFailed)))
  {
    if !HasToken(token) then Call(None, Err(Some(NotAuthenticated)))
    else Call(Some(SearchRequest(token.value, a)), Settle(reply, SearchUsersFailed))
  }

  /** The `toggleBan` request: a PUT to the user's toggle path. */
  function ToggleBanRequest(token: string, userId: string): (r: Request)
    ensures r.verb == Put && r.query == [] && r.body == None && r.noStore
    ensures r.path == "/admin/toggle-ban/" + userId
    ensures r.headers == [AcceptJson, Authorization(token)]
  {
    Request(Put, "/admin/toggle-ban/" + userId, [], [AcceptJson, Authorization(token)], None, true)
  }

  /** `toggleBan(userId)`: succeeds with nothing on any OK status, without
      reading the body; otherwise the server's message, else "Failed to
      toggle ban". */
  function ToggleBan(token: Option<string>, userId: string, reply: Reply<()>): (c: Call<()>)
    ensures !HasToken(token) ==> c == Call(None, Err(Some(NotAuthenticated)))
    ensures HasToken(token) ==> c.sent == Some(ToggleBanRequest(token.value, userId))
    ensures c.outcome.Err? ==> c.outcome.message.Some?
    ensures c.outcome.Ok? <==> HasToken(token) && reply.Answered? && IsOk(reply.status)
    ensures HasToken(token) && reply.Answered? && !IsOk(reply.status) ==>
      c.outcome == Err(Some(FailureText(reply.body, ToggleBanFailed)))
  {
    if !HasToken(token) then Call(None, Err(Some(NotAuthenticated)))
    else Call(Some(ToggleBanRequest(token.value, userId)), SettleIgnoringBody(reply, ToggleBanFailed))
  }
}
