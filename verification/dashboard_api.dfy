/** data/dashboard.ts: the dashboard statistics. */
module DashboardApi {
  import opened Wrappers
  import opened Http

  /** New users on one day of the week. */
  datatype DashboardDay = DashboardDay(date: string, weekday: string, count: int)

  /** The statistics block of the dashboard response. */
  datatype DashboardStats = DashboardStats(
    totalUser: int,
    totalPost: int,
    totalReport: int,
    totalGroup: int,
    days: seq<DashboardDay>)

  const FetchStatsFailed := "Failed to fetch dashboard stats"

  /** The `getDashboardStats` request. */
  function StatsRequest(token: string): (r: Request)
    ensures r.verb == Get && r.path == "/admin/dashboard-stats" && r.query == [] && r.body == None && r.noStore
    ensures r.headers == [AcceptJson, Authorization(token)]
  {
    Request(Get, "/admin/dashboard-stats", [], [AcceptJson, Authorization(token)], None, true)
  }

  /** `getDashboardStats()`: "Not authenticated" before any request without a
      token; on success only the envelope's `data` member; the server's
      message, else "Failed to fetch dashboard stats", on a non-OK reply. */
  function GetDashboardStats(token: Option<string>, reply: Reply<DashboardStats>): (c: Call<DashboardStats>)
    ensures !HasToken(token) ==> c == Call(None, Err(Some(NotAuthenticated)))
    ensures HasToken(token) ==> c.sent == Some(StatsRequest(token.value))
    ensures c.outcome.Err? ==> c.outcome.message.Some?
    ensures c.outcome.Ok? <==> HasToken(token) && reply.Answered? && IsOk(reply.status) && reply.body.Json?
    ensures c.outcome.Ok? ==> c.outcome.value == reply.body.envelope.payload
    ensures HasToken(token) && reply.Answered? && !IsOk(reply.status) ==>
      c.outcome == Err(Some(FailureText(reply.body, FetchStatsFailed)))
  {
    if !HasToken(token) then Call(None, Err(Some(NotAuthenticated)))
    else
      var settled := Settle(reply, FetchStatsFailed);
      Call(Some(StatsRequest(token.value)),
        if settled.Ok? then Ok(settled.value.payload) else Err(settled.message))
  }
}
