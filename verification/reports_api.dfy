/** data/reports.ts: listing reports and updating their status, with the
    report vocabularies. */
module ReportsApi {
  import opened Wrappers
  import opened Http
  import Text
  import Json
  import Records

  /** `ReportItem['status']`. */
  datatype ReportStatus = Pending | Reviewed | Dismissed | ActionTaken

  /** The wire name of a status: lower-case, non-empty, and no longer than
      the longest of the four. */
  function StatusName(s: ReportStatus): (name: string)
    ensures 0 < |name| <= |"action_taken"|
    ensures forall i :: 0 <= i < |name| ==> 'a' <= name[i] <= 'z' || name[i] == '_'
  {
    match s
    case Pending => "pending"
    case Reviewed => "reviewed"
    case Dismissed => "dismissed"
    case ActionTaken => "action_taken"
  }

  /** Reading a response's `status` string: one of the four wire names, or
      nothing for any other string. */
  function ParseStatus(name: string): (s: Option<ReportStatus>)
    ensures s.Some? ==> StatusName(s.value) == name
    ensures s.None? ==> forall t: ReportStatus :: StatusName(t) != name
  {
    if name == "pending" then Some(Pending)
    else if name == "reviewed" then Some(Reviewed)
    else if name == "dismissed" then Some(Dismissed)
    else if name == "action_taken" then Some(ActionTaken)
    else None
  }

  /** A status's wire name reads back as that status. */
  lemma ParseStatusName(s: ReportStatus)
    ensures ParseStatus(StatusName(s)) == Some(s)
  {
  }

  /** Distinct statuses have distinct wire names, so a status survives the
      trip through a query string or request body. */
  lemma StatusNameInjective(a: ReportStatus, b: ReportStatus)
    requires StatusName(a) == StatusName(b)
    ensures a == b
  {
  }

  /** `ReportItem['type']`: what was reported. */
  datatype ReportType = PostType | UserType | CommentType | OtherType

  /** The snapshot of a reported post. */
  datatype PostReference = PostReference(id: string, content: Json.Json, author: Records.Profile, createdAt: string)

  /** `reference`, typed `any` beyond its two snapshot shapes: a post
      snapshot (an object with a `content` member), a user snapshot (an object
      with a `username` member), any other object or array, or a truthy
      primitive (a non-empty string, a non-zero number, `true`). */
  datatype Reference =
    | PostSnapshot(post: PostReference)
    | UserSnapshot(user: Records.Profile)
    | OtherObject
    | Primitive

  /** A report as the API returns it; `reference` is None when missing or falsy. */
  datatype ReportItem = ReportItem(
    id: string,
    reporter: Records.Profile,
    reportedUser: Records.Profile,
    description: string,
    kind: ReportType,
    reference: Option<Reference>,
    status: ReportStatus,
    createdAt: string)

  /** The `data` and `pagination` members of a list response. */
  datatype ReportPage = ReportPage(data: seq<ReportItem>, pagination: Option<Pagination>)

  /** The parameters of `getAllReports`; every member may be left out. */
  datatype ListParams = ListParams(page: Option<int>, limit: Option<int>, status: Option<ReportStatus>)

  const DefaultPage := 1
  const DefaultLimit := 40
  const FetchReportsFailed := "Failed to fetch reports"
  const UpdateReportFailed := "Failed to update report"

  /** The `getAllReports` request: page and limit always sent, defaulting to 1
      and 40, and `status` only when one is given. */
  function ListRequest(token: string, p: ListParams): (r: Request)
    ensures r.verb == Get && r.path == "/admin/get-all-reports" && r.body == None && r.noStore
    ensures r.headers == [AcceptJson, Authorization(token)]
    ensures Lookup(r.query, "page") == Some(Text.ShowInt(p.page.GetOr(DefaultPage)))
    ensures Lookup(r.query, "limit") == Some(Text.ShowInt(p.limit.GetOr(DefaultLimit)))
    ensures Lookup(r.query, "status") == (if p.status.Some? then Some(StatusName(p.status.value)) else None)
    ensures |r.query| == (if p.status.Some? then 3 else 2)
  {
    var base := [("page", Text.ShowInt(p.page.GetOr(DefaultPage))),
                 ("limit", Text.ShowInt(p.limit.GetOr(DefaultLimit)))];
    var extra := if p.status.Some? then [("status", StatusName(p.status.value))] else [];
    LookupAppend(base, extra, "status");
    Request(Get, "/admin/get-all-reports", base + extra, [AcceptJson, Authorization(token)], None, true)
  }

  /** `getAllReports(params)`: "Not authenticated" before any request without
      a token; the parsed reply on success; the server's message, else
      "Failed to fetch reports", on a non-OK reply. */
  function GetAllReports(token: Option<string>, p: ListParams, reply: Reply<ReportPage>): (c: Call<Envelope<ReportPage>>)
    ensures !HasToken(token) ==> c == Call(None, Err(Some(NotAuthenticated)))
    ensures HasToken(token) ==> c.sent == Some(ListRequest(token.value, p))
    ensures c.outcome.Err? ==> c.outcome.message.Some?
    ensures c.outcome.Ok? <==> HasToken(token) && reply.Answered? && IsOk(reply.status) && reply.body.Json?
    ensures c.outcome.Ok? ==> c.outcome.value == reply.body.envelope
    ensures HasToken(token) && reply.Answered? && !IsOk(reply.status) ==>
      c.outcome == Err(Some(FailureText(reply.body, FetchReportsFailed)))
  {
    if !HasToken(token) then Call(None, Err(Some(NotAuthenticated)))
    else Call(Some(ListRequest(token.value, p)), Settle(reply, FetchReportsFailed))
  }

  /** The `updateReportStatus` request: a JSON POST whose body is exactly the
      report id and the new status. */
  function UpdateRequest(token: string, reportId: string, status: ReportStatus): (r: Request)
    ensures r.verb == Post && r.path == "/admin/update-report" && r.query == [] && !r.noStore
    ensures r.headers == [ContentTypeJson, Authorization(token)]
    ensures r.body == Some([("id", reportId), ("status", StatusName(status))])
  {
    Request(Post, "/admin/update-report", [], [ContentTypeJson, Authorization(token)],
      Some([("id", reportId), ("status", StatusName(status))]), false)
  }

  /** `updateReportStatus(reportId, status)`: the parsed reply on success; the
      server's message, else "Failed to update report", on a non-OK reply. */
  function UpdateReportStatus(token: Option<string>, reportId: string, status: ReportStatus, reply: Reply<()>): (c: Call<Envelope<()>>)
    ensures !HasToken(token) ==> c == Call(None, Err(Some(NotAuthenticated)))
    ensures HasToken(token) ==> c.sent == Some(UpdateRequest(token.value, reportId, status))
    ensures c.outcome.Err? ==> c.outcome.message.Some?
    ensures c.outcome.Ok? <==> HasToken(token) && reply.Answered? && IsOk(reply.status) && reply.body.Json?
    ensures HasToken(token) && reply.Answered? && !IsOk(reply.status) ==>
      c.outcome == Err(Some(FailureText(reply.body, UpdateReportFailed)))
  {
    if !HasToken(token) then Call(None, Err(Some(NotAuthenticated)))
    else Call(Some(UpdateRequest(token.value, reportId, status)), Settle(reply, UpdateReportFailed))
  }
}
