/** app/reports/page.tsx: the report list with its status filter, the status
    update from the detail dialog, and the one-line reference preview. */
module ReportsPage {
  import opened Wrappers
  import opened Effects
  import Http
  import J = Json
  import Lists
  import Text
  import opened ReportsApi

  /** How a `getAllReports` promise settles. */
  type Settled = Outcome<Http.Envelope<ReportPage>>

  const LoadReportsFailed := "Failed to load reports"
  const UpdateStatusFailed := "Failed to update report status"
  const NoReference := "No reference available"
  const NoContent := "No content"
  const ViewDetails := "View details"

  /** The filter buttons: every report, or one status. */
  datatype Filter = All | Only(status: ReportStatus)

  /** The page's React state; `selected` is the report the detail dialog shows. */
  datatype State = State(
    reports: seq<ReportItem>,
    selected: Option<ReportItem>,
    loading: bool,
    error: Option<string>,
    filter: Filter)

  /** The page starts out loading, with every status shown. */
  const Initial := State([], None, true, None, All)

  // ---------------------------------------------------------------- loading

  /** The parameters `loadReports` passes: only a status, and none for "all". */
  function LoadParams(f: Filter): (p: ListParams)
    ensures p.page.None? && p.limit.None?
    ensures p.status.None? <==> f.All?
    ensures f.Only? ==> p.status == Some(f.status)
  {
    ListParams(None, None, if f.All? then None else Some(f.status))
  }

  /** The filter reaches the server as the `status` query parameter, under its
      wire name, and "all" sends no status at all. */
  lemma FilterReachesServer(token: string, f: Filter)
    ensures Http.Lookup(ListRequest(token, LoadParams(f)).query, "status") ==
      (if f.All? then None else Some(StatusName(f.status)))
    ensures Http.Lookup(ListRequest(token, LoadParams(f)).query, "page") == Some("1")
    ensures Http.Lookup(ListRequest(token, LoadParams(f)).query, "limit") == Some("40")
  {
    assert Text.ShowNat(4) == "4";
    assert Text.ShowNat(40) == Text.ShowNat(4) + [Text.Digit(0)];
    assert Text.ShowInt(40) == "40";
  }

  /** The synchronous part of `loadReports`: there is no in-flight check, so
      it always marks the page loading, clears the error and asks for the
      reports of the current filter. */
  function StartLoad(s: State): (step: Step<State, ListParams>)
    ensures step.next == s.(loading := true, error := None)
    ensures step.issued == Some(LoadParams(s.filter))
  {
    Step(s.(loading := true, error := None), Some(LoadParams(s.filter)))
  }

  /** The settlement of `loadReports`: success replaces the list with the
      response's reports; failure keeps the list and shows the rejection's
      message, or "Failed to load reports" when it has none. Loading ends
      either way and the filter and dialog are untouched. */
  function LoadSettled(s: State, outcome: Settled): (s': State)
    ensures !s'.loading && s'.filter == s.filter && s'.selected == s.selected
    ensures outcome.Ok? ==> s'.reports == outcome.value.payload.data && s'.error == s.error
    ensures outcome.Err? ==> s'.reports == s.reports && s'.error == Some(MessageOr(outcome.message, LoadReportsFailed))
  {
    match outcome
    case Ok(env) => s.(reports := env.payload.data, loading := false)
    case Err(m) => s.(loading := false, error := Some(MessageOr(m, LoadReportsFailed)))
  }

  /** `loadReports()` when its request settles before anything else happens. */
  function Load(s: State, outcome: Settled): (step: Step<State, ListParams>)
    ensures step.issued == Some(LoadParams(s.filter))
    ensures step.next == LoadSettled(s.(loading := true, error := None), outcome)
    ensures outcome.Ok? ==> step.next.error == None
  {
    var start := StartLoad(s);
    Step(LoadSettled(start.next, outcome), start.issued)
  }

  /** A filter button: the effect keyed on the filter reloads only when the
      filter actually changes (React skips the render, and so the effect,
      when the same value is set again). */
  function ChooseFilter(s: State, f: Filter): (step: Step<State, ListParams>)
    ensures f == s.filter ==> step == Step(s, None)
    ensures f != s.filter ==> step.next.filter == f && step.next.loading && step.issued == Some(LoadParams(f))
    ensures step.next.reports == s.reports && step.next.selected == s.selected
  {
    if f == s.filter then Step(s, None) else StartLoad(s.(filter := f))
  }

  /** The mount effect: the first load, with the "all" filter, and no token
      check on this page. */
  function Mount(s: State): (step: Step<State, ListParams>)
    requires s == Initial
    ensures step.issued == Some(ListParams(None, None, None))
    ensures step.next.loading && step.next.reports == []
  {
    StartLoad(s)
  }

  // ---------------------------------------------------------------- status update

  /** The reports with the given id take the new status; every other report
      is kept as it was. */
  function SetStatus(reports: seq<ReportItem>, id: string, status: ReportStatus): (r: seq<ReportItem>)
    ensures |r| == |reports|
    ensures forall i :: 0 <= i < |reports| && reports[i].id == id ==> r[i] == reports[i].(status := status)
    ensures forall i :: 0 <= i < |reports| && reports[i].id != id ==> r[i] == reports[i]
  {
    Lists.MapWhere(reports, (x: ReportItem) => x.id == id, (x: ReportItem) => x.(status := status))
  }

  /** `handleUpdateStatus(reportId, status)` once its request settled: on
      success the list entry for that id, and the dialog when it shows that
      id, take the new status; on failure nothing changes but the error. */
  function UpdateStatus(s: State, id: string, status: ReportStatus, outcome: Outcome<Http.Envelope<()>>): (s': State)
    ensures outcome.Ok? ==> s'.reports == SetStatus(s.reports, id, status)
    ensures outcome.Ok? ==>
      s'.selected == (if s.selected.Some? && s.selected.value.id == id then Some(s.selected.value.(status := status)) else s.selected)
    ensures outcome.Ok? ==> s'.error == s.error
    ensures outcome.Err? ==> s' == s.(error := Some(MessageOr(outcome.message, UpdateStatusFailed)))
    ensures s'.loading == s.loading && s'.filter == s.filter
  {
    match outcome
    case Ok(_) =>
      var selected := if s.selected.Some? && s.selected.value.id == id then Some(s.selected.value.(status := status)) else s.selected;
      s.(reports := SetStatus(s.reports, id, status), selected := selected)
    case Err(m) => s.(error := Some(MessageOr(m, UpdateStatusFailed)))
  }

  /** The dialog shows one of the listed reports. */
  ghost predicate DialogShowsListed(s: State) {
    s.selected.Some? ==> exists i :: 0 <= i < |s.reports| && s.reports[i] == s.selected.value
  }

  /** After any update, the dialog still shows the listed report it showed
      before, with the same status as the list. */
  lemma UpdateKeepsDialogInList(s: State, id: string, status: ReportStatus, outcome: Outcome<Http.Envelope<()>>)
    requires DialogShowsListed(s)
    ensures DialogShowsListed(UpdateStatus(s, id, status, outcome))
  {
    var s' := UpdateStatus(s, id, status, outcome);
    if s.selected.Some? && outcome.Ok? {
      var i :| 0 <= i < |s.reports| && s.reports[i] == s.selected.value;
      assert s'.reports[i] == s'.selected.value;
    }
  }

  /** Two successful updates of the same report to the same status leave the
      page as one does. */
  lemma UpdateIdempotent(s: State, id: string, status: ReportStatus, e1: Http.Envelope<()>, e2: Http.Envelope<()>)
    ensures UpdateStatus(UpdateStatus(s, id, status, Ok(e1)), id, status, Ok(e2)) == UpdateStatus(s, id, status, Ok(e1))
  {
    var s1 := UpdateStatus(s, id, status, Ok(e1));
    var s2 := UpdateStatus(s1, id, status, Ok(e2));
    assert s2.reports == s1.reports;
  }

  /** The dialog's buttons: only a pending report can be dismissed or marked
      reviewed; any other status offers no action. */
  function Actions(r: ReportItem): (targets: seq<ReportStatus>)
    ensures |targets| > 0 <==> r.status == Pending
    ensures forall t :: t in targets ==> t != Pending
    ensures r.status == Pending ==> Dismissed in targets && Reviewed in targets
    ensures forall t :: t in targets ==> t == Dismissed || t == Reviewed
  {
    if r.status == Pending then [Dismissed, Reviewed] else []
  }

  /** Acting on a pending report from the dialog settles it for good: once the
      update succeeds the dialog offers no further action. */
  lemma ActionIsFinal(s: State, t: ReportStatus, e: Http.Envelope<()>)
    requires s.selected.Some? && t in Actions(s.selected.value)
    ensures UpdateStatus(s, s.selected.value.id, t, Ok(e)).selected.Some?
    ensures Actions(UpdateStatus(s, s.selected.value.id, t, Ok(e)).selected.value) == []
  {
  }

  // ---------------------------------------------------------------- preview

  /** `content?.text || content?.content?.[0]?.text || 'No content'`: the
      snapshot's own text when it is a non-empty string, else the first
      content entry's, else the placeholder. */
  function ContentText(content: J.Json): (r: string)
    ensures r != ""
    ensures Truthy(J.StringMember(Some(content), "text")) ==> r == J.StringMember(Some(content), "text").value
    ensures !Truthy(J.StringMember(Some(content), "text")) ==>
      r == OrElse(J.StringMember(J.First(J.Member(content, "content")), "text"), NoContent)
  {
    var own := J.StringMember(Some(content), "text");
    var first := J.StringMember(J.First(J.Member(content, "content")), "text");
    if Truthy(own) then own.value else OrElse(first, NoContent)
  }

  /** What rendering a table row's content cell gives: its text, or the
      `TypeError` that the JavaScript `in` operator throws on a primitive. */
  datatype Cell = Shown(text: string) | Throws

  /** `renderReferencePreview(report)`: the content cell of a report row.
      Only a post report whose reference is a primitive, or a user report
      whose reference is one, reaches an `in` test on a non-object and
      throws; every other row shows a non-blank text, of its own kind for a
      missing reference, a post snapshot, a user snapshot and the rest. */
  function Preview(r: ReportItem): (cell: Cell)
    ensures cell.Throws? <==>
      r.reference == Some(Primitive) && (r.kind == PostType || r.kind == UserType)
    ensures cell.Shown? ==> cell.text != ""
    ensures r.reference.None? ==> cell == Shown(NoReference)
    ensures r.reference.Some? && r.kind == PostType && r.reference.value.PostSnapshot? ==>
      cell == Shown(ContentText(r.reference.value.post.content))
    ensures r.reference.Some? && r.kind == UserType && r.reference.value.UserSnapshot? ==>
      cell == Shown("@" + r.reference.value.user.username)
    ensures (r.reference.Some? && !(r.kind == PostType && r.reference.value.PostSnapshot?)
             && !(r.kind == UserType && r.reference.value.UserSnapshot?)
             && !(r.reference.value.Primitive? && (r.kind == PostType || r.kind == UserType))) ==>
      cell == Shown(ViewDetails)
  {
    match r.reference
    case None => Shown(NoReference)
    case Some(ref) =>
      if r.kind == PostType then
        if ref.Primitive? then Throws
        else if ref.PostSnapshot? then Shown(ContentText(ref.post.content))
        else Shown(ViewDetails)
      else if r.kind == UserType then
        if ref.Primitive? then Throws
        else if ref.UserSnapshot? then Shown("@" + ref.user.username)
        else Shown(ViewDetails)
      else Shown(ViewDetails)
  }

  /** The preview depends on the report's kind and reference alone, so a
      status update never changes what the row shows. */
  lemma PreviewIgnoresStatus(r: ReportItem, status: ReportStatus)
    ensures Preview(r.(status := status)) == Preview(r)
  {
  }

  /** Concrete shapes: a rich-text post shows its first paragraph's text when
      it has no text of its own, and a snapshot with neither shows the
      placeholder. */
  lemma ContentTextExamples(t: string)
    requires t != ""
    ensures ContentText(J.Obj(map["text" := J.Str(t)])) == t
    ensures ContentText(J.Obj(map["text" := J.Str(""), "content" := J.Arr([J.Obj(map["text" := J.Str(t)])])])) == t
    ensures ContentText(J.Obj(map["content" := J.Arr([])])) == NoContent
    ensures ContentText(J.Null) == NoContent
  {
    var inner := J.Obj(map["text" := J.Str(t)]);
    var outer := J.Obj(map["text" := J.Str(""), "content" := J.Arr([inner])]);
    assert J.Member(outer, "content") == Some(J.Arr([inner]));
    assert J.First(J.Member(outer, "content")) == Some(inner);
    assert J.Member(inner, "text") == Some(J.Str(t));
  }
}
