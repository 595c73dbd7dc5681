/** app/users/page.tsx: the paged user list, the debounced server-side search
    with its own result set, and the optimistic ban toggle. Each handler is a
    pure transition; every awaited call is an `Outcome` parameter. */
module UsersPage {
  import opened Wrappers
  import opened Records
  import opened Effects
  import Http
  import UsersApi
  import Text
  import Lists
  import AuthGuard

  /** How a `getAllUsers` or `searchUsers` promise settles. */
  type Settled = Outcome<Http.Envelope<UsersApi.UserPage>>

  const LoadUsersFailed := "Failed to load users"
  const SearchFailed := "Search failed"
  const UpdateStatusFailed := "Failed to update user status"

  /** The page's React state. `selected` is `selectedUser`, the last-viewed
      user: the "View" button of a row sets it and the view dialog shows it,
      and it stays set after the dialog closes. `timer` is the pending
      debounce timer, holding the trimmed query it will search for when it
      fires. */
  datatype State = State(
    query: string,
    users: seq<User>,
    selected: Option<User>,
    page: int,
    hasNext: bool,
    loading: bool,
    error: Option<string>,
    searching: bool,
    results: seq<User>,
    searchPage: int,
    searchHasNext: bool,
    timer: Option<string>)

  const Initial := State("", [], None, 1, false, false, None, false, [], 1, false, None)

  // ---------------------------------------------------------------- records

  /** The record mapping applied to every listed or searched user: banned
      exactly when `isBanned`, named by `displayName`, else `name`, else the
      empty string, with a zero post count; identity fields are copied. */
  function ToUser(u: UsersApi.UserSummary): (r: User)
    ensures r.id == u.id && r.username == u.username && r.email == u.email
    ensures r.joinedDate == u.createdAt && r.avatar == u.avatarUrl
    ensures r.status == UserStatus.Banned <==> u.isBanned
    ensures u.displayName.Some? ==> r.name == u.displayName.value
    ensures u.displayName.None? && u.name.Some? ==> r.name == u.name.value
    ensures u.displayName.None? && u.name.None? ==> r.name == ""
    ensures r.postsCount == 0
  {
    User(
      u.id,
      u.displayName.GetOr(u.name.GetOr("")),
      u.username,
      u.email,
      u.avatarUrl,
      if u.isBanned then UserStatus.Banned else UserStatus.Active,
      u.createdAt,
      0)
  }

  function ToUsers(us: seq<UsersApi.UserSummary>): (r: seq<User>)
    ensures |r| == |us|
    ensures forall i :: 0 <= i < |us| ==> r[i] == ToUser(us[i])
  {
    seq(|us|, i requires 0 <= i < |us| => ToUser(us[i]))
  }

  /** `resp.pagination?.hasNextPage ?? false`: a response without a
      pagination block never offers another page. */
  function NextFlag(p: Option<Http.Pagination>): (more: bool)
    ensures more ==> p.Some?
    ensures p.Some? ==> (more <==> p.value.hasNextPage)
  {
    p.Some? && p.value.hasNextPage
  }

  /** `resp.pagination?.page ?? fallback`: the server's page number when it
      sends one, else the page that was asked for. */
  function PageOr(p: Option<Http.Pagination>, fallback: int): (page: int)
    ensures p.None? ==> page == fallback
    ensures p.Some? ==> page == p.value.page
  {
    if p.Some? then p.value.page else fallback
  }

  // ---------------------------------------------------------------- listing

  /** `getAllUsers({ page: targetPage })`: only the page, so the limit takes
      its default and no search term is sent. */
  function FetchParams(target: int): UsersApi.ListParams {
    UsersApi.ListParams(Some(target), None, None)
  }

  /** The synchronous part of `fetchPage`: ignored while loading; otherwise
      marks the page loading, clears the error and issues the request. */
  function StartFetch(s: State, target: int): (step: Step<State, UsersApi.ListParams>)
    ensures s.loading ==> step == Step(s, None)
    ensures !s.loading ==> step == Step(s.(loading := true, error := None), Some(FetchParams(target)))
  {
    if s.loading then Step(s, None)
    else Step(s.(loading := true, error := None), Some(FetchParams(target)))
  }

  /** The settlement of `fetchPage`'s request, applied to whatever the state
      is by then. Success replaces or appends the mapped page and takes the
      cursor from the pagination block (no block: no next page, the requested
      page); failure keeps the list and cursor and sets the error. Loading
      ends either way and nothing else changes. */
  function FetchSettled(s: State, target: int, replace: bool, outcome: Settled): (s': State)
    ensures !s'.loading
    ensures outcome.Ok? ==>
      && s'.users == (if replace then ToUsers(outcome.value.payload.data)
                      else s.users + ToUsers(outcome.value.payload.data))
      && s'.hasNext == (outcome.value.payload.pagination.Some? && outcome.value.payload.pagination.value.hasNextPage)
      && s'.page == (if outcome.value.payload.pagination.Some? then outcome.value.payload.pagination.value.page else target)
      && s'.error == s.error
    ensures outcome.Err? ==>
      && s'.users == s.users && s'.page == s.page && s'.hasNext == s.hasNext
      && s'.error == Some(ErrorText(outcome.message, LoadUsersFailed))
    ensures s'.(users := s.users, page := s.page, hasNext := s.hasNext, loading := s.loading, error := s.error) == s
  {
    match outcome
    case Ok(env) =>
      var data := env.payload;
      s.(users := Lists.Merge(s.users, ToUsers(data.data), replace),
         hasNext := NextFlag(data.pagination),
         page := PageOr(data.pagination, target),
         loading := false)
    case Err(m) =>
      s.(error := Some(ErrorText(m, LoadUsersFailed)), loading := false)
  }

  /** `fetchPage(targetPage, replace)` when its request settles before
      anything else happens. A no-op issuing nothing while a load is in
      flight; otherwise the error shown afterwards is cleared on success. */
  function FetchPage(s: State, target: int, replace: bool, outcome: Settled): (step: Step<State, UsersApi.ListParams>)
    ensures s.loading ==> step == Step(s, None)
    ensures !s.loading ==> step.issued == Some(FetchParams(target)) && !step.next.loading
    ensures !s.loading && outcome.Ok? ==> step.next.error == None
    ensures !s.loading ==> step.next == FetchSettled(s.(loading := true, error := None), target, replace, outcome)
  {
    var start := StartFetch(s, target);
    if start.issued.None? then start
    else Step(FetchSettled(start.next, target, replace, outcome), start.issued)
  }

  /** While a load is in flight a second `fetchPage` is dropped, so at most
      one list request is ever outstanding. */
  lemma InFlightLoadBlocksAnother(s: State, target: int, again: int, replace: bool, outcome: Settled)
    requires !s.loading
    ensures StartFetch(StartFetch(s, target).next, again) == Step(StartFetch(s, target).next, None)
    ensures FetchPage(StartFetch(s, target).next, again, replace, outcome).issued == None
  {
  }

  /** The "Load more" button of the unfiltered list: the next page, appended. */
  function LoadMore(s: State, outcome: Settled): (step: Step<State, UsersApi.ListParams>)
    ensures s.loading ==> step == Step(s, None)
    ensures !s.loading ==> step.issued == Some(FetchParams(s.page + 1)) && !step.next.loading
    ensures !s.loading && outcome.Ok? ==> step.next.users == s.users + ToUsers(outcome.value.payload.data)
    ensures !s.loading && outcome.Err? ==> step.next.users == s.users && step.next.page == s.page
  {
    FetchPage(s, s.page + 1, false, outcome)
  }

  /** Presses "Load more" once per outcome, each settling before the next. */
  function LoadMoreEach(s: State, outcomes: seq<Settled>): State
    decreases |outcomes|
  {
    if outcomes == [] then s else LoadMoreEach(LoadMore(s, outcomes[0]).next, outcomes[1..])
  }

  /** The users the successful outcomes carry, mapped, in order. */
  function Delivered(outcomes: seq<Settled>): seq<User>
    decreases |outcomes|
  {
    if outcomes == [] then []
    else (if outcomes[0].Ok? then ToUsers(outcomes[0].value.payload.data) else [])
         + Delivered(outcomes[1..])
  }

  /** Successive "Load more" presses leave the list as the old list followed
      by every successfully delivered page, in request order, with nothing
      reordered or dropped; failed pages contribute nothing. */
  lemma {:induction false} LoadMoreConcatenates(s: State, outcomes: seq<Settled>)
    requires !s.loading
    ensures LoadMoreEach(s, outcomes).users == s.users + Delivered(outcomes)
    ensures !LoadMoreEach(s, outcomes).loading
    decreases |outcomes|
  {
    if outcomes != [] {
      var next := LoadMore(s, outcomes[0]).next;
      var got := if outcomes[0].Ok? then ToUsers(outcomes[0].value.payload.data) else [];
      assert next.users == s.users + got;
      LoadMoreConcatenates(next, outcomes[1..]);
      assert s.users + got + Delivered(outcomes[1..]) == s.users + (got + Delivered(outcomes[1..]));
    }
  }

  // ---------------------------------------------------------------- search

  /** The timer holds the trimmed current query, which is never empty. */
  ghost predicate TimerTracksQuery(s: State) {
    s.timer.Some? ==> s.timer.value == Text.Trim(s.query) && s.timer.value != ""
  }

  /** A change of the search box and the effect it triggers. Setting the
      same value re-renders nothing. Otherwise the cleanup cancels the pending
      timer; an empty trimmed query resets the search state, any other arms
      a fresh timer for that query, marks the search busy and clears the
      error. The unfiltered list is never touched. */
  function TypeQuery(s: State, q: string): (s': State)
    ensures q == s.query ==> s' == s
    ensures q != s.query && Text.Trim(q) == "" ==>
      s' == s.(query := q, searching := false, results := [], searchPage := 1, searchHasNext := false, timer := None)
    ensures q != s.query && Text.Trim(q) != "" ==>
      s' == s.(query := q, searching := true, error := None, timer := Some(Text.Trim(q)))
    ensures s'.users == s.users && s'.page == s.page && s'.hasNext == s.hasNext && s'.loading == s.loading
    ensures TimerTracksQuery(s) ==> TimerTracksQuery(s')
  {
    if q == s.query then s
    else
      var t := Text.Trim(q);
      if t == "" then
        s.(query := q, searching := false, results := [], searchPage := 1, searchHasNext := false, timer := None)
      else
        s.(query := q, searching := true, error := None, timer := Some(t))
  }

  /** The debounce delay in the source's milliseconds; the model counts its
      expiry as one `Elapsed` event. */
  const SearchDelay := 300

  /** The pending timer fires: it issues the first-page search for the query
      it was armed with and disarms. With no pending timer nothing happens. */
  function TimerFires(s: State): (step: Step<State, UsersApi.SearchArg>)
    ensures step.issued.Some? <==> s.timer.Some?
    ensures s.timer.Some? ==> step.issued == Some(UsersApi.ByParams(s.timer.value, Some(1), None))
    ensures step.next == s.(timer := None)
  {
    if s.timer.Some? then Step(s.(timer := None), Some(UsersApi.ByParams(s.timer.value, Some(1), None)))
    else Step(s, None)
  }

  /** A first-page search response arrives (whenever it does; stale responses
      are not discarded). Success replaces the results and takes the search
      cursor from the pagination block, defaulting to page 1 and no next
      page; failure keeps the results and sets the error. */
  function SearchSettled(s: State, outcome: Settled): (s': State)
    ensures !s'.searching
    ensures outcome.Ok? ==>
      && s'.results == ToUsers(outcome.value.payload.data)
      && s'.searchPage == PageOr(outcome.value.payload.pagination, 1)
      && s'.searchHasNext == NextFlag(outcome.value.payload.pagination)
      && s'.error == s.error
    ensures outcome.Err? ==>
      && s'.results == s.results && s'.searchPage == s.searchPage && s'.searchHasNext == s.searchHasNext
      && s'.error == Some(ErrorText(outcome.message, SearchFailed))
    ensures s'.(results := s.results, searchPage := s.searchPage, searchHasNext := s.searchHasNext,
                searching := s.searching, error := s.error) == s
  {
    match outcome
    case Ok(env) =>
      s.(results := ToUsers(env.payload.data),
         searchPage := PageOr(env.payload.pagination, 1),
         searchHasNext := NextFlag(env.payload.pagination),
         searching := false)
    case Err(m) =>
      s.(error := Some(ErrorText(m, SearchFailed)), searching := false)
  }

  /** `displayUsers`: the search results exactly when the trimmed query is
      non-empty, the current unfiltered list otherwise. */
  function Displayed(s: State): (r: seq<User>)
    ensures !Text.AllWhitespace(s.query) ==> r == s.results
    ensures Text.AllWhitespace(s.query) ==> r == s.users
  {
    if Text.Trim(s.query) != "" then s.results else s.users
  }

  /** Clearing the search box shows the unfiltered list as it is now (not a
      snapshot from before the search) and drops the search results. */
  lemma ClearingShowsCurrentList(s: State, q: string)
    requires q != s.query && Text.AllWhitespace(q)
    ensures Displayed(TypeQuery(s, q)) == s.users
    ensures TypeQuery(s, q).results == [] && TypeQuery(s, q).timer == None
  {
  }

  /** What can happen to the search box over time. */
  datatype SearchEvent = Typed(q: string) | Elapsed | Arrived(outcome: Settled)

  /** One event: the next state and the search request it issued, if any. */
  function Apply(s: State, e: SearchEvent): Step<State, UsersApi.SearchArg> {
    match e
    case Typed(q) => Step(TypeQuery(s, q), None)
    case Elapsed => TimerFires(s)
    case Arrived(o) => Step(SearchSettled(s, o), None)
  }

  /** A run of events: the final state, and each issued request paired with
      the search-box text at the moment it was issued. */
  function Run(s: State, events: seq<SearchEvent>): (State, seq<(UsersApi.SearchArg, string)>)
    decreases |events|
  {
    if events == [] then (s, [])
    else
      var step := Apply(s, events[0]);
      var rest := Run(step.next, events[1..]);
      (rest.0, (if step.issued.Some? then [(step.issued.value, s.query)] else []) + rest.1)
  }

  /** Each issued request is for page 1 and for the trimmed text that was in
      the box when it was issued, which is not empty. */
  ghost predicate ForTextAtIssue(issued: seq<(UsersApi.SearchArg, string)>) {
    forall k :: 0 <= k < |issued| ==>
      issued[k].0 == UsersApi.ByParams(Text.Trim(issued[k].1), Some(1), None) && Text.Trim(issued[k].1) != ""
  }

  /** One event keeps the timer in step with the query, and a request it
      issues is for the current trimmed query. */
  lemma ApplyTracksQuery(s: State, e: SearchEvent)
    requires TimerTracksQuery(s)
    ensures TimerTracksQuery(Apply(s, e).next)
    ensures ForTextAtIssue(if Apply(s, e).issued.Some? then [(Apply(s, e).issued.value, s.query)] else [])
  {
  }

  /** Debounce: every search request a run issues is for page 1 and for the
      trimmed text in the box at the moment it fires, never for a query the
      user had already replaced and never for an empty query. */
  lemma {:induction false} RunSearchesCurrentQuery(s: State, events: seq<SearchEvent>)
    requires TimerTracksQuery(s)
    ensures TimerTracksQuery(Run(s, events).0)
    ensures ForTextAtIssue(Run(s, events).1)
    decreases |events|
  {
    if events != [] {
      var step := Apply(s, events[0]);
      var head := if step.issued.Some? then [(step.issued.value, s.query)] else [];
      ApplyTracksQuery(s, events[0]);
      RunSearchesCurrentQuery(step.next, events[1..]);
      ForTextAtIssueConcat(head, Run(step.next, events[1..]).1);
    }
  }

  lemma ForTextAtIssueConcat(a: seq<(UsersApi.SearchArg, string)>, b: seq<(UsersApi.SearchArg, string)>)
    requires ForTextAtIssue(a) && ForTextAtIssue(b)
    ensures ForTextAtIssue(a + b)
  {
    forall k | 0 <= k < |a + b|
      ensures (a + b)[k].0 == UsersApi.ByParams(Text.Trim((a + b)[k].1), Some(1), None)
      ensures Text.Trim((a + b)[k].1) != ""
    {
      if k >= |a| {
        assert (a + b)[k] == b[k - |a|];
      }
    }
  }

  /** With no typing, a run issues at most the one request already pending. */
  lemma {:induction false} QuietRunSearchesAtMostOnce(s: State, events: seq<SearchEvent>)
    requires forall k :: 0 <= k < |events| ==> !events[k].Typed?
    ensures |Run(s, events).1| <= (if s.timer.Some? then 1 else 0)
    decreases |events|
  {
    if events != [] {
      var step := Apply(s, events[0]);
      QuietRunSearchesAtMostOnce(step.next, events[1..]);
      if step.issued.Some? {
        assert step.next.timer == None;
      }
    }
  }

  /** One step of `Run`: the first event's request, then the rest of the run. */
  lemma RunStep(s: State, e: SearchEvent, rest: seq<SearchEvent>)
    ensures Run(s, [e] + rest).1 ==
      (if Apply(s, e).issued.Some? then [(Apply(s, e).issued.value, s.query)] else [])
      + Run(Apply(s, e).next, rest).1
  {
    assert ([e] + rest)[1..] == rest;
  }

  /** Typing a new, already trimmed, non-blank text arms the timer with it
      and issues nothing yet. */
  lemma TypedArmsTimer(s: State, q: string)
    requires q != s.query && q != "" && Text.Trim(q) == q
    ensures Apply(s, Typed(q)).issued == None
    ensures Apply(s, Typed(q)).next.timer == Some(q) && Apply(s, Typed(q)).next.query == q
  {
  }

  /** Typing a text and then another before the timer fires (say "ann" and
      then "anna") issues exactly one request, for the second text. */
  lemma SupersededQueryIsNeverSearched(s: State, a: string, b: string)
    requires a != s.query && a != b && a != "" && b != ""
    requires Text.Trim(a) == a && Text.Trim(b) == b
    ensures Run(s, [Typed(a), Typed(b), Elapsed]).1 == [(UsersApi.ByParams(b, Some(1), None), b)]
  {
    TypedArmsTimer(s, a);
    var s1 := Apply(s, Typed(a)).next;
    TypedArmsTimer(s1, b);
    var s2 := Apply(s1, Typed(b)).next;
    var request := (UsersApi.ByParams(b, Some(1), None), b);
    RunStep(s2, Elapsed, []);
    assert Run(s2, [Elapsed]).1 == [request];
    RunStep(s1, Typed(b), [Elapsed]);
    assert Run(s1, [Typed(b)] + [Elapsed]).1 == [request];
    RunStep(s, Typed(a), [Typed(b), Elapsed]);
    assert [Typed(a)] + ([Typed(b)] + [Elapsed]) == [Typed(a), Typed(b), Elapsed];
  }

  // ---------------------------------------------------------------- search "Load more"

  /** The synchronous part of the search "Load more" handler: ignored while a
      search is busy; otherwise marks it busy and asks for the page after the
      current one. */
  function StartSearchMore(s: State): (step: Step<State, UsersApi.SearchArg>)
    ensures s.searching ==> step == Step(s, None)
    ensures !s.searching ==>
      step == Step(s.(searching := true), Some(UsersApi.ByParams(Text.Trim(s.query), Some(s.searchPage + 1), None)))
  {
    if s.searching then Step(s, None)
    else Step(s.(searching := true), Some(UsersApi.ByParams(Text.Trim(s.query), Some(s.searchPage + 1), None)))
  }

  /** The settlement of a search "Load more": success appends the mapped page
      and advances the search page by exactly one, whatever page number the
      response reports; failure only sets the error. */
  function SearchMoreSettled(s: State, outcome: Settled): (s': State)
    ensures !s'.searching
    ensures outcome.Ok? ==>
      && s'.results == s.results + ToUsers(outcome.value.payload.data)
      && s'.searchPage == s.searchPage + 1
      && s'.searchHasNext == NextFlag(outcome.value.payload.pagination)
      && s'.error == s.error
    ensures outcome.Err? ==>
      && s'.results == s.results && s'.searchPage == s.searchPage && s'.searchHasNext == s.searchHasNext
      && s'.error == Some(ErrorText(outcome.message, SearchFailed))
    ensures s'.(results := s.results, searchPage := s.searchPage, searchHasNext := s.searchHasNext,
                searching := s.searching, error := s.error) == s
  {
    match outcome
    case Ok(env) =>
      s.(results := s.results + ToUsers(env.payload.data),
         searchPage := s.searchPage + 1,
         searchHasNext := NextFlag(env.payload.pagination),
         searching := false)
    case Err(m) =>
      s.(error := Some(ErrorText(m, SearchFailed)), searching := false)
  }

  /** The search "Load more" handler when its request settles before anything
      else happens. */
  function SearchLoadMore(s: State, outcome: Settled): (step: Step<State, UsersApi.SearchArg>)
    ensures s.searching ==> step == Step(s, None)
    ensures !s.searching ==> step.issued.Some? && step.issued.value.ByParams? && step.issued.value.page == Some(s.searchPage + 1)
    ensures !s.searching ==> step.next == SearchMoreSettled(s.(searching := true), outcome)
    ensures step.next.users == s.users
  {
    var start := StartSearchMore(s);
    if start.issued.None? then start
    else Step(SearchMoreSettled(start.next, outcome), start.issued)
  }

  // ---------------------------------------------------------------- ban toggle

  /** `users.map(u => u.id === id ? { ...u, status: flipped } : u)`. */
  function FlipById(users: seq<User>, id: string): (r: seq<User>)
    ensures |r| == |users|
    ensures forall i :: 0 <= i < |users| && users[i].id == id ==> r[i] == users[i].(status := Flip(users[i].status))
    ensures forall i :: 0 <= i < |users| && users[i].id != id ==> r[i] == users[i]
  {
    Lists.MapWhere(users, (u: User) => u.id == id, (u: User) => u.(status := Flip(u.status)))
  }

  /** The optimistic part of the ban "Confirm" handler for the row's user:
      flip that user in the unfiltered list and in the last-viewed user when
      it is the same user. */
  function BanClicked(s: State, id: string): (s': State)
    ensures s'.users == FlipById(s.users, id)
    ensures s.selected.Some? && s.selected.value.id == id ==>
      s'.selected == Some(s.selected.value.(status := Flip(s.selected.value.status)))
    ensures !(s.selected.Some? && s.selected.value.id == id) ==> s'.selected == s.selected
    ensures s'.(users := s.users, selected := s.selected) == s
  {
    var selected :=
      if s.selected.Some? && s.selected.value.id == id
      then Some(s.selected.value.(status := Flip(s.selected.value.status)))
      else s.selected;
    s.(users := FlipById(s.users, id), selected := selected)
  }

  /** The settlement of `toggleBan`, as written: on failure the list goes back
      to the snapshot taken at the click, and the last-viewed user is set
      from the value captured at the click, flipped once more. */
  function BanSettled(s: State, snapshot: seq<User>, selectedAtClick: Option<User>, id: string, outcome: Outcome<()>): (s': State)
    ensures outcome.Ok? ==> s' == s
    ensures outcome.Err? ==> s'.users == snapshot && s'.error == Some(ErrorText(outcome.message, UpdateStatusFailed))
    ensures outcome.Err? && selectedAtClick.Some? && selectedAtClick.value.id == id ==>
      s'.selected.Some? && s'.selected.value.id == id && s'.selected.value.status != selectedAtClick.value.status
    ensures outcome.Err? && !(selectedAtClick.Some? && selectedAtClick.value.id == id) ==> s'.selected == s.selected
    ensures s'.(users := s.users, selected := s.selected, error := s.error) == s
  {
    match outcome
    case Ok(_) => s
    case Err(m) =>
      var selected :=
        if selectedAtClick.Some? && selectedAtClick.value.id == id
        then Some(selectedAtClick.value.(status := Flip(selectedAtClick.value.status)))
        else s.selected;
      s.(users := snapshot, selected := selected, error := Some(ErrorText(m, UpdateStatusFailed)))
  }

  /** The ban "Confirm" handler as written, when `toggleBan` settles before
      anything else happens. Only the chosen id flips in the unfiltered list
      and the search results are never touched; on failure the list equals
      the pre-click snapshot and the error is set. A last-viewed user with
      that id ends up flipped on BOTH paths. */
  function ConfirmBan(s: State, id: string, outcome: Outcome<()>): (s': State)
    ensures outcome.Ok? ==> s'.users == FlipById(s.users, id) && s'.error == s.error
    ensures outcome.Err? ==> s'.users == s.users && s'.error == Some(ErrorText(outcome.message, UpdateStatusFailed))
    ensures s'.results == s.results && s'.query == s.query
    ensures s.selected.Some? && s.selected.value.id == id ==>
      s'.selected == Some(s.selected.value.(status := Flip(s.selected.value.status)))
  {
    BanSettled(BanClicked(s, id), s.users, s.selected, id, outcome)
  }

  /** The flaw: a failed toggle leaves the last-viewed user, when it is that
      user, holding a status the server never confirmed. The state is stale
      but not on screen: opening "View" again sets it afresh from the row. */
  lemma FailedBanLeavesDetailFlipped(s: State, id: string, m: Option<string>)
    requires s.selected.Some? && s.selected.value.id == id
    ensures ConfirmBan(s, id, Err(m)).selected != s.selected
    ensures ConfirmBan(s, id, Err(m)).selected.value.status != s.selected.value.status
  {
  }

  /** The ban "Confirm" handler with the rollback the catch block evidently
      intends (app/users/page.tsx:316-322): a failure restores both the list
      and the last-viewed user to their pre-click values. */
  function ConfirmBanRollback(s: State, id: string, outcome: Outcome<()>): (s': State)
    ensures outcome.Ok? ==> s'.users == FlipById(s.users, id) && s'.error == s.error
    ensures outcome.Ok? ==> s'.selected == BanClicked(s, id).selected
    ensures outcome.Err? ==> s' == s.(error := Some(ErrorText(outcome.message, UpdateStatusFailed)))
  {
    var clicked := BanClicked(s, id);
    match outcome
    case Ok(_) => clicked
    case Err(m) => clicked.(users := s.users, selected := s.selected, error := Some(ErrorText(m, UpdateStatusFailed)))
  }

  /** Under the intended rollback a failed toggle changes nothing but the error. */
  lemma FailedBanRestoresEverything(s: State, id: string, m: Option<string>)
    ensures ConfirmBanRollback(s, id, Err(m)).(error := s.error) == s
  {
  }

  // ---------------------------------------------------------------- mount

  /** The mount effect: the redirecting guard, and `fetchPage(1, true)` once
      the token is valid. Without a token, or with a rejected one, the state
      is untouched and no list request is made. */
  function Mount(s: State, token: Option<string>, valid: bool, first: Settled): (r: (State, seq<Effect>, Option<UsersApi.ListParams>))
    ensures r.1 == AuthGuard.Guard(token, valid, AuthGuard.Redirecting)
    ensures !(Http.HasToken(token) && valid) ==> r.0 == s && r.2 == None
    ensures Http.HasToken(token) && valid && !s.loading ==>
      r.2 == Some(FetchParams(1)) && r.0 == FetchSettled(s.(loading := true, error := None), 1, true, first)
    ensures !Http.HasToken(token) ==> r.1 == [Redirect(AuthGuard.LoginPath)]
  {
    var effects := AuthGuard.Guard(token, valid, AuthGuard.Redirecting);
    if Load in effects then
      var step := FetchPage(s, 1, true, first);
      (step.next, effects, step.issued)
    else (s, effects, None)
  }
}
