/** app/dashboard/page.tsx: the guarded statistics load, the four totals and
    the weekly chart. */
module DashboardPage {
  import opened Wrappers
  import opened Effects
  import Http
  import AuthGuard
  import opened DashboardApi

  const StatsFailed := "Failed to load stats"

  /** The page's React state. */
  datatype State = State(stats: Option<DashboardStats>, loadingStats: bool, error: Option<string>)

  /** Nothing loaded yet, and the totals show as loading. */
  const Initial := State(None, true, None)

  /** How `getDashboardStats` settling updates the page: success keeps the
      statistics, failure shows the rejection's message ("Failed to load
      stats" for a thrown non-`Error`); loading ends either way. */
  function StatsSettled(s: State, outcome: Outcome<DashboardStats>): (s': State)
    ensures !s'.loadingStats
    ensures outcome.Ok? ==> s'.stats == Some(outcome.value) && s'.error == s.error
    ensures outcome.Err? ==> s'.stats == s.stats && s'.error == Some(ErrorText(outcome.message, StatsFailed))
  {
    match outcome
    case Ok(data) => s.(stats := Some(data), loadingStats := false)
    case Err(m) => s.(loadingStats := false, error := Some(ErrorText(m, StatsFailed)))
  }

  /** The mount effect: the redirecting guard, then the statistics load once
      the token is valid. Without a valid token the state is untouched, so
      the totals keep showing as loading while the visitor is sent away. */
  function Mount(s: State, token: Option<string>, valid: bool, first: Outcome<DashboardStats>): (r: (State, seq<Effect>))
    ensures r.1 == AuthGuard.Guard(token, valid, AuthGuard.Redirecting)
    ensures !Http.HasToken(token) ==> r == (s, [Redirect(AuthGuard.LoginPath)])
    ensures Http.HasToken(token) && !valid ==>
      r == (s, [Validate(token.value), RemoveToken, Redirect(AuthGuard.LoginPath)])
    ensures Http.HasToken(token) && valid ==> r.0 == StatsSettled(s, first)
  {
    var effects := AuthGuard.Guard(token, valid, AuthGuard.Redirecting);
    if Load in effects then (StatsSettled(s, first), effects) else (s, effects)
  }

  /** Statistics reach the page only through a validated token: starting
      from the initial state, the page holds statistics after mount exactly
      when the token passed validation and the load succeeded. */
  lemma StatsOnlyAfterValidation(token: Option<string>, valid: bool, first: Outcome<DashboardStats>)
    ensures Mount(Initial, token, valid, first).0.stats.Some? <==> Http.HasToken(token) && valid && first.Ok?
    ensures Mount(Initial, token, valid, first).0.loadingStats <==> !(Http.HasToken(token) && valid)
  {
  }

  /** The four summary numbers. */
  datatype Totals = Totals(users: int, posts: int, reports: int, groups: int)

  /** `stats?.totalX ?? 0` for each card. */
  function TotalsOf(s: State): (t: Totals)
    ensures s.stats.None? ==> t == Totals(0, 0, 0, 0)
    ensures s.stats.Some? ==>
      t == Totals(s.stats.value.totalUser, s.stats.value.totalPost, s.stats.value.totalReport, s.stats.value.totalGroup)
  {
    match s.stats
    case None => Totals(0, 0, 0, 0)
    case Some(st) => Totals(st.totalUser, st.totalPost, st.totalReport, st.totalGroup)
  }

  /** What the cards display: a dash while loading, else the totals. */
  function Cards(s: State): (shown: Option<Totals>)
    ensures shown.None? <==> s.loadingStats
    ensures shown.Some? ==> shown.value == TotalsOf(s)
  {
    if s.loadingStats then None else Some(TotalsOf(s))
  }

  /** A failed first load shows zeros, not the dash, next to the error: the
      cards cannot tell "no statistics" from "all counts are zero". */
  lemma FailedLoadShowsZeros(token: Option<string>, m: Option<string>)
    requires Http.HasToken(token)
    ensures Cards(Mount(Initial, token, true, Err(m)).0) == Some(Totals(0, 0, 0, 0))
    ensures Mount(Initial, token, true, Err(m)).0.error == Some(ErrorText(m, StatsFailed))
  {
  }

  /** One bar of the weekly chart. */
  datatype ChartRow = ChartRow(day: string, users: int)

  /** `(stats?.days || []).map(d => ({ day: d.weekday, users: d.count }))`:
      one bar per day, in the response's order, none without statistics. */
  function ChartRows(s: State): (rows: seq<ChartRow>)
    ensures s.stats.None? ==> rows == []
    ensures s.stats.Some? ==> |rows| == |s.stats.value.days|
    ensures s.stats.Some? ==> forall i :: 0 <= i < |rows| ==>
      rows[i].day == s.stats.value.days[i].weekday && rows[i].users == s.stats.value.days[i].count
  {
    match s.stats
    case None => []
    case Some(st) => seq(|st.days|, i requires 0 <= i < |st.days| => ChartRow(st.days[i].weekday, st.days[i].count))
  }
}
