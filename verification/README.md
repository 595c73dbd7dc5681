# Casarancha admin front-end: page controllers and data layer

This project models the behaviour of the Casarancha admin console. The console is a
Next.js/React front-end. Moderators use it to sign in, read dashboard statistics,
browse and ban users, browse and delete posts, and triage reports. The model covers:

- the five page controllers: login, dashboard, users, posts and reports;
- the `data/*.ts` wrappers that build each HTTP request and choose its error text;
- the token cell in `config/storage.ts`;
- the auth guard the protected pages run when they mount.

Every React handler is a pure transition over an immutable `State` record. An asynchronous
handler appears in three forms:

- its synchronous part (`Start…`), which returns the next state and the request it issues;
- its settlement (`…Settled`), which takes the promise's `Outcome`;
- the two composed, for a request that settles before anything else happens.

A network call is a `Reply` parameter. A `Reply` is either a transport rejection, or a
status code with a body that either parsed as JSON or did not. Navigation and token writes
are emitted `Effect`s. The search debounce is a sequence of discrete events: `Typed(q)`,
`Elapsed` and `Arrived(outcome)`.

JavaScript semantics the source relies on are written out:

- `??` is `GetOr`, and `||` on strings tests for a non-empty value.
- `e instanceof Error ? e.message : fallback` (`ErrorText`) keeps an empty message.
- `(e as Error).message || fallback` (`MessageOr`) does not keep an empty message.
- `String.prototype.trim` uses the ECMAScript whitespace set.
- `String(n)` prints decimal digits.
- `'key' in v` throws a `TypeError` when `v` is a primitive; a table cell whose rendering throws is `Throws`.
- React skips the re-render, and so the effect, when a state is set to the value it already has.

Files, one module each:

| file | module | models |
|---|---|---|
| wrappers.dfy | Wrappers | `Option`, `Outcome`, the error-text idioms |
| text.dfy | Text | `trim`, `join`, `String(n)` |
| json.dfy | Json | untyped JSON values and optional chaining |
| lists.dfy | Lists | replace/append, map-by-id and filter |
| records.dfy | Records | the `User`, `Post` and author record shapes |
| storage.dfy | Storage | config/storage.ts |
| effects.dfy | Effects | navigation and token effects |
| http.dfy | Http | requests, replies, the Bearer header, error selection |
| users_api.dfy, posts_api.dfy, reports_api.dfy, auth_api.dfy, dashboard_api.dfy | UsersApi, PostsApi, ReportsApi, AuthApi, DashboardApi | data/*.ts |
| guard.dfy | AuthGuard | the token-validation effect the pages run on mount |
| users_page.dfy, posts_page.dfy, reports_page.dfy, login_page.dfy, dashboard_page.dfy | UsersPage, PostsPage, ReportsPage, LoginPage, DashboardPage | app/*/page.tsx |

## Model

| member | source | states |
|---|---|---|
| Wrappers.OrElse | data/users.ts:60 | `s \|\| fallback` gives the string when it is non-empty, else the fallback |
| Wrappers.ErrorText | app/users/page.tsx:98 | an `Error` rejection shows its message, even an empty one; any other thrown value shows the handler's fallback |
| Wrappers.MessageOr | app/reports/page.tsx:62-63 | the reports page's `message \|\| fallback` falls back both for an empty message and for a non-`Error` rejection |
| Text.TrimStart | app/users/page.tsx:106 | drops exactly the leading whitespace: the result is a suffix that starts with a non-whitespace character, or is empty |
| Text.TrimEnd | app/users/page.tsx:106 | drops exactly the trailing whitespace: the result is a prefix that ends with a non-whitespace character, or is empty |
| Text.Trim | app/users/page.tsx:106 | the trimmed query is empty exactly when the text is all whitespace; otherwise it starts and ends with non-whitespace |
| Text.TrimStrips | app/users/page.tsx:106 | trimming removes whitespace, and only whitespace, from the two ends: the result is a stretch of the input with only whitespace on either side |
| Text.TrimNoOp | app/users/page.tsx:106 | text that neither starts nor ends with whitespace trims to itself |
| Text.Join | app/posts/page.tsx:58 | `join` of no parts is the empty string; otherwise the text starts with the first part |
| Text.JoinEndsWithLast | app/posts/page.tsx:58 | the joined text ends with the last part |
| Text.JoinConcat | app/posts/page.tsx:58 | joining two non-empty lists puts exactly one separator at the seam |
| Text.JoinFlatten | app/posts/page.tsx:58 | joining the joins of non-empty groups equals joining all their strings at once |
| Text.FlattenNonEmpty | app/posts/page.tsx:58 | flattening non-empty groups leaves a non-empty list |
| Text.Digit | data/users.ts:40 | a digit below ten prints as the character with that value |
| Text.ShowNat | data/users.ts:40-41 | `String(n)` of a natural number is a non-empty run of decimal digits with no leading zero |
| Text.ReadShowNat | data/users.ts:40-41 | the printed page number or limit reads back as the number it came from |
| Text.ShowInt | data/users.ts:40-41 | `String(n)` starts with '-' exactly for negative numbers and prints non-negative ones as their digits |
| Text.ShowIntInjective | data/users.ts:40-41 | distinct numbers never print the same, so query values identify the page and limit |
| Json.Member | app/reports/page.tsx:121-122 | `j?.key` is present exactly when `j` is an object holding that key, and is then that member |
| Json.First | app/reports/page.tsx:122 | `j?.[0]` is present exactly for a non-empty array, and is then its first element |
| Json.StringMember | app/reports/page.tsx:122 | `j?.key` read as text is present exactly when the member is a JSON string, and is then that string |
| Lists.MapWhere | app/users/page.tsx:301-305 | the map-by-id keeps the length, transforms exactly the matching entries and keeps every other entry |
| Lists.Filter | app/posts/page.tsx:108-110 | `filter` keeps exactly the matching elements, as an order-preserving subsequence, each matching element as many times as it occurs and no other |
| Lists.FilterKeepsAll | app/posts/page.tsx:108-110 | filtering a list whose every element matches gives the list itself |
| Lists.FilterDropsAll | app/posts/page.tsx:108-110 | filtering a list in which nothing matches gives the empty list |
| Records.Flip | app/users/page.tsx:303 | the ban toggle always changes the status: active becomes banned and banned becomes active |
| Storage.GetToken | config/storage.ts:3-10 | with no window, or when storage throws, reads as no token; otherwise returns the entry under the single fixed key |
| Storage.SetToken | config/storage.ts:12-19 | with no window or a throwing store nothing changes; otherwise only the token key is written |
| Storage.RemoveToken | config/storage.ts:21-28 | with no window or a throwing store nothing changes; otherwise only the token key is dropped |
| Storage.SetThenGet | config/storage.ts:1-19 | a stored token reads back, and a later write overwrites an earlier one |
| Storage.RemoveThenGet | config/storage.ts:3-28 | after a removal no token is read; a removal that throws keeps whatever was stored |
| Effects.LastTokenWrite | config/storage.ts:12-28 | the last effect that writes the token cell, if any, is one of the effects and is a store or a removal |
| Effects.LastTokenWriteFront | config/storage.ts:12-28 | the last token write of a sequence is the rest's last one, or else the first effect when it writes the token |
| Effects.ApplyToStorage | config/storage.ts:12-28 | running a handler's effects in order: the last store or removal decides the token read afterwards; with no token write storage is unchanged; no other entry ever changes |
| Http.Lookup | data/users.ts:39-42 | a query or header lookup finds the value of the first pair with that name, and finds nothing only when no pair has that name |
| Http.LookupAppend | data/users.ts:39-42 | appending optional parameters never shadows the ones already set |
| Http.Bearer | data/users.ts:50 | the Authorization value is the RFC 6750 section 2.1 scheme prefix followed by the token unchanged |
| Http.BearerInjective | data/users.ts:50 | different tokens give different Authorization values |
| Http.FailureText | data/users.ts:56-62 | a non-OK reply's error is the body's `message` when it is truthy, else the operation's default, also when the body does not parse |
| Http.Settle | data/posts.ts:87-97 | success exactly for an OK status with a parsed body, which is returned unchanged; every failure carries a message |
| Http.SettleIgnoringBody | data/users.ts:133-141 | for an operation that ignores the success body, any OK status succeeds; failures carry the same messages |
| UsersApi.ListRequest | data/users.ts:38-54 | always sends `page` and `limit`, defaulting to 1 and 40, sends `search` only when non-empty, and uses a no-store GET with the Bearer header |
| UsersApi.GetAllUsers | data/users.ts:34-67 | without a token it fails with "Not authenticated" before sending; otherwise success returns the parsed envelope and a non-OK reply fails with the server's message or "Failed to fetch users" |
| UsersApi.SearchRequest | data/users.ts:86-105 | a string argument sends only `query`; an object argument sends `query`, then `page` and `limit` only when truthy, so 0 is omitted, and nothing else |
| UsersApi.SearchUsers | data/users.ts:80-118 | the token precondition, then the parsed envelope on success or the server's message or "Failed to search users" |
| UsersApi.ToggleBanRequest | data/users.ts:124-131 | a no-store PUT to `/admin/toggle-ban/<userId>` with no body |
| UsersApi.ToggleBan | data/users.ts:120-141 | the token precondition; any OK status succeeds with nothing returned; otherwise the server's message or "Failed to toggle ban" |
| PostsApi.ListRequest | data/posts.ts:73-85 | always sends `page` and `limit`, defaulting to 1 and 40, and nothing else |
| PostsApi.GetAllPosts | data/posts.ts:69-98 | the token precondition; the parsed envelope on success; the server's message or "Failed to fetch posts" otherwise |
| PostsApi.DeleteRequest | data/posts.ts:104-110 | a DELETE to `/admin/delete-post/<id>` that may be cached |
| PostsApi.DeletePost | data/posts.ts:100-122 | the token precondition; the parsed reply on success; the server's message or "Failed to delete post" otherwise |
| ReportsApi.StatusName | data/reports.ts:62 | each status has a non-empty lower-case wire name |
| ReportsApi.ParseStatus | data/reports.ts:62 | a `status` string reads as the status whose wire name it is, and as none when no status has that name |
| ReportsApi.ParseStatusName | data/reports.ts:62 | a status's wire name reads back as that status |
| ReportsApi.StatusNameInjective | data/reports.ts:62 | the four statuses have four distinct wire names |
| ReportsApi.ListRequest | data/reports.ts:86-99 | sends `page` and `limit`, defaulting to 1 and 40, and `status` only when one is given |
| ReportsApi.GetAllReports | data/reports.ts:78-111 | the token precondition; the parsed reply on success; the server's message or "Failed to fetch reports" otherwise |
| ReportsApi.UpdateRequest | data/reports.ts:120-127 | a JSON POST whose body is exactly the report id and the status's wire name |
| ReportsApi.UpdateReportStatus | data/reports.ts:113-139 | the token precondition; success on an OK parsed reply; the server's message or "Failed to update report" otherwise |
| AuthApi.LoginRequest | data/auth.ts:9-16 | a JSON POST carrying exactly the email and password, and no Authorization header |
| AuthApi.LoginAdmin | data/auth.ts:8-29 | always sent; the parsed reply, whose payload is the token, on success; the server's message or "Login failed" otherwise |
| AuthApi.ValidateRequest | data/auth.ts:33-40 | a no-store POST with the Bearer header |
| AuthApi.ValidateToken | data/auth.ts:31-45 | true exactly for status 200, so other 2xx statuses and transport failures count as invalid, and it never rejects |
| DashboardApi.StatsRequest | data/dashboard.ts:29-36 | a no-store GET with the Bearer header |
| DashboardApi.GetDashboardStats | data/dashboard.ts:23-49 | the token precondition; only the envelope's `data` on success; the server's message or "Failed to fetch dashboard stats" otherwise |
| AuthGuard.OnMount | app/users/page.tsx:61-65 | a missing or empty token ends the guard, with a redirect to /login only on redirecting pages; otherwise validation is requested |
| AuthGuard.OnValidated | app/users/page.tsx:66-72 | a valid token loads the page; an invalid one is removed, with a redirect only on redirecting pages |
| AuthGuard.Guard | app/posts/page.tsx:66-77 | validation happens exactly when a token is present; the load happens exactly after a successful validation; the token is removed exactly when validation fails; a redirect happens exactly when a redirecting page's guard did not pass |
| AuthGuard.RejectedTokenIsForgotten | app/dashboard/page.tsx:28-31 | after a failed validation, storage holds no token, whichever policy the page follows |
| UsersPage.ToUser | app/users/page.tsx:83-92 | banned exactly when `isBanned`; named by `displayName`, else `name`, else ''; zero posts; identity fields copied |
| UsersPage.ToUsers | app/users/page.tsx:83 | the mapping keeps the length and maps each user at its position |
| UsersPage.NextFlag | app/users/page.tsx:94 | a response without a pagination block never offers another page; with one, its `hasNextPage` decides |
| UsersPage.PageOr | app/users/page.tsx:95 | the page number is the server's when it sends one, else the page that was requested |
| UsersPage.StartFetch | app/users/page.tsx:77-81 | a no-op while loading; otherwise marks loading, clears the error and requests the page with the default limit |
| UsersPage.FetchSettled | app/users/page.tsx:82-101 | replace makes the list exactly the mapped page, append keeps order; the cursor comes from pagination with false/target fallbacks; failure keeps list and cursor and sets the message or "Failed to load users"; nothing else changes |
| UsersPage.FetchPage | app/users/page.tsx:77-102 | a no-op while loading, otherwise exactly one request and its settlement; the error is cleared on success |
| UsersPage.InFlightLoadBlocksAnother | app/users/page.tsx:78 | a second fetch while one is in flight issues nothing |
| UsersPage.LoadMore | app/users/page.tsx:381-388 | "Load more" asks for the page after the current one and appends it to the list; a failure keeps the list and the cursor; a no-op while loading |
| UsersPage.LoadMoreConcatenates | app/users/page.tsx:93 | repeated "Load more" presses leave the old list followed by every delivered page, in order; failed pages add nothing |
| UsersPage.TypeQuery | app/users/page.tsx:105-141 | the same value changes nothing; an all-whitespace query resets the search state and cancels the timer; any other query re-arms the timer for the trimmed text; the unfiltered list is never touched |
| UsersPage.TimerFires | app/users/page.tsx:116-117 | a pending timer issues exactly one page-1 search for the query it was armed with, and disarms |
| UsersPage.SearchSettled | app/users/page.tsx:118-138 | success replaces the results with the mapped page, with the search cursor defaulting to page 1 and no next page; failure keeps results and sets the message or "Search failed" |
| UsersPage.Displayed | app/users/page.tsx:143 | the search results are shown exactly when the trimmed query is non-empty, the current user list otherwise |
| UsersPage.ClearingShowsCurrentList | app/users/page.tsx:106-113 | clearing the box shows the current list and drops the results and the pending timer |
| UsersPage.ApplyTracksQuery | app/users/page.tsx:105-141 | each event keeps the timer in step with the query, and any request it issues is for the current trimmed query |
| UsersPage.RunSearchesCurrentQuery | app/users/page.tsx:114-140 | over any event run, every search request is for page 1 and for the non-empty trimmed text in the box when it fired |
| UsersPage.ForTextAtIssueConcat | app/users/page.tsx:114-140 | the request-matches-query property holds for the concatenation of two runs |
| UsersPage.QuietRunSearchesAtMostOnce | app/users/page.tsx:140 | without typing, at most the one pending request is ever issued |
| UsersPage.RunStep | app/users/page.tsx:105-140 | a run issues the first event's request, if any, followed by the rest of the run's |
| UsersPage.TypedArmsTimer | app/users/page.tsx:105-116 | typing a new trimmed non-blank text arms the timer with it and issues nothing yet |
| UsersPage.SupersededQueryIsNeverSearched | app/users/page.tsx:105-140 | typing a text and then a different one (say "ann" then "anna") before the delay ends issues one request, for the second text |
| UsersPage.StartSearchMore | app/users/page.tsx:347-351 | a no-op while searching; otherwise requests the page after the current search page for the trimmed query |
| UsersPage.SearchMoreSettled | app/users/page.tsx:351-370 | success appends the mapped page and advances the search page by exactly one, whatever the response says; failure only sets the error |
| UsersPage.SearchLoadMore | app/users/page.tsx:347-371 | the search "Load more" handler asks for the next page and never touches the unfiltered list |
| UsersPage.FlipById | app/users/page.tsx:301-305 | only the matching id's status flips; every other user is unchanged |
| UsersPage.BanClicked | app/users/page.tsx:300-312 | the optimistic update flips the row, and the last-viewed user when it is the same user, and nothing else |
| UsersPage.BanSettled | app/users/page.tsx:313-324 | as written: success changes nothing; failure restores the list to the click-time snapshot, sets the message or "Failed to update user status", and leaves a last-viewed user of that id with the opposite of its click-time status |
| UsersPage.ConfirmBan | app/users/page.tsx:300-324 | as written: only that id flips and the search results are untouched; on failure the list is the pre-click snapshot and the error is set; a last-viewed user of that id ends flipped on both paths |
| UsersPage.FailedBanLeavesDetailFlipped | app/users/page.tsx:316-322 | a failed toggle leaves the last-viewed user of that id holding a status the server never confirmed |
| UsersPage.ConfirmBanRollback | app/users/page.tsx:300-324 | as intended: success flips the list and the last-viewed user; failure restores both to their pre-click values |
| UsersPage.FailedBanRestoresEverything | app/users/page.tsx:313-324 | under the intended rollback a failed toggle changes nothing but the error |
| UsersPage.Mount | app/users/page.tsx:60-75 | the redirecting guard, then `fetchPage(1, true)` only after successful validation; otherwise the state is untouched and nothing is fetched |
| PostsPage.Leaves | app/posts/page.tsx:55-64 | the leaf texts `toPlainText` visits, never an empty list |
| PostsPage.PlainText | app/posts/page.tsx:55-64 | the caption is every leaf text joined by single spaces, however deeply arrays nest |
| PostsPage.ItemTexts | app/posts/page.tsx:58 | `items.map(toPlainText)` keeps the length and maps each item at its position |
| PostsPage.ArrayTextJoinsLeaves | app/posts/page.tsx:58 | joining an array's item texts joins the flattened leaves of all items |
| PostsPage.ItemTextsJoinGroups | app/posts/page.tsx:58 | each item's text joins that item's leaves |
| PostsPage.PlainTextCases | app/posts/page.tsx:55-64 | falsy values and numbers give ''; a string gives itself; a string `text` wins over `content`; `content` alone is flattened; a one-element array gives its element's text |
| PostsPage.ImageOf | app/posts/page.tsx:92 | the image is the first media item's `url` when that is a non-empty string, else '' |
| PostsPage.ToPost | app/posts/page.tsx:86-96 | a fetched post maps to an active card with no likes and a flattened caption; the author fields are copied, with the avatar defaulting to '' |
| PostsPage.ToPosts | app/posts/page.tsx:86 | the mapping keeps the length and maps each post at its position |
| PostsPage.StartFetch | app/posts/page.tsx:79-83 | a no-op while loading; otherwise marks loading, clears the error and requests the page |
| PostsPage.FetchSettled | app/posts/page.tsx:84-105 | the raw and mapped lists are replaced, or appended to, from the same response and stay aligned by id; cursor fallbacks; failure keeps both lists and sets the message or "Failed to load posts"; no card becomes reported |
| PostsPage.FetchPage | app/posts/page.tsx:79-106 | a no-op while loading, otherwise one request and its settlement, with the error cleared on success |
| PostsPage.Filtered | app/posts/page.tsx:108-110 | "all" shows every card; a status shows exactly the cards with that status, in order, each as often as it is listed |
| PostsPage.ReportedFilterIsEmpty | app/posts/page.tsx:93 | with API-loaded cards, the "reported" filter shows nothing |
| PostsPage.MarkDeleted | app/posts/page.tsx:116-118 | only the matching id becomes deleted; every other card is unchanged |
| PostsPage.DeletePost | app/posts/page.tsx:112-123 | the card is marked deleted only after success; failure leaves the cards and sets the message or "Failed to delete post" |
| PostsPage.DeleteOffered | app/posts/page.tsx:330 | the delete control is offered exactly for the cards that deleting would change |
| PostsPage.ConfirmDelete | app/posts/page.tsx:346-350 | as written: the card is marked deleted, exactly as a successful API delete would show it, and no request is issued |
| PostsPage.LocalDeleteNeverReachesServer | app/posts/page.tsx:348-350 | the confirmed card shows as deleted with no request sent, and the next reload lists it as active again |
| PostsPage.ConfirmDeleteViaApi | app/posts/page.tsx:112-123 | as intended: the delete request is sent first and the page settles as the API-backed handler does |
| PostsPage.DeletedOnlyWhenServerAccepted | app/posts/page.tsx:112-123 | under that wiring a card shows deleted exactly when the server accepted the delete; a refusal shows the server's message |
| PostsPage.Mount | app/posts/page.tsx:66-77 | no token: no request and no redirect; a rejected token is removed without a redirect; a valid one loads page 1 with replace |
| ReportsPage.LoadParams | app/reports/page.tsx:57-59 | only a status is passed, and "all" passes none |
| ReportsPage.FilterReachesServer | app/reports/page.tsx:57-59 | the filter reaches the server as `status` under its wire name; "all" sends no status; page 1 and limit 40 are sent |
| ReportsPage.StartLoad | app/reports/page.tsx:53-59 | there is no in-flight check: every load marks loading, clears the error and requests the current filter |
| ReportsPage.LoadSettled | app/reports/page.tsx:60-66 | success replaces the list wholesale; failure keeps it and sets the message or "Failed to load reports"; loading ends either way |
| ReportsPage.Load | app/reports/page.tsx:53-67 | one request for the filter and its settlement, with the error cleared on success |
| ReportsPage.ChooseFilter | app/reports/page.tsx:49-51 | choosing the current filter again does nothing; a new filter reloads for it |
| ReportsPage.Mount | app/reports/page.tsx:45-51 | the page starts out loading and requests every status, with no token check |
| ReportsPage.SetStatus | app/reports/page.tsx:72-74 | only the matching id takes the new status |
| ReportsPage.UpdateStatus | app/reports/page.tsx:69-82 | after success, only that id changes in the list, and the detail view changes exactly when it shows that id; failure changes nothing but the error, set to the message or "Failed to update report status" |
| ReportsPage.UpdateKeepsDialogInList | app/reports/page.tsx:72-77 | a dialog showing a listed report still shows that report, with the list's status, after any update |
| ReportsPage.UpdateIdempotent | app/reports/page.tsx:72-77 | repeating a successful update changes nothing further |
| ReportsPage.Actions | app/reports/page.tsx:426-437 | only a pending report offers actions, and they are exactly dismiss and mark reviewed |
| ReportsPage.ActionIsFinal | app/reports/page.tsx:426-437 | after a successful action the dialog offers no further action |
| ReportsPage.ContentText | app/reports/page.tsx:121-122 | the snapshot's own non-empty text, else the first content entry's, else "No content"; never blank |
| ReportsPage.Preview | app/reports/page.tsx:117-133 | no reference gives "No reference available"; a post snapshot on a post report gives its content text; a user snapshot on a user report gives '@' and the username; a primitive reference on a post or user report makes the `in` test throw; anything else gives "View details"; a shown text is never blank |
| ReportsPage.PreviewIgnoresStatus | app/reports/page.tsx:117-133 | a status update never changes a row's preview |
| ReportsPage.ContentTextExamples | app/reports/page.tsx:121-122 | a rich-text snapshot with no text of its own shows its first paragraph; one with neither shows "No content" |
| LoginPage.StartSubmit | app/login/page.tsx:18-23 | ignored while loading; otherwise clears the error, sets loading and sends the current credentials |
| LoginPage.SubmitSettled | app/login/page.tsx:24-32 | success stores the returned token and then navigates to /dashboard; failure stores nothing and sets the message or "Login failed"; loading ends either way |
| LoginPage.Submit | app/login/page.tsx:18-33 | a submit sends the login request only when not loading, and navigates only after an OK parsed reply |
| LoginPage.FailureShowsServerMessage | app/login/page.tsx:28-31 | a refused sign-in shows the server's message or "Login failed", and stores nothing |
| LoginPage.SignInThenGuard | app/login/page.tsx:24-26 | a successful sign-in stores exactly the returned token, which the next page's guard then validates; a failed one leaves storage untouched |
| DashboardPage.StatsSettled | app/dashboard/page.tsx:33-39 | success keeps the statistics; failure sets the message or "Failed to load stats"; loading ends either way |
| DashboardPage.Mount | app/dashboard/page.tsx:22-42 | no token redirects without validating; an invalid token is removed and redirects with no stats request; a valid one loads the stats |
| DashboardPage.StatsOnlyAfterValidation | app/dashboard/page.tsx:22-42 | the page holds statistics exactly when the token was validated and the load succeeded |
| DashboardPage.TotalsOf | app/dashboard/page.tsx:43-46 | every total is 0 without statistics, else the server's value |
| DashboardPage.Cards | app/dashboard/page.tsx:63 | the cards show a dash exactly while loading, else the totals |
| DashboardPage.FailedLoadShowsZeros | app/dashboard/page.tsx:35-46 | a failed load shows zeros next to the error message |
| DashboardPage.ChartRows | app/dashboard/page.tsx:108 | one bar per day, in the response's order, with `weekday` as the day and `count` as the height; no bars without statistics |

## Left out

- Real I/O is not modelled: `fetch`, JSON parsing, `localStorage` and `URLSearchParams` encoding. A reply, a storage host and a query as a list of name/value pairs are parameters instead. `API_BASE_URL` is left out, so paths are relative.
- Next.js navigation is an emitted `Redirect` effect. middleware.ts is a pass-through and is not part of this model.
- JSX rendering, dialogs, badges, icons and the cosmetic mappings (`getStatusColor`, `getReportTypeIcon`) are not modelled; they only affect presentation.
- Dates are not modelled (`formatDistanceToNow`, `Date.parse`, `toLocaleDateString`): that is library code and locale behaviour.
- The poll bar percentage on the reports page is not modelled: it is floating-point arithmetic.
- The image error flags of the posts page are not modelled; they only affect presentation.
- React timing is simplified. A handler is modelled against the current state rather than the closure of the render that created it, and stale-closure races are not modelled. Overlapping report loads are not ordered: the last to settle wins.
- Stale search responses are applied whenever they arrive. The source does not discard them, and the model claims nothing about ordering beyond the debounce.
- app/page.tsx, data/mockData.ts, the components and the settings and profile pages are static data or pure layout. Only the `User` and `Post` record shapes are reused.
- The users page's `toggleUserStatus` helper is never called, so it is not modelled.
- The model does not distinguish the 300 ms delay's length. The timer's expiry is one `Elapsed` event, and `SearchDelay` records the constant.
- Reply payloads follow their declared TypeScript types: every field a type declares as required is present. A dashboard statistics block that lacks a total or `days` is therefore not modelled, so the per-field fallbacks `stats?.totalX ?? 0` and `stats?.days \|\| []` apply only when there are no statistics at all.
- Numbers are unbounded integers: no NaN, no fractions, no 53-bit limits. A non-string `message` member in an error body counts as absent.
- A JSON value that is neither array nor object, but carries properties (`"abc".text`), counts as having none. An object with numeric keys indexed by `[0]` is treated as having no first element.
- PostsPage.ImageOf: a `url` that is a truthy non-string is `String(url)` in the source. The model treats a media `url` as an optional string.
- ReportsPage.ContentText: a truthy `text` that is not a string would be rendered as-is by the source. The model falls through to the next choice instead.
- LoginPage.SubmitSettled: a success body without a `token` member would store the text "undefined". The model always has a token string in the payload.

## Findings

| source | as written | input that shows it | evidently intended | confidence | as-written member | corrected member |
|---|---|---|---|---|---|---|
| app/users/page.tsx:316-322 | on failure, the rollback sets `selectedUser` (the last-viewed user) to the click-time value flipped once more, which is the optimistic value | view an active user, close the dialog, confirm a ban of that user, and have `toggleBan` reject: the list is active again but `selectedUser` holds "banned". The stale value is not on screen, because pressing "View" again sets `selectedUser` afresh from the row (:219) | a failed toggle restores `selectedUser` to its pre-click status, as it does the list | medium, not executed; state-level only | UsersPage.ConfirmBan (UsersPage.FailedBanLeavesDetailFlipped) | UsersPage.ConfirmBanRollback (UsersPage.FailedBanRestoresEverything) |
| app/posts/page.tsx:346-350 | the delete dialog's Confirm only marks the card deleted locally; the page's own `deletePost` handler (:112-123), which calls the imported `deletePostApi` (:36), is never called | confirm deleting a listed post, then reload: no DELETE was sent and the post is listed as active again | Confirm calls the page's `deletePost` handler, which marks the card deleted only after the server accepted the delete | medium, not executed | PostsPage.ConfirmDelete (PostsPage.LocalDeleteNeverReachesServer) | PostsPage.ConfirmDeleteViaApi (PostsPage.DeletedOnlyWhenServerAccepted) |
