/** app/posts/page.tsx: the paged post list (kept both raw and mapped), the
    rich-text flattener for captions, the status filter, and the two ways a
    post gets marked deleted. */
module PostsPage {
  import opened Wrappers
  import opened Records
  import opened Effects
  import Http
  import PostsApi
  import J = Json
  import Text
  import Lists
  import AuthGuard

  /** How a `getAllPosts` promise settles. */
  type Settled = Outcome<Http.Envelope<PostsApi.PostPage>>

  const LoadPostsFailed := "Failed to load posts"
  const DeletePostFailed := "Failed to delete post"

  /** The status filter: everything, or one status. */
  datatype Filter = All | Only(status: PostStatus)

  /** The page's React state: the mapped cards and the raw API records. */
  datatype State = State(
    posts: seq<Post>,
    raw: seq<PostsApi.PostItem>,
    filter: Filter,
    page: int,
    hasNext: bool,
    loading: bool,
    error: Option<string>)

  const Initial := State([], [], All, 1, false, false, None)

  // ---------------------------------------------------------------- toPlainText

  /** The leaf texts `toPlainText` visits, nested arrays flattened; an empty
      array, like any value without text, counts as one empty leaf. */
  function Leaves(j: J.Json): (r: seq<string>)
    ensures |r| > 0
    decreases j
  {
    if J.Falsy(j) then [""]
    else match j
      case Str(s) => [s]
      case Arr(items) =>
        if |items| == 0 then [""]
        else
          var groups := seq(|items|, i requires 0 <= i < |items| => Leaves(items[i]));
          Text.FlattenNonEmpty(groups);
          Text.Flatten(groups)
      case Obj(fields) =>
        if "text" in fields && fields["text"].Str? then [fields["text"].s]
        else if "content" in fields then Leaves(fields["content"])
        else [""]
      case _ => [""]
  }

  /** `toPlainText(content)`: falsy gives the empty string, a string itself,
      an array its elements' texts joined by single spaces, an object its
      string `text` member (which wins), else its flattened `content`
      member; anything else gives the empty string. However deeply the
      arrays nest, the result is every leaf text joined by a single space. */
  function PlainText(j: J.Json): (r: string)
    ensures r == Text.Join(Leaves(j), " ")
    decreases j, 2
  {
    if J.Falsy(j) then ""
    else match j
      case Str(s) => s
      case Arr(items) =>
        if |items| == 0 then ""
        else
          ArrayTextJoinsLeaves(j);
          Text.Join(ItemTexts(items), " ")
      case Obj(fields) =>
        if "text" in fields && fields["text"].Str? then fields["text"].s
        else if "content" in fields then PlainText(fields["content"])
        else ""
      case _ => ""
  }

  /** `items.map(toPlainText)`. */
  function ItemTexts(items: seq<J.Json>): (r: seq<string>)
    ensures |r| == |items|
    ensures forall k :: 0 <= k < |items| ==> r[k] == PlainText(items[k])
    decreases items
  {
    if items == [] then [] else [PlainText(items[0])] + ItemTexts(items[1..])
  }

  /** The array step of `PlainText`: joining the elements' texts is joining
      the flattened leaves of all elements. */
  lemma {:induction false} ArrayTextJoinsLeaves(j: J.Json)
    requires j.Arr? && |j.items| > 0
    ensures Text.Join(ItemTexts(j.items), " ") == Text.Join(Leaves(j), " ")
    decreases j, 1
  {
    var items := j.items;
    var groups := seq(|items|, i requires 0 <= i < |items| => Leaves(items[i]));
    ItemTextsJoinGroups(j, groups);
    assert Leaves(j) == Text.Flatten(groups);
    Text.JoinFlatten(groups, " ");
  }

  /** Each element's text joins that element's leaves. */
  lemma ItemTextsJoinGroups(j: J.Json, groups: seq<seq<string>>)
    requires j.Arr? && |groups| == |j.items|
    requires forall k :: 0 <= k < |groups| ==> groups[k] == Leaves(j.items[k])
    ensures ItemTexts(j.items) == seq(|groups|, k requires 0 <= k < |groups| => Text.Join(groups[k], " "))
    decreases j, 0
  {
  }

  /** The cases of `toPlainText` one level deep. */
  lemma PlainTextCases(j: J.Json, t: string, c: J.Json)
    ensures PlainText(J.Null) == "" && PlainText(J.Str("")) == "" && PlainText(J.Num(0)) == ""
    ensures PlainText(J.Str(t)) == t
    ensures PlainText(J.Obj(map["text" := J.Str(t), "content" := c])) == t
    ensures PlainText(J.Obj(map["content" := c])) == PlainText(c)
    ensures PlainText(J.Arr([c])) == PlainText(c)
    ensures PlainText(J.Arr([])) == ""
    ensures j.Num? || j.Bool? ==> PlainText(j) == ""
  {
    assert ItemTexts([c]) == [PlainText(c)];
  }

  // ---------------------------------------------------------------- records

  /** The card image: the first media item's `url` when it is a non-empty
      string, else the empty string. */
  function ImageOf(media: Option<seq<PostsApi.MediaItem>>): (r: string)
    ensures r != "" <==> media.Some? && |media.value| > 0 && Truthy(media.value[0].url)
    ensures r != "" ==> r == media.value[0].url.value
  {
    if media.Some? && |media.value| > 0 && Truthy(media.value[0].url) then media.value[0].url.value else ""
  }

  /** The record mapping for a fetched post: identity and author fields
      copied, caption flattened, status active, no likes. */
  function ToPost(p: PostsApi.PostItem): (r: Post)
    ensures r.id == p.id && r.userId == p.author.id && r.username == p.author.username
    ensures r.userAvatar == p.author.avatarUrl.GetOr("")
    ensures r.caption == PlainText(p.content) && r.image == ImageOf(p.media)
    ensures r.status == PostStatus.Active && r.likes == 0 && r.createdAt == p.createdAt
  {
    Post(p.id, p.author.id, p.author.username, p.author.avatarUrl.GetOr(""),
      PlainText(p.content), ImageOf(p.media), PostStatus.Active, 0, p.createdAt)
  }

  function ToPosts(ps: seq<PostsApi.PostItem>): (r: seq<Post>)
    ensures |r| == |ps|
    ensures forall i :: 0 <= i < |ps| ==> r[i] == ToPost(ps[i])
  {
    seq(|ps|, i requires 0 <= i < |ps| => ToPost(ps[i]))
  }

  // ---------------------------------------------------------------- listing

  /** The mapped cards and the raw records line up: same length, same id at
      every position. */
  ghost predicate Aligned(s: State) {
    |s.posts| == |s.raw| && forall i :: 0 <= i < |s.posts| ==> s.posts[i].id == s.raw[i].id
  }

  /** No card is marked reported. */
  ghost predicate NoneReported(s: State) {
    forall i :: 0 <= i < |s.posts| ==> s.posts[i].status != PostStatus.Reported
  }

  /** The synchronous part of `fetchPage`: ignored while loading; otherwise
      marks the page loading, clears the error and requests the page. */
  function StartFetch(s: State, target: int): (step: Step<State, int>)
    ensures s.loading ==> step == Step(s, None)
    ensures !s.loading ==> step == Step(s.(loading := true, error := None), Some(target))
  {
    if s.loading then Step(s, None) else Step(s.(loading := true, error := None), Some(target))
  }

  /** The settlement of `fetchPage`'s request. Success replaces, or appends
      to, the raw and the mapped list from the same response, and takes the
      cursor from the pagination block (no block: no next page, the requested
      page); failure keeps both lists and the cursor and sets the error.
      Loading ends; alignment and the absence of reported cards are kept. */
  function FetchSettled(s: State, target: int, replace: bool, outcome: Settled): (s': State)
    ensures !s'.loading
    ensures outcome.Ok? ==>
      && s'.raw == (if replace then outcome.value.payload.data else s.raw + outcome.value.payload.data)
      && s'.posts == (if replace then ToPosts(outcome.value.payload.data) else s.posts + ToPosts(outcome.value.payload.data))
      && s'.hasNext == (outcome.value.payload.pagination.Some? && outcome.value.payload.pagination.value.hasNextPage)
      && s'.page == (if outcome.value.payload.pagination.Some? then outcome.value.payload.pagination.value.page else target)
      && s'.error == s.error
    ensures outcome.Err? ==>
      s' == s.(loading := false, error := Some(ErrorText(outcome.message, LoadPostsFailed)))
    ensures s'.filter == s.filter
    ensures Aligned(s) || (replace && outcome.Ok?) ==> Aligned(s')
    ensures NoneReported(s) || (replace && outcome.Ok?) ==> NoneReported(s')
  {
    match outcome
    case Ok(env) =>
      var data := env.payload;
      var pg := data.pagination;
      s.(raw := Lists.Merge(s.raw, data.data, replace),
         posts := Lists.Merge(s.posts, ToPosts(data.data), replace),
         hasNext := pg.Some? && pg.value.hasNextPage,
         page := if pg.Some? then pg.value.page else target,
         loading := false)
    case Err(m) =>
      s.(loading := false, error := Some(ErrorText(m, LoadPostsFailed)))
  }

  /** `fetchPage(targetPage, replace)` when its request settles before
      anything else happens: a no-op while loading, the error cleared on
      success. */
  function FetchPage(s: State, target: int, replace: bool, outcome: Settled): (step: Step<State, int>)
    ensures s.loading ==> step == Step(s, None)
    ensures !s.loading ==> step.issued == Some(target)
    ensures !s.loading ==> step.next == FetchSettled(s.(loading := true, error := None), target, replace, outcome)
    ensures !s.loading && outcome.Ok? ==> step.next.error == None
  {
    var start := StartFetch(s, target);
    if start.issued.None? then start
    else Step(FetchSettled(start.next, target, replace, outcome), start.issued)
  }

  // ---------------------------------------------------------------- filter

  /** `filteredPosts`: every card for "all"; otherwise exactly the cards with
      the chosen status, in their order, each as often as it is listed. */
  function Filtered(s: State): (r: seq<Post>)
    ensures s.filter.All? ==> r == s.posts
    ensures s.filter.Only? ==>
      && (forall p :: p in r ==> p in s.posts && p.status == s.filter.status)
      && (forall p :: p in s.posts && p.status == s.filter.status ==> p in r)
      && Lists.IsSubsequence(r, s.posts)
      && (forall i :: 0 <= i < |s.posts| ==>
            multiset(r)[s.posts[i]] == if s.posts[i].status == s.filter.status then multiset(s.posts)[s.posts[i]] else 0)
  {
    match s.filter
    case All => s.posts
    case Only(st) => Lists.Filter(s.posts, (p: Post) => p.status == st)
  }

  /** With cards that come only from the API (never marked reported), the
      "reported" filter shows nothing. */
  lemma ReportedFilterIsEmpty(s: State)
    requires NoneReported(s) && s.filter == Only(PostStatus.Reported)
    ensures Filtered(s) == []
  {
    Lists.FilterDropsAll(s.posts, (p: Post) => p.status == PostStatus.Reported);
  }

  // ---------------------------------------------------------------- delete

  /** Marks the cards with the given id deleted and leaves every other card,
      and every other field, as it was. */
  function MarkDeleted(posts: seq<Post>, id: string): (r: seq<Post>)
    ensures |r| == |posts|
    ensures forall i :: 0 <= i < |posts| && posts[i].id == id ==> r[i] == posts[i].(status := PostStatus.Deleted)
    ensures forall i :: 0 <= i < |posts| && posts[i].id != id ==> r[i] == posts[i]
  {
    Lists.MapWhere(posts, (p: Post) => p.id == id, (p: Post) => p.(status := PostStatus.Deleted))
  }

  /** The API-backed `deletePost` handler: the card is marked deleted only
      once the call succeeded; on failure the cards stay as they were and the
      error is set. Alignment and the absence of reported cards are kept. */
  function DeletePost(s: State, id: string, outcome: Outcome<Http.Envelope<()>>): (s': State)
    ensures outcome.Ok? ==> s' == s.(posts := MarkDeleted(s.posts, id))
    ensures outcome.Err? ==> s' == s.(error := Some(ErrorText(outcome.message, DeletePostFailed)))
    ensures Aligned(s) ==> Aligned(s')
    ensures NoneReported(s) ==> NoneReported(s')
  {
    match outcome
    case Ok(_) => s.(posts := MarkDeleted(s.posts, id))
    case Err(m) => s.(error := Some(ErrorText(m, DeletePostFailed)))
  }

  /** The delete control is offered only for cards not already deleted:
      exactly the cards that deleting would change. */
  function DeleteOffered(p: Post): (offered: bool)
    ensures offered <==> MarkDeleted([p], p.id) != [p]
  {
    assert MarkDeleted([p], p.id)[0] == p.(status := PostStatus.Deleted);
    p.status != PostStatus.Deleted
  }

  /** The dialog's "Confirm": marks the card deleted locally and issues no
      request, so it matches what a successful API delete would show. */
  function ConfirmDelete(s: State, id: string): (step: Step<State, string>)
    ensures step.issued == None
    ensures step.next == s.(posts := MarkDeleted(s.posts, id))
    ensures forall i :: 0 <= i < |step.next.posts| && step.next.posts[i].id == id ==> !DeleteOffered(step.next.posts[i])
    ensures forall e :: step.next == DeletePost(s, id, Ok(e))
    ensures Aligned(s) ==> Aligned(step.next)
  {
    Step(s.(posts := MarkDeleted(s.posts, id)), None)
  }

  /** The flaw: "Confirm" shows the card as deleted although no request was
      sent, so the post is still on the server, and a reload lists it as
      active again. */
  lemma LocalDeleteNeverReachesServer(s: State, id: string, i: int, reload: Http.Envelope<PostsApi.PostPage>, j: int)
    requires 0 <= i < |s.posts| && s.posts[i].id == id && DeleteOffered(s.posts[i])
    requires 0 <= j < |reload.payload.data| && reload.payload.data[j].id == id
    ensures ConfirmDelete(s, id).issued == None
    ensures !DeleteOffered(ConfirmDelete(s, id).next.posts[i])
    ensures FetchSettled(ConfirmDelete(s, id).next, 1, true, Ok(reload)).posts[j].status == PostStatus.Active
  {
  }

  /** "Confirm" wired to the page's own `deletePost` handler, which is never
      called and which wraps the imported `deletePostApi`: the delete request
      is sent first, and the page then settles as that handler does. */
  function ConfirmDeleteViaApi(s: State, token: Option<string>, id: string, reply: Http.Reply<()>): (r: (State, Option<Http.Request>))
    ensures Http.HasToken(token) ==> r.1 == Some(PostsApi.DeleteRequest(token.value, id))
    ensures !Http.HasToken(token) ==> r.1 == None && r.0 == s.(error := Some(Http.NotAuthenticated))
    ensures r.0 == DeletePost(s, id, PostsApi.DeletePost(token, id, reply).outcome)
  {
    var call := PostsApi.DeletePost(token, id, reply);
    (DeletePost(s, id, call.outcome), call.sent)
  }

  /** Under the intended wiring a card is shown deleted exactly when its
      delete request went out and the server accepted it; a refused delete
      shows the server's message, else "Failed to delete post". */
  lemma DeletedOnlyWhenServerAccepted(s: State, token: Option<string>, id: string, reply: Http.Reply<()>, i: int)
    requires 0 <= i < |s.posts| && s.posts[i].id == id && DeleteOffered(s.posts[i])
    ensures !DeleteOffered(ConfirmDeleteViaApi(s, token, id, reply).0.posts[i]) <==>
      Http.HasToken(token) && reply.Answered? && Http.IsOk(reply.status) && reply.body.Json?
    ensures !DeleteOffered(ConfirmDeleteViaApi(s, token, id, reply).0.posts[i]) ==>
      ConfirmDeleteViaApi(s, token, id, reply).1.Some?
    ensures Http.HasToken(token) && reply.Answered? && !Http.IsOk(reply.status) ==>
      ConfirmDeleteViaApi(s, token, id, reply).0 == s.(error := Some(Http.FailureText(reply.body, DeletePostFailed)))
  {
  }

  // ---------------------------------------------------------------- mount

  /** The mount effect: without a token nothing happens (no redirect); a
      rejected token is removed, still without a redirect; a valid one
      triggers `fetchPage(1, true)`. */
  function Mount(s: State, token: Option<string>, valid: bool, first: Settled): (r: (State, seq<Effect>, Option<int>))
    ensures r.1 == AuthGuard.Guard(token, valid, AuthGuard.Staying)
    ensures !Http.HasToken(token) ==> r == (s, [], None)
    ensures Http.HasToken(token) && !valid ==> r == (s, [Validate(token.value), RemoveToken], None)
    ensures Http.HasToken(token) && valid && !s.loading ==>
      r.2 == Some(1) && r.0 == FetchSettled(s.(loading := true, error := None), 1, true, first)
  {
    var effects := AuthGuard.Guard(token, valid, AuthGuard.Staying);
    if Load in effects then
      var step := FetchPage(s, 1, true, first);
      (step.next, effects, step.issued)
    else (s, effects, None)
  }
}
