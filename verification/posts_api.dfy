/** data/posts.ts: listing and deleting posts. */
module PostsApi {
  import opened Wrappers
  import opened Http
  import Text
  import Json
  import Records

  /** One media attachment; only its `url` is read by the client. */
  datatype MediaItem = MediaItem(url: Option<string>, kind: Option<string>)

  /** A post as the API returns it. `content` is free-form JSON (a string or a
      rich-text tree); `media` may be null. */
  datatype PostItem = PostItem(
    id: string,
    content: Json.Json,
    author: Records.Profile,
    media: Option<seq<MediaItem>>,
    createdAt: string,
    updatedAt: string)

  /** The `data` and `pagination` members of a list response. */
  datatype PostPage = PostPage(data: seq<PostItem>, pagination: Option<Pagination>)

  const DefaultPage := 1
  const DefaultLimit := 40
  const FetchPostsFailed := "Failed to fetch posts"
  const DeletePostFailed := "Failed to delete post"

  /** The `getAllPosts` request: page and limit always sent, defaulting to 1
      and 40, and nothing else. */
  function ListRequest(token: string, page: Option<int>, limit: Option<int>): (r: Request)
    ensures r.verb == Get && r.path == "/admin/get-all-posts" && r.body == None && r.noStore
    ensures r.headers == [AcceptJson, Authorization(token)]
    ensures r.query == [("page", Text.ShowInt(page.GetOr(DefaultPage))), ("limit", Text.ShowInt(limit.GetOr(DefaultLimit)))]
  {
    Request(Get, "/admin/get-all-posts",
      [("page", Text.ShowInt(page.GetOr(DefaultPage))), ("limit", Text.ShowInt(limit.GetOr(DefaultLimit)))],
      [AcceptJson, Authorization(token)], None, true)
  }

  /** `getAllPosts(params)`: "Not authenticated" before any request without a
      token; the envelope unchanged on success; the server's message, else
      "Failed to fetch posts", on a non-OK reply. */
  function GetAllPosts(token: Option<string>, page: Option<int>, limit: Option<int>, reply: Reply<PostPage>): (c: Call<Envelope<PostPage>>)
    ensures !HasToken(token) ==> c == Call(None, Err(Some(NotAuthenticated)))
    ensures HasToken(token) ==> c.sent == Some(ListRequest(token.value, page, limit))
    ensures c.outcome.Err? ==> c.outcome.message.Some?
    ensures c.outcome.Ok? <==> HasToken(token) && reply.Answered? && IsOk(reply.status) && reply.body.Json?
    ensures c.outcome.Ok? ==> c.outcome.value == reply.body.envelope
    ensures HasToken(token) && reply.Answered? && !IsOk(reply.status) ==>
      c.outcome == Err(Some(FailureText(reply.body, FetchPostsFailed)))
  {
    if !HasToken(token) then Call(None, Err(Some(NotAuthenticated)))
    else Call(Some(ListRequest(token.value, page, limit)), Settle(reply, FetchPostsFailed))
  }

  /** The `deletePost` request: a DELETE to the post's path. */
  function DeleteRequest(token: string, postId: string): (r: Request)
    ensures r.verb == Delete && r.query == [] && r.body == None && !r.noStore
    ensures r.path == "/admin/delete-post/" + postId
    ensures r.headers == [AcceptJson, Authorization(token)]
  {
    Request(Delete, "/admin/delete-post/" + postId, [], [AcceptJson, Authorization(token)], None, false)
  }

  /** `deletePost(postId)`: the parsed reply on success; the server's
      message, else "Failed to delete post", on a non-OK reply. */
  function DeletePost(token: Option<string>, postId: string, reply: Reply<()>): (c: Call<Envelope<()>>)
    ensures !HasToken(token) ==> c == Call(None, Err(Some(NotAuthenticated)))
    ensures HasToken(token) ==> c.sent == Some(DeleteRequest(token.value, postId))
    ensures c.outcome.Err? ==> c.outcome.message.Some?
    ensures c.outcome.Ok? <==> HasToken(token) && reply.Answered? && IsOk(reply.status) && reply.body.Json?
    ensures c.outcome.Ok? ==> c.outcome.value == reply.body.envelope
    ensures HasToken(token) && reply.Answered? && !IsOk(reply.status) ==>
      c.outcome == Err(Some(FailureText(reply.body, DeletePostFailed)))
  {
    if !HasToken(token) then Call(None, Err(Some(NotAuthenticated)))
    else Call(Some(DeleteRequest(token.value, postId)), Settle(reply, DeletePostFailed))
  }
}
