/** The record shapes the pages keep in their state (data/mockData.ts) and the
    person summary embedded in posts and reports. */
module Records {
  import opened Wrappers

  /** `User['status']`. */
  datatype UserStatus = Active | Banned

  /** A user row as the users page holds it. */
  datatype User = User(
    id: string,
    name: string,
    username: string,
    email: string,
    avatar: Option<string>,
    status: UserStatus,
    joinedDate: string,
    postsCount: int)

  /** `Post['status']`: the local moderation state of a post. */
  datatype PostStatus = Active | Reported | Deleted

  /** A post card as the posts page holds it. */
  datatype Post = Post(
    id: string,
    userId: string,
    username: string,
    userAvatar: string,
    caption: string,
    image: string,
    status: PostStatus,
    likes: int,
    createdAt: string)

  /** The person summary the API embeds as a post author or a report party
      (`AuthorSummary` in data/posts.ts, `UserSummary` in data/reports.ts). */
  datatype Profile = Profile(
    id: string,
    displayName: string,
    username: string,
    avatarUrl: Option<string>,
    isBanned: bool)

  /** `status === 'active' ? 'banned' : 'active'`. */
  function Flip(s: UserStatus): (r: UserStatus)
    ensures r != s
  {
    if s == UserStatus.Active then UserStatus.Banned else UserStatus.Active
  }
}
