/** `GET /api/posts/following`: the caller's feed of posts by the users they follow. */
module FollowingRoute {
  import opened Wrappers
  import opened Entities
  import opened Pagination
  import opened ListRoute
  import Seqs

  function PostId(p: Post): Id
  {
    p.id
  }

  /** The `where` of the query: the post's author has a follower entry whose follower is the caller. */
  predicate ByFollowed(follows: set<Follow>, callerId: Id, p: Post)
  {
    Follow(callerId, p.userId) in follows
  }

  /** The followed users' posts, in the order of `posts` (newest first). */
  function FollowedPosts(follows: set<Follow>, callerId: Id, posts: seq<Post>): (r: seq<Post>)
    ensures forall i :: 0 <= i < |r| ==> r[i] in posts && ByFollowed(follows, callerId, r[i])
    ensures forall i :: 0 <= i < |posts| && ByFollowed(follows, callerId, posts[i]) ==> posts[i] in r
  {
    Seqs.Filter(posts, (p: Post) => ByFollowed(follows, callerId, p))
  }

  /** One GET: 401 without a session, 500 when the query throws, else a page of followed users' posts. */
  function Get(session: Session, cursorParam: Option<string>, posts: seq<Post>, follows: set<Follow>, fails: bool): (r: Response<Page<Post>>)
    ensures session.None? ==> r == Unauthorized()
    ensures session.Some? && fails ==> r == InternalError()
    ensures session.Some? && !fails ==> r.Json? && |r.body.items| <= PageSize
    ensures r.Json? ==> forall i :: 0 <= i < |r.body.items| ==>
      r.body.items[i] in posts && ByFollowed(follows, session.value.id, r.body.items[i])
    ensures r.Json? && CursorParam(cursorParam).None? ==> var rows := FollowedPosts(follows, session.value.id, posts);
      && r.body.items == rows[..Min(PageSize, |rows|)]
      && (r.body.cursor.Some? <==> |rows| > PageSize)
      && (|rows| > PageSize ==> r.body.cursor == Some(rows[PageSize].id))
    ensures r.Json? ==>
      r.body == CursorWindow(FollowedPosts(follows, session.value.id, posts), PostId, CursorParam(cursorParam), PageSize)
  {
    if session.None? then Unauthorized()
    else
      var rows := FollowedPosts(follows, session.value.id, posts);
      var r := ListGet(session, cursorParam, rows, PostId, fails);
      ListGetWithinRows(session, cursorParam, rows, PostId, fails);
      r
  }
}
