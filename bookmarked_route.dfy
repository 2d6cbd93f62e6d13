/**
 * `GET /api/posts/bookmarked`: the caller's bookmarks, newest first, one page at a time; the
 * page carries the bookmarked posts, and its cursor is a bookmark id, not a post id.
 */
module BookmarkedRoute {
  import opened Wrappers
  import opened Entities
  import opened Pagination
  import opened ListRoute
  import Seqs

  function BookmarkId(b: Bookmark): Id
  {
    b.id
  }

  /** The caller's bookmarks, in the order of `bookmarks` (newest first). */
  function OwnBookmarks(bookmarks: seq<Bookmark>, callerId: Id): (r: seq<Bookmark>)
    ensures forall i :: 0 <= i < |r| ==> r[i] in bookmarks && r[i].userId == callerId
    ensures forall i :: 0 <= i < |bookmarks| && bookmarks[i].userId == callerId ==> bookmarks[i] in r
  {
    Seqs.Filter(bookmarks, (b: Bookmark) => b.userId == callerId)
  }

  /** `bookmarks.map(b => b.post)`. */
  function PostsOf(bookmarks: seq<Bookmark>): (r: seq<Post>)
    ensures |r| == |bookmarks|
    ensures forall i :: 0 <= i < |r| ==> r[i] == bookmarks[i].post
  {
    seq(|bookmarks|, i requires 0 <= i < |bookmarks| => bookmarks[i].post)
  }

  /** One GET: 401 without a session, 500 when the query throws, else a page of bookmarked posts. */
  function Get(session: Session, cursorParam: Option<string>, bookmarks: seq<Bookmark>, fails: bool): (r: Response<Page<Post>>)
    ensures session.None? ==> r == Unauthorized()
    ensures session.Some? && fails ==> r == InternalError()
    ensures session.Some? && !fails ==> r.Json? && |r.body.items| <= PageSize
    ensures r.Json? ==> forall i :: 0 <= i < |r.body.items| ==>
      exists b :: b in bookmarks && b.userId == session.value.id && b.post == r.body.items[i]
    ensures r.Json? ==> var own := OwnBookmarks(bookmarks, session.value.id);
      (r.body.cursor.Some? ==> exists b :: b in own && b.id == r.body.cursor.value)
    ensures r.Json? && CursorParam(cursorParam).None? ==> var own := OwnBookmarks(bookmarks, session.value.id);
      && r.body.items == PostsOf(own[..Min(PageSize, |own|)])
      && (r.body.cursor.Some? <==> |own| > PageSize)
      && (|own| > PageSize ==> r.body.cursor == Some(own[PageSize].id))
    ensures r.Json? ==> var window := CursorWindow(OwnBookmarks(bookmarks, session.value.id), BookmarkId,
                                                   CursorParam(cursorParam), PageSize);
      r.body == Page(PostsOf(window.items), window.cursor)
  {
    if session.None? then Unauthorized()
    else if fails then InternalError()
    else
      var own := OwnBookmarks(bookmarks, session.value.id);
      var page := ListGet(session, cursorParam, own, BookmarkId, fails);
      ListGetWithinRows(session, cursorParam, own, BookmarkId, fails);
      assert forall i :: 0 <= i < |page.body.items| ==> page.body.items[i] in own;
      CursorNamesRow(own, BookmarkId, CursorParam(cursorParam), PageSize);
      Json(Page(PostsOf(page.body.items), page.body.cursor))
  }
}
