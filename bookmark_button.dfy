/**
 * The bookmark button of a post: a toast announcing the change from the rendered value, then
 * the cached bookmark info under `["bookmark-info", postId]` is toggled optimistically, and a
 * failed request rolls back to the snapshot.
 */
module BookmarkButton {
  import opened Wrappers
  import opened Entities
  import opened QueryCache
  import Optimistic

  datatype BookmarkInfo = BookmarkInfo(isBookmarkedByLoggedInUser: bool)

  function BookmarkInfoKey(postId: Id): (k: QueryKey)
    ensures |k| == 2 && k[1] == postId
  {
    ["bookmark-info", postId]
  }

  /** `data?.isBookmarkedByLoggedInUser`: absent data counts as not bookmarked. */
  predicate IsBookmarked(state: Option<BookmarkInfo>)
  {
    state.Some? && state.value.isBookmarkedByLoggedInUser
  }

  /** The optimistic value written by `onMutate`. */
  function Toggle(previousState: Option<BookmarkInfo>): BookmarkInfo
  {
    BookmarkInfo(!IsBookmarked(previousState))
  }

  /** Bookmarking and unbookmarking gives the cached value back. */
  lemma ToggleTwice(state: BookmarkInfo)
    ensures Toggle(Some(Toggle(Some(state)))) == state
  {
  }

  /** The request of `mutationFn`, chosen from the rendered data. */
  function RequestFor(data: Option<BookmarkInfo>): HttpMethod
  {
    if IsBookmarked(data) then DELETE else POST
  }

  /** The toast shown at the start of `onMutate`, before the request is answered. */
  function Announcement(data: Option<BookmarkInfo>): Toast
  {
    Toast(false, "Post " + (if IsBookmarked(data) then "un" else "") + "bookmarked")
  }

  /** The announcement names the request a click sends and the optimistic value it writes. */
  lemma AnnouncementMatchesRequest(data: Option<BookmarkInfo>)
    ensures Announcement(data).description == "Post unbookmarked" <==> RequestFor(data) == DELETE
    ensures Announcement(data).description == "Post bookmarked" <==> RequestFor(data) == POST
    ensures Announcement(data).description == "Post bookmarked" <==> Toggle(data).isBookmarkedByLoggedInUser
  {
    assert |"Post unbookmarked"| != |"Post bookmarked"|;
  }

  /**
   * One click: the announcement toast, the optimistic toggle, the request, and on an error
   * the rollback as written and a destructive toast with the error's message.
   */
  method Click(cache: QueryClient<BookmarkInfo>, postId: Id, data: Option<BookmarkInfo>, serverError: Option<string>)
    returns (request: HttpMethod, toasts: seq<Toast>)
    modifies cache
    ensures request == RequestFor(data)
    ensures serverError.None? ==>
      toasts == [Announcement(data)] &&
      cache.queries == SetData(old(cache.queries), BookmarkInfoKey(postId), Some(Toggle(old(cache.DataAt(BookmarkInfoKey(postId))))))
    ensures serverError.Some? ==>
      toasts == [Announcement(data), Toast(true, serverError.value)] &&
      cache.queries == Optimistic.AfterFailedToggle(old(cache.queries), BookmarkInfoKey(postId), Toggle)
    ensures serverError.Some? && old(cache.DataAt(BookmarkInfoKey(postId))).Some? ==>
      cache.DataAt(BookmarkInfoKey(postId)) == old(cache.DataAt(BookmarkInfoKey(postId)))
    ensures serverError.Some? && old(cache.DataAt(BookmarkInfoKey(postId))).None? ==>
      cache.DataAt(BookmarkInfoKey(postId)) == Some(BookmarkInfo(true))
  {
    toasts := [Announcement(data)];
    var key := BookmarkInfoKey(postId);
    var previousState := Optimistic.OnMutate(cache, key, Toggle);
    request := RequestFor(data);
    if serverError.Some? {
      Optimistic.Rollback(cache, key, previousState);
      toasts := toasts + [Toast(true, serverError.value)];
    }
  }
}
