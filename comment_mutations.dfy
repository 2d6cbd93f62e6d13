/**
 * `useSubmitCommentMutation` and `useDeleteCommentMutation`: the new comment goes to the end
 * of the first fetched page of `["comments", postId]`, a deleted comment is filtered out of
 * every page of that query, and both invalidate the "for you" feed.
 */
module CommentMutations {
  import opened Wrappers
  import opened Entities
  import opened QueryCache
  import Seqs
  import Store
  import CommentActions

  const CommentCreated := Toast(false, "Comment created")
  const CommentDeleted := Toast(false, "Comment deleted")
  const FailedToDeleteComment := Toast(true, "Failed to delete comment. Please try again.")

  /**
   * The `setQueryData` updater of the submit: the first fetched page gets `newComment` after
   * its comments; without a first page the result is `undefined` and nothing is written.
   */
  function AppendComment(oldData: Option<InfiniteData<Comment>>, newComment: Comment): (r: Option<InfiniteData<Comment>>)
    ensures r.Some? <==> oldData.Some? && |oldData.value.pages| > 0
    ensures r.Some? ==> SameShape(oldData.value, r.value)
    ensures r.Some? ==> r.value.pages[0].items == oldData.value.pages[0].items + [newComment]
    ensures r.Some? ==> r.value.pages[1..] == oldData.value.pages[1..]
  {
    if oldData.Some? && |oldData.value.pages| > 0 then
      var firstPage := oldData.value.pages[0];
      var newCommentsPage := Page(firstPage.items + [newComment], firstPage.cursor);
      assert ([newCommentsPage] + oldData.value.pages[1..])[1..] == oldData.value.pages[1..];
      Some(InfiniteData([newCommentsPage] + oldData.value.pages[1..], oldData.value.pageParams))
    else None
  }

  /** The filter test `c.id !== deletedComment.id`. */
  predicate Kept(c: Comment, deletedId: Id)
  {
    c.id != deletedId
  }

  /** The `setQueryData` updater of the delete: every page loses the comments with the deleted id. */
  function RemoveComment(oldData: Option<InfiniteData<Comment>>, deletedId: Id): (r: Option<InfiniteData<Comment>>)
    ensures SameShapeOpt(oldData, r)
    ensures r.Some? ==> forall i, j :: 0 <= i < |r.value.pages| && 0 <= j < |r.value.pages[i].items| ==>
      r.value.pages[i].items[j].id != deletedId
    ensures r.Some? ==> forall i, j :: 0 <= i < |oldData.value.pages| && 0 <= j < |oldData.value.pages[i].items|
                                       && oldData.value.pages[i].items[j].id != deletedId ==>
      oldData.value.pages[i].items[j] in r.value.pages[i].items
    ensures r.Some? ==> forall i :: 0 <= i < |r.value.pages| ==>
      r.value.pages[i].items == Seqs.Filter(oldData.value.pages[i].items, (c: Comment) => Kept(c, deletedId))
  {
    if oldData.None? then None
    else Some(FilterEachPage(oldData.value, (c: Comment) => Kept(c, deletedId)))
  }

  /** Deleting the same comment twice is deleting it once. */
  lemma RemoveCommentIdempotent(oldData: Option<InfiniteData<Comment>>, deletedId: Id)
    ensures RemoveComment(RemoveComment(oldData, deletedId), deletedId) == RemoveComment(oldData, deletedId)
  {
    if oldData.Some? {
      FilterEachPageIdempotent(oldData.value, (c: Comment) => Kept(c, deletedId));
    }
  }

  /**
   * The comment cache after a submit's `onSuccess`: the query of the post's comments holds the
   * append when it had a first page; every other query under that key keeps its data and is
   * stale exactly when it was stale or had no data; queries under other keys are untouched.
   */
  predicate CommentsAfterSubmit(before: map<QueryKey, Query<InfiniteData<Comment>>>,
                                after: map<QueryKey, Query<InfiniteData<Comment>>>, postId: Id, newComment: Comment)
  {
    var key := CommentsKey(postId);
    && after.Keys == before.Keys
    && (forall k :: k in after && !Matches(key, k) ==> after[k] == before[k])
    && (key in before && AppendComment(before[key].data, newComment).Some? ==>
          after[key] == Query(AppendComment(before[key].data, newComment), false))
    && (forall k :: k in after && Matches(key, k) && !(k == key && AppendComment(before[k].data, newComment).Some?) ==>
          after[k].data == before[k].data
          && after[k].isInvalidated == (before[k].isInvalidated || before[k].data.None?))
  }

  /**
   * `onSuccess(newComment)` of the submit: the append on `["comments", postId]`, then the
   * invalidation of the queries under that key that have no data, then of every "for you" feed.
   */
  method OnSubmitSuccess(comments: QueryClient<InfiniteData<Comment>>, feeds: QueryClient<InfiniteData<FeedItem>>,
                         postId: Id, newComment: Comment)
    returns (toast: Toast)
    modifies comments, feeds
    ensures toast == CommentCreated
    ensures CommentsAfterSubmit(old(comments.queries), comments.queries, postId, newComment)
    ensures StaleUnder(old(feeds.queries), feeds.queries, ForYouFeedKey)
  {
    var key := CommentsKey(postId);
    var oldData := comments.GetQueryData(key);
    var newData := AppendComment(oldData, newComment);
    comments.SetQueryData(key, newData);
    comments.InvalidateQueries(key, (q: Query<InfiniteData<Comment>>) => HasNoData(q));
    feeds.InvalidateQueries(ForYouFeedKey, (q: Query<InfiniteData<FeedItem>>) => true);
    toast := CommentCreated;
  }

  /**
   * `onSuccess(deletedComment)` of the delete: the filter on `["comments", deletedComment.postId]`,
   * then the invalidation of every "for you" feed.
   */
  method OnDeleteSuccess(comments: QueryClient<InfiniteData<Comment>>, feeds: QueryClient<InfiniteData<FeedItem>>,
                         deletedComment: Comment)
    returns (toast: Toast)
    modifies comments, feeds
    ensures toast == CommentDeleted
    ensures comments.queries == SetData(old(comments.queries), CommentsKey(deletedComment.postId),
                                        RemoveComment(old(comments.DataAt(CommentsKey(deletedComment.postId))), deletedComment.id))
    ensures StaleUnder(old(feeds.queries), feeds.queries, ForYouFeedKey)
  {
    var key := CommentsKey(deletedComment.postId);
    var oldData := comments.GetQueryData(key);
    comments.SetQueryData(key, RemoveComment(oldData, deletedComment.id));
    feeds.InvalidateQueries(ForYouFeedKey, (q: Query<InfiniteData<FeedItem>>) => true);
    toast := CommentDeleted;
  }

  /** Submitting a comment: the server action, then `onSuccess`, or `onError` with the thrown message. */
  method SubmitCommentMutation(comments: QueryClient<InfiniteData<Comment>>, feeds: QueryClient<InfiniteData<FeedItem>>,
                               db: Store.Database, session: Session, postId: Id, post: Post, content: string,
                               createCommentSchema: string -> Result<string>,
                               commentId: Id, notificationId: Id, now: int)
    returns (toast: Toast)
    requires db.Valid()
    modifies comments, feeds, db
    ensures db.Valid()
    ensures toast.destructive ==> comments.queries == old(comments.queries) && feeds.queries == old(feeds.queries)
    ensures toast.destructive <==> !(commentId in db.comments && commentId !in old(db.comments))
    ensures !toast.destructive <==>
      old(CommentActions.SubmitAccepted(db, session, post, content, createCommentSchema, commentId, notificationId))
    ensures !toast.destructive ==>
      && toast == CommentCreated
      && CommentsAfterSubmit(old(comments.queries), comments.queries, postId,
                             Comment(commentId, createCommentSchema(content).value, post.id, session.value.id, now))
      && StaleUnder(old(feeds.queries), feeds.queries, ForYouFeedKey)
  {
    var created := CommentActions.SubmitComment(db, session, post, content, createCommentSchema,
                                                commentId, notificationId, now);
    if created.Err? {
      toast := Toast(true, created.error);
      return;
    }
    toast := OnSubmitSuccess(comments, feeds, postId, created.value);
  }

  /** Deleting a comment: the server action, then `onSuccess` or the fixed failure notice. */
  method DeleteCommentMutation(comments: QueryClient<InfiniteData<Comment>>, feeds: QueryClient<InfiniteData<FeedItem>>,
                               db: Store.Database, session: Session, id: Id)
    returns (toast: Toast)
    requires db.Valid()
    modifies comments, feeds, db
    ensures db.Valid()
    ensures toast == FailedToDeleteComment ==> comments.queries == old(comments.queries) && feeds.queries == old(feeds.queries)
    ensures toast == CommentDeleted <==> id in old(db.comments) && db.comments == old(db.comments) - {id}
    ensures toast == CommentDeleted || toast == FailedToDeleteComment
    ensures toast == CommentDeleted <==>
      session.Some? && id in old(db.comments) && old(db.comments)[id].userId == session.value.id
    ensures toast == CommentDeleted ==>
      && comments.queries == SetData(old(comments.queries), CommentsKey(old(db.comments)[id].postId),
                                     RemoveComment(DataIn(old(comments.queries), CommentsKey(old(db.comments)[id].postId)), id))
      && StaleUnder(old(feeds.queries), feeds.queries, ForYouFeedKey)
  {
    var deleted := CommentActions.DeleteComment(db, session, id);
    if deleted.Err? {
      toast := FailedToDeleteComment;
      return;
    }
    toast := OnDeleteSuccess(comments, feeds, deleted.value);
  }
}
