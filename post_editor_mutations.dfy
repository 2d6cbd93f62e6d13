/**
 * `useSubmitPostMutation`: after a successful `submitPost` every cached "for you" feed gets
 * the mutation's result in front of its first page, then the feeds that still have no data
 * are invalidated. The result `submitPost` resolves to is `undefined`, so the slot written
 * is `None`; and since `submitPost` always rejects, only the error branch is ever taken.
 */
module PostEditorMutations {
  import opened Wrappers
  import opened Entities
  import opened QueryCache
  import Store
  import PostEditorActions

  const PostCreated := Toast(false, "Post created")
  const FailedToPost := Toast(true, "Failed to post. Please try again.")

  /**
   * The `setQueriesData` updater: a new first page holding `newPost` and then the old first
   * page's items, followed by the other pages unchanged. Data without a first page yields
   * `undefined`, which leaves the entry as it was.
   */
  function PrependPost(oldData: Option<InfiniteData<FeedItem>>, newPost: FeedItem): (r: Option<InfiniteData<FeedItem>>)
    ensures r.Some? <==> oldData.Some? && |oldData.value.pages| > 0
    ensures r.Some? ==> SameShape(oldData.value, r.value)
    ensures r.Some? ==> |r.value.pages[0].items| == |oldData.value.pages[0].items| + 1
    ensures r.Some? ==> r.value.pages[0].items[0] == newPost
    ensures r.Some? ==> r.value.pages[0].items[1..] == oldData.value.pages[0].items
    ensures r.Some? ==> r.value.pages[1..] == oldData.value.pages[1..]
  {
    if oldData.Some? && |oldData.value.pages| > 0 then
      var firstPage := oldData.value.pages[0];
      var newPostsPage := Page([newPost] + firstPage.items, firstPage.cursor);
      assert ([newPostsPage] + oldData.value.pages[1..])[1..] == oldData.value.pages[1..];
      Some(InfiniteData([newPostsPage] + oldData.value.pages[1..], oldData.value.pageParams))
    else None
  }

  /**
   * `onSuccess(newPost)`: the prepend on every query under `["post-feed", "for-you"]`,
   * then the invalidation of those that have no data. Other queries are untouched.
   */
  method OnSuccess(feeds: QueryClient<InfiniteData<FeedItem>>, newPost: FeedItem) returns (toast: Toast)
    modifies feeds
    ensures toast == PostCreated
    ensures feeds.queries.Keys == old(feeds.queries).Keys
    ensures forall k :: k in feeds.queries && !Matches(ForYouFeedKey, k) ==> feeds.queries[k] == old(feeds.queries)[k]
    ensures forall k :: k in feeds.queries && Matches(ForYouFeedKey, k) ==>
      var before := old(feeds.queries)[k];
      && (before.data.Some? && |before.data.value.pages| > 0 ==>
            feeds.queries[k] == Query(PrependPost(before.data, newPost), false))
      && (before.data.Some? && |before.data.value.pages| == 0 ==> feeds.queries[k] == before)
      && (before.data.None? ==> feeds.queries[k] == Query(None, true))
  {
    feeds.SetQueriesData(ForYouFeedKey, (d: Option<InfiniteData<FeedItem>>) => PrependPost(d, newPost));
    feeds.InvalidateQueries(ForYouFeedKey, (q: Query<InfiniteData<FeedItem>>) => HasNoData(q));
    toast := PostCreated;
  }

  /** `onError`: the fixed failure notice; the cache is not touched. */
  function OnError(): (toast: Toast)
    ensures toast.destructive && toast.description == "Failed to post. Please try again."
  {
    FailedToPost
  }

  /** The mutation settling on the outcome of `submitPost`, which resolves to `undefined`. */
  method Settle(feeds: QueryClient<InfiniteData<FeedItem>>, outcome: Result<()>) returns (toast: Toast)
    modifies feeds
    ensures outcome.Err? ==> feeds.queries == old(feeds.queries) && toast == FailedToPost
    ensures outcome.Ok? ==> toast == PostCreated && feeds.queries.Keys == old(feeds.queries).Keys
  {
    if outcome.Err? {
      toast := OnError();
    } else {
      toast := OnSuccess(feeds, None);
    }
  }

  /** Submitting a post from the editor: the action rejects, so the feeds never change. */
  method SubmitPostMutation(feeds: QueryClient<InfiniteData<FeedItem>>, db: Store.Database,
                            session: Session, input: string, postId: Id, now: int)
    returns (toast: Toast)
    requires db.Valid()
    modifies feeds, db
    ensures db.Valid() && db.posts == old(db.posts)
    ensures feeds.queries == old(feeds.queries)
    ensures toast == FailedToPost
  {
    var outcome := PostEditorActions.SubmitPost(db, session, input, postId, now);
    toast := Settle(feeds, outcome);
  }
}
