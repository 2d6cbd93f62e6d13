/**
 * `useDeletePostMutation`: after `DeletePost` succeeds the deleted post is filtered out of
 * every page of every cached feed under `["post-feed"]`, a notice is shown, and when the
 * user is on the deleted post's own page the router moves to its author's profile.
 */
module PostMutations {
  import opened Wrappers
  import opened Entities
  import opened QueryCache
  import Seqs
  import Store
  import PostActions

  const PostDeleted := Toast(false, "Post deleted")
  const FailedToDelete := Toast(true, "Failed to delete post. Please try again later.")

  /** The `TypeError` JavaScript throws when the filter reads `.id` of an `undefined` slot. */
  const ReadIdOfUndefined := "Cannot read properties of undefined (reading 'id')"

  /** Every slot of every page holds a post. */
  predicate AllDefined(d: InfiniteData<FeedItem>)
  {
    forall i, j :: 0 <= i < |d.pages| && 0 <= j < |d.pages[i].items| ==> d.pages[i].items[j].Some?
  }

  /** The filter test `post.id !== deletedPost.id`, on a slot that holds a post. */
  predicate Survives(slot: FeedItem, deletedId: Id)
  {
    slot.Some? && slot.value.id != deletedId
  }

  /**
   * The `setQueriesData` updater: absent data stays absent; otherwise every page keeps its
   * cursor and loses the posts with the deleted id. A page slot that is `undefined` makes
   * the filter throw.
   */
  function RemovePost(oldData: Option<InfiniteData<FeedItem>>, deletedId: Id): (r: Result<Option<InfiniteData<FeedItem>>>)
    ensures oldData.None? ==> r == Ok(None)
    ensures oldData.Some? ==> (r.Err? <==> !AllDefined(oldData.value))
    ensures r.Err? ==> r.error == ReadIdOfUndefined
    ensures r.Ok? ==> SameShapeOpt(oldData, r.value)
    ensures r.Ok? && r.value.Some? ==>
      forall i, j :: 0 <= i < |r.value.value.pages| && 0 <= j < |r.value.value.pages[i].items| ==>
        r.value.value.pages[i].items[j].Some? && r.value.value.pages[i].items[j].value.id != deletedId
    ensures r.Ok? && r.value.Some? ==>
      forall i, j :: 0 <= i < |oldData.value.pages| && 0 <= j < |oldData.value.pages[i].items|
                     && oldData.value.pages[i].items[j].value.id != deletedId ==>
        oldData.value.pages[i].items[j] in r.value.value.pages[i].items
  {
    if oldData.None? then Ok(None)
    else if !AllDefined(oldData.value) then Err(ReadIdOfUndefined)
    else Ok(Some(FilterEachPage(oldData.value, (slot: FeedItem) => Survives(slot, deletedId))))
  }

  /** The survivors of each page keep their relative order: each page is the filter of the old one. */
  lemma RemovePostKeepsOrder(oldData: InfiniteData<FeedItem>, deletedId: Id, i: nat)
    requires AllDefined(oldData) && i < |oldData.pages|
    ensures RemovePost(Some(oldData), deletedId).value.value.pages[i].items
         == Seqs.Filter(oldData.pages[i].items, (slot: FeedItem) => Survives(slot, deletedId))
  {
  }

  /** Removing the same post a second time changes nothing. */
  lemma RemovePostIdempotent(oldData: Option<InfiniteData<FeedItem>>, deletedId: Id)
    requires RemovePost(oldData, deletedId).Ok?
    ensures RemovePost(RemovePost(oldData, deletedId).value, deletedId) == RemovePost(oldData, deletedId)
  {
    if oldData.Some? {
      var keep := (slot: FeedItem) => Survives(slot, deletedId);
      FilterEachPageIdempotent(oldData.value, keep);
    }
  }

  /** Where `onSuccess` navigates: to the author's profile exactly when on the deleted post's page. */
  function Redirect(pathName: string, deletedPost: Post): (r: Option<string>)
    ensures r.Some? <==> pathName == "/posts/" + deletedPost.id
    ensures r.Some? ==> r.value == "/users/" + deletedPost.username
  {
    if pathName == "/posts/" + deletedPost.id then Some("/users/" + deletedPost.username) else None
  }

  /** Whether the feed updater runs without throwing on every cached post feed. */
  predicate FeedsRemovable(before: map<QueryKey, Query<InfiniteData<FeedItem>>>, deletedId: Id)
  {
    forall k :: k in before && Matches(PostFeedKey, k) ==> RemovePost(before[k].data, deletedId).Ok?
  }

  /** The feed cache after a successful patch: every post feed loses the post, every other query is untouched. */
  predicate RemovedFromFeeds(before: map<QueryKey, Query<InfiniteData<FeedItem>>>,
                             after: map<QueryKey, Query<InfiniteData<FeedItem>>>, deletedId: Id)
  {
    && after.Keys == before.Keys
    && (forall k :: k in after && !Matches(PostFeedKey, k) ==> after[k] == before[k])
    && (forall k :: k in after && Matches(PostFeedKey, k) ==>
          RemovePost(before[k].data, deletedId).Ok?
          && after[k] == Written(before[k], RemovePost(before[k].data, deletedId).value))
  }

  /**
   * `onSuccess(deletedPost)`, and `onError` when it throws: on success every feed query is
   * patched with `RemovePost`; when the updater throws nothing is written, the failure
   * notice is shown and there is no navigation.
   */
  method OnSuccess(feeds: QueryClient<InfiniteData<FeedItem>>, deletedPost: Post, pathName: string)
    returns (toast: Toast, navigateTo: Option<string>)
    modifies feeds
    ensures feeds.queries.Keys == old(feeds.queries).Keys
    ensures forall k :: k in feeds.queries && !Matches(PostFeedKey, k) ==> feeds.queries[k] == old(feeds.queries)[k]
    ensures toast == PostDeleted <==> FeedsRemovable(old(feeds.queries), deletedPost.id)
    ensures toast == PostDeleted ==> navigateTo == Redirect(pathName, deletedPost)
    ensures toast == PostDeleted ==> RemovedFromFeeds(old(feeds.queries), feeds.queries, deletedPost.id)
    ensures toast != PostDeleted ==> toast == FailedToDelete && navigateTo.None? && feeds.queries == old(feeds.queries)
  {
    var written := feeds.TrySetQueriesData(PostFeedKey,
      (d: Option<InfiniteData<FeedItem>>) => RemovePost(d, deletedPost.id));
    if written.Err? {
      toast, navigateTo := FailedToDelete, None;
      return;
    }
    toast := PostDeleted;
    navigateTo := Redirect(pathName, deletedPost);
  }

  /** Deleting a post from its menu: the action, then `onSuccess` or `onError`. */
  method DeletePostMutation(feeds: QueryClient<InfiniteData<FeedItem>>, db: Store.Database,
                            session: Session, id: Id, pathName: string)
    returns (toast: Toast, navigateTo: Option<string>)
    requires db.Valid()
    modifies feeds, db
    ensures db.Valid()
    ensures db.comments == old(db.comments) && db.notifications == old(db.notifications) && db.media == old(db.media)
    ensures db.posts == if PostActions.DeleteAccepted(old(db.posts), session, id) then old(db.posts) - {id} else old(db.posts)
    ensures toast == PostDeleted <==>
      PostActions.DeleteAccepted(old(db.posts), session, id) && FeedsRemovable(old(feeds.queries), id)
    ensures toast == PostDeleted ==> id in old(db.posts) && db.posts == old(db.posts) - {id}
    ensures toast == PostDeleted ==> navigateTo == Redirect(pathName, old(db.posts)[id])
    ensures toast == PostDeleted ==> RemovedFromFeeds(old(feeds.queries), feeds.queries, id)
    ensures toast != PostDeleted ==> toast == FailedToDelete && navigateTo.None? && feeds.queries == old(feeds.queries)
  {
    var deleted := PostActions.DeletePost(db, session, id);
    if deleted.Err? {
      toast, navigateTo := FailedToDelete, None;
      return;
    }
    toast, navigateTo := OnSuccess(feeds, deleted.value, pathName);
  }
}
