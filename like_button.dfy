/**
 * The like button of a post: the cached like info under `["like-info", postId]` is toggled
 * optimistically, the request is chosen from the rendered value, and a failed request rolls
 * the cache back to the snapshot and shows the error.
 */
module LikeButton {
  import opened Wrappers
  import opened Entities
  import opened QueryCache
  import Optimistic

  datatype LikeInfo = LikeInfo(likes: int, isLikedByLoggedInUser: bool)

  function LikeInfoKey(postId: Id): (k: QueryKey)
    ensures |k| == 2 && k[1] == postId
  {
    ["like-info", postId]
  }

  /** `previousState?.isLikedByLoggedInUser`: an absent snapshot counts as not liked. */
  predicate IsLiked(state: Option<LikeInfo>)
  {
    state.Some? && state.value.isLikedByLoggedInUser
  }

  /** `previousState?.likes || 0`. */
  function Likes(state: Option<LikeInfo>): int
  {
    if state.Some? then state.value.likes else 0
  }

  /** The optimistic value written by `onMutate`. */
  function Toggle(previousState: Option<LikeInfo>): LikeInfo
  {
    LikeInfo(Likes(previousState) + (if IsLiked(previousState) then -1 else 1), !IsLiked(previousState))
  }

  /** The flag flips, and the count goes up exactly when the post becomes liked. */
  lemma ToggleFlipsAndCounts(previousState: Option<LikeInfo>)
    ensures Toggle(previousState).isLikedByLoggedInUser != IsLiked(previousState)
    ensures Toggle(previousState).likes - Likes(previousState) == (if Toggle(previousState).isLikedByLoggedInUser then 1 else -1)
  {
  }

  /** Toggling a cached value twice gives it back. */
  lemma ToggleTwice(state: LikeInfo)
    ensures Toggle(Some(Toggle(Some(state)))) == state
  {
  }

  /** Toggling with nothing cached shows one like, by the logged-in user. */
  lemma ToggleAbsent()
    ensures Toggle(None) == LikeInfo(1, true)
  {
  }

  /** A count that is never negative and is positive while the user likes the post. */
  predicate Consistent(state: LikeInfo)
  {
    state.likes >= 0 && (state.isLikedByLoggedInUser ==> state.likes >= 1)
  }

  lemma ToggleKeepsConsistent(state: LikeInfo)
    requires Consistent(state)
    ensures Consistent(Toggle(Some(state)))
  {
  }

  /** The cached value after `n` successful clicks. */
  function ToggledTimes(state: LikeInfo, n: nat): LikeInfo
  {
    if n == 0 then state else Toggle(Some(ToggledTimes(state, n - 1)))
  }

  /** Repeated clicks converge: an even number of them leaves the value as it was, an odd number toggles it once. */
  lemma {:induction false} ToggledTimesParity(state: LikeInfo, n: nat)
    ensures ToggledTimes(state, n) == if n % 2 == 0 then state else Toggle(Some(state))
  {
    if n > 0 {
      ToggledTimesParity(state, n - 1);
      if n % 2 == 0 {
        ToggleTwice(state);
      }
    }
  }

  /** The request of `mutationFn`, chosen from the rendered data. */
  function RequestFor(data: Option<LikeInfo>): HttpMethod
  {
    if IsLiked(data) then DELETE else POST
  }

  /** When the rendered data is the cached data, the request sent agrees with the optimistic value: POST exactly when it shows a like. */
  lemma RequestMatchesOptimisticValue(data: Option<LikeInfo>)
    ensures RequestFor(data) == POST <==> Toggle(data).isLikedByLoggedInUser
    ensures RequestFor(data) == DELETE <==> !Toggle(data).isLikedByLoggedInUser
  {
  }

  /**
   * One click: `onMutate` toggles the cached value, the request goes out, and on an error
   * (`serverError`, the rejection's message) `onError` writes the snapshot back and toasts.
   * A failure while nothing was cached leaves the optimistic value in place.
   */
  method Click(cache: QueryClient<LikeInfo>, postId: Id, data: Option<LikeInfo>, serverError: Option<string>)
    returns (request: HttpMethod, toast: Option<Toast>)
    modifies cache
    ensures request == RequestFor(data)
    ensures serverError.None? ==>
      toast.None? && cache.queries == SetData(old(cache.queries), LikeInfoKey(postId), Some(Toggle(old(cache.DataAt(LikeInfoKey(postId))))))
    ensures serverError.Some? ==>
      toast == Some(Toast(true, serverError.value)) &&
      cache.queries == Optimistic.AfterFailedToggle(old(cache.queries), LikeInfoKey(postId), Toggle)
    ensures serverError.Some? && old(cache.DataAt(LikeInfoKey(postId))).Some? ==>
      cache.DataAt(LikeInfoKey(postId)) == old(cache.DataAt(LikeInfoKey(postId)))
    ensures serverError.Some? && old(cache.DataAt(LikeInfoKey(postId))).None? ==>
      cache.DataAt(LikeInfoKey(postId)) == Some(LikeInfo(1, true))
  {
    var key := LikeInfoKey(postId);
    var previousState := Optimistic.OnMutate(cache, key, Toggle);
    request := RequestFor(data);
    if serverError.Some? {
      Optimistic.Rollback(cache, key, previousState);
      toast := Some(Toast(true, serverError.value));
    } else {
      toast := None;
    }
  }
}
