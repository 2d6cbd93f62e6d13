/**
 * The follow button of a user: the cached follower info under `["follower-info", userId]`
 * (seeded with the server-rendered initial state) is toggled optimistically, the request is
 * chosen from the rendered value, and a failed request rolls back to the snapshot.
 */
module FollowButton {
  import opened Wrappers
  import opened Entities
  import opened QueryCache
  import Optimistic

  datatype FollowerInfo = FollowerInfo(followers: int, isFollowedByLoggedInUser: bool)

  function FollowerInfoKey(userId: Id): (k: QueryKey)
    ensures |k| == 2 && k[1] == userId
  {
    ["follower-info", userId]
  }

  /** `previousState?.isFollowedByLoggedInUser`: an absent snapshot counts as not followed. */
  predicate IsFollowed(state: Option<FollowerInfo>)
  {
    state.Some? && state.value.isFollowedByLoggedInUser
  }

  /** `previousState?.followers || 0`. */
  function Followers(state: Option<FollowerInfo>): int
  {
    if state.Some? then state.value.followers else 0
  }

  /** The optimistic value written by `onMutate`. */
  function Toggle(previousState: Option<FollowerInfo>): FollowerInfo
  {
    FollowerInfo(Followers(previousState) + (if IsFollowed(previousState) then -1 else 1), !IsFollowed(previousState))
  }

  /** The flag flips, and the follower count goes up exactly when the user becomes followed. */
  lemma ToggleFlipsAndCounts(previousState: Option<FollowerInfo>)
    ensures Toggle(previousState).isFollowedByLoggedInUser != IsFollowed(previousState)
    ensures Toggle(previousState).followers - Followers(previousState) == (if Toggle(previousState).isFollowedByLoggedInUser then 1 else -1)
  {
  }

  /** Following and unfollowing gives the cached value back. */
  lemma ToggleTwice(state: FollowerInfo)
    ensures Toggle(Some(Toggle(Some(state)))) == state
  {
  }

  /** A follower count that is never negative and is positive while the logged-in user follows. */
  predicate Consistent(state: FollowerInfo)
  {
    state.followers >= 0 && (state.isFollowedByLoggedInUser ==> state.followers >= 1)
  }

  lemma ToggleKeepsConsistent(state: FollowerInfo)
    requires Consistent(state)
    ensures Consistent(Toggle(Some(state)))
  {
  }

  /** The request of `mutationFn`: DELETE on the followers resource while the rendered data says followed. */
  function RequestFor(data: FollowerInfo): HttpMethod
  {
    if data.isFollowedByLoggedInUser then DELETE else POST
  }

  /** The button's caption. */
  function Label(data: FollowerInfo): string
  {
    if data.isFollowedByLoggedInUser then "Unfollow" else "Follow"
  }

  /** The button's variant. */
  function Variant(data: FollowerInfo): string
  {
    if data.isFollowedByLoggedInUser then "secondary" else "default"
  }

  /** The caption names the request a click sends, and the optimistic value shows the other caption. */
  lemma LabelNamesRequest(data: FollowerInfo)
    ensures Label(data) == "Unfollow" <==> RequestFor(data) == DELETE
    ensures Label(data) == "Follow" <==> RequestFor(data) == POST
    ensures Label(Toggle(Some(data))) != Label(data)
    ensures Variant(Toggle(Some(data))) != Variant(data)
  {
  }

  /**
   * One click: `onMutate` toggles the cached value, the request goes out, and on an error
   * `onError` writes the snapshot back and toasts the error's message.
   */
  method Click(cache: QueryClient<FollowerInfo>, userId: Id, data: FollowerInfo, serverError: Option<string>)
    returns (request: HttpMethod, toast: Option<Toast>)
    modifies cache
    ensures request == RequestFor(data)
    ensures serverError.None? ==>
      toast.None? && cache.queries == SetData(old(cache.queries), FollowerInfoKey(userId), Some(Toggle(old(cache.DataAt(FollowerInfoKey(userId))))))
    ensures serverError.Some? ==>
      toast == Some(Toast(true, serverError.value)) &&
      cache.queries == Optimistic.AfterFailedToggle(old(cache.queries), FollowerInfoKey(userId), Toggle)
    ensures serverError.Some? && old(cache.DataAt(FollowerInfoKey(userId))).Some? ==>
      cache.DataAt(FollowerInfoKey(userId)) == old(cache.DataAt(FollowerInfoKey(userId)))
  {
    var key := FollowerInfoKey(userId);
    var previousState := Optimistic.OnMutate(cache, key, Toggle);
    request := RequestFor(data);
    if serverError.Some? {
      Optimistic.Rollback(cache, key, previousState);
      toast := Some(Toast(true, serverError.value));
    } else {
      toast := None;
    }
  }
}
