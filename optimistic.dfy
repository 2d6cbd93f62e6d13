/**
 * The optimistic-update pattern the like, follow and bookmark buttons share: `onMutate`
 * reads the cached value, writes the toggled value and returns the value it read;
 * `onError` writes that snapshot back with `setQueryData`. Writing `undefined` is a no-op,
 * so a snapshot taken while nothing was cached is not restored: the optimistic value stays.
 */
module Optimistic {
  import opened Wrappers
  import opened QueryCache

  /** `onMutate`: the snapshot is the value read before the write, and the cell holds its toggle. */
  method OnMutate<D>(cache: QueryClient<D>, key: QueryKey, toggle: Option<D> -> D) returns (previousState: Option<D>)
    modifies cache
    ensures previousState == old(cache.DataAt(key))
    ensures cache.queries == SetData(old(cache.queries), key, Some(toggle(previousState)))
  {
    previousState := cache.GetQueryData(key);
    cache.SetQueryData(key, Some(toggle(previousState)));
  }

  /** `onError` as written: `setQueryData(queryKey, context?.previousState)`. */
  method Rollback<D>(cache: QueryClient<D>, key: QueryKey, previousState: Option<D>)
    modifies cache
    ensures cache.queries == SetData(old(cache.queries), key, previousState)
  {
    cache.SetQueryData(key, previousState);
  }

  /** The cache after the optimistic write and the rollback as written. */
  function AfterFailedToggle<D>(queries: map<QueryKey, Query<D>>, key: QueryKey, toggle: Option<D> -> D): map<QueryKey, Query<D>>
  {
    var previousState := DataIn(queries, key);
    SetData(SetData(queries, key, Some(toggle(previousState))), key, previousState)
  }

  /** A defined snapshot is restored by the rollback as written. */
  lemma DefinedSnapshotRestored<D>(queries: map<QueryKey, Query<D>>, key: QueryKey, toggle: Option<D> -> D)
    requires DataIn(queries, key).Some?
    ensures DataIn(AfterFailedToggle(queries, key, toggle), key) == DataIn(queries, key)
  {
  }

  /** An absent snapshot is not restored: after the failed toggle the cell holds the toggled value. */
  lemma AbsentSnapshotNotRestored<D>(queries: map<QueryKey, Query<D>>, key: QueryKey, toggle: Option<D> -> D)
    requires DataIn(queries, key).None?
    ensures DataIn(AfterFailedToggle(queries, key, toggle), key) == Some(toggle(None))
    ensures DataIn(AfterFailedToggle(queries, key, toggle), key) != DataIn(queries, key)
  {
  }

  /** The cache after a rollback that also restores an absent snapshot, by resetting the query. */
  function Restored<D>(queries: map<QueryKey, Query<D>>, key: QueryKey, previousState: Option<D>): map<QueryKey, Query<D>>
  {
    if previousState.Some? then SetData(queries, key, previousState) else ResetData(queries, key)
  }

  /** The corrected `onError`: `setQueryData` for a defined snapshot, `resetQueries` for an absent one. */
  method RollbackRestoring<D>(cache: QueryClient<D>, key: QueryKey, previousState: Option<D>)
    modifies cache
    ensures cache.queries == Restored(old(cache.queries), key, previousState)
    ensures cache.DataAt(key) == previousState || (previousState.None? && key !in cache.queries)
  {
    if previousState.Some? {
      cache.SetQueryData(key, previousState);
    } else {
      cache.ResetQuery(key);
    }
  }

  /** With the corrected rollback a failed toggle always leaves the cell's data as it was. */
  lemma RestoringRollbackRestores<D>(queries: map<QueryKey, Query<D>>, key: QueryKey, toggle: Option<D> -> D)
    ensures var previousState := DataIn(queries, key);
      DataIn(Restored(SetData(queries, key, Some(toggle(previousState))), key, previousState), key) == previousState
  {
  }
}
