/**
 * The client page cache (react-query's `QueryClient`): a map from query key to the cached
 * query, with the documented meaning of the calls the application makes on it.
 * `cancelQueries` only stops in-flight fetches and is not modelled.
 */
module QueryCache {
  import opened Wrappers
  import opened Entities
  import Seqs

  /** A query key such as `["post-feed", "for-you"]` or `["comments", postId]`. */
  type QueryKey = seq<string>

  /** `InfiniteData`: the fetched pages in fetch order and the page parameter each was fetched with. */
  datatype InfiniteData<T> = InfiniteData(pages: seq<Page<T>>, pageParams: seq<Option<Id>>)

  /** The key prefix of every post feed. */
  const PostFeedKey: QueryKey := ["post-feed"]

  /** The key of the "for you" feed. */
  const ForYouFeedKey: QueryKey := ["post-feed", "for-you"]

  /** The key of the comment list of a post. */
  function CommentsKey(postId: Id): QueryKey
  {
    ["comments", postId]
  }

  /** A cached query: its data (`None` before the first fetch) and whether it was invalidated. */
  datatype Query<D> = Query(data: Option<D>, isInvalidated: bool)

  /** The default key filter: a query matches when the filter key is a prefix of its key. */
  predicate Matches(filter: QueryKey, key: QueryKey)
  {
    filter <= key
  }

  /** The filter `predicate(query) { return !query.state.data }`. */
  predicate HasNoData<D>(q: Query<D>)
  {
    q.data.None?
  }

  /** The query after a write of `next`: writing `undefined` leaves it untouched. */
  function Written<D>(q: Query<D>, next: Option<D>): (r: Query<D>)
    ensures next.None? ==> r == q
    ensures next.Some? ==> r.data == next && !r.isInvalidated
  {
    if next.None? then q else Query(next, false)
  }

  /** The cache after `setQueryData(key, value)`: writing `undefined` changes nothing. */
  function SetData<D>(queries: map<QueryKey, Query<D>>, key: QueryKey, value: Option<D>): (r: map<QueryKey, Query<D>>)
    ensures value.None? ==> r == queries
    ensures value.Some? ==> key in r && r[key] == Query(value, false) && r.Keys == queries.Keys + {key}
    ensures forall k :: k in queries && k != key ==> k in r && r[k] == queries[k]
  {
    if value.None? then queries else queries[key := Query(value, false)]
  }

  /** The cache after `resetQueries` on `key`: a cached query there loses its data. */
  function ResetData<D>(queries: map<QueryKey, Query<D>>, key: QueryKey): (r: map<QueryKey, Query<D>>)
    ensures r.Keys == queries.Keys
    ensures key in r ==> r[key] == Query(None, false)
    ensures forall k :: k in queries && k != key ==> r[k] == queries[k]
  {
    if key in queries then queries[key := Query(None, false)] else queries
  }

  /** The data cached under `key`, `None` when nothing is cached there. */
  function DataIn<D>(queries: map<QueryKey, Query<D>>, key: QueryKey): Option<D>
  {
    if key in queries then queries[key].data else None
  }

  /** The cache after `invalidateQueries({queryKey: filter})`: the matching queries are stale, no data changes. */
  predicate StaleUnder<D(==)>(before: map<QueryKey, Query<D>>, after: map<QueryKey, Query<D>>, filter: QueryKey)
  {
    && after.Keys == before.Keys
    && forall k :: k in after ==>
         after[k].data == before[k].data
         && after[k].isInvalidated == (before[k].isInvalidated || Matches(filter, k))
  }

  /** Same page count, same cursor on every page and the same page parameters. */
  ghost predicate SameShape<T>(a: InfiniteData<T>, b: InfiniteData<T>)
  {
    && |a.pages| == |b.pages|
    && (forall i :: 0 <= i < |a.pages| ==> a.pages[i].cursor == b.pages[i].cursor)
    && a.pageParams == b.pageParams
  }

  /** `SameShape` for optional data: both absent, or both present with the same shape. */
  ghost predicate SameShapeOpt<T>(a: Option<InfiniteData<T>>, b: Option<InfiniteData<T>>)
  {
    (a.None? && b.None?) || (a.Some? && b.Some? && SameShape(a.value, b.value))
  }

  /** `pages.map(page => ({cursor, items: page.items.filter(keep)}))`. */
  function FilterPages<T>(pages: seq<Page<T>>, keep: T -> bool): (r: seq<Page<T>>)
    ensures |r| == |pages|
    ensures forall i :: 0 <= i < |r| ==>
      r[i].cursor == pages[i].cursor && r[i].items == Seqs.Filter(pages[i].items, keep)
  {
    if pages == [] then []
    else [Page(Seqs.Filter(pages[0].items, keep), pages[0].cursor)] + FilterPages(pages[1..], keep)
  }

  /** Filtering every page drops exactly the failing items and keeps the shape. */
  function FilterEachPage<T>(d: InfiniteData<T>, keep: T -> bool): (r: InfiniteData<T>)
    ensures SameShape(d, r)
    ensures forall i :: 0 <= i < |r.pages| ==> r.pages[i].items == Seqs.Filter(d.pages[i].items, keep)
    ensures forall i, j :: 0 <= i < |r.pages| && 0 <= j < |r.pages[i].items| ==> keep(r.pages[i].items[j])
    ensures forall i, j :: 0 <= i < |d.pages| && 0 <= j < |d.pages[i].items| && keep(d.pages[i].items[j]) ==>
      d.pages[i].items[j] in r.pages[i].items
  {
    InfiniteData(FilterPages(d.pages, keep), d.pageParams)
  }

  /** Filtering every page twice with the same test is filtering once. */
  lemma FilterEachPageIdempotent<T>(d: InfiniteData<T>, keep: T -> bool)
    ensures FilterEachPage(FilterEachPage(d, keep), keep) == FilterEachPage(d, keep)
  {
    var once := FilterEachPage(d, keep);
    var twice := FilterEachPage(once, keep);
    forall i | 0 <= i < |d.pages|
      ensures twice.pages[i] == once.pages[i]
    {
      Seqs.FilterIdempotent(d.pages[i].items, keep);
    }
  }

  class QueryClient<D> {
    var queries: map<QueryKey, Query<D>>

    /** A fresh, empty cache. */
    constructor ()
      ensures queries == map[]
    {
      queries := map[];
    }

    /** The cached data under `key`, `None` when nothing is cached there. */
    function DataAt(key: QueryKey): Option<D>
      reads this
    {
      DataIn(queries, key)
    }

    /** `getQueryData(key)`. */
    method GetQueryData(key: QueryKey) returns (d: Option<D>)
      ensures d == DataAt(key)
    {
      d := if key in queries then queries[key].data else None;
    }

    /** `setQueryData(key, value)`: writing `undefined` is a no-op; a write clears the invalidation. */
    method SetQueryData(key: QueryKey, value: Option<D>)
      modifies this
      ensures queries == SetData(old(queries), key, value)
    {
      if value.Some? {
        queries := queries[key := Query(value, false)];
      }
    }

    /** `setQueriesData(filter, updater)`: every cached query the filter matches gets the updater's result. */
    method SetQueriesData(filter: QueryKey, updater: Option<D> -> Option<D>)
      modifies this
      ensures queries.Keys == old(queries).Keys
      ensures forall k :: k in queries && !Matches(filter, k) ==> queries[k] == old(queries)[k]
      ensures forall k :: k in queries && Matches(filter, k) ==>
        queries[k] == Written(old(queries)[k], updater(old(queries)[k].data))
    {
      queries := map k | k in queries ::
        if Matches(filter, k) then Written(queries[k], updater(queries[k].data)) else queries[k];
    }

    /**
     * `setQueriesData` with an updater that may throw. When it throws for a matching query the
     * call throws and no query is written; otherwise it is `SetQueriesData`.
     */
    method TrySetQueriesData(filter: QueryKey, updater: Option<D> -> Result<Option<D>>) returns (r: Result<()>)
      modifies this
      ensures r.Err? <==> exists k :: k in old(queries) && Matches(filter, k) && updater(old(queries)[k].data).Err?
      ensures r.Err? ==> queries == old(queries)
      ensures queries.Keys == old(queries).Keys
      ensures forall k :: k in queries && !Matches(filter, k) ==> queries[k] == old(queries)[k]
      ensures r.Ok? ==> forall k :: k in queries && Matches(filter, k) ==>
        queries[k] == Written(old(queries)[k], updater(old(queries)[k].data).value)
    {
      if k :| k in queries && Matches(filter, k) && updater(queries[k].data).Err? {
        r := Err(updater(queries[k].data).error);
      } else {
        r := Ok(());
        queries := map k | k in queries ::
          if Matches(filter, k) then Written(queries[k], updater(queries[k].data).value) else queries[k];
      }
    }

    /** `invalidateQueries({queryKey: filter, predicate})`: matching queries that pass `shouldInvalidate` are marked stale. */
    method InvalidateQueries(filter: QueryKey, shouldInvalidate: Query<D> -> bool)
      modifies this
      ensures queries.Keys == old(queries).Keys
      ensures forall k :: k in queries ==>
        queries[k].data == old(queries)[k].data
        && queries[k].isInvalidated == (old(queries)[k].isInvalidated || (Matches(filter, k) && shouldInvalidate(old(queries)[k])))
    {
      queries := map k | k in queries ::
        if Matches(filter, k) && shouldInvalidate(queries[k]) then Query(queries[k].data, true) else queries[k];
    }

    /** `resetQueries({queryKey: key, exact: true})` for a query without initial data: its data is gone. */
    method ResetQuery(key: QueryKey)
      modifies this
      ensures queries == ResetData(old(queries), key)
    {
      if key in queries {
        queries := queries[key := Query(None, false)];
      }
    }
  }
}
