/**
 * Cursor pagination shared by the list endpoints: the `cursor` search parameter, the ORM's
 * `findMany` with `take` and an inclusive `cursor`, and the split of the fetched rows into a
 * page of at most `pageSize` rows and the id of the row that starts the next page.
 *
 * The rows are given in the order the query's `orderBy` puts them (newest first).
 */
module Pagination {
  import opened Wrappers
  import opened Entities

  /** Rows per page in every list endpoint. */
  const PageSize := 10

  function Min(a: int, b: int): int
  {
    if a < b then a else b
  }

  /** `searchParams.get("cursor") || undefined`: a missing or empty parameter is no cursor. */
  function CursorParam(param: Option<string>): (r: Option<Id>)
    ensures r.Some? <==> param.Some? && param.value != ""
    ensures r.Some? ==> r == param
  {
    if param.Some? && param.value != "" then param else None
  }

  /** No two rows share an id. */
  predicate DistinctIds<T>(rows: seq<T>, idOf: T -> Id)
  {
    forall i, j :: 0 <= i < j < |rows| ==> idOf(rows[i]) != idOf(rows[j])
  }

  /** The position of the first row with the given id. */
  function IndexOf<T>(rows: seq<T>, idOf: T -> Id, id: Id): (r: Option<nat>)
    ensures r.None? <==> forall i :: 0 <= i < |rows| ==> idOf(rows[i]) != id
    ensures r.Some? ==> r.value < |rows| && idOf(rows[r.value]) == id
    ensures r.Some? ==> forall i :: 0 <= i < r.value ==> idOf(rows[i]) != id
  {
    if rows == [] then None
    else if idOf(rows[0]) == id then Some(0)
    else
      match IndexOf(rows[1..], idOf, id)
      case None => None
      case Some(i) => Some(i + 1)
  }

  /** With distinct ids, the id of row `k` is found at `k`. */
  lemma IndexOfDistinct<T>(rows: seq<T>, idOf: T -> Id, k: nat)
    requires DistinctIds(rows, idOf) && k < |rows|
    ensures IndexOf(rows, idOf, idOf(rows[k])) == Some(k)
  {
  }

  /**
   * `findMany({take, cursor})`: at most `take` rows, starting with the cursor's row itself.
   * A cursor naming no row yields no rows.
   */
  function FindMany<T>(rows: seq<T>, idOf: T -> Id, cursor: Option<Id>, take: nat): (r: seq<T>)
    ensures |r| <= take
    ensures cursor.Some? && r != [] ==> idOf(r[0]) == cursor.value
    ensures cursor.None? ==> |r| == Min(take, |rows|) && r == rows[..|r|]
  {
    match cursor
    case None => rows[..Min(take, |rows|)]
    case Some(id) =>
      match IndexOf(rows, idOf, id)
      case None => []
      case Some(i) => rows[i..Min(i + take, |rows|)]
  }

  /** Fetching from the cursor of row `k` gives the window of `take` rows starting at `k`. */
  lemma FindManyAt<T>(rows: seq<T>, idOf: T -> Id, k: nat, take: nat)
    requires DistinctIds(rows, idOf) && k < |rows|
    ensures FindMany(rows, idOf, Some(idOf(rows[k])), take) == rows[k..Min(k + take, |rows|)]
  {
    IndexOfDistinct(rows, idOf, k);
  }

  /**
   * The split of `pageSize + 1` fetched rows: the first `min(pageSize, n)` of them, and the id
   * of the row at index `pageSize` exactly when more than `pageSize` came back.
   */
  function SplitPage<T>(fetched: seq<T>, idOf: T -> Id, pageSize: nat): (r: Page<T>)
    ensures r.cursor.Some? <==> |fetched| > pageSize
    ensures |fetched| > pageSize ==> r.cursor == Some(idOf(fetched[pageSize])) && r.items == fetched[..pageSize]
    ensures |fetched| <= pageSize ==> r.items == fetched
  {
    Page(fetched[..Min(pageSize, |fetched|)], if |fetched| > pageSize then Some(idOf(fetched[pageSize])) else None)
  }

  /** One page of a list endpoint, from the request's cursor. */
  function Paginate<T>(rows: seq<T>, idOf: T -> Id, cursor: Option<Id>, pageSize: nat): (r: Page<T>)
    ensures |r.items| <= pageSize
  {
    SplitPage(FindMany(rows, idOf, cursor, pageSize + 1), idOf, pageSize)
  }

  /** The fetched rows are a run of consecutive rows of the list. */
  lemma FindManyWithinRows<T>(rows: seq<T>, idOf: T -> Id, cursor: Option<Id>, take: nat)
    ensures exists start :: 0 <= start <= |rows| && FindMany(rows, idOf, cursor, take) <= rows[start..]
  {
    var fetched := FindMany(rows, idOf, cursor, take);
    match cursor {
      case None =>
        assert fetched <= rows[0..];
      case Some(id) =>
        match IndexOf(rows, idOf, id) {
          case None =>
            assert fetched <= rows[0..];
          case Some(i) =>
            assert fetched <= rows[i..];
        }
    }
  }

  /** A page holds only rows of the list, in their list order. */
  lemma PageWithinRows<T>(rows: seq<T>, idOf: T -> Id, cursor: Option<Id>, pageSize: nat)
    ensures exists start :: 0 <= start <= |rows| && Paginate(rows, idOf, cursor, pageSize).items <= rows[start..]
  {
    FindManyWithinRows(rows, idOf, cursor, pageSize + 1);
    var fetched := FindMany(rows, idOf, cursor, pageSize + 1);
    var start :| 0 <= start <= |rows| && fetched <= rows[start..];
    assert Paginate(rows, idOf, cursor, pageSize).items <= rows[start..];
  }

  /** A page's cursor is the id of a row of the list. */
  lemma CursorNamesRow<T>(rows: seq<T>, idOf: T -> Id, cursor: Option<Id>, pageSize: nat)
    ensures var c := Paginate(rows, idOf, cursor, pageSize).cursor;
      c.Some? ==> exists x :: x in rows && idOf(x) == c.value
  {
    FindManyWithinRows(rows, idOf, cursor, pageSize + 1);
    var fetched := FindMany(rows, idOf, cursor, pageSize + 1);
    var start :| 0 <= start <= |rows| && fetched <= rows[start..];
    if |fetched| > pageSize {
      assert fetched[pageSize] == rows[start + pageSize];
    }
  }

  /** The first page: the first `min(pageSize, n)` rows, and a cursor exactly when more rows remain. */
  lemma FirstPage<T>(rows: seq<T>, idOf: T -> Id, pageSize: nat)
    ensures Paginate(rows, idOf, None, pageSize).items == rows[..Min(pageSize, |rows|)]
    ensures Paginate(rows, idOf, None, pageSize).cursor.Some? <==> |rows| > pageSize
    ensures |rows| > pageSize ==> Paginate(rows, idOf, None, pageSize).cursor == Some(idOf(rows[pageSize]))
  {
  }

  /**
   * The page that starts at row `j`: rows `j` up to `j + pageSize`, and the id of the row right
   * after it, which is not on the page, so the next page starts where this one ends.
   */
  function Window<T>(rows: seq<T>, idOf: T -> Id, j: nat, pageSize: nat): Page<T>
    requires j <= |rows|
  {
    if j + pageSize < |rows| then Page(rows[j..j + pageSize], Some(idOf(rows[j + pageSize])))
    else Page(rows[j..], None)
  }

  /** The page at the cursor of row `k` is the window at `k`. */
  lemma PageAt<T>(rows: seq<T>, idOf: T -> Id, k: nat, pageSize: nat)
    requires DistinctIds(rows, idOf) && k < |rows|
    ensures Paginate(rows, idOf, Some(idOf(rows[k])), pageSize) == Window(rows, idOf, k, pageSize)
  {
    IndexOfDistinct(rows, idOf, k);
    PaginateIsCursorWindow(rows, idOf, Some(idOf(rows[k])), pageSize);
  }

  /**
   * The page a request selects, stated over windows: the window at row 0 without a cursor, the
   * window at the first row with the cursor's id, and an empty page when no row has that id.
   */
  function CursorWindow<T>(rows: seq<T>, idOf: T -> Id, cursor: Option<Id>, pageSize: nat): Page<T>
  {
    match cursor
    case None => Window(rows, idOf, 0, pageSize)
    case Some(id) =>
      match IndexOf(rows, idOf, id)
      case None => Page([], None)
      case Some(k) => Window(rows, idOf, k, pageSize)
  }

  /** Every request, with or without a cursor, is answered with the window its cursor selects. */
  lemma PaginateIsCursorWindow<T>(rows: seq<T>, idOf: T -> Id, cursor: Option<Id>, pageSize: nat)
    ensures Paginate(rows, idOf, cursor, pageSize) == CursorWindow(rows, idOf, cursor, pageSize)
  {
    match cursor {
      case None =>
        FirstPageWindow(rows, idOf, pageSize);
      case Some(id) =>
        match IndexOf(rows, idOf, id) {
          case None =>
          case Some(k) =>
            var fetched := FindMany(rows, idOf, cursor, pageSize + 1);
            assert fetched == rows[k..Min(k + pageSize + 1, |rows|)];
            if k + pageSize < |rows| {
              assert fetched[..pageSize] == rows[k..k + pageSize];
              assert fetched[pageSize] == rows[k + pageSize];
            } else {
              assert fetched == rows[k..];
            }
        }
    }
  }

  /** The first page is the window at row 0. */
  lemma FirstPageWindow<T>(rows: seq<T>, idOf: T -> Id, pageSize: nat)
    ensures Paginate(rows, idOf, None, pageSize) == Window(rows, idOf, 0, pageSize)
  {
    FirstPage(rows, idOf, pageSize);
    assert rows[0..] == rows;
  }

  /**
   * The rows a client collects by following `nextCursor` for up to `fuel` further pages:
   * `fetch` answers one request, and each request sends the previous page's cursor as its
   * `cursor` parameter.
   */
  function Walk<T>(fetch: Option<Id> -> Page<T>, cursor: Option<Id>, fuel: nat): seq<T>
    decreases fuel
  {
    var page := fetch(cursor);
    if fuel == 0 || page.cursor.None? then page.items
    else page.items + Walk(fetch, CursorParam(page.cursor), fuel - 1)
  }

  predicate NonEmptyIds<T>(rows: seq<T>, idOf: T -> Id)
  {
    forall i :: 0 <= i < |rows| ==> idOf(rows[i]) != ""
  }

  /** A server that answers the first request and every row's cursor with that row's window. */
  ghost predicate ServesWindows<T>(fetch: Option<Id> -> Page<T>, rows: seq<T>, idOf: T -> Id, pageSize: nat)
  {
    && fetch(None) == Window(rows, idOf, 0, pageSize)
    && forall j {:trigger Window(rows, idOf, j, pageSize)} ::
         0 <= j < |rows| ==> fetch(Some(idOf(rows[j]))) == Window(rows, idOf, j, pageSize)
  }

  lemma SliceJoin<T>(s: seq<T>, a: nat, b: nat)
    requires a <= b <= |s|
    ensures s[a..b] + s[b..] == s[a..]
  {
  }

  /** Following cursors from the window at row `k` collects every later row once, in order. */
  lemma {:induction false} WalkFromWindow<T>(fetch: Option<Id> -> Page<T>, rows: seq<T>, idOf: T -> Id, pageSize: nat,
                                             cursor: Option<Id>, k: nat, fuel: nat)
    requires ServesWindows(fetch, rows, idOf, pageSize) && NonEmptyIds(rows, idOf)
    requires k <= |rows| && pageSize >= 1 && fuel >= |rows| - k
    requires fetch(cursor) == Window(rows, idOf, k, pageSize)
    ensures Walk(fetch, cursor, fuel) == rows[k..]
    decreases fuel
  {
    if k + pageSize < |rows| {
      var next := k + pageSize;
      var nextId := idOf(rows[next]);
      WalkThroughWindow(fetch, cursor, fuel, rows[k..next], nextId);
      WalkFromWindow(fetch, rows, idOf, pageSize, Some(nextId), next, fuel - 1);
      SliceJoin(rows, k, next);
    }
  }

  /** A page naming a non-empty cursor is followed by the walk from that cursor. */
  lemma WalkThroughWindow<T>(fetch: Option<Id> -> Page<T>, cursor: Option<Id>, fuel: nat, items: seq<T>, nextId: Id)
    requires fuel > 0 && nextId != ""
    requires fetch(cursor) == Page(items, Some(nextId))
    ensures Walk(fetch, cursor, fuel) == items + Walk(fetch, Some(nextId), fuel - 1)
  {
  }

  /** The list endpoint answers every request with a window. */
  lemma PaginateServesWindows<T>(rows: seq<T>, idOf: T -> Id, pageSize: nat)
    requires DistinctIds(rows, idOf)
    ensures ServesWindows((c: Option<Id>) => Paginate(rows, idOf, c, pageSize), rows, idOf, pageSize)
  {
    FirstPageWindow(rows, idOf, pageSize);
    forall j | 0 <= j < |rows|
      ensures Paginate(rows, idOf, Some(idOf(rows[j])), pageSize) == Window(rows, idOf, j, pageSize)
    {
      PageAt(rows, idOf, j, pageSize);
    }
  }

  /**
   * Over an unchanged ordering, the pages of a list endpoint tile it: following the cursors
   * from the first page collects every row exactly once, in order, with no repeat and no gap.
   */
  lemma PagesTileRows<T>(rows: seq<T>, idOf: T -> Id, pageSize: nat)
    requires DistinctIds(rows, idOf) && NonEmptyIds(rows, idOf) && pageSize >= 1
    ensures Walk((c: Option<Id>) => Paginate(rows, idOf, c, pageSize), None, |rows|) == rows
  {
    var fetch := (c: Option<Id>) => Paginate(rows, idOf, c, pageSize);
    PaginateServesWindows(rows, idOf, pageSize);
    WalkFromWindow(fetch, rows, idOf, pageSize, None, 0, |rows|);
    assert rows[0..] == rows;
  }
}
