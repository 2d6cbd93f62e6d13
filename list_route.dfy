/**
 * The shape every paginated GET handler shares: no session gives 401 before any query, a
 * failing query gives 500, and otherwise the body is one page of the handler's rows.
 */
module ListRoute {
  import opened Wrappers
  import opened Entities
  import opened Pagination

  /**
   * One GET of a paginated list. `rows` are the rows the handler's `where` selects, newest
   * first; `fails` says whether the query throws.
   */
  function ListGet<T>(session: Session, cursorParam: Option<string>, rows: seq<T>, idOf: T -> Id, fails: bool): (r: Response<Page<T>>)
    ensures session.None? ==> r == Unauthorized()
    ensures session.Some? && fails ==> r == InternalError()
    ensures session.Some? && !fails ==> r.Json? && |r.body.items| <= PageSize
    ensures r.Json? && CursorParam(cursorParam).None? ==>
      && r.body.items == rows[..Min(PageSize, |rows|)]
      && (r.body.cursor.Some? <==> |rows| > PageSize)
      && (|rows| > PageSize ==> r.body.cursor == Some(idOf(rows[PageSize])))
    ensures r.Json? ==> r.body == CursorWindow(rows, idOf, CursorParam(cursorParam), PageSize)
  {
    if session.None? then Unauthorized()
    else if fails then InternalError()
    else
      FirstPage(rows, idOf, PageSize);
      PaginateIsCursorWindow(rows, idOf, CursorParam(cursorParam), PageSize);
      Json(Paginate(rows, idOf, CursorParam(cursorParam), PageSize))
  }

  /** The page is a run of consecutive rows of the list, so it holds only rows of the list. */
  lemma ListGetWithinRows<T>(session: Session, cursorParam: Option<string>, rows: seq<T>, idOf: T -> Id, fails: bool)
    ensures var r := ListGet(session, cursorParam, rows, idOf, fails);
      r.Json? ==> exists start :: 0 <= start <= |rows| && r.body.items <= rows[start..]
    ensures var r := ListGet(session, cursorParam, rows, idOf, fails);
      r.Json? ==> forall i :: 0 <= i < |r.body.items| ==> r.body.items[i] in rows
  {
    var r := ListGet(session, cursorParam, rows, idOf, fails);
    PageWithinRows(rows, idOf, CursorParam(cursorParam), PageSize);
    if r.Json? {
      var start :| 0 <= start <= |rows| && r.body.items <= rows[start..];
      assert forall i :: 0 <= i < |r.body.items| ==> r.body.items[i] == rows[start + i];
    }
  }

  /** With a cursor naming row `k` (distinct ids), the page starts at row `k` and names the row after it. */
  lemma ListGetAt<T>(session: Session, rows: seq<T>, idOf: T -> Id, k: nat)
    requires session.Some? && DistinctIds(rows, idOf) && k < |rows| && idOf(rows[k]) != ""
    ensures ListGet(session, Some(idOf(rows[k])), rows, idOf, false) ==
      Json(Window(rows, idOf, k, PageSize))
  {
    PageAt(rows, idOf, k, PageSize);
  }
}
