/**
 * The comment list of a post (`Comments`): the pages are fetched newest first, `select`
 * shows them oldest first, the list shown is the flattening of the shown pages, and the
 * next request asks for the page before the most recently fetched one.
 */
module CommentsView {
  import opened Wrappers
  import opened Entities
  import opened QueryCache
  import Seqs
  import CommentMutations
  import Pagination

  datatype Status = Pending | Success | Error

  /** `select`: the pages and the page parameters, each in reverse order. */
  function Select(d: InfiniteData<Comment>): (r: InfiniteData<Comment>)
    ensures |r.pages| == |d.pages| && |r.pageParams| == |d.pageParams|
  {
    InfiniteData(Seqs.Reverse(d.pages), Seqs.Reverse(d.pageParams))
  }

  /** Shown page `i` is fetched page `n - 1 - i`, and so is its page parameter: the pairing survives. */
  lemma SelectPairsPagesAndParams(d: InfiniteData<Comment>, i: nat)
    requires |d.pages| == |d.pageParams| && i < |d.pages|
    ensures Select(d).pages[i] == d.pages[|d.pages| - 1 - i]
    ensures Select(d).pageParams[i] == d.pageParams[|d.pages| - 1 - i]
  {
    Seqs.ReverseAt(d.pages, i);
    Seqs.ReverseAt(d.pageParams, i);
  }

  /** Selecting twice gives back the fetched order. */
  lemma SelectTwice(d: InfiniteData<Comment>)
    ensures Select(Select(d)) == d
  {
    Seqs.ReverseReverse(d.pages);
    Seqs.ReverseReverse(d.pageParams);
  }

  /** The comments of each page, page by page. */
  function PageItems(pages: seq<Page<Comment>>): (r: seq<seq<Comment>>)
    ensures |r| == |pages| && forall i :: 0 <= i < |r| ==> r[i] == pages[i].items
  {
    seq(|pages|, i requires 0 <= i < |pages| => pages[i].items)
  }

  /** `data?.pages.flatMap((page) => page.comments) || []` over the selected data. */
  function Shown(data: Option<InfiniteData<Comment>>): seq<Comment>
  {
    if data.None? then [] else Seqs.Concat(PageItems(data.value.pages))
  }

  /** The list shown holds every comment of every page: its length is the sum of the page lengths. */
  lemma ShownLength(d: InfiniteData<Comment>)
    ensures |Shown(Some(d))| == Seqs.TotalLength(PageItems(d.pages))
  {
    Seqs.ConcatLength(PageItems(d.pages));
  }

  /**
   * After the submit patch the new comment is the last comment shown: it is appended to the
   * first fetched page, which `select` shows last.
   */
  lemma NewCommentShownLast(d: InfiniteData<Comment>, newComment: Comment)
    requires |d.pages| > 0
    ensures var patched := CommentMutations.AppendComment(Some(d), newComment);
      && patched.Some?
      && var shown := Shown(Some(Select(patched.value)));
      && |shown| > 0 && shown[|shown| - 1] == newComment
  {
    var patched := CommentMutations.AppendComment(Some(d), newComment).value;
    var selected := Select(patched);
    var n := |selected.pages|;
    Seqs.ReverseAt(patched.pages, n - 1);
    var parts := PageItems(selected.pages);
    assert parts[n - 1] == patched.pages[0].items;
    Seqs.ConcatEndsWith(parts, newComment);
  }

  /**
   * `getNextPageParam`: the `previousCursor` of the most recently fetched page, which `select`
   * shows at the top, so the next request asks for the comments before the oldest one shown.
   */
  function NextPageParam(d: InfiniteData<Comment>): (r: Option<Id>)
    requires |d.pages| > 0
    ensures r == Select(d).pages[0].cursor
  {
    Seqs.ReverseAt(d.pages, 0);
    d.pages[|d.pages| - 1].cursor
  }

  /** `hasNextPage`: a next page parameter exists. */
  predicate HasNextPage(d: InfiniteData<Comment>)
  {
    |d.pages| > 0 && NextPageParam(d).Some?
  }

  /** The page parameter of the first request (`initialPageParam`). */
  const InitialPageParam: Option<Id> := None

  /**
   * The first request sends no cursor; a later one sends the cursor of the latest page, if it
   * names one. `pageParam ? {cursor: pageParam} : {}` drops a missing or empty parameter, which
   * the route then reads as no cursor: `Pagination.CursorParam` states both at once.
   */
  lemma RequestCursors(d: InfiniteData<Comment>)
    requires |d.pages| > 0
    ensures Pagination.CursorParam(InitialPageParam).None?
    ensures var c := d.pages[|d.pages| - 1].cursor;
      c.Some? && c.value != "" ==> Pagination.CursorParam(NextPageParam(d)) == c
  {
  }

  /** "No comments yet." is shown exactly when the query succeeded and nothing is shown. */
  predicate ShowsNoComments(status: Status, shown: seq<Comment>)
  {
    status == Success && |shown| == 0
  }

  /** The error line is shown exactly when the query failed. */
  predicate ShowsError(status: Status)
  {
    status == Error
  }

  /** A successful query with at least one comment never shows "No comments yet.". */
  lemma NoCommentsMessageIff(status: Status, d: InfiniteData<Comment>)
    ensures ShowsNoComments(status, Shown(Some(d))) <==>
      status == Success && forall i :: 0 <= i < |d.pages| ==> d.pages[i].items == []
  {
    ShownLength(d);
    EmptyPagesTotal(PageItems(d.pages));
  }

  lemma {:induction false} EmptyPagesTotal(parts: seq<seq<Comment>>)
    ensures Seqs.TotalLength(parts) == 0 <==> forall i :: 0 <= i < |parts| ==> parts[i] == []
  {
    if parts != [] {
      EmptyPagesTotal(parts[1..]);
      assert forall i :: 1 <= i < |parts| ==> parts[i] == parts[1..][i - 1];
    }
  }
}
