/**
 * `GET /api/search`: the `q` parameter becomes a full-text query by joining its space-separated
 * words with `" & "`; the posts whose content, author display name or author username match it
 * are listed newest first, one page at a time.
 */
module SearchRoute {
  import opened Wrappers
  import opened Entities
  import opened Pagination
  import opened ListRoute
  import Seqs

  /** `s.split(" ")`: the text between consecutive spaces; always at least one part. */
  function SplitOnSpace(s: string): (r: seq<string>)
    ensures |r| >= 1
    ensures forall i :: 0 <= i < |r| ==> ' ' !in r[i]
  {
    if s == [] then [""]
    else
      var rest := SplitOnSpace(s[1..]);
      if s[0] == ' ' then [""] + rest
      else [[s[0]] + rest[0]] + rest[1..]
  }

  /** `parts.join(sep)`. */
  function Join(parts: seq<string>, sep: string): string
  {
    if |parts| == 0 then ""
    else if |parts| == 1 then parts[0]
    else parts[0] + sep + Join(parts[1..], sep)
  }

  /** `q.split(" ").join(" & ")`. */
  function SearchQuery(q: string): string
  {
    Join(SplitOnSpace(q), " & ")
  }

  /** An independent reference: every space becomes `" & "`, every other character stays. */
  function ReplaceSpaces(q: string): (r: string)
    ensures |r| == |q| + 2 * Spaces(q)
  {
    if q == [] then ""
    else (if q[0] == ' ' then " & " else [q[0]]) + ReplaceSpaces(q[1..])
  }

  function Spaces(q: string): nat
  {
    if q == [] then 0 else (if q[0] == ' ' then 1 else 0) + Spaces(q[1..])
  }

  /** Prepending a character to the first part prepends it to the joined text. */
  lemma {:induction false} JoinConsFirst(c: char, parts: seq<string>, sep: string)
    requires |parts| >= 1
    ensures Join([[c] + parts[0]] + parts[1..], sep) == [c] + Join(parts, sep)
  {
    var moved := [[c] + parts[0]] + parts[1..];
    assert moved[1..] == parts[1..];
  }

  /** Splitting on spaces and joining with `" & "` replaces every space by `" & "`. */
  lemma {:induction false} SearchQueryReplacesSpaces(q: string)
    ensures SearchQuery(q) == ReplaceSpaces(q)
  {
    if q != [] {
      var rest := SplitOnSpace(q[1..]);
      SearchQueryReplacesSpaces(q[1..]);
      if q[0] == ' ' {
        assert ([""] + rest)[1..] == rest;
      } else {
        JoinConsFirst(q[0], rest, " & ");
      }
    }
  }

  /** There is one more part than there are spaces. */
  lemma {:induction false} PartsCount(q: string)
    ensures |SplitOnSpace(q)| == Spaces(q) + 1
  {
    if q != [] {
      PartsCount(q[1..]);
    }
  }

  /** A query without spaces passes through unchanged. */
  lemma {:induction false} NoSpacePassesThrough(q: string)
    requires ' ' !in q
    ensures SearchQuery(q) == q
  {
    SearchQueryReplacesSpaces(q);
    ReplaceSpacesNoSpace(q);
  }

  lemma {:induction false} ReplaceSpacesNoSpace(q: string)
    requires ' ' !in q
    ensures ReplaceSpaces(q) == q
  {
    if q != [] {
      assert q == [q[0]] + q[1..];
      ReplaceSpacesNoSpace(q[1..]);
    }
  }

  /** The query grows by two characters per space: one `" & "` separator for every space. */
  lemma SearchQueryLength(q: string)
    ensures |SearchQuery(q)| == |q| + 2 * Spaces(q)
    ensures |SplitOnSpace(q)| - 1 == Spaces(q)
  {
    SearchQueryReplacesSpaces(q);
    PartsCount(q);
  }

  /** Replacing distributes over concatenation. */
  lemma {:induction false} ReplaceSpacesAppend(a: string, b: string)
    ensures ReplaceSpaces(a + b) == ReplaceSpaces(a) + ReplaceSpaces(b)
  {
    if a != [] {
      var head := if a[0] == ' ' then " & " else [a[0]];
      assert (a + b)[0] == a[0];
      assert (a + b)[1..] == a[1..] + b;
      assert ReplaceSpaces(a + b) == head + ReplaceSpaces(a[1..] + b);
      ReplaceSpacesAppend(a[1..], b);
      assert ReplaceSpaces(a) == head + ReplaceSpaces(a[1..]);
    } else {
      assert a + b == b;
    }
  }

  /** Two words separated by one space are joined by `" & "`. */
  lemma TwoWords(w1: string, w2: string)
    requires ' ' !in w1 && ' ' !in w2
    ensures SearchQuery(w1 + " " + w2) == w1 + " & " + w2
  {
    var a := w1 + " ";
    assert ReplaceSpaces(" ") == " & " by {
      assert " "[1..] == "";
    }
    assert ReplaceSpaces(a) == w1 + " & " by {
      ReplaceSpacesAppend(w1, " ");
      ReplaceSpacesNoSpace(w1);
    }
    assert ReplaceSpaces(a + w2) == w1 + " & " + w2 by {
      ReplaceSpacesAppend(a, w2);
      ReplaceSpacesNoSpace(w2);
    }
    SearchQueryReplacesSpaces(a + w2);
  }

  /** The documented example: `"denis khaskin"` searches for `"denis & khaskin"`. */
  lemma DocumentedExample()
    ensures SearchQuery("denis khaskin") == "denis & khaskin"
  {
    assert "denis khaskin" == "denis" + " " + "khaskin";
    assert "denis & khaskin" == "denis" + " & " + "khaskin";
    TwoWords("denis", "khaskin");
  }

  /** A run of two spaces gives an empty term rather than being collapsed. */
  lemma SpaceRunGivesEmptyTerm()
    ensures SplitOnSpace("a  b") == ["a", "", "b"]
    ensures SearchQuery("a  b") == "a &  & b"
  {
    assert "a  b"[1..] == "  b";
    assert "  b"[1..] == " b";
    assert " b"[1..] == "b";
    assert "b"[1..] == "";
    assert SplitOnSpace("") == [""];
    assert ['b'] + "" == "b";
    assert SplitOnSpace("b") == [['b'] + ""] + [""][1..];
    assert SplitOnSpace("b") == ["b"];
    assert SplitOnSpace(" b") == ["", "b"];
    assert SplitOnSpace("  b") == ["", "", "b"];
    assert ['a'] + "" == "a";
    assert SplitOnSpace("a  b") == [['a'] + ""] + ["", "", "b"][1..];
    var parts := ["a", "", "b"];
    assert parts[1..] == ["", "b"] && parts[1..][1..] == ["b"];
    assert Join(["", "b"], " & ") == "" + " & " + "b";
    assert Join(parts, " & ") == "a" + " & " + ("" + " & " + "b");
    assert "a" + " & " + ("" + " & " + "b") == "a &  & b";
  }

  /** `searchParams.get("q") || ""`. */
  function QueryParam(param: Option<string>): string
  {
    if param.Some? then param.value else ""
  }

  /**
   * The `where` of the query: full-text search of the post's content, its author's display
   * name or its author's username. `fullText(text, query)` is the database's full-text match.
   */
  predicate Matches(fullText: (string, string) -> bool, displayNameOf: Id -> string, query: string, p: Post)
  {
    fullText(p.content, query) || fullText(displayNameOf(p.userId), query) || fullText(p.username, query)
  }

  function PostId(p: Post): Id
  {
    p.id
  }

  /** The matching posts, in the order of `posts` (newest first). */
  function Found(fullText: (string, string) -> bool, displayNameOf: Id -> string, query: string, posts: seq<Post>)
    : (r: seq<Post>)
    ensures forall i :: 0 <= i < |r| ==> r[i] in posts && Matches(fullText, displayNameOf, query, r[i])
    ensures forall i :: 0 <= i < |posts| && Matches(fullText, displayNameOf, query, posts[i]) ==> posts[i] in r
  {
    Seqs.Filter(posts, (p: Post) => Matches(fullText, displayNameOf, query, p))
  }

  /** One GET: 401 without a session, 500 when the query throws, else a page of matching posts. */
  function Get(session: Session, qParam: Option<string>, cursorParam: Option<string>, posts: seq<Post>,
               fullText: (string, string) -> bool, displayNameOf: Id -> string, fails: bool): (r: Response<Page<Post>>)
    ensures session.None? ==> r == Unauthorized()
    ensures session.Some? && fails ==> r == InternalError()
    ensures session.Some? && !fails ==> r.Json? && |r.body.items| <= PageSize
    ensures r.Json? ==> forall i :: 0 <= i < |r.body.items| ==>
      r.body.items[i] in posts && Matches(fullText, displayNameOf, ReplaceSpaces(QueryParam(qParam)), r.body.items[i])
    ensures r.Json? && CursorParam(cursorParam).None? ==>
      var rows := Found(fullText, displayNameOf, ReplaceSpaces(QueryParam(qParam)), posts);
      && r.body.items == rows[..Min(PageSize, |rows|)]
      && (r.body.cursor.Some? <==> |rows| > PageSize)
      && (|rows| > PageSize ==> r.body.cursor == Some(rows[PageSize].id))
    ensures r.Json? ==>
      r.body == CursorWindow(Found(fullText, displayNameOf, ReplaceSpaces(QueryParam(qParam)), posts),
                             PostId, CursorParam(cursorParam), PageSize)
  {
    var searchQuery := SearchQuery(QueryParam(qParam));
    SearchQueryReplacesSpaces(QueryParam(qParam));
    if session.None? then Unauthorized()
    else
      var rows := Found(fullText, displayNameOf, searchQuery, posts);
      ListGetWithinRows(session, cursorParam, rows, PostId, fails);
      ListGet(session, cursorParam, rows, PostId, fails)
  }
}
