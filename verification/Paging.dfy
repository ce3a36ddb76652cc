/** Keyset paging (microservices/artifact_service/artifact_repository.py:161-259) over a table that
    does not change while it is paged through. */
module Paging {
  import opened Common

  datatype Visibility = Private | Unlisted | Org | Public

  datatype Scope = All | Owned | SharedOnly

  datatype Artifact = Artifact(id: string, owner: string, title: string, visibility: Visibility, createdAt: int, deleted: bool)

  /** The arguments that stay the same from page to page; `titleMatches` is the LIKE condition. */
  datatype Query = Query(user: string, scope: Scope, titleMatches: string -> bool)

  predicate Matches(q: Query, a: Artifact) {
    && !a.deleted && a.owner == q.user
    && (q.scope.Owned? ==> a.visibility.Private? || a.visibility.Unlisted?)
    && (q.scope.SharedOnly? ==> a.visibility.Org? || a.visibility.Public?)
    && q.titleMatches(a.title)
  }

  predicate Before(a: Artifact, cursor: Option<int>) {
    cursor.Some? ==> a.createdAt < cursor.value
  }

  /** The rows of the WHERE clause in the order the table yields them. */
  function Select(rows: seq<Artifact>, q: Query, cursor: Option<int>): seq<Artifact> {
    if rows == [] then []
    else
      var a := rows[|rows| - 1];
      Select(rows[..|rows| - 1], q, cursor) + Picked(q, a, cursor)
  }

  function Picked(q: Query, a: Artifact, cursor: Option<int>): seq<Artifact> {
    if Matches(q, a) && Before(a, cursor) then [a] else []
  }

  datatype Page = Page(items: seq<Artifact>, next: Option<int>, total: nat)

  /** One call.  `rows` is the table sorted by ORDER BY created_at DESC; the query fetches one row
      more than the limit to see whether there is a next page. */
  function ListArtifacts(rows: seq<Artifact>, q: Query, cursor: Option<int>, limit: nat): Page
    requires limit >= 1
  {
    var matching := Select(rows, q, cursor);
    var fetched := if |matching| > limit + 1 then matching[..limit + 1] else matching;
    if |fetched| > limit then Page(fetched[..limit], Some(fetched[limit - 1].createdAt), |matching|)
    else Page(fetched, None, |matching|)
  }

  ghost predicate Sorted(rows: seq<Artifact>) {
    forall i, j :: 0 <= i < j < |rows| ==> rows[i].createdAt >= rows[j].createdAt
  }

  // ----- Selecting -----------------------------------------------------------------------

  lemma {:induction false} SelectIsSorted(rows: seq<Artifact>, q: Query, cursor: Option<int>)
    requires Sorted(rows)
    ensures Sorted(Select(rows, q, cursor))
    ensures forall a :: a in Select(rows, q, cursor) ==> a in rows && Before(a, cursor)
  {
    if rows != [] {
      var front, a := rows[..|rows| - 1], rows[|rows| - 1];
      SelectIsSorted(front, q, cursor);
      var s := Select(front, q, cursor);
      forall i | 0 <= i < |s| ensures s[i].createdAt >= a.createdAt {
        assert s[i] in s;
        var k :| 0 <= k < |front| && front[k] == s[i];
        assert rows[k] == s[i];
      }
    }
  }

  function Older(rows: seq<Artifact>, cursor: int): seq<Artifact> {
    if rows == [] then []
    else
      var a := rows[|rows| - 1];
      Older(rows[..|rows| - 1], cursor) + if a.createdAt < cursor then [a] else []
  }

  /** Moving the cursor back selects the older rows of what was selected before. */
  lemma {:induction false} SelectMovesBack(rows: seq<Artifact>, q: Query, earlier: Option<int>, cursor: int)
    requires earlier.Some? ==> cursor <= earlier.value
    ensures Select(rows, q, Some(cursor)) == Older(Select(rows, q, earlier), cursor)
  {
    if rows != [] {
      var front, a := rows[..|rows| - 1], rows[|rows| - 1];
      SelectMovesBack(front, q, earlier, cursor);
      OlderThenPicked(Select(front, q, earlier), q, a, earlier, cursor);
    }
  }

  lemma OlderThenPicked(selected: seq<Artifact>, q: Query, a: Artifact, earlier: Option<int>, cursor: int)
    requires earlier.Some? ==> cursor <= earlier.value
    ensures Older(selected + Picked(q, a, earlier), cursor) == Older(selected, cursor) + Picked(q, a, Some(cursor))
  {
    if Picked(q, a, earlier) == [] {
      assert selected + Picked(q, a, earlier) == selected;
      assert Older(selected, cursor) + [] == Older(selected, cursor);
    } else {
      assert (selected + [a])[..|selected + [a]| - 1] == selected;
    }
  }

  /** The rows older than `cursor` are those from position `k` on. */
  ghost predicate CutAt(rows: seq<Artifact>, cursor: int, k: nat) {
    k <= |rows| && forall i :: 0 <= i < |rows| ==> (rows[i].createdAt < cursor <==> k <= i)
  }

  /** In a sorted list the rows older than a time are a tail. */
  lemma {:induction false} SortedHasCut(rows: seq<Artifact>, cursor: int) returns (k: nat)
    requires Sorted(rows)
    ensures CutAt(rows, cursor, k)
  {
    if rows == [] || rows[|rows| - 1].createdAt >= cursor {
      k := |rows|;
    } else {
      k := SortedHasCut(rows[..|rows| - 1], cursor);
    }
  }

  lemma {:induction false} OlderIsATail(rows: seq<Artifact>, cursor: int, k: nat)
    requires CutAt(rows, cursor, k)
    ensures Older(rows, cursor) == rows[k..]
  {
    if rows != [] {
      var front, a := rows[..|rows| - 1], rows[|rows| - 1];
      if a.createdAt < cursor {
        OlderIsATail(front, cursor, k);
        assert rows[k..] == front[k..] + [a];
      } else {
        OlderIsATail(front, cursor, |front|);
      }
    }
  }

  /** What the next page starts from: the tail after this page's rows and after every further row
      of the time of its last one. */
  lemma NextSelection(rows: seq<Artifact>, q: Query, cursor: Option<int>, limit: nat) returns (k: nat)
    requires limit >= 1 && Sorted(rows) && ListArtifacts(rows, q, cursor, limit).next.Some?
    ensures var s := Select(rows, q, cursor);
            && limit <= k <= |s| && limit < |s|
            && Select(rows, q, ListArtifacts(rows, q, cursor, limit).next) == s[k..]
            && (k == limit <==> s[limit - 1].createdAt != s[limit].createdAt)
  {
    var s := Select(rows, q, cursor);
    SelectIsSorted(rows, q, cursor);
    var c := s[limit - 1].createdAt;
    assert s[limit - 1] in s;
    SelectMovesBack(rows, q, cursor, c);
    k := SortedHasCut(s, c);
    OlderIsATail(s, c, k);
  }

  // ----- Walking -------------------------------------------------------------------------

  /** Following cursors until there is none.  That this function terminates is part of the claim:
      every page leaves less to select. */
  ghost function Walk(rows: seq<Artifact>, q: Query, cursor: Option<int>, limit: nat): seq<Page>
    requires limit >= 1 && Sorted(rows)
    decreases |Select(rows, q, cursor)|
  {
    var page := ListArtifacts(rows, q, cursor, limit);
    if page.next.None? then [page]
    else
      assert |Select(rows, q, page.next)| < |Select(rows, q, cursor)| by {
        var _ := NextSelection(rows, q, cursor, limit);
      }
      [page] + Walk(rows, q, page.next, limit)
  }

  function Items(pages: seq<Page>): seq<Artifact> {
    if pages == [] then [] else pages[0].items + Items(pages[1..])
  }

  /** Cut into pages of `limit` rows, no two rows of the same time fall on two sides of a cut. */
  ghost predicate NoTieAcrossPages(selected: seq<Artifact>, limit: nat)
    requires limit >= 1
  {
    |selected| <= limit
    || (selected[limit - 1].createdAt != selected[limit].createdAt && NoTieAcrossPages(selected[limit..], limit))
  }

  lemma ItemsOfNext(page: Page, rest: seq<Page>)
    ensures Items([page] + rest) == page.items + Items(rest)
  {
    assert ([page] + rest)[1..] == rest;
  }

  lemma {:induction false} WalkYieldsNoMore(rows: seq<Artifact>, q: Query, cursor: Option<int>, limit: nat)
    requires limit >= 1 && Sorted(rows)
    ensures |Items(Walk(rows, q, cursor, limit))| <= |Select(rows, q, cursor)|
    decreases |Select(rows, q, cursor)|
  {
    var page := ListArtifacts(rows, q, cursor, limit);
    if page.next.Some? {
      var k := NextSelection(rows, q, cursor, limit);
      WalkYieldsNoMore(rows, q, page.next, limit);
      ItemsOfNext(page, Walk(rows, q, page.next, limit));
    } else {
      assert [page] == [page] + [];
      ItemsOfNext(page, []);
    }
  }

  lemma SplitAt(s: seq<Artifact>, n: nat, tail: seq<Artifact>)
    requires n <= |s|
    ensures s[..n] + tail == s <==> tail == s[n..]
  {
    assert (s[..n] + tail)[n..] == tail;
    assert s[..n] + s[n..] == s;
  }

  /** Following the cursors yields every matching artifact exactly once, newest first, exactly when
      no page boundary cuts through artifacts of one creation time; otherwise some are skipped. */
  lemma {:induction false} WalkIsCompleteIffNoTie(rows: seq<Artifact>, q: Query, cursor: Option<int>, limit: nat)
    requires limit >= 1 && Sorted(rows)
    ensures Items(Walk(rows, q, cursor, limit)) == Select(rows, q, cursor)
            <==> NoTieAcrossPages(Select(rows, q, cursor), limit)
    decreases |Select(rows, q, cursor)|
  {
    var s, page := Select(rows, q, cursor), ListArtifacts(rows, q, cursor, limit);
    if page.next.None? {
      assert [page] == [page] + [];
      ItemsOfNext(page, []);
    } else {
      var k := NextSelection(rows, q, cursor, limit);
      var rest := Items(Walk(rows, q, page.next, limit));
      ItemsOfNext(page, Walk(rows, q, page.next, limit));
      SplitAt(s, limit, rest);
      assert Items(Walk(rows, q, cursor, limit)) == s[..limit] + rest;
      if k == limit {
        WalkIsCompleteIffNoTie(rows, q, page.next, limit);
      } else {
        WalkYieldsNoMore(rows, q, page.next, limit);
        assert |rest| < |s[limit..]|;
      }
    }
  }

  ghost predicate DistinctTimes(rows: seq<Artifact>) {
    forall i, j :: 0 <= i < j < |rows| ==> rows[i].createdAt != rows[j].createdAt
  }

  lemma {:induction false} DistinctTimesNeverTie(selected: seq<Artifact>, limit: nat)
    requires limit >= 1 && DistinctTimes(selected)
    ensures NoTieAcrossPages(selected, limit)
    decreases |selected|
  {
    if |selected| > limit { DistinctTimesNeverTie(selected[limit..], limit); }
  }

  lemma {:induction false} SelectKeepsDistinctTimes(rows: seq<Artifact>, q: Query, cursor: Option<int>)
    requires DistinctTimes(rows)
    ensures DistinctTimes(Select(rows, q, cursor))
    ensures forall a :: a in Select(rows, q, cursor) <==> a in rows && Matches(q, a) && Before(a, cursor)
  {
    if rows != [] {
      var front, a := rows[..|rows| - 1], rows[|rows| - 1];
      SelectKeepsDistinctTimes(front, q, cursor);
      var s := Select(front, q, cursor);
      forall i | 0 <= i < |s| ensures s[i].createdAt != a.createdAt {
        assert s[i] in s;
        var k :| 0 <= k < |front| && front[k] == s[i];
        assert rows[k] == s[i];
      }
      assert forall x :: x in rows <==> x in front || x == a;
    }
  }

  /** What a caller asks for: artifacts of their own that are not deleted, of a visibility of the
      scope, with a title that matches. */
  predicate Asked(q: Query, a: Artifact) {
    && a.owner == q.user && !a.deleted && q.titleMatches(a.title)
    && match q.scope
       case All => true
       case Owned => a.visibility == Private || a.visibility == Unlisted
       case SharedOnly => a.visibility == Org || a.visibility == Public
  }

  /** A page has no more items than the limit, all after the cursor, and asked for; there is a next
      page exactly when more are left, and it starts after this page's last item. */
  lemma PageAnswers(rows: seq<Artifact>, q: Query, cursor: Option<int>, limit: nat)
    requires limit >= 1 && Sorted(rows)
    ensures var page := ListArtifacts(rows, q, cursor, limit);
            && |page.items| == (if page.total < limit then page.total else limit)
            && (forall a :: a in page.items ==> a in rows && Asked(q, a) && (cursor.Some? ==> a.createdAt < cursor.value))
            && (page.next.Some? <==> page.total > limit)
            && (page.next.Some? ==> page.next.value == page.items[limit - 1].createdAt)
            && Sorted(page.items)
  {
    SelectIsSorted(rows, q, cursor);
    SelectMatches(rows, q, cursor);
    var s := Select(rows, q, cursor);
    assert forall a :: a in ListArtifacts(rows, q, cursor, limit).items ==> a in s;
  }

  lemma {:induction false} SelectMatches(rows: seq<Artifact>, q: Query, cursor: Option<int>)
    ensures forall a :: a in Select(rows, q, cursor) ==> Matches(q, a)
  {
    if rows != [] { SelectMatches(rows[..|rows| - 1], q, cursor); }
  }

  /** With distinct creation times the walk from the start yields exactly the matching artifacts,
      each once, in descending order. */
  lemma WalkYieldsEachMatchOnce(rows: seq<Artifact>, q: Query, limit: nat)
    requires limit >= 1 && Sorted(rows) && DistinctTimes(rows)
    ensures var items := Items(Walk(rows, q, None, limit));
            && (forall a :: a in items <==> a in rows && Asked(q, a))
            && (forall i, j :: 0 <= i < j < |items| ==> items[i].createdAt > items[j].createdAt)
  {
    SelectKeepsDistinctTimes(rows, q, None);
    SelectIsSorted(rows, q, None);
    DistinctTimesNeverTie(Select(rows, q, None), limit);
    WalkIsCompleteIffNoTie(rows, q, None, limit);
  }

  /** Each page's total is the number of artifacts on it and on all pages after it. */
  lemma {:induction false} TotalsCountDown(rows: seq<Artifact>, q: Query, cursor: Option<int>, limit: nat, n: nat)
    requires limit >= 1 && Sorted(rows) && NoTieAcrossPages(Select(rows, q, cursor), limit)
    requires n < |Walk(rows, q, cursor, limit)|
    ensures Walk(rows, q, cursor, limit)[n].total == |Items(Walk(rows, q, cursor, limit)[n..])|
    decreases n
  {
    var page, walk := ListArtifacts(rows, q, cursor, limit), Walk(rows, q, cursor, limit);
    if n == 0 {
      WalkIsCompleteIffNoTie(rows, q, cursor, limit);
      assert walk[0..] == walk;
    } else {
      var k := NextSelection(rows, q, cursor, limit);
      TotalsCountDown(rows, q, page.next, limit, n - 1);
      assert walk[n..] == Walk(rows, q, page.next, limit)[n - 1..];
    }
  }
}
