/**
 What following `next_cursor` to the end delivers, listing by listing.
 */
module Traversals {
  import opened Common
  import opened Keyset

  /** The cursor condition seeks in the listing's own order: ascending decision fields, null
      or not, and any listing by a field that is never null. */
  predicate SeeksInOrder(listing: Listing, ascending: bool, rows: set<Row>) {
    && !listing.ClusterSizeJoin?
    && ((listing.DecisionField? && ascending) || forall r | r in rows :: r.value.Some?)
  }

  /** In order, the next page starts right after the last row delivered. */
  lemma NextPageIsTheRest(listing: Listing, ascending: bool, rows: set<Row>, cursor: Option<Row>, limit: nat)
    requires limit >= 1 && SeeksInOrder(listing, ascending, rows)
    requires PageOf(listing, ascending, rows, cursor, limit).next.Some?
    ensures var left := Sorted(ascending, Remaining(listing, ascending, rows, cursor));
      && |left| > limit
      && Sorted(ascending, Remaining(listing, ascending, rows, PageOf(listing, ascending, rows, cursor, limit).next))
          == left[limit..]
  {
    var remaining := Remaining(listing, ascending, rows, cursor);
    var left := Sorted(ascending, remaining);
    var page := PageOf(listing, ascending, rows, cursor, limit);
    SortedListsAll(ascending, remaining);
    InOrderSlice(ascending, left, limit);
    assert left[limit - 1] in RowSet(left);
    forall r
      ensures r in Remaining(listing, ascending, rows, page.next) <==> r in RowSet(left[limit..])
    {
      CursorAdvances(listing, ascending, rows, cursor, limit, r);
      if r in RowSet(left[..limit]) {
        assert r == left[limit - 1] || Before(ascending, r, left[limit - 1]);
      }
      if r in RowSet(left[limit..]) {
        assert Before(ascending, left[limit - 1], r);
      }
    }
    assert Remaining(listing, ascending, rows, page.next) == RowSet(left[limit..]);
    SortedOfListing(ascending, left[limit..]);
  }

  /** As many pages as it takes, and one for nothing. */
  predicate PageCount(pages: nat, rows: nat, limit: nat) {
    pages >= 1 && rows <= pages * limit && (pages > 1 ==> (pages - 1) * limit < rows)
  }

  /** Fewer pages cannot hold the rows. */
  lemma FewerPagesAreTooFew(fewer: nat, pages: nat, rows: nat, limit: nat)
    requires PageCount(pages, rows, limit) && 1 <= fewer < pages
    ensures fewer * limit < rows
  {
    var more := pages - 1 - fewer;
    assert (fewer + more) * limit == fewer * limit + more * limit;
  }

  lemma OneMorePage(pages: nat, rows: nat, limit: nat)
    requires limit >= 1 && rows >= 1 && PageCount(pages, rows, limit)
    ensures PageCount(pages + 1, rows + limit, limit)
  {
    assert (pages + 1) * limit == pages * limit + limit;
    if pages > 1 {
      assert pages * limit == (pages - 1) * limit + limit;
    }
  }

  /** Following the cursor from any point delivers exactly the rows left, once each, in
      order, in the least number of pages. */
  lemma {:induction false} TraversalIsComplete(listing: Listing, ascending: bool, rows: set<Row>, cursor: Option<Row>,
                                               limit: nat)
    requires limit >= 1 && SeeksInOrder(listing, ascending, rows)
    ensures Delivered(Traverse(listing, ascending, rows, cursor, limit)) == Left(listing, ascending, rows, cursor)
    ensures PageCount(|Traverse(listing, ascending, rows, cursor, limit)|, |Left(listing, ascending, rows, cursor)|,
                      limit)
    decreases |Remaining(listing, ascending, rows, cursor)|
  {
    hide Keyset.Traverse, Keyset.Delivered, Keyset.Sorted, Keyset.PageOf;
    var left := Left(listing, ascending, rows, cursor);
    var next := PageOf(listing, ascending, rows, cursor, limit).next;
    LastPage(listing, ascending, rows, cursor, limit);
    if |left| > limit {
      OnePage(listing, ascending, rows, cursor, limit);
      NextPageIsTheRest(listing, ascending, rows, cursor, limit);
      TraversalIsComplete(listing, ascending, rows, next, limit);
      OneMorePage(|Traverse(listing, ascending, rows, next, limit)|, |left| - limit, limit);
    }
  }

  /** From the first page: exactly the rows, once each, in sort order. */
  lemma FullTraversal(listing: Listing, ascending: bool, rows: set<Row>, limit: nat)
    requires limit >= 1 && SeeksInOrder(listing, ascending, rows)
    ensures var pages := Traverse(listing, ascending, rows, None, limit);
      && InOrder(ascending, Delivered(pages))
      && (forall r :: r in Delivered(pages) <==> r in rows)
      && |Delivered(pages)| == |rows|
      && PageCount(|pages|, |rows|, limit)
  {
    TraversalIsComplete(listing, ascending, rows, None, limit);
    SortedListsAll(ascending, rows);
    assert Remaining(listing, ascending, rows, None) == rows;
    var all := Delivered(Traverse(listing, ascending, rows, None, limit));
    assert forall r :: r in all <==> r in RowSet(Sorted(ascending, rows));
  }

  // ---- Descending over a nullable field ----

  function NonNull(rows: set<Row>): set<Row> {
    set r | r in rows && r.value.Some?
  }

  /** Once a cursor carries a value, null rows are out of reach. */
  lemma {:induction false} ValueCursorSkipsNulls(rows: set<Row>, cursor: Row, limit: nat)
    requires limit >= 1 && cursor.value.Some?
    ensures Traverse(DecisionField, false, rows, Some(cursor), limit)
         == Traverse(DecisionField, false, NonNull(rows), Some(cursor), limit)
    decreases |Remaining(DecisionField, false, rows, Some(cursor))|
  {
    assert Remaining(DecisionField, false, rows, Some(cursor))
        == Remaining(DecisionField, false, NonNull(rows), Some(cursor));
    var page := PageOf(DecisionField, false, rows, Some(cursor), limit);
    if page.next.Some? {
      CursorAdvances(DecisionField, false, rows, Some(cursor), limit, page.next.value);
      FewerRemain(DecisionField, false, rows, Some(cursor), limit);
      ValueCursorSkipsNulls(rows, page.next.value, limit);
    }
  }

  /** Once it is null, only the null tier is left. */
  lemma {:induction false} NullCursorFinishes(rows: set<Row>, cursor: Row, limit: nat)
    requires limit >= 1 && cursor.value.None?
    ensures Delivered(Traverse(DecisionField, false, rows, Some(cursor), limit))
        == Left(DecisionField, false, rows, Some(cursor))
    decreases |Remaining(DecisionField, false, rows, Some(cursor))|
  {
    hide Keyset.Traverse, Keyset.Delivered, Keyset.Sorted, Keyset.PageOf;
    var left := Left(DecisionField, false, rows, Some(cursor));
    LastPage(DecisionField, false, rows, Some(cursor), limit);
    if |left| > limit {
      OnePage(DecisionField, false, rows, Some(cursor), limit);
      SortedListsAll(false, Remaining(DecisionField, false, rows, Some(cursor)));
      assert left[limit - 1] in RowSet(left) && left[0] in RowSet(left);
      NullTierRest(rows, left, limit);
      NullCursorFinishes(rows, left[limit - 1], limit);
    }
  }

  /** Past a null row of the descending listing, the cursor condition keeps everything. */
  lemma NullTierRest(rows: set<Row>, left: seq<Row>, limit: nat)
    requires 1 <= limit < |left| && InOrder(false, left)
    requires left[limit - 1].value.None?
    requires RowSet(left) <= rows
    requires forall r | r in rows && Before(false, left[0], r) :: r in RowSet(left)
    ensures Sorted(false, Remaining(DecisionField, false, rows, Some(left[limit - 1]))) == left[limit..]
  {
    var cursor := left[limit - 1];
    InOrderSlice(false, left, limit);
    forall r
      ensures r in Remaining(DecisionField, false, rows, Some(cursor)) <==> r in RowSet(left[limit..])
    {
      if r in RowSet(left[limit..]) {
        assert Before(false, cursor, r) && r in RowSet(left);
      }
      if r in Remaining(DecisionField, false, rows, Some(cursor)) {
        assert Before(false, cursor, r);
        assert left[0] == cursor || Before(false, left[0], cursor);
        assert r in RowSet(left);
        var i :| 0 <= i < |left| && left[i] == r;
        assert i >= limit;
        assert left[limit..][i - limit] == r;
      }
    }
    assert Remaining(DecisionField, false, rows, Some(cursor)) == RowSet(left[limit..]);
    SortedOfListing(false, left[limit..]);
  }

  /** A first page ending in the null tier: the rest is delivered. */
  lemma BreakInNullTier(rows: set<Row>, left: seq<Row>, limit: nat)
    requires left == Sorted(false, rows) && 1 <= limit < |left| && left[limit - 1].value.None?
    ensures left[..limit] + Delivered(Traverse(DecisionField, false, rows, Some(left[limit - 1]), limit)) == left
  {
    hide Keyset.Traverse, Keyset.Delivered, Keyset.Sorted, Keyset.PageOf;
    assert Left(DecisionField, false, rows, Some(left[limit - 1])) == left[limit..] by {
      SortedListsAll(false, rows);
      NullTierRest(rows, left, limit);
    }
    NullCursorFinishes(rows, left[limit - 1], limit);
  }

  /** A first page ending in a value: the null rows are never reached. */
  lemma BreakAtValue(rows: set<Row>, valued: seq<Row>, limit: nat)
    requires valued == Sorted(false, NonNull(rows)) && 1 <= limit <= |valued|
    requires valued[limit - 1].value.Some?
    ensures valued[..limit] + Delivered(Traverse(DecisionField, false, rows, Some(valued[limit - 1]), limit)) == valued
  {
    hide Keyset.Traverse, Keyset.Delivered, Keyset.Sorted, Keyset.PageOf;
    var cursor := valued[limit - 1];
    ValuesAfter(rows, valued, limit);
    ValueCursorSkipsNulls(rows, cursor, limit);
    TraversalIsComplete(DecisionField, false, NonNull(rows), Some(cursor), limit);
    assert Delivered(Traverse(DecisionField, false, rows, Some(cursor), limit)) == valued[limit..];
  }

  /** Descending, a traversal is complete exactly when there is no null row or the rows with
      a value do not fill the first page; otherwise it delivers just the rows with a value. */
  lemma DescendingNullableExactly(rows: set<Row>, limit: nat)
    requires limit >= 1
    ensures Delivered(Traverse(DecisionField, false, rows, None, limit))
         == Sorted(false, if NonNull(rows) == rows || |NonNull(rows)| < limit then rows else NonNull(rows))
    ensures Delivered(Traverse(DecisionField, false, rows, None, limit)) == Sorted(false, rows)
            <==> NonNull(rows) == rows || |NonNull(rows)| < limit
  {
    hide Keyset.Traverse, Keyset.Delivered, Keyset.Sorted, Keyset.PageOf;
    var left, valued := Sorted(false, rows), Sorted(false, NonNull(rows));
    assert Remaining(DecisionField, false, rows, None) == rows;
    LastPage(DecisionField, false, rows, None, limit);
    ValuesComeFirst(rows, valued, left);
    FewerValues(rows);
    if NonNull(rows) == rows {
      TraversalIsComplete(DecisionField, false, rows, None, limit);
    } else if |left| > limit {
      OnePage(DecisionField, false, rows, None, limit);
      if |valued| < limit {
        assert left[limit - 1] == left[|valued|..][limit - 1 - |valued|];
        BreakInNullTier(rows, left, limit);
      } else {
        assert left[limit - 1] == valued[limit - 1] && left[..limit] == valued[..limit];
        BreakAtValue(rows, valued, limit);
      }
    }
  }

  /** Descending, null sorts last. */
  lemma ValuesComeFirst(rows: set<Row>, valued: seq<Row>, left: seq<Row>)
    requires valued == Sorted(false, NonNull(rows)) && left == Sorted(false, rows)
    ensures |valued| <= |left| && left[..|valued|] == valued
    ensures forall r | r in left[|valued|..] :: r.value.None?
    ensures forall r | r in valued :: r.value.Some?
  {
    hide Keyset.Sorted, Keyset.InOrder;
    var nulls := Sorted(false, rows - NonNull(rows));
    SortedListsAll(false, NonNull(rows));
    SortedListsAll(false, rows - NonNull(rows));
    forall x, y | x in valued && y in nulls
      ensures Before(false, x, y)
    {
      assert x in RowSet(valued) && y in RowSet(nulls);
    }
    JoinListings(false, valued, nulls);
    assert NonNull(rows) + (rows - NonNull(rows)) == rows;
    SortedOfListing(false, valued + nulls);
    forall r | r in left[|valued|..] || r in valued
      ensures r in valued <==> r.value.Some?
    {
      assert r in RowSet(valued) || r in RowSet(nulls);
    }
  }

  lemma FewerValues(rows: set<Row>)
    ensures |Sorted(false, rows)| == |rows| && |Sorted(false, NonNull(rows))| == |NonNull(rows)|
    ensures NonNull(rows) != rows ==> |NonNull(rows)| < |rows|
  {
    SortedListsAll(false, rows);
    SortedListsAll(false, NonNull(rows));
    SubsetSize(NonNull(rows), rows);
  }

  lemma JoinListings(ascending: bool, a: seq<Row>, b: seq<Row>)
    requires InOrder(ascending, a) && InOrder(ascending, b)
    requires forall x, y | x in a && y in b :: Before(ascending, x, y)
    ensures InOrder(ascending, a + b)
    ensures RowSet(a + b) == RowSet(a) + RowSet(b)
  {
  }

  lemma ValuesAfter(rows: set<Row>, valued: seq<Row>, limit: nat)
    requires valued == Sorted(false, NonNull(rows)) && 1 <= limit <= |valued|
    ensures Sorted(false, Remaining(DecisionField, false, NonNull(rows), Some(valued[limit - 1]))) == valued[limit..]
  {
    var cursor := valued[limit - 1];
    SortedListsAll(false, NonNull(rows));
    InOrderSlice(false, valued, limit);
    assert cursor in RowSet(valued);
    forall r
      ensures r in Remaining(DecisionField, false, NonNull(rows), Some(cursor)) <==> r in RowSet(valued[limit..])
    {
      if r in RowSet(valued[..limit]) {
        assert r == cursor || Before(false, r, cursor);
      }
      if r in RowSet(valued[limit..]) {
        assert Before(false, cursor, r) && r in RowSet(valued);
      }
    }
    assert Remaining(DecisionField, false, NonNull(rows), Some(cursor)) == RowSet(valued[limit..]);
    SortedOfListing(false, valued[limit..]);
  }
}
