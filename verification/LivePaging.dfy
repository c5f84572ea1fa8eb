/**
 Keyset pages cut while the collection changes, and pages by a joined value whose cursor
 comes from two different rows.
 */
module LivePaging {
  import opened Common
  import opened Keyset
  import opened Traversals

  // ---- Pages over a changing collection ----

  /** Page `i` is cut from the collection as it is then, with the cursor of page `i - 1`. */
  ghost predicate PagedLive(dbs: seq<set<Row>>, cursor: Option<Row>, limit: nat, pages: seq<Page>)
    requires limit >= 1
    decreases |dbs|
  {
    && |dbs| == |pages| >= 1
    && pages[0] == PageOf(DecisionField, true, dbs[0], cursor, limit)
    && (|dbs| > 1 ==> pages[0].next.Some? && PagedLive(dbs[1..], pages[0].next, limit, pages[1..]))
  }

  ghost function AllResults(pages: seq<Page>): seq<Row> {
    if pages == [] then [] else pages[0].results + AllResults(pages[1..])
  }

  /** One ascending page: its rows in order and past the cursor, any later row beyond them. */
  lemma AscendingPage(rows: set<Row>, cursor: Option<Row>, limit: nat, r: Row)
    requires limit >= 1
    ensures var page := PageOf(DecisionField, true, rows, cursor, limit);
      && InOrder(true, page.results)
      && (forall x | x in page.results :: x in rows && (cursor.None? || Before(true, cursor.value, x)))
      && (page.next.Some? ==>
            && (cursor.Some? ==> Before(true, cursor.value, page.next.value))
            && (forall x | x in page.results :: x == page.next.value || Before(true, x, page.next.value)))
      && (r in Remaining(DecisionField, true, rows, cursor) ==>
            r in page.results || (page.next.Some? && Before(true, page.next.value, r)))
  {
    hide Keyset.Sorted;
    var remaining := Remaining(DecisionField, true, rows, cursor);
    var left := Sorted(true, remaining);
    SortedListsAll(true, remaining);
    var page := PageOf(DecisionField, true, rows, cursor, limit);
    forall x | x in left
      ensures x in rows && (cursor.None? || Before(true, cursor.value, x))
    {
      assert x in RowSet(left);
    }
    if |left| > limit {
      InOrderSlice(true, left, limit);
      assert left == left[..limit] + left[limit..];
    }
    if r in remaining {
      assert r in RowSet(left);
    }
  }

  lemma PrependPage(a: seq<Row>, last: Row, rest: seq<Row>)
    requires InOrder(true, a) && InOrder(true, rest)
    requires forall x | x in a :: x == last || Before(true, x, last)
    requires forall y | y in rest :: Before(true, last, y)
    ensures InOrder(true, a + rest)
  {
    forall x, y | x in a && y in rest
      ensures Before(true, x, y)
    {
      assert x == last || Before(true, x, last);
    }
    JoinListings(true, a, rest);
  }

  /** Whatever is written between the pages, the keys delivered strictly increase. */
  lemma {:induction false} LiveKeysIncrease(dbs: seq<set<Row>>, cursor: Option<Row>, limit: nat, pages: seq<Page>)
    requires limit >= 1 && PagedLive(dbs, cursor, limit, pages)
    ensures InOrder(true, AllResults(pages))
    ensures cursor.Some? ==> forall x | x in AllResults(pages) :: Before(true, cursor.value, x)
    decreases |dbs|
  {
    AscendingPage(dbs[0], cursor, limit, Row(None, 0));
    if |dbs| > 1 {
      LiveKeysIncrease(dbs[1..], pages[0].next, limit, pages[1..]);
      PrependPage(pages[0].results, pages[0].next.value, AllResults(pages[1..]));
    } else {
      assert pages[1..] == [];
    }
  }

  /** A row that stays as it is from the first page to the last is delivered. */
  lemma {:induction false} LiveRowIsReached(dbs: seq<set<Row>>, cursor: Option<Row>, limit: nat, pages: seq<Page>,
                                            r: Row)
    requires limit >= 1 && PagedLive(dbs, cursor, limit, pages)
    requires pages[|pages| - 1].next.None?
    requires forall i | 0 <= i < |dbs| :: r in dbs[i]
    requires cursor.Some? ==> Before(true, cursor.value, r)
    ensures r in AllResults(pages)
    decreases |dbs|
  {
    AscendingPage(dbs[0], cursor, limit, r);
    assert r in Remaining(DecisionField, true, dbs[0], cursor);
    if r !in pages[0].results {
      LiveRowIsReached(dbs[1..], pages[0].next, limit, pages[1..], r);
    }
  }

  ghost predicate Untouched(dbs: seq<set<Row>>, r: Row) {
    forall i | 0 <= i < |dbs| :: r in dbs[i]
  }

  ghost predicate Once(all: seq<Row>, r: Row) {
    r in all && forall i, j | 0 <= i < j < |all| :: all[i] != r || all[j] != r
  }

  /** Paging while other writers run: delivered keys strictly increase across pages, and every
      row that is in the listing at the first page and not rewritten until the last one is
      delivered exactly once. */
  lemma DeltaPagingUnderWrites(dbs: seq<set<Row>>, limit: nat, pages: seq<Page>)
    requires limit >= 1 && PagedLive(dbs, None, limit, pages)
    requires pages[|pages| - 1].next.None?
    ensures InOrder(true, AllResults(pages))
    ensures forall r | r in AllResults(pages) || Untouched(dbs, r) :: Once(AllResults(pages), r)
  {
    var all := AllResults(pages);
    LiveKeysIncrease(dbs, None, limit, pages);
    forall r | r in all || Untouched(dbs, r)
      ensures Once(all, r)
    {
      if r !in all {
        LiveRowIsReached(dbs, None, limit, pages, r);
      }
    }
  }

  // ---- Pages by cluster size ----

  /** From one row to the next the ids move in the direction of the listing. */
  predicate IdsAdvance(ascending: bool, a: Row, b: Row) {
    if ascending then a.id < b.id else b.id < a.id
  }

  /** At every page break of the full listing the ids advance. */
  predicate SafeBreaks(ascending: bool, listing: seq<Row>, limit: nat)
    requires limit >= 1
    decreases |listing|
  {
    |listing| <= limit
    || (IdsAdvance(ascending, listing[limit - 1], listing[limit]) && SafeBreaks(ascending, listing[limit..], limit))
  }

  predicate Valued(rows: set<Row>) {
    forall r | r in rows :: r.value.Some?
  }

  /** Everything past the next cursor is left, and lies beyond the page. */
  lemma NextRowsAreLater(ascending: bool, rows: set<Row>, cursor: Option<Row>, limit: nat, y: Row)
    requires limit >= 1 && Valued(rows)
    requires |Left(ClusterSizeJoin, ascending, rows, cursor)| > limit
    requires y in Remaining(ClusterSizeJoin, ascending, rows,
                            PageOf(ClusterSizeJoin, ascending, rows, cursor, limit).next)
    ensures y in Remaining(ClusterSizeJoin, ascending, rows, cursor)
    ensures forall x | x in Left(ClusterSizeJoin, ascending, rows, cursor)[..limit] :: Before(ascending, x, y)
  {
    var left := Left(ClusterSizeJoin, ascending, rows, cursor);
    LastPage(ClusterSizeJoin, ascending, rows, cursor, limit);
    CursorAdvances(ClusterSizeJoin, ascending, rows, cursor, limit, y);
    assert forall x | x in left[..limit] :: x == left[limit - 1] || Before(ascending, x, left[limit - 1]) by {
      SortedListsAll(ascending, Remaining(ClusterSizeJoin, ascending, rows, cursor));
      AroundBreak(ascending, left, limit);
    }
  }

  /** Whatever the breaks: rows come in order, across pages too, so none comes twice, and all
      of them are rows of the listing. */
  lemma {:induction false} SizePagesStayInOrder(ascending: bool, rows: set<Row>, cursor: Option<Row>, limit: nat)
    requires limit >= 1 && Valued(rows)
    ensures var all := Delivered(Traverse(ClusterSizeJoin, ascending, rows, cursor, limit));
      && InOrder(ascending, all)
      && RowSet(all) <= Remaining(ClusterSizeJoin, ascending, rows, cursor)
    decreases |Remaining(ClusterSizeJoin, ascending, rows, cursor)|
  {
    var remaining := Remaining(ClusterSizeJoin, ascending, rows, cursor);
    var left := Sorted(ascending, remaining);
    SortedListsAll(ascending, remaining);
    LastPage(ClusterSizeJoin, ascending, rows, cursor, limit);
    if |left| > limit {
      OnePage(ClusterSizeJoin, ascending, rows, cursor, limit);
      var next := PageOf(ClusterSizeJoin, ascending, rows, cursor, limit).next;
      SizePagesStayInOrder(ascending, rows, next, limit);
      var rest := Delivered(Traverse(ClusterSizeJoin, ascending, rows, next, limit));
      forall y | y in rest
        ensures y in remaining && forall x | x in left[..limit] :: Before(ascending, x, y)
      {
        assert y in RowSet(rest);
        NextRowsAreLater(ascending, rows, cursor, limit, y);
      }
      InOrderSlice(ascending, left, limit);
      JoinListings(ascending, left[..limit], rest);
      assert RowSet(left[..limit]) <= RowSet(left);
    }
  }

  lemma SeeksPastSafeBreak(ascending: bool, kept: Row, ahead: Row, r: Row)
    requires kept.value.Some? && ahead.value.Some? && r.value.Some?
    requires IdsAdvance(ascending, kept, ahead)
    requires r == ahead || Before(ascending, ahead, r)
    ensures Seeks(ClusterSizeJoin, ascending, Row(ahead.value, kept.id), r)
  {
  }

  /** Where the ids advance, the two-row cursor still seeks to the row after the break. */
  lemma SafeBreakLosesNothing(ascending: bool, rows: set<Row>, cursor: Option<Row>, limit: nat)
    requires limit >= 1 && Valued(rows)
    requires |Left(ClusterSizeJoin, ascending, rows, cursor)| > limit
    requires var left := Left(ClusterSizeJoin, ascending, rows, cursor);
        IdsAdvance(ascending, left[limit - 1], left[limit])
    ensures var left, next := Left(ClusterSizeJoin, ascending, rows, cursor),
        PageOf(ClusterSizeJoin, ascending, rows, cursor, limit).next;
      Left(ClusterSizeJoin, ascending, rows, next) == left[limit..]
  {
    var remaining := Remaining(ClusterSizeJoin, ascending, rows, cursor);
    var left := Sorted(ascending, remaining);
    SortedListsAll(ascending, remaining);
    InOrderSlice(ascending, left, limit);
    AroundBreak(ascending, left, limit);
    OnePage(ClusterSizeJoin, ascending, rows, cursor, limit);
    var next := PageOf(ClusterSizeJoin, ascending, rows, cursor, limit).next;
    forall r
      ensures r in Remaining(ClusterSizeJoin, ascending, rows, next) <==> r in RowSet(left[limit..])
    {
      if r in Remaining(ClusterSizeJoin, ascending, rows, next) {
        NextRowsAreLater(ascending, rows, cursor, limit, r);
        assert r in RowSet(left);
      }
      if r in RowSet(left[limit..]) {
        assert left[limit - 1] in RowSet(left) && left[limit] in RowSet(left) && r in RowSet(left);
        SeeksPastSafeBreak(ascending, left[limit - 1], left[limit], r);
      }
    }
    assert Remaining(ClusterSizeJoin, ascending, rows, next) == RowSet(left[limit..]);
    SortedOfListing(ascending, left[limit..]);
  }

  /** A cluster-size listing is delivered completely exactly when at every page break the
      look-ahead row's id lies past the id of the last row kept. */
  lemma {:induction false} SizePagesCompleteExactly(ascending: bool, rows: set<Row>, cursor: Option<Row>, limit: nat)
    requires limit >= 1 && Valued(rows)
    ensures var left := Left(ClusterSizeJoin, ascending, rows, cursor);
      && (Delivered(Traverse(ClusterSizeJoin, ascending, rows, cursor, limit)) == left
          <==> SafeBreaks(ascending, left, limit))
    decreases |Remaining(ClusterSizeJoin, ascending, rows, cursor)|
  {
    hide Keyset.Traverse, Keyset.Delivered, Keyset.Sorted, Keyset.PageOf;
    var left := Left(ClusterSizeJoin, ascending, rows, cursor);
    LastPage(ClusterSizeJoin, ascending, rows, cursor, limit);
    if |left| > limit {
      OnePage(ClusterSizeJoin, ascending, rows, cursor, limit);
      var next := PageOf(ClusterSizeJoin, ascending, rows, cursor, limit).next;
      var rest := Delivered(Traverse(ClusterSizeJoin, ascending, rows, next, limit));
      assert left == left[..limit] + left[limit..];
      assert left[..limit] + rest == left <==> rest == left[limit..] by {
        assert (left[..limit] + rest)[limit..] == rest;
      }
      if IdsAdvance(ascending, left[limit - 1], left[limit]) {
        SafeBreakLosesNothing(ascending, rows, cursor, limit);
        SizePagesCompleteExactly(ascending, rows, next, limit);
      } else {
        SizePagesStayInOrder(ascending, rows, next, limit);
        assert !Seeks(ClusterSizeJoin, ascending, next.value, left[limit]);
        assert left[limit] !in RowSet(rest);
        assert left[limit] in left[limit..];
      }
    }
  }

  predicate BreaksBetweenEqualSizes(listing: seq<Row>, limit: nat)
    requires limit >= 1
    decreases |listing|
  {
    |listing| <= limit
    || (listing[limit - 1].value == listing[limit].value && BreaksBetweenEqualSizes(listing[limit..], limit))
  }

  lemma {:induction false} EqualSizesAreSafe(ascending: bool, listing: seq<Row>, limit: nat)
    requires limit >= 1 && InOrder(ascending, listing) && BreaksBetweenEqualSizes(listing, limit)
    ensures SafeBreaks(ascending, listing, limit)
    decreases |listing|
  {
    if |listing| > limit {
      assert Before(ascending, listing[limit - 1], listing[limit]);
      InOrderSlice(ascending, listing, limit);
      EqualSizesAreSafe(ascending, listing[limit..], limit);
    }
  }

  /** In particular nothing is skipped when every break falls between rows of equal size. */
  lemma EqualSizeBreaksSkipNothing(ascending: bool, rows: set<Row>, limit: nat)
    requires limit >= 1 && Valued(rows)
    requires BreaksBetweenEqualSizes(Sorted(ascending, rows), limit)
    ensures Delivered(Traverse(ClusterSizeJoin, ascending, rows, None, limit)) == Sorted(ascending, rows)
  {
    SortedListsAll(ascending, rows);
    EqualSizesAreSafe(ascending, Sorted(ascending, rows), limit);
    assert Remaining(ClusterSizeJoin, ascending, rows, None) == rows;
    SizePagesCompleteExactly(ascending, rows, None, limit);
  }
}
