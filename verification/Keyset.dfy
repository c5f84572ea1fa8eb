/**
 Keyset pagination: rows ordered by (sort value, id), the cursor condition that seeks past
 the last row seen, and pages cut with one look-ahead row.
 */
module Keyset {
  import opened Common

  /** A row as pagination sees it; `None` is a null or absent sort field. */
  datatype Row = Row(value: Option<real>, id: Id)

  /** BSON order: null before every value, ties broken by id. */
  predicate Less(a: Row, b: Row) {
    if a.value == b.value then a.id < b.id
    else a.value.None? || (b.value.Some? && a.value.value < b.value.value)
  }

  predicate Before(ascending: bool, a: Row, b: Row) {
    if ascending then Less(a, b) else Less(b, a)
  }

  predicate InOrder(ascending: bool, rows: seq<Row>) {
    forall i, j | 0 <= i < j < |rows| :: Before(ascending, rows[i], rows[j])
  }

  function RowSet(rows: seq<Row>): set<Row> {
    set r | r in rows
  }

  predicate IsFirst(ascending: bool, rows: set<Row>, first: Row) {
    first in rows && forall r | r in rows && r != first :: Before(ascending, first, r)
  }

  lemma {:induction false} FirstExists(ascending: bool, rows: set<Row>)
    requires rows != {}
    ensures exists first :: IsFirst(ascending, rows, first)
    decreases rows
  {
    var x :| x in rows;
    if rows == {x} {
      assert IsFirst(ascending, rows, x);
    } else {
      assert rows == (rows - {x}) + {x};
      FirstExists(ascending, rows - {x});
      var y :| IsFirst(ascending, rows - {x}, y);
      assert IsFirst(ascending, rows, if Before(ascending, x, y) then x else y);
    }
  }

  function First(ascending: bool, rows: set<Row>): (first: Row)
    requires rows != {}
    ensures IsFirst(ascending, rows, first)
  {
    FirstExists(ascending, rows);
    var first :| first in rows && IsFirst(ascending, rows, first);
    first
  }

  lemma PrependFirst(ascending: bool, rows: set<Row>, first: Row, rest: seq<Row>)
    requires IsFirst(ascending, rows, first)
    requires InOrder(ascending, rest) && RowSet(rest) == rows - {first}
    ensures InOrder(ascending, [first] + rest) && RowSet([first] + rest) == rows
  {
    forall i | 0 <= i < |rest|
      ensures Before(ascending, first, rest[i])
    {
      assert rest[i] in RowSet(rest);
    }
    assert forall r :: r in [first] + rest <==> r == first || r in RowSet(rest);
  }

  /** What `find(...).sort(...)` lists. */
  function Sorted(ascending: bool, rows: set<Row>): seq<Row> {
    if rows == {} then []
    else var first := First(ascending, rows); [first] + Sorted(ascending, rows - {first})
  }

  lemma {:induction false} SortedListsAll(ascending: bool, rows: set<Row>)
    ensures InOrder(ascending, Sorted(ascending, rows))
    ensures RowSet(Sorted(ascending, rows)) == rows
    ensures |Sorted(ascending, rows)| == |rows|
  {
    if rows == {} {
    } else {
      var first := First(ascending, rows);
      SortedListsAll(ascending, rows - {first});
      PrependFirst(ascending, rows, first, Sorted(ascending, rows - {first}));
    }
  }

  /** There is one listing: a sequence in order is the sorted sequence of its rows. */
  lemma {:induction false} SortedOfListing(ascending: bool, rows: seq<Row>)
    requires InOrder(ascending, rows)
    ensures Sorted(ascending, RowSet(rows)) == rows
  {
    if rows == [] {
    } else {
      var all := RowSet(rows);
      assert rows[0] in all;
      assert First(ascending, all) == rows[0];
      assert RowSet(rows[1..]) == all - {rows[0]};
      SortedOfListing(ascending, rows[1..]);
    }
  }

  lemma InOrderSlice(ascending: bool, rows: seq<Row>, n: nat)
    requires InOrder(ascending, rows) && n <= |rows|
    ensures InOrder(ascending, rows[..n]) && InOrder(ascending, rows[n..])
    ensures RowSet(rows[n..]) == RowSet(rows) - RowSet(rows[..n])
  {
    assert rows == rows[..n] + rows[n..];
    forall a, b | a in rows[..n] && b in rows[n..]
      ensures Before(ascending, a, b)
    {
      var i :| 0 <= i < n && rows[i] == a;
      var j :| n <= j < |rows| && rows[j] == b;
    }
  }

  /** The rows around a page break. */
  lemma AroundBreak(ascending: bool, rows: seq<Row>, n: nat)
    requires InOrder(ascending, rows) && 0 < n < |rows|
    ensures forall x | x in rows[..n] :: x == rows[n - 1] || Before(ascending, x, rows[n - 1])
    ensures forall x | x in rows[n..] :: x == rows[n] || Before(ascending, rows[n], x)
    ensures Before(ascending, rows[n - 1], rows[n])
  {
  }

  /** Which collection is listed: a stored decision field, the cluster size joined from the
      projection, or the user actions. */
  datatype Listing = DecisionField | ClusterSizeJoin | UserActions

  /** `_build_cursor_condition`, both versions. `$gt`/`$lt` against a value match only rows
      that have one; `$gt: None` matches every row that has one. */
  predicate Seeks(listing: Listing, ascending: bool, cursor: Row, r: Row) {
    if cursor.value.None? then
      || (r.value.None? && (if ascending then r.id > cursor.id else r.id < cursor.id))
      || (listing != UserActions && ascending && r.value.Some?)
    else
      || (r.value.Some? && (if ascending then r.value.value > cursor.value.value
                            else r.value.value < cursor.value.value))
      || (r.value == cursor.value && (if ascending then r.id > cursor.id else r.id < cursor.id))
  }

  function Remaining(listing: Listing, ascending: bool, rows: set<Row>, cursor: Option<Row>): (r: set<Row>)
    ensures r <= rows
  {
    set r | r in rows && (cursor.None? || Seeks(listing, ascending, cursor.value, r))
  }

  datatype Page = Page(results: seq<Row>, next: Option<Row>)

  /** One page: fetch `limit + 1`, keep `limit`. The cluster-size listing pairs the value of
      the last fetched row with the id of the last kept one. */
  function PageOf(listing: Listing, ascending: bool, rows: set<Row>, cursor: Option<Row>, limit: nat): Page
    requires limit >= 1
  {
    var fetched := Take(Sorted(ascending, Remaining(listing, ascending, rows, cursor)), limit + 1);
    if |fetched| > limit then
      var last := fetched[limit - 1];
      var value := if listing.ClusterSizeJoin? then fetched[|fetched| - 1].value else last.value;
      Page(fetched[..limit], Some(Row(value, last.id)))
    else Page(fetched, None)
  }

  /** A row past the new cursor was past the old one, and is past the last row kept. */
  lemma CursorAdvances(listing: Listing, ascending: bool, rows: set<Row>, cursor: Option<Row>, limit: nat, r: Row)
    requires limit >= 1 && PageOf(listing, ascending, rows, cursor, limit).next.Some?
    requires listing.ClusterSizeJoin? ==> forall x | x in rows :: x.value.Some?
    ensures var page := PageOf(listing, ascending, rows, cursor, limit);
      var kept := page.results[limit - 1];
      && kept in Remaining(listing, ascending, rows, cursor)
      && !Seeks(listing, ascending, page.next.value, kept)
      && (r in rows && Seeks(listing, ascending, page.next.value, r) ==>
            Before(ascending, kept, r) && r in Remaining(listing, ascending, rows, cursor))
  {
    var left := Sorted(ascending, Remaining(listing, ascending, rows, cursor));
    var page := PageOf(listing, ascending, rows, cursor, limit);
    SortedListsAll(ascending, Remaining(listing, ascending, rows, cursor));
    assert left[limit - 1] in RowSet(left) && left[limit] in RowSet(left);
    assert Before(ascending, left[limit - 1], left[limit]);
  }

  /** All pages, following `next_cursor` over a fixed collection. */
  function Traverse(listing: Listing, ascending: bool, rows: set<Row>, cursor: Option<Row>,
                    limit: nat): (pages: seq<seq<Row>>)
    requires limit >= 1
    requires listing.ClusterSizeJoin? ==> forall x | x in rows :: x.value.Some?
    ensures pages != []
    decreases |Remaining(listing, ascending, rows, cursor)|
  {
    var page := PageOf(listing, ascending, rows, cursor, limit);
    if page.next.None? then [page.results]
    else
      FewerRemain(listing, ascending, rows, cursor, limit);
      [page.results] + Traverse(listing, ascending, rows, page.next, limit)
  }

  lemma FewerRemain(listing: Listing, ascending: bool, rows: set<Row>, cursor: Option<Row>, limit: nat)
    requires limit >= 1 && PageOf(listing, ascending, rows, cursor, limit).next.Some?
    requires listing.ClusterSizeJoin? ==> forall x | x in rows :: x.value.Some?
    ensures var next := PageOf(listing, ascending, rows, cursor, limit).next;
      Remaining(listing, ascending, rows, next) < Remaining(listing, ascending, rows, cursor)
      && |Remaining(listing, ascending, rows, next)| < |Remaining(listing, ascending, rows, cursor)|
  {
    var page := PageOf(listing, ascending, rows, cursor, limit);
    var before, after := Remaining(listing, ascending, rows, cursor), Remaining(listing, ascending, rows, page.next);
    forall r | r in after
      ensures r in before
    {
      CursorAdvances(listing, ascending, rows, cursor, limit, r);
    }
    CursorAdvances(listing, ascending, rows, cursor, limit, page.results[limit - 1]);
    SubsetSize(after, before);
  }

  function Delivered(pages: seq<seq<Row>>): seq<Row> {
    if pages == [] then [] else pages[0] + Delivered(pages[1..])
  }

  /** The rows not yet delivered, in order. */
  function Left(listing: Listing, ascending: bool, rows: set<Row>, cursor: Option<Row>): seq<Row> {
    Sorted(ascending, Remaining(listing, ascending, rows, cursor))
  }

  /** The last page delivers whatever is left. */
  lemma LastPage(listing: Listing, ascending: bool, rows: set<Row>, cursor: Option<Row>, limit: nat)
    requires limit >= 1
    requires listing.ClusterSizeJoin? ==> forall x | x in rows :: x.value.Some?
    ensures var left := Left(listing, ascending, rows, cursor);
      && (|left| <= limit <==> PageOf(listing, ascending, rows, cursor, limit).next.None?)
      && (|left| <= limit ==> Traverse(listing, ascending, rows, cursor, limit) == [left]
                              && Delivered(Traverse(listing, ascending, rows, cursor, limit)) == left)
  {
    var left := Left(listing, ascending, rows, cursor);
    if |left| <= limit {
      assert Delivered([left]) == left + Delivered([]);
    }
  }

  /** Any other page delivers the first `limit` rows left and passes on a cursor. */
  lemma OnePage(listing: Listing, ascending: bool, rows: set<Row>, cursor: Option<Row>, limit: nat)
    requires limit >= 1
    requires listing.ClusterSizeJoin? ==> forall x | x in rows :: x.value.Some?
    requires |Left(listing, ascending, rows, cursor)| > limit
    ensures var left, next := Left(listing, ascending, rows, cursor),
        PageOf(listing, ascending, rows, cursor, limit).next;
      && next == Some(Row(if listing.ClusterSizeJoin? then left[limit].value else left[limit - 1].value,
                          left[limit - 1].id))
      && |Remaining(listing, ascending, rows, next)| < |Remaining(listing, ascending, rows, cursor)|
      && |Traverse(listing, ascending, rows, cursor, limit)| == 1 + |Traverse(listing, ascending, rows, next, limit)|
      && Delivered(Traverse(listing, ascending, rows, cursor, limit))
         == left[..limit] + Delivered(Traverse(listing, ascending, rows, next, limit))
  {
    hide Sorted, Remaining;
    LastPage(listing, ascending, rows, cursor, limit);
    FewerRemain(listing, ascending, rows, cursor, limit);
    var page := PageOf(listing, ascending, rows, cursor, limit);
    var rest := Traverse(listing, ascending, rows, page.next, limit);
    assert ([page.results] + rest)[1..] == rest;
  }
}
