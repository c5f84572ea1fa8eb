/**
 Cluster-size statistics read from the projection, against the decisions they describe.
 */
module Statistics {
  import opened Common
  import opened Decisions
  import opened ClusterSizes
  import opened ClusterIndex
  import opened ClusterScripts

  ghost function Below(sizes: Sizes, v: int): set<Id> {
    set k | k in sizes && sizes[k] < v
  }

  ghost function AtMost(sizes: Sizes, v: int): set<Id> {
    set k | k in sizes && sizes[k] <= v
  }

  /** `v` is the size at 0-based rank `i` when the sizes are listed in order. */
  ghost predicate IsRank(sizes: Sizes, i: int, v: int) {
    |Below(sizes, v)| <= i < |AtMost(sizes, v)|
  }

  ghost predicate ListsRows(rows: seq<Id>, keys: set<Id>) {
    && (forall k :: k in rows <==> k in keys)
    && (forall i, j | 0 <= i < j < |rows| :: rows[i] != rows[j])
  }

  ghost predicate Ordered(sizes: Sizes, rows: seq<Id>) {
    forall i, j | 0 <= i < j < |rows| :: SizeOf(sizes, rows[i]) <= SizeOf(sizes, rows[j])
  }

  function Sum(sizes: Sizes, rows: seq<Id>): int {
    if rows == [] then 0 else Sum(sizes, rows[..|rows| - 1]) + SizeOf(sizes, rows[|rows| - 1])
  }

  lemma {:induction false} ListedSize(rows: seq<Id>, keys: set<Id>)
    requires ListsRows(rows, keys)
    ensures |rows| == |keys|
  {
    if rows == [] {
      assert keys == {};
    } else {
      var last := rows[|rows| - 1];
      assert rows == rows[..|rows| - 1] + [last];
      ListedSize(rows[..|rows| - 1], keys - {last});
    }
  }

  /** In an ordered listing the row at index `i` carries the size of rank `i`. */
  lemma OrderedListingRanks(sizes: Sizes, rows: seq<Id>, i: nat)
    requires ListsRows(rows, sizes.Keys) && Ordered(sizes, rows) && i < |rows|
    ensures IsRank(sizes, i, SizeOf(sizes, rows[i]))
  {
    var v := SizeOf(sizes, rows[i]);
    FirstRows(rows, sizes.Keys, i);
    FirstRows(rows, sizes.Keys, i + 1);
    assert Below(sizes, v) <= set j | 0 <= j < i :: rows[j];
    SubsetSize(Below(sizes, v), set j | 0 <= j < i :: rows[j]);
    assert (set j | 0 <= j < i + 1 :: rows[j]) <= AtMost(sizes, v);
    SubsetSize(set j | 0 <= j < i + 1 :: rows[j], AtMost(sizes, v));
  }

  lemma {:induction false} FirstRows(rows: seq<Id>, keys: set<Id>, n: nat)
    requires ListsRows(rows, keys) && n <= |rows|
    ensures |set j | 0 <= j < n :: rows[j]| == n
  {
    if n > 0 {
      FirstRows(rows, keys, n - 1);
      assert (set j | 0 <= j < n :: rows[j]) == (set j | 0 <= j < n - 1 :: rows[j]) + {rows[n - 1]};
    }
  }

  /** A size list has one value per rank, and the ranks are the indices of the list. */
  lemma RankIsUnique(sizes: Sizes, i: int, u: int, v: int)
    requires IsRank(sizes, i, u) && IsRank(sizes, i, v)
    ensures u == v
  {
    if u < v {
      assert AtMost(sizes, u) <= Below(sizes, v);
      SubsetSize(AtMost(sizes, u), Below(sizes, v));
    } else if v < u {
      assert AtMost(sizes, v) <= Below(sizes, u);
      SubsetSize(AtMost(sizes, v), Below(sizes, u));
    }
  }

  /** The rows of the projection, sorted by size. */
  method SortedRows(sizes: Sizes) returns (rows: seq<Id>)
    ensures ListsRows(rows, sizes.Keys) && |rows| == |sizes| && Ordered(sizes, rows)
  {
    rows := [];
    var todo := sizes.Keys;
    while todo != {}
      invariant todo <= sizes.Keys
      invariant ListsRows(rows, sizes.Keys - todo)
      invariant Ordered(sizes, rows)
      decreases todo
    {
      var k :| k in todo;
      var at := 0;
      while at < |rows| && SizeOf(sizes, rows[at]) <= sizes[k]
        invariant 0 <= at <= |rows|
        invariant forall i | 0 <= i < at :: SizeOf(sizes, rows[i]) <= sizes[k]
      {
        at := at + 1;
      }
      InsertKeepsOrder(sizes, rows, k, at);
      rows := Inserted(rows, at, k);
      assert sizes.Keys - (todo - {k}) == (sizes.Keys - todo) + {k};
      todo := todo - {k};
    }
    assert sizes.Keys - todo == sizes.Keys;
    ListedSize(rows, sizes.Keys);
  }

  function Inserted(rows: seq<Id>, at: nat, k: Id): (r: seq<Id>)
    requires at <= |rows|
    ensures |r| == |rows| + 1
    ensures forall i | 0 <= i < |r| :: r[i] == if i < at then rows[i] else if i == at then k else rows[i - 1]
    ensures forall x :: x in r <==> x == k || x in rows
  {
    assert rows == rows[..at] + rows[at..];
    rows[..at] + [k] + rows[at..]
  }

  lemma InsertKeepsOrder(sizes: Sizes, rows: seq<Id>, k: Id, at: nat)
    requires Ordered(sizes, rows) && at <= |rows|
    requires forall i | 0 <= i < at :: SizeOf(sizes, rows[i]) <= SizeOf(sizes, k)
    requires at < |rows| ==> SizeOf(sizes, k) < SizeOf(sizes, rows[at])
    ensures Ordered(sizes, Inserted(rows, at, k))
  {
    assert forall i | at <= i < |rows| :: SizeOf(sizes, k) < SizeOf(sizes, rows[i]);
  }

  datatype Distribution = Distribution(average: real, median: real, p95: int, max: int, singletons: nat)

  method Total(sizes: Sizes, rows: seq<Id>) returns (total: int)
    ensures total == Sum(sizes, rows)
  {
    total := 0;
    for i := 0 to |rows|
      invariant total == Sum(sizes, rows[..i])
    {
      total := total + SizeOf(sizes, rows[i]);
      assert rows[..i + 1][..i] == rows[..i];
    }
    assert rows[..|rows|] == rows;
  }

  ghost predicate MiddleRanks(sizes: Sizes, lo: int, hi: int) {
    IsRank(sizes, (|sizes| - 1) / 2, lo) && IsRank(sizes, |sizes| / 2, hi)
  }

  /** The nearest rank at 95 %; the clamp to the last index is never needed. */
  function P95Index(n: nat): (i: nat)
    requires n > 0
    ensures i < n && 20 * i <= 19 * n < 20 * (i + 1)
  {
    var i := (0.95 * n as real).Floor;
    if i < n - 1 then i else n - 1
  }

  ghost predicate Describes(d: Distribution, sizes: Sizes, rows: seq<Id>) {
    var n := |sizes|;
    && n > 0
    && d.average == Sum(sizes, rows) as real / n as real
    && (exists lo, hi :: MiddleRanks(sizes, lo, hi) && d.median == (lo + hi) as real / 2.0)
    && IsRank(sizes, 19 * n / 20, d.p95)
    && IsRank(sizes, n - 1, d.max)
    && d.singletons == |set k | k in sizes && sizes[k] == 1|
  }

  lemma LastRankIsMaximum(sizes: Sizes, max: int)
    requires sizes != map[] && IsRank(sizes, |sizes| - 1, max)
    ensures (forall k | k in sizes :: sizes[k] <= max) && (exists k :: k in sizes && sizes[k] == max)
  {
    SubsetSize(AtMost(sizes, max), sizes.Keys);
    assert AtMost(sizes, max) == sizes.Keys;
    assert |Below(sizes, max)| < |sizes.Keys|;
    assert sizes.Keys == Below(sizes, max) + (sizes.Keys - Below(sizes, max));
    var k :| k in sizes.Keys - Below(sizes, max);
    assert k in AtMost(sizes, max);
  }

  method Median(sizes: Sizes, rows: seq<Id>) returns (median: real)
    requires sizes != map[] && ListsRows(rows, sizes.Keys) && |rows| == |sizes| && Ordered(sizes, rows)
    ensures exists lo, hi :: MiddleRanks(sizes, lo, hi) && median == (lo + hi) as real / 2.0
  {
    var n := |rows|;
    OrderedListingRanks(sizes, rows, n / 2);
    var hi := SizeOf(sizes, rows[n / 2]);
    if n % 2 == 0 {
      OrderedListingRanks(sizes, rows, n / 2 - 1);
      var lo := SizeOf(sizes, rows[n / 2 - 1]);
      median := (lo + hi) as real / 2.0;
      assert MiddleRanks(sizes, lo, hi);
    } else {
      median := hi as real;
      assert MiddleRanks(sizes, hi, hi);
    }
  }

  /** `_get_cluster_distribution`: zeros for an empty projection. */
  method GetClusterDistribution(sizes: Sizes) returns (d: Distribution, rows: seq<Id>)
    ensures ListsRows(rows, sizes.Keys)
    ensures if sizes == map[] then d == Distribution(0.0, 0.0, 0, 0, 0) else Describes(d, sizes, rows)
  {
    var singletons := |set k | k in sizes && sizes[k] == 1|;
    rows := SortedRows(sizes);
    if sizes == map[] {
      return Distribution(0.0, 0.0, 0, 0, 0), rows;
    }
    hide IsRank, MiddleRanks, Sum, Ordered;
    var n := |rows|;
    var total := Total(sizes, rows);
    var median := Median(sizes, rows);
    OrderedListingRanks(sizes, rows, P95Index(n));
    OrderedListingRanks(sizes, rows, n - 1);
    d := Distribution(total as real / n as real, median, SizeOf(sizes, rows[P95Index(n)]), SizeOf(sizes, rows[n - 1]),
                      singletons);
  }

  /** The decisions placed in the listed clusters. */
  ghost function PlacedInAny(docs: Docs, rows: seq<Id>): set<Id> {
    set id | id in docs && ClusterOf(docs[id]) in rows
  }

  lemma OneMoreCluster(docs: Docs, rows: seq<Id>, k: Id)
    requires k !in rows
    ensures |PlacedInAny(docs, rows + [k])| == |PlacedInAny(docs, rows)| + |PlacedIn(docs, k)|
  {
    assert PlacedInAny(docs, rows + [k]) == PlacedInAny(docs, rows) + PlacedIn(docs, k);
    assert PlacedInAny(docs, rows) !! PlacedIn(docs, k);
  }

  lemma {:induction false} CountsSumUp(docs: Docs, rows: seq<Id>)
    requires forall i, j | 0 <= i < j < |rows| :: rows[i] != rows[j]
    requires forall k | k in rows :: k in ClusterCounts(docs)
    ensures Sum(ClusterCounts(docs), rows) == |PlacedInAny(docs, rows)|
  {
    if rows == [] {
      assert PlacedInAny(docs, rows) == {};
    } else {
      var first, last := rows[..|rows| - 1], rows[|rows| - 1];
      assert SizeOf(ClusterCounts(docs), last) == |PlacedIn(docs, last)|;
      hide PlacedInAny, ClusterIndex.PlacedIn, ClusterIndex.ClusterCounts;
      CountsSumUp(docs, first);
      OneMoreCluster(docs, first, last);
      assert rows == first + [last];
    }
  }

  ghost function DistinctClusters(docs: Docs): set<Id> {
    set id | id in docs :: ClusterOf(docs[id])
  }

  lemma AgreedTotals(docs: Docs, rows: seq<Id>)
    requires ListsRows(rows, ClusterCounts(docs).Keys)
    ensures Sum(ClusterCounts(docs), rows) == |docs|
    ensures |ClusterCounts(docs)| == |DistinctClusters(docs)|
  {
    CountsSumUp(docs, rows);
    assert ClusterCounts(docs).Keys == DistinctClusters(docs);
    assert PlacedInAny(docs, rows) == docs.Keys;
  }

  /** `average_cluster_size`: group the decisions by cluster, average the counts. */
  method AverageClusterSize(docs: Docs) returns (average: real)
    ensures docs == map[] ==> average == 0.0
    ensures docs != map[] ==>
      DistinctClusters(docs) != {} && average == |docs| as real / |DistinctClusters(docs)| as real
  {
    var groups := GroupByCluster(docs);
    var rows := SortedRows(groups);
    AgreedTotals(docs, rows);
    if docs == map[] {
      return 0.0;
    }
    var id :| id in docs;
    assert ClusterOf(docs[id]) in DistinctClusters(docs);
    var total := Total(groups, rows);
    average := total as real / |rows| as real;
  }

  /** Whenever the projection agrees with the decisions: its rows are the distinct clusters,
      its sizes add up to the number of decisions, and the average read from the projection
      is the one computed from the decisions. */
  lemma AveragesAgree(docs: Docs, d: Distribution, rows: seq<Id>)
    requires ListsRows(rows, ClusterCounts(docs).Keys)
    requires docs != map[] ==> Describes(d, ClusterCounts(docs), rows)
    ensures |ClusterCounts(docs)| == |DistinctClusters(docs)|
    ensures Sum(ClusterCounts(docs), rows) == |docs|
    ensures docs == map[] <==> ClusterCounts(docs) == map[]
    ensures docs != map[] ==> d.average == |docs| as real / |DistinctClusters(docs)| as real
  {
    AgreedTotals(docs, rows);
    if id :| id in docs {
      assert ClusterOf(docs[id]) in ClusterCounts(docs);
    }
  }
}
