/**
 Bulk refresh: per-source delta pages on top of a snapshot marker that moves when the last
 page of a cycle has been produced.
 */
module Refresh {
  import opened Common
  import opened Decisions
  import opened Keyset
  import opened Traversals
  import opened LivePaging

  /** The delta of a source: rows dated after the marker, or, without one, every row updated
      at least once. */
  function DeltaRows(docs: Docs, source: Id, since: Option<Time>): set<Row> {
    set id | id in docs && docs[id].mention.sourceId == source
             && docs[id].updatedAt.Some? && (since.Some? ==> docs[id].updatedAt.value > since.value)
           :: Row(docs[id].updatedAt, id)
  }

  type Markers = map<Id, Time>

  function MarkerOf(markers: Markers, source: Id): Option<Time> {
    if source in markers then Some(markers[source]) else None
  }

  class RequestRegistry {
    var sources: set<Id>
    var markers: Markers

    constructor ()
      ensures sources == {} && markers == map[]
    {
      sources := {};
      markers := map[];
    }

    /** `advance_snapshot`: refuses to stand still or go back. */
    method AdvanceSnapshot(source: Id, at: Time) returns (advanced: bool)
      modifies this
      ensures sources == old(sources)
      ensures advanced <==> (source in old(markers) ==> old(markers)[source] < at)
      ensures markers == if advanced then old(markers)[source := at] else old(markers)
    {
      if source in markers && at <= markers[source] {
        return false;
      }
      markers := markers[source := at];
      advanced := true;
    }
  }

  lemma PageIsCut(rows: set<Row>, cursor: Option<Row>, limit: nat)
    requires limit >= 1
    ensures var page := PageOf(DecisionField, true, rows, cursor, limit);
      && |page.results| <= limit && (page.next.Some? ==> |page.results| == limit)
      && forall r | r in page.results :: r in rows
  {
    var left := Sorted(true, Remaining(DecisionField, true, rows, cursor));
    SortedListsAll(true, Remaining(DecisionField, true, rows, cursor));
    assert forall r | r in left :: r in RowSet(left);
  }

  datatype RefreshResult =
    | Refreshed(page: Page)
    | SourceNotFound
    | InvalidPageSize
    | SnapshotRegression

  class BulkRefreshCoordinator {
    const registry: RequestRegistry
    const repository: DecisionRepository
    const defaultSize: nat
    const maxSize: nat

    constructor (registry: RequestRegistry, repository: DecisionRepository, defaultSize: nat, maxSize: nat)
      requires 1 <= defaultSize <= maxSize
      ensures this.registry == registry && this.repository == repository
      ensures this.defaultSize == defaultSize && this.maxSize == maxSize
    {
      this.registry := registry;
      this.repository := repository;
      this.defaultSize := defaultSize;
      this.maxSize := maxSize;
    }

    function EffectiveSize(pageSize: Option<nat>): (n: nat)
      ensures n <= maxSize
      ensures var wanted := if pageSize.Some? then pageSize.value else defaultSize;
        n == wanted || (n == maxSize && maxSize < wanted)
    {
      var wanted := if pageSize.Some? then pageSize.value else defaultSize;
      if wanted < maxSize then wanted else maxSize
    }

    /** `refresh_bulk`; `now` is the clock read after the query. The marker of the source moves,
        to the clock, exactly when a last page is handed out; no other marker ever moves. */
    method RefreshBulk(source: Id, cursor: Option<Row>, pageSize: Option<nat>, now: Time) returns (r: RefreshResult)
      modifies registry
      ensures registry.sources == old(registry.sources)
      ensures registry.markers == if r.Refreshed? && r.page.next.None? then old(registry.markers)[source := now]
                                  else old(registry.markers)
      ensures r.Refreshed? ==> |r.page.results| <= EffectiveSize(pageSize)
      ensures r.Refreshed? ==> forall row | row in r.page.results ::
        && row.id in repository.docs && repository.docs[row.id].mention.sourceId == source
        && row.value.Some? && row.value == repository.docs[row.id].updatedAt
        && (source in old(registry.markers) ==> old(registry.markers)[source] < row.value.value)
      ensures r.Refreshed? && r.page.next.Some? ==> |r.page.results| == EffectiveSize(pageSize)
      ensures r.SnapshotRegression? ==> source in old(registry.markers) && now <= old(registry.markers)[source]
      ensures r == RefreshStep(source in registry.sources, old(registry.markers), repository.docs, source, cursor,
                               EffectiveSize(pageSize), now).0
      ensures registry.markers == RefreshStep(source in registry.sources, old(registry.markers), repository.docs,
                                              source, cursor, EffectiveSize(pageSize), now).1
    {
      if source !in registry.sources {
        return SourceNotFound;
      }
      var limit := EffectiveSize(pageSize);
      if limit == 0 {
        return InvalidPageSize;
      }
      var since := MarkerOf(registry.markers, source);
      var page := PageOf(DecisionField, true, DeltaRows(repository.docs, source, since), cursor, limit);
      PageIsCut(DeltaRows(repository.docs, source, since), cursor, limit);
      if page.next.None? {
        var advanced := registry.AdvanceSnapshot(source, now);
        if !advanced {
          return SnapshotRegression;
        }
      }
      r := Refreshed(page);
    }
  }

  /** One refresh call: its answer and the markers it leaves. */
  function RefreshStep(known: bool, markers: Markers, docs: Docs, source: Id, cursor: Option<Row>, limit: nat,
                       now: Time): (RefreshResult, Markers) {
    if !known then (SourceNotFound, markers)
    else if limit == 0 then (InvalidPageSize, markers)
    else
      var page := PageOf(DecisionField, true, DeltaRows(docs, source, MarkerOf(markers, source)), cursor, limit);
      if page.next.Some? then (Refreshed(page), markers)
      else if source in markers && now <= markers[source] then (SnapshotRegression, markers)
      else (Refreshed(page), markers[source := now])
  }

  /** A cycle: follow the cursor, call `i` at `clock(i)`, until a page has no successor. */
  function Cycle(markers: Markers, docs: Docs, source: Id, cursor: Option<Row>, limit: nat, clock: nat -> Time,
                 i: nat): (seq<RefreshResult>, Markers)
    requires limit >= 1
    decreases |Remaining(DecisionField, true, DeltaRows(docs, source, MarkerOf(markers, source)), cursor)|
  {
    var (r, markers') := RefreshStep(true, markers, docs, source, cursor, limit, clock(i));
    if r.Refreshed? && r.page.next.Some? then
      FewerRemain(DecisionField, true, DeltaRows(docs, source, MarkerOf(markers, source)), cursor, limit);
      var (rest, last) := Cycle(markers', docs, source, r.page.next, limit, clock, i + 1);
      ([r] + rest, last)
    else ([r], markers')
  }

  function PagesOf(results: seq<RefreshResult>): (pages: seq<seq<Row>>)
    ensures |pages| == |results|
  {
    if results == [] then []
    else [if results[0].Refreshed? then results[0].page.results else []] + PagesOf(results[1..])
  }

  ghost predicate Rising(clock: nat -> Time, marker: Option<Time>) {
    && (forall i: nat, j: nat | i < j :: clock(i) < clock(j))
    && (marker.Some? ==> forall i: nat :: marker.value < clock(i))
  }

  /** A cycle's pages are the pages of the delta, and its last call moves the marker. */
  lemma {:induction false} CycleIsTraversal(markers: Markers, docs: Docs, source: Id, cursor: Option<Row>, limit: nat,
                                            clock: nat -> Time, i: nat)
    requires limit >= 1 && Rising(clock, MarkerOf(markers, source))
    ensures var (results, markers') := Cycle(markers, docs, source, cursor, limit, clock, i);
      && (forall r | r in results :: r.Refreshed?)
      && PagesOf(results) == Traverse(DecisionField, true, DeltaRows(docs, source, MarkerOf(markers, source)), cursor,
                                      limit)
      && |results| >= 1
      && markers' == markers[source := clock(i + |results| - 1)]
    decreases |Remaining(DecisionField, true, DeltaRows(docs, source, MarkerOf(markers, source)), cursor)|
  {
    hide Keyset.Sorted, Keyset.PageOf, Keyset.Remaining, DeltaRows;
    var (r, markers') := RefreshStep(true, markers, docs, source, cursor, limit, clock(i));
    if r.page.next.Some? {
      FewerRemain(DecisionField, true, DeltaRows(docs, source, MarkerOf(markers, source)), cursor, limit);
      CycleIsTraversal(markers, docs, source, r.page.next, limit, clock, i + 1);
      var (rest, _) := Cycle(markers, docs, source, r.page.next, limit, clock, i + 1);
      assert ([r] + rest)[1..] == rest;
    }
  }

  /** Over a fixed store with a rising clock, one cycle delivers exactly the source's rows
      updated after the old marker (without a marker, those updated at least once), each
      once, in the least number of pages; the marker moves only with the last page, strictly
      forward, to that call's clock. */
  lemma CycleDeliversTheDelta(markers: Markers, docs: Docs, source: Id, limit: nat, clock: nat -> Time)
    requires limit >= 1 && Rising(clock, MarkerOf(markers, source))
    ensures var (results, markers') := Cycle(markers, docs, source, None, limit, clock, 0);
      var delta, all := DeltaRows(docs, source, MarkerOf(markers, source)), Delivered(PagesOf(results));
      && (forall r | r in results :: r.Refreshed?)
      && InOrder(true, all) && (forall r :: r in all <==> r in delta) && |all| == |delta|
      && (forall r | r in all :: r.id in docs && r.value == docs[r.id].updatedAt)
      && (forall id: Id ::
            (exists r :: r in all && r.id == id) <==>
              && id in docs && docs[id].mention.sourceId == source && docs[id].updatedAt.Some?
              && (source in markers ==> markers[source] < docs[id].updatedAt.value))
      && PageCount(|results|, |delta|, limit)
      && markers' == markers[source := clock(|results| - 1)]
      && (source in markers ==> markers[source] < markers'[source])
  {
    hide Cycle, Keyset.Delivered, Keyset.Traverse, DeltaRows, Keyset.InOrder, Traversals.PageCount;
    CycleIsTraversal(markers, docs, source, None, limit, clock, 0);
    FullTraversal(DecisionField, true, DeltaRows(docs, source, MarkerOf(markers, source)), limit);
    forall id: Id, r: Row
      ensures r in DeltaRows(docs, source, MarkerOf(markers, source)) && r.id == id <==>
        && id in docs && docs[id].mention.sourceId == source && docs[id].updatedAt.Some?
        && (source in markers ==> markers[source] < docs[id].updatedAt.value)
        && r == Row(docs[id].updatedAt, id)
    {
      DeltaRowIsDocument(docs, source, markers, id, r);
    }
  }

  /** A row of the delta, in terms of its document. */
  lemma DeltaRowIsDocument(docs: Docs, source: Id, markers: Markers, id: Id, r: Row)
    ensures r in DeltaRows(docs, source, MarkerOf(markers, source)) && r.id == id <==>
      && id in docs && docs[id].mention.sourceId == source && docs[id].updatedAt.Some?
      && (source in markers ==> markers[source] < docs[id].updatedAt.value)
      && r == Row(docs[id].updatedAt, id)
  {
  }

  /** The next cycle sees, of a possibly rewritten store, exactly the rows dated after the
      clock of the last page: a change stored after that page was read is caught up with
      exactly when it is dated later, and lost for good otherwise. */
  lemma NextCycleCatchesExactly(markers: Markers, docs: Docs, later: Docs, source: Id, limit: nat,
                                clock: nat -> Time, clock': nat -> Time, r: Row)
    requires limit >= 1 && Rising(clock, MarkerOf(markers, source))
    requires var (results, _) := Cycle(markers, docs, source, None, limit, clock, 0);
      Rising(clock', Some(clock(|results| - 1)))
    requires r in DeltaRows(later, source, None)
    ensures var (results, markers') := Cycle(markers, docs, source, None, limit, clock, 0);
      var (next, _) := Cycle(markers', later, source, None, limit, clock', 0);
      && (r in Delivered(PagesOf(next)) <==> clock(|results| - 1) < r.value.value)
      && ((forall x | x in DeltaRows(later, source, None) :: x.value.value <= clock(|results| - 1)) ==>
          Delivered(PagesOf(next)) == [])
  {
    hide Keyset.Sorted, Keyset.PageOf, Cycle, Keyset.Delivered;
    var (results, markers') := Cycle(markers, docs, source, None, limit, clock, 0);
    CycleDeliversTheDelta(markers, docs, source, limit, clock);
    CycleDeliversTheDelta(markers', later, source, limit, clock');
    assert DeltaRows(later, source, MarkerOf(markers', source))
        == set x | x in DeltaRows(later, source, None) && clock(|results| - 1) < x.value.value;
  }

  /** Delta pages of one cycle while other writers run: every row of the source that stays as
      it is from the first page to the last is delivered exactly once. */
  lemma RefreshUnderWrites(stores: seq<Docs>, source: Id, since: Option<Time>, limit: nat, pages: seq<Page>, id: Id)
    requires limit >= 1 && stores != []
    requires PagedLive(seq(|stores|, i requires 0 <= i < |stores| => DeltaRows(stores[i], source, since)), None, limit,
                       pages)
    requires pages[|pages| - 1].next.None?
    requires id in stores[0] && Row(stores[0][id].updatedAt, id) in DeltaRows(stores[0], source, since)
    requires forall i | 0 <= i < |stores| :: id in stores[i] && stores[i][id] == stores[0][id]
    ensures InOrder(true, AllResults(pages)) && Once(AllResults(pages), Row(stores[0][id].updatedAt, id))
  {
    var dbs := seq(|stores|, i requires 0 <= i < |stores| => DeltaRows(stores[i], source, since));
    DeltaPagingUnderWrites(dbs, limit, pages);
    assert Untouched(dbs, Row(stores[0][id].updatedAt, id));
  }
}
