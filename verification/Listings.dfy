/**
 The paginated queries over decisions and user actions: which documents they match, and the
 page they cut.
 */
module Listings {
  import opened Common
  import opened Decisions
  import opened ClusterSizes
  import opened Curation
  import opened Keyset
  import opened Traversals

  datatype SortField = Confidence | CreatedAt | UpdatedAt | ClusterSize

  /** An ordering is a field and a direction. */
  datatype Ordering = Ordering(field: SortField, ascending: bool)

  datatype DecisionFilters = DecisionFilters(
    sourceId: Option<Id>,
    updatedSince: Option<Time>,
    entityType: Option<Id>,
    confidenceMin: Option<real>,
    confidenceMax: Option<real>,
    similarityMin: Option<real>,
    similarityMax: Option<real>,
    ordering: Option<Ordering>,
    mentions: Option<set<Triad>>,
    everReviewed: Option<bool>,
    reviewedSincePlacement: Option<bool>)

  predicate Within(v: real, low: Option<real>, high: Option<real>) {
    (low.Some? ==> low.value <= v) && (high.Some? ==> v <= high.value)
  }

  predicate Matches(d: Decision, f: DecisionFilters) {
    && (f.sourceId.Some? ==> d.mention.sourceId == f.sourceId.value)
    && (f.updatedSince.Some? ==> d.updatedAt.Some? && d.updatedAt.value > f.updatedSince.value)
    && (f.entityType.Some? ==> d.mention.entityType == f.entityType.value)
    && Within(d.outcome.current.confidence, f.confidenceMin, f.confidenceMax)
    && Within(d.outcome.current.similarity, f.similarityMin, f.similarityMax)
    && (f.mentions.Some? ==> d.mention in f.mentions.value)
    && (f.everReviewed.Some? ==> f.everReviewed.value == (ReviewCount(d) > 0))
    && (f.reviewedSincePlacement.Some? ==> f.reviewedSincePlacement.value == Reviewed(d))
  }

  function OrderingOf(filters: Option<DecisionFilters>): Ordering {
    match filters
    case None => Ordering(UpdatedAt, true)
    case Some(f) => if f.ordering.Some? then f.ordering.value else Ordering(CreatedAt, false)
  }

  function SortValue(d: Decision, field: SortField, sizes: Sizes): Option<real> {
    match field
    case Confidence => Some(d.outcome.current.confidence)
    case CreatedAt => Some(d.createdAt)
    case UpdatedAt => d.updatedAt
    case ClusterSize => Some(SizeOf(sizes, ClusterOf(d)) as real)
  }

  function MatchingIds(docs: Docs, filters: Option<DecisionFilters>): set<Id> {
    set id | id in docs && (filters.None? || Matches(docs[id], filters.value))
  }

  function RowsOf(docs: Docs, ids: set<Id>, field: SortField, sizes: Sizes): set<Row>
    requires ids <= docs.Keys
  {
    set id | id in ids :: Row(SortValue(docs[id], field, sizes), id)
  }

  function MatchingRows(docs: Docs, sizes: Sizes, filters: Option<DecisionFilters>): set<Row> {
    RowsOf(docs, MatchingIds(docs, filters), OrderingOf(filters).field, sizes)
  }

  function ListingOf(filters: Option<DecisionFilters>): Listing {
    if OrderingOf(filters).field == ClusterSize then ClusterSizeJoin else DecisionField
  }

  lemma OneMoreRow(docs: Docs, ids: set<Id>, id: Id, field: SortField, sizes: Sizes)
    requires ids <= docs.Keys && id in docs && id !in ids
    ensures |RowsOf(docs, ids + {id}, field, sizes)| == |RowsOf(docs, ids, field, sizes)| + 1
  {
    hide SortValue;
    var row, rows := Row(SortValue(docs[id], field, sizes), id), RowsOf(docs, ids, field, sizes);
    assert row !in rows;
    assert RowsOf(docs, ids + {id}, field, sizes) == rows + {row};
  }

  lemma {:induction false} OneRowPerDocument(docs: Docs, ids: set<Id>, field: SortField, sizes: Sizes)
    requires ids <= docs.Keys
    ensures |RowsOf(docs, ids, field, sizes)| == |ids|
    decreases ids
  {
    if ids == {} {
      assert RowsOf(docs, ids, field, sizes) == {};
    } else {
      hide RowsOf;
      var id :| id in ids;
      OneRowPerDocument(docs, ids - {id}, field, sizes);
      OneMoreRow(docs, ids - {id}, id, field, sizes);
      assert ids == (ids - {id}) + {id};
    }
  }

  /** Collect the first `limit` rows of a sorted database cursor. */
  method Collect(sorted: seq<Row>, limit: nat) returns (results: seq<Row>)
    ensures results == Take(sorted, limit)
  {
    results := [];
    while |results| < limit && |results| < |sorted|
      invariant |results| <= limit && |results| <= |sorted|
      invariant results == sorted[..|results|]
    {
      results := results + [sorted[|results|]];
    }
  }

  // ---- What the filters admit and what rows are sorted by ----

  const NO_FILTERS := DecisionFilters(None, None, None, None, None, None, None, None, None, None, None)

  /** A filter by one field lists the documents whose stored field satisfies it. */
  lemma OneFieldFilters(docs: Docs, id: Id, t: Time, v: real, mentions: set<Triad>)
    ensures MatchingIds(docs, Some(NO_FILTERS)) == docs.Keys == MatchingIds(docs, None)
    ensures MatchingIds(docs, Some(NO_FILTERS.(sourceId := Some(id))))
         == set i | i in docs && docs[i].mention.sourceId == id
    ensures MatchingIds(docs, Some(NO_FILTERS.(updatedSince := Some(t))))
         == set i | i in docs && docs[i].updatedAt.Some? && t < docs[i].updatedAt.value
    ensures MatchingIds(docs, Some(NO_FILTERS.(entityType := Some(id))))
         == set i | i in docs && docs[i].mention.entityType == id
    ensures MatchingIds(docs, Some(NO_FILTERS.(confidenceMin := Some(v))))
         == set i | i in docs && v <= docs[i].outcome.current.confidence
    ensures MatchingIds(docs, Some(NO_FILTERS.(confidenceMax := Some(v))))
         == set i | i in docs && docs[i].outcome.current.confidence <= v
    ensures MatchingIds(docs, Some(NO_FILTERS.(similarityMin := Some(v))))
         == set i | i in docs && v <= docs[i].outcome.current.similarity
    ensures MatchingIds(docs, Some(NO_FILTERS.(similarityMax := Some(v))))
         == set i | i in docs && docs[i].outcome.current.similarity <= v
    ensures MatchingIds(docs, Some(NO_FILTERS.(mentions := Some(mentions))))
         == set i | i in docs && docs[i].mention in mentions
    ensures MatchingIds(docs, Some(NO_FILTERS.(everReviewed := Some(true))))
         == set i | i in docs && docs[i].reviewCount.Some? && docs[i].reviewCount.value > 0
    ensures MatchingIds(docs, Some(NO_FILTERS.(everReviewed := Some(false))))
         == set i | i in docs && (docs[i].reviewCount.None? || docs[i].reviewCount.value == 0)
    ensures MatchingIds(docs, Some(NO_FILTERS.(reviewedSincePlacement := Some(true))))
         == set i | i in docs && docs[i].reviewed == Some(true)
    ensures MatchingIds(docs, Some(NO_FILTERS.(reviewedSincePlacement := Some(false))))
         == set i | i in docs && docs[i].reviewed != Some(true)
  {
  }

  /** Several fields admit what each of them admits alone. */
  lemma FiltersIntersect(docs: Docs, f: DecisionFilters)
    ensures MatchingIds(docs, Some(f))
         == MatchingIds(docs, Some(NO_FILTERS.(sourceId := f.sourceId)))
          * MatchingIds(docs, Some(NO_FILTERS.(updatedSince := f.updatedSince)))
          * MatchingIds(docs, Some(NO_FILTERS.(entityType := f.entityType)))
          * MatchingIds(docs, Some(NO_FILTERS.(confidenceMin := f.confidenceMin)))
          * MatchingIds(docs, Some(NO_FILTERS.(confidenceMax := f.confidenceMax)))
          * MatchingIds(docs, Some(NO_FILTERS.(similarityMin := f.similarityMin)))
          * MatchingIds(docs, Some(NO_FILTERS.(similarityMax := f.similarityMax)))
          * MatchingIds(docs, Some(NO_FILTERS.(mentions := f.mentions)))
          * MatchingIds(docs, Some(NO_FILTERS.(everReviewed := f.everReviewed)))
          * MatchingIds(docs, Some(NO_FILTERS.(reviewedSincePlacement := f.reviewedSincePlacement)))
  {
  }

  /** Bulk sync sorts by `updated_at`, forward; curation by `created_at`, backward, unless it
      asks for something else. A cluster without a row in the projection has size 0. */
  lemma OrderingKeys(docs: Docs, sizes: Sizes, f: DecisionFilters, ascending: bool)
    ensures OrderingOf(None).ascending && !OrderingOf(Some(f.(ordering := None))).ascending
    ensures forall field :: OrderingOf(Some(f.(ordering := Some(Ordering(field, ascending))))).ascending == ascending
    ensures MatchingRows(docs, sizes, None) == set i | i in docs :: Row(docs[i].updatedAt, i)
    ensures MatchingRows(docs, sizes, Some(f.(ordering := None)))
         == set i | i in MatchingIds(docs, Some(f)) :: Row(Some(docs[i].createdAt), i)
    ensures MatchingRows(docs, sizes, Some(f.(ordering := Some(Ordering(Confidence, ascending)))))
         == set i | i in MatchingIds(docs, Some(f)) :: Row(Some(docs[i].outcome.current.confidence), i)
    ensures MatchingRows(docs, sizes, Some(f.(ordering := Some(Ordering(CreatedAt, ascending)))))
         == set i | i in MatchingIds(docs, Some(f)) :: Row(Some(docs[i].createdAt), i)
    ensures MatchingRows(docs, sizes, Some(f.(ordering := Some(Ordering(UpdatedAt, ascending)))))
         == set i | i in MatchingIds(docs, Some(f)) :: Row(docs[i].updatedAt, i)
    ensures MatchingRows(docs, sizes, Some(f.(ordering := Some(Ordering(ClusterSize, ascending)))))
         == set i | i in MatchingIds(docs, Some(f)) ::
              Row(Some(var k := docs[i].outcome.current.clusterId; if k in sizes then sizes[k] as real else 0.0), i)
  {
    OrderingAdmitsAll(docs, f, None);
    OrderingAdmitsAll(docs, f, Some(Ordering(Confidence, ascending)));
    OrderingAdmitsAll(docs, f, Some(Ordering(CreatedAt, ascending)));
    OrderingAdmitsAll(docs, f, Some(Ordering(UpdatedAt, ascending)));
    OrderingAdmitsAll(docs, f, Some(Ordering(ClusterSize, ascending)));
    hide Matches;
  }

  lemma OrderingAdmitsAll(docs: Docs, f: DecisionFilters, ordering: Option<Ordering>)
    ensures MatchingIds(docs, Some(f.(ordering := ordering))) == MatchingIds(docs, Some(f))
  {
  }

  /** `r` is the row of a document: it satisfies every bound given, field by field, and carries
      the sort key asked for. */
  ghost predicate IsRowOfMatch(r: Row, docs: Docs, sizes: Sizes, filters: Option<DecisionFilters>) {
    && r.id in docs
    && var d := docs[r.id];
    && (filters.None? ==> r.value == d.updatedAt)
    && (filters.Some? ==>
          var f := filters.value;
          && (f.sourceId.Some? ==> d.mention.sourceId == f.sourceId.value)
          && (f.updatedSince.Some? ==> d.updatedAt.Some? && f.updatedSince.value < d.updatedAt.value)
          && (f.entityType.Some? ==> d.mention.entityType == f.entityType.value)
          && (f.confidenceMin.Some? ==> f.confidenceMin.value <= d.outcome.current.confidence)
          && (f.confidenceMax.Some? ==> d.outcome.current.confidence <= f.confidenceMax.value)
          && (f.similarityMin.Some? ==> f.similarityMin.value <= d.outcome.current.similarity)
          && (f.similarityMax.Some? ==> d.outcome.current.similarity <= f.similarityMax.value)
          && (f.mentions.Some? ==> d.mention in f.mentions.value)
          && (f.everReviewed.Some? ==> (f.everReviewed.value <==> d.reviewCount.Some? && d.reviewCount.value > 0))
          && (f.reviewedSincePlacement.Some? ==> (f.reviewedSincePlacement.value <==> d.reviewed == Some(true)))
          && r.value == if f.ordering.None? then Some(d.createdAt) else SortValue(d, f.ordering.value.field, sizes))
  }

  lemma RowsAreMatches(docs: Docs, sizes: Sizes, filters: Option<DecisionFilters>, r: Row)
    ensures r in MatchingRows(docs, sizes, filters) <==> IsRowOfMatch(r, docs, sizes, filters)
  {
    assert r == Row(r.value, r.id);
  }

  // ---- The query ----

  lemma PageIsOfMatches(docs: Docs, sizes: Sizes, filters: Option<DecisionFilters>, cursor: Option<Row>, limit: nat)
    requires limit >= 1
    ensures var page := PageOf(ListingOf(filters), OrderingOf(filters).ascending,
                               MatchingRows(docs, sizes, filters), cursor, limit);
      && |page.results| <= limit && (page.next.Some? ==> |page.results| == limit)
      && InOrder(OrderingOf(filters).ascending, page.results)
      && forall r | r in page.results :: IsRowOfMatch(r, docs, sizes, filters)
  {
    var rows, ascending := MatchingRows(docs, sizes, filters), OrderingOf(filters).ascending;
    var left := Sorted(ascending, Remaining(ListingOf(filters), ascending, rows, cursor));
    hide MatchingRows, IsRowOfMatch, Keyset.Sorted;
    SortedListsAll(ascending, Remaining(ListingOf(filters), ascending, rows, cursor));
    if |left| > limit {
      InOrderSlice(ascending, left, limit);
    }
    forall r | r in left
      ensures IsRowOfMatch(r, docs, sizes, filters)
    {
      assert r in RowSet(left);
      RowsAreMatches(docs, sizes, filters, r);
    }
  }

  /** `find_with_filters`: the page, and the exact match count unless in bulk-sync mode. */
  method FindWithFilters(repository: DecisionRepository, index: ClusterSizeIndex, filters: Option<DecisionFilters>,
                         cursor: Option<Row>, limit: nat)
    returns (page: Page, count: nat)
    requires limit >= 1
    ensures page == PageOf(ListingOf(filters), OrderingOf(filters).ascending,
                           MatchingRows(repository.docs, index.sizes, filters), cursor, limit)
    ensures count == if filters.None? then 0 else |MatchingRows(repository.docs, index.sizes, filters)|
    ensures |page.results| <= limit && (page.next.Some? ==> |page.results| == limit)
    ensures InOrder(OrderingOf(filters).ascending, page.results)
    ensures forall r | r in page.results :: IsRowOfMatch(r, repository.docs, index.sizes, filters)
  {
    PageIsOfMatches(repository.docs, index.sizes, filters, cursor, limit);
    hide Keyset.Sorted, Keyset.Remaining, Matches, RowsOf, IsRowOfMatch;
    var ascending := OrderingOf(filters).ascending;
    var rows := MatchingRows(repository.docs, index.sizes, filters);
    count := if filters.None? then 0 else |MatchingIds(repository.docs, filters)|;
    OneRowPerDocument(repository.docs, MatchingIds(repository.docs, filters), OrderingOf(filters).field, index.sizes);
    var found := Remaining(ListingOf(filters), ascending, rows, cursor);
    var results := Collect(Sorted(ascending, found), limit + 1);
    if |results| > limit {
      var lastSize := results[|results| - 1].value;
      results := results[..limit];
      var last := results[limit - 1];
      var sortValue := if OrderingOf(filters).field == ClusterSize then lastSize else last.value;
      page := Page(results, Some(Row(sortValue, last.id)));
    } else {
      page := Page(results, None);
    }
  }

  /** Stored fields that are never null, in both directions, and `updated_at` ascending, the
      bulk-sync mode included: the pages deliver the matching documents, each once, in sort
      order, as many as the count says. */
  lemma FilteredPagesDeliverTheMatches(docs: Docs, sizes: Sizes, filters: Option<DecisionFilters>, limit: nat)
    requires limit >= 1
    requires OrderingOf(filters).field != ClusterSize
    requires OrderingOf(filters).field == UpdatedAt ==> OrderingOf(filters).ascending
    ensures var all := Delivered(Traverse(ListingOf(filters), OrderingOf(filters).ascending,
                                          MatchingRows(docs, sizes, filters), None, limit));
      && InOrder(OrderingOf(filters).ascending, all)
      && (forall r :: r in all <==> IsRowOfMatch(r, docs, sizes, filters))
      && |all| == |MatchingIds(docs, filters)| == |MatchingRows(docs, sizes, filters)|
  {
    var rows := MatchingRows(docs, sizes, filters);
    FullTraversal(ListingOf(filters), OrderingOf(filters).ascending, rows, limit);
    OneRowPerDocument(docs, MatchingIds(docs, filters), OrderingOf(filters).field, sizes);
    forall r
      ensures r in rows <==> IsRowOfMatch(r, docs, sizes, filters)
    {
      RowsAreMatches(docs, sizes, filters, r);
    }
  }

  // ---- User actions ----

  datatype ActionFilters = ActionFilters(
    kind: Option<ActionType>,
    actor: Option<Id>,
    rangeStart: Option<Time>,
    rangeEnd: Option<Time>,
    about: Option<Triad>,
    ascending: Option<bool>)

  predicate ActionMatches(a: UserAction, f: ActionFilters) {
    && (f.kind.Some? ==> a.kind == f.kind.value)
    && (f.actor.Some? ==> a.actor == f.actor.value)
    && Within(a.createdAt, f.rangeStart, f.rangeEnd)
    && (f.about.Some? ==> a.about == f.about.value)
  }

  function ActionRows(actions: map<Id, UserAction>, filters: Option<ActionFilters>): set<Row> {
    set id | id in actions && (filters.None? || ActionMatches(actions[id], filters.value)) ::
        Row(Some(actions[id].createdAt), id)
  }

  function ActionsAscending(filters: Option<ActionFilters>): bool {
    filters.Some? && filters.value.ascending == Some(true)
  }

  const NO_ACTION_FILTERS := ActionFilters(None, None, None, None, None, None)

  /** A filter by one field lists the actions whose stored field satisfies it, and several
      fields admit what each of them admits alone. Newest first unless asked otherwise. */
  lemma OneFieldActionFilters(actions: map<Id, UserAction>, f: ActionFilters, kind: ActionType, id: Id, t: Time,
                              m: Triad)
    ensures ActionRows(actions, None) == ActionRows(actions, Some(NO_ACTION_FILTERS))
         == set i | i in actions :: Row(Some(actions[i].createdAt), i)
    ensures ActionRows(actions, Some(NO_ACTION_FILTERS.(kind := Some(kind))))
         == set i | i in actions && actions[i].kind == kind :: Row(Some(actions[i].createdAt), i)
    ensures ActionRows(actions, Some(NO_ACTION_FILTERS.(actor := Some(id))))
         == set i | i in actions && actions[i].actor == id :: Row(Some(actions[i].createdAt), i)
    ensures ActionRows(actions, Some(NO_ACTION_FILTERS.(rangeStart := Some(t))))
         == set i | i in actions && t <= actions[i].createdAt :: Row(Some(actions[i].createdAt), i)
    ensures ActionRows(actions, Some(NO_ACTION_FILTERS.(rangeEnd := Some(t))))
         == set i | i in actions && actions[i].createdAt <= t :: Row(Some(actions[i].createdAt), i)
    ensures ActionRows(actions, Some(NO_ACTION_FILTERS.(about := Some(m))))
         == set i | i in actions && actions[i].about == m :: Row(Some(actions[i].createdAt), i)
    ensures ActionRows(actions, Some(f))
         == ActionRows(actions, Some(NO_ACTION_FILTERS.(kind := f.kind)))
          * ActionRows(actions, Some(NO_ACTION_FILTERS.(actor := f.actor)))
          * ActionRows(actions, Some(NO_ACTION_FILTERS.(rangeStart := f.rangeStart)))
          * ActionRows(actions, Some(NO_ACTION_FILTERS.(rangeEnd := f.rangeEnd)))
          * ActionRows(actions, Some(NO_ACTION_FILTERS.(about := f.about)))
    ensures !ActionsAscending(None) && !ActionsAscending(Some(f.(ascending := None)))
    ensures forall b :: ActionsAscending(Some(f.(ascending := Some(b)))) == b
  {
  }

  /** `find_with_cursor`. */
  method FindActions(actions: map<Id, UserAction>, filters: Option<ActionFilters>, cursor: Option<Row>, limit: nat)
    returns (page: Page, count: nat)
    requires limit >= 1
    ensures page == PageOf(UserActions, ActionsAscending(filters), ActionRows(actions, filters), cursor, limit)
    ensures count == |ActionRows(actions, filters)|
  {
    var ascending := ActionsAscending(filters);
    var rows := ActionRows(actions, filters);
    count := |rows|;
    var results := Collect(Sorted(ascending, Remaining(UserActions, ascending, rows, cursor)), limit + 1);
    if |results| > limit {
      results := results[..limit];
      var last := results[limit - 1];
      page := Page(results, Some(last));
    } else {
      page := Page(results, None);
    }
  }

  /** User actions, newest or oldest first: the pages deliver the matching rows, each once, in
      order, as many as the count says. */
  lemma ActionPagesDeliverTheMatches(actions: map<Id, UserAction>, filters: Option<ActionFilters>, limit: nat)
    requires limit >= 1
    ensures var all := Delivered(Traverse(UserActions, ActionsAscending(filters), ActionRows(actions, filters), None,
                                          limit));
      && InOrder(ActionsAscending(filters), all)
      && (forall r :: r in all <==> r in ActionRows(actions, filters))
      && |all| == |ActionRows(actions, filters)|
  {
    FullTraversal(UserActions, ActionsAscending(filters), ActionRows(actions, filters), limit);
  }
}
