/**
 The scripts that rebuild the `cluster_sizes` projection from the decisions and that check
 it against them.
 */
module ClusterScripts {
  import opened Common
  import opened Decisions
  import opened ClusterSizes
  import opened World
  import opened ClusterIndex

  /** The counts both scripts compare with: rows without a usable cluster id are skipped. */
  ghost function LiveCounts(docs: Docs): Sizes {
    map k | k in ClusterCounts(docs) && k != EMPTY_ID :: ClusterCounts(docs)[k]
  }

  ghost predicate Consistent(docs: Docs, sizes: Sizes) {
    forall k: Id | k != EMPTY_ID :: |PlacedIn(docs, k)| == SizeOf(sizes, k)
  }

  lemma CountOneMore(docs: Docs, id: Id, d: Decision)
    requires id !in docs
    ensures ClusterCounts(docs[id := d])
         == ClusterCounts(docs)[ClusterOf(d) := SizeOf(ClusterCounts(docs), ClusterOf(d)) + 1]
  {
    var before, after := ClusterCounts(docs), ClusterCounts(docs[id := d]);
    forall k: Id
      ensures k in after <==> k in before || k == ClusterOf(d)
      ensures k in after ==> after[k] == SizeOf(before, k) + One(k == ClusterOf(d))
    {
      PlacedUpdate(docs, id, d, k);
      if k in after {
        var x :| x in docs[id := d] && ClusterOf(docs[id := d][x]) == k;
      }
      if k in before {
        var x :| x in docs && ClusterOf(docs[x]) == k;
        assert x in docs[id := d] && docs[id := d][x] == docs[x];
      } else {
        assert PlacedIn(docs, k) == {};
      }
      assert id in docs[id := d] && docs[id := d][id] == d;
    }
  }

  ghost function Without(docs: Docs, ids: set<Id>): Docs {
    map id | id in docs.Keys - ids :: docs[id]
  }

  /** `$group` by `current_placement.cluster_id` with `$sum: 1`. */
  method GroupByCluster(docs: Docs) returns (rows: Sizes)
    ensures rows == ClusterCounts(docs)
  {
    rows := map[];
    var todo := docs.Keys;
    while todo != {}
      invariant todo <= docs.Keys
      invariant rows == ClusterCounts(Without(docs, todo))
      decreases todo
    {
      var id :| id in todo;
      var k := ClusterOf(docs[id]);
      CountOneMore(Without(docs, todo), id, docs[id]);
      assert Without(docs, todo - {id}) == Without(docs, todo)[id := docs[id]];
      rows := rows[k := SizeOf(rows, k) + 1];
      todo := todo - {id};
    }
    assert Without(docs, todo) == docs;
  }

  method AggregateClusterCounts(docs: Docs) returns (counts: Sizes)
    ensures counts == LiveCounts(docs)
  {
    var rows := GroupByCluster(docs);
    counts := map[];
    var todo := rows.Keys;
    while todo != {}
      invariant todo <= rows.Keys
      invariant counts == map k | k in rows.Keys - todo && k != EMPTY_ID :: rows[k]
      decreases todo
    {
      var k :| k in todo;
      if k != EMPTY_ID {
        counts := counts[k := rows[k]];
      }
      todo := todo - {k};
    }
  }

  /** The absolute `$set` of one cluster's size, upserting. */
  datatype SetOp = SetOp(cluster: Id, size: int)

  method BuildUpsertOps(counts: Sizes) returns (ops: seq<SetOp>)
    ensures forall op :: op in ops <==> op.cluster in counts && op.size == counts[op.cluster]
    ensures forall i, j | 0 <= i < j < |ops| :: ops[i].cluster != ops[j].cluster
    ensures |ops| == |counts|
  {
    ops := [];
    var todo := counts.Keys;
    while todo != {}
      invariant todo <= counts.Keys
      invariant forall op :: op in ops <==> op.cluster in counts.Keys - todo && op.size == counts[op.cluster]
      invariant forall i, j | 0 <= i < j < |ops| :: ops[i].cluster != ops[j].cluster
      invariant |ops| + |todo| == |counts|
      decreases todo
    {
      var k :| k in todo;
      ops := ops + [SetOp(k, counts[k])];
      todo := todo - {k};
    }
  }

  function Written(sizes: Sizes, ops: seq<SetOp>): Sizes {
    if ops == [] then sizes
    else
      var last := ops[|ops| - 1];
      Written(sizes, ops[..|ops| - 1])[last.cluster := last.size]
  }

  lemma {:induction false} WrittenAll(sizes: Sizes, ops: seq<SetOp>, counts: Sizes)
    requires forall op | op in ops :: op.cluster in counts && op.size == counts[op.cluster]
    ensures forall k :: k in Written(sizes, ops) <==> k in sizes || exists op :: op in ops && op.cluster == k
    ensures forall op | op in ops :: Written(sizes, ops)[op.cluster] == counts[op.cluster]
  {
    if ops == [] {
    } else {
      WrittenAll(sizes, ops[..|ops| - 1], counts);
      assert ops == ops[..|ops| - 1] + [ops[|ops| - 1]];
    }
  }

  function Flatten<T>(batches: seq<seq<T>>): seq<T> {
    if batches == [] then [] else Flatten(batches[..|batches| - 1]) + batches[|batches| - 1]
  }

  /** What a non-dry run leaves: the live counts, unless there are none, in which case the
      script stops before touching anything. */
  ghost predicate Rebuilt(docs: Docs, before: Sizes, after: Sizes) {
    after == if LiveCounts(docs) == map[] then before else LiveCounts(docs)
  }

  method BulkWrite(index: ClusterSizeIndex, batch: seq<SetOp>)
    modifies index
    ensures index.sizes == Written(old(index.sizes), batch)
  {
    for i := 0 to |batch|
      invariant index.sizes == Written(old(index.sizes), batch[..i])
    {
      index.sizes := index.sizes[batch[i].cluster := batch[i].size];
      assert batch[..i + 1][..i] == batch[..i];
    }
    assert batch[..|batch|] == batch;
  }

  lemma {:induction false} WrittenTwice(sizes: Sizes, a: seq<SetOp>, b: seq<SetOp>)
    ensures Written(Written(sizes, a), b) == Written(sizes, a + b)
  {
    if b == [] {
      assert a + b == a;
    } else {
      WrittenTwice(sizes, a, b[..|b| - 1]);
      assert (a + b)[..|a + b| - 1] == a + b[..|b| - 1];
    }
  }

  method DeleteStaleEntries(index: ClusterSizeIndex, live: set<Id>, dryRun: bool) returns (stale: nat)
    modifies index
    ensures stale == |old(index.sizes).Keys - live|
    ensures index.sizes == if dryRun then old(index.sizes)
                           else map k | k in old(index.sizes) && k in live :: old(index.sizes)[k]
  {
    stale := |index.sizes.Keys - live|;
    if dryRun {
      return;
    }
    index.sizes := map k | k in index.sizes && k in live :: index.sizes[k];
  }

  function Slice<T>(s: seq<T>, start: nat, size: nat): (r: seq<T>)
    requires start <= |s|
    ensures |r| <= size && Take(s, start + size) == Take(s, start) + r
    ensures start < |s| && size > 0 ==> r != []
  {
    if start + size < |s| then s[start..start + size] else s[start..]
  }

  lemma FlattenNext<T>(batches: seq<seq<T>>, batch: seq<T>)
    ensures Flatten(batches + [batch]) == Flatten(batches) + batch
  {
    assert (batches + [batch])[..|batches|] == batches;
  }

  lemma NextMultiple(i: nat, size: nat)
    ensures (i + 1) * size == i * size + size
  {
  }

  /** The batch loop: slices of `batchSize` operations, together every operation once. */
  method IssueBatches(index: ClusterSizeIndex, ops: seq<SetOp>, batchSize: nat) returns (issued: seq<seq<SetOp>>)
    requires batchSize >= 1
    modifies index
    ensures index.sizes == Written(old(index.sizes), ops)
    ensures Flatten(issued) == ops
    ensures |ops| <= |issued| * batchSize < |ops| + batchSize
    ensures forall b | b in issued :: 1 <= |b| <= batchSize
  {
    issued := [];
    var batchStart := 0;
    while batchStart < |ops|
      invariant batchStart == |issued| * batchSize
      invariant batchStart < |ops| + batchSize
      invariant Flatten(issued) == Take(ops, batchStart)
      invariant index.sizes == Written(old(index.sizes), Take(ops, batchStart))
      invariant forall b | b in issued :: 1 <= |b| <= batchSize
    {
      var batch := Slice(ops, batchStart, batchSize);
      BulkWrite(index, batch);
      WrittenTwice(old(index.sizes), Take(ops, batchStart), batch);
      FlattenNext(issued, batch);
      NextMultiple(|issued|, batchSize);
      issued := issued + [batch];
      batchStart := batchStart + batchSize;
    }
  }

  /** Setting every live cluster and then dropping the others leaves the live counts. */
  lemma SetThenSweep(sizes: Sizes, ops: seq<SetOp>, counts: Sizes)
    requires forall op :: op in ops <==> op.cluster in counts && op.size == counts[op.cluster]
    ensures (map k | k in Written(sizes, ops) && k in counts.Keys :: Written(sizes, ops)[k]) == counts
  {
    WrittenAll(sizes, ops, counts);
    forall k | k in counts
      ensures k in Written(sizes, ops) && Written(sizes, ops)[k] == counts[k]
    {
      assert SetOp(k, counts[k]) in ops;
    }
  }

  /** `_run_backfill`. */
  method RunBackfill(repository: DecisionRepository, index: ClusterSizeIndex, dryRun: bool, batchSize: nat)
    returns (issued: seq<seq<SetOp>>)
    requires batchSize >= 1
    modifies index
    ensures dryRun ==> index.sizes == old(index.sizes) && issued == []
    ensures !dryRun ==> Rebuilt(repository.docs, old(index.sizes), index.sizes)
    ensures !dryRun ==>
      var counts := LiveCounts(repository.docs);
      && (forall op :: op in Flatten(issued) <==> op.cluster in counts && op.size == counts[op.cluster])
      && |Flatten(issued)| == |counts|
      && |counts| <= |issued| * batchSize < |counts| + batchSize
      && forall b | b in issued :: 1 <= |b| <= batchSize
  {
    issued := [];
    var counts := AggregateClusterCounts(repository.docs);
    if counts == map[] {
      return;
    }
    var ops := BuildUpsertOps(counts);
    if dryRun {
      var _ := DeleteStaleEntries(index, counts.Keys, true);
      return;
    }
    issued := IssueBatches(index, ops, batchSize);
    SetThenSweep(old(index.sizes), ops, counts);
    var _ := DeleteStaleEntries(index, counts.Keys, false);
  }

  method ReadProjection(index: ClusterSizeIndex) returns (projection: Sizes)
    ensures projection == map k | k in index.sizes && k != EMPTY_ID :: index.sizes[k]
  {
    projection := map[];
    var todo := index.sizes.Keys;
    while todo != {}
      invariant todo <= index.sizes.Keys
      invariant projection == map k | k in index.sizes.Keys - todo && k != EMPTY_ID :: index.sizes[k]
      decreases todo
    {
      var k :| k in todo;
      if k != EMPTY_ID {
        projection := projection[k := index.sizes[k]];
      }
      todo := todo - {k};
    }
  }

  /** `_verify`: true exactly when every cluster has its count, an absent row meaning zero. */
  method Verify(repository: DecisionRepository, index: ClusterSizeIndex) returns (consistent: bool)
    ensures consistent <==> Consistent(repository.docs, index.sizes)
  {
    var truth := AggregateClusterCounts(repository.docs);
    var projection := ReadProjection(index);
    var todo := truth.Keys + projection.Keys;
    var drifts: set<Id> := {};
    while todo != {}
      invariant todo <= truth.Keys + projection.Keys
      invariant drifts == set k | k in truth.Keys + projection.Keys - todo && SizeOf(truth, k) != SizeOf(projection, k)
      decreases todo
    {
      var k :| k in todo;
      if SizeOf(truth, k) != SizeOf(projection, k) {
        drifts := drifts + {k};
      }
      todo := todo - {k};
    }
    consistent := drifts == {};
    ReportedDrift(repository.docs, index.sizes, truth, projection);
    var all := truth.Keys + projection.Keys;
    assert consistent <==> forall k | k in all :: SizeOf(truth, k) == SizeOf(projection, k) by {
      assert forall k | k in truth.Keys + projection.Keys && SizeOf(truth, k) != SizeOf(projection, k) :: k in drifts;
    }
  }

  lemma ReportedDrift(docs: Docs, sizes: Sizes, truth: Sizes, projection: Sizes)
    requires truth == LiveCounts(docs)
    requires projection == map k | k in sizes && k != EMPTY_ID :: sizes[k]
    ensures Consistent(docs, sizes) <==>
            forall k | k in truth.Keys + projection.Keys :: SizeOf(truth, k) == SizeOf(projection, k)
  {
    forall k: Id | k != EMPTY_ID
      ensures SizeOf(truth, k) == |PlacedIn(docs, k)| && SizeOf(projection, k) == SizeOf(sizes, k)
    {
      UnusedClusterIsEmpty(docs, k);
    }
  }

  lemma UnusedClusterIsEmpty(docs: Docs, k: Id)
    ensures k !in ClusterCounts(docs) ==> PlacedIn(docs, k) == {}
  {
  }

  /** After a run the check passes exactly when there was something to count or nothing stale
      to remove; a further run changes no size. */
  lemma RepairExactly(docs: Docs, before: Sizes, after: Sizes, again: Sizes)
    requires Rebuilt(docs, before, after) && Rebuilt(docs, after, again)
    ensures Consistent(docs, after) <==>
            (exists id :: id in docs && ClusterOf(docs[id]) != EMPTY_ID)
            || (forall k | k in before && k != EMPTY_ID :: before[k] == 0)
    ensures again == after
  {
    ReportedDrift(docs, after, LiveCounts(docs), map k | k in after && k != EMPTY_ID :: after[k]);
    if id :| id in docs && ClusterOf(docs[id]) != EMPTY_ID {
      assert ClusterOf(docs[id]) in LiveCounts(docs);
    } else {
      assert LiveCounts(docs) == map[];
      assert forall k | k in before && k != EMPTY_ID :: SizeOf(before, k) == before[k];
    }
  }

  /** Both scripts find a quiet store in order: the check passes, and a rebuild changes
      nothing as long as no decision sits in the nameless cluster. */
  lemma LiveIndexNeedsNoRepair(w: World, events: seq<Event>, after: Sizes)
    requires StoresQuiet(w) && w.sizes == ClusterCounts(w.docs) && NeverOverlapping(w, events)
    requires StoresQuiet(Run(w, events))
    requires Rebuilt(Run(w, events).docs, Run(w, events).sizes, after)
    ensures var w' := Run(w, events);
      && Consistent(w'.docs, w'.sizes)
      && (EMPTY_ID !in w'.sizes ==> after == w'.sizes)
  {
    IndexFollowsDecisions(w, events);
    var w' := Run(w, events);
    forall k: Id | k != EMPTY_ID
      ensures |PlacedIn(w'.docs, k)| == SizeOf(w'.sizes, k)
    {
      UnusedClusterIsEmpty(w'.docs, k);
    }
    if EMPTY_ID !in w'.sizes {
      assert LiveCounts(w'.docs) == ClusterCounts(w'.docs);
    }
  }
}
