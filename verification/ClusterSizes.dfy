/**
 The `cluster_sizes` projection: one counter per cluster, moved by `$inc` and removed when
 it reaches zero.
 */
module ClusterSizes {
  import opened Common

  type Sizes = map<Id, int>

  function SizeOf(sizes: Sizes, cluster: Id): int {
    if cluster in sizes then sizes[cluster] else 0
  }

  /** One `UpdateOne` of the bulk write. Without `upsert` an absent row stays absent. */
  datatype SizeOp = SizeOp(cluster: Id, delta: int, upsert: bool)

  function Apply(sizes: Sizes, op: SizeOp): (r: Sizes)
    ensures op.cluster in sizes || op.upsert ==> SizeOf(r, op.cluster) == SizeOf(sizes, op.cluster) + op.delta
    ensures forall k | k != op.cluster :: SizeOf(r, k) == SizeOf(sizes, k) && (k in r <==> k in sizes)
  {
    if op.cluster in sizes || op.upsert
    then sizes[op.cluster := SizeOf(sizes, op.cluster) + op.delta]
    else sizes
  }

  /** `delete_one` guarded by `size <= 0`. */
  function Swept(sizes: Sizes, cluster: Id): (r: Sizes)
    ensures cluster in r ==> r[cluster] > 0
    ensures forall k | k != cluster :: SizeOf(r, k) == SizeOf(sizes, k) && (k in r <==> k in sizes)
  {
    if cluster in sizes && sizes[cluster] <= 0 then sizes - {cluster} else sizes
  }

  /** What a whole shift leaves behind for one cluster: absent or positive on the losing
      side, counted up on the gaining side, untouched elsewhere. */
  ghost predicate ShiftedRow(before: Sizes, after: Sizes, source: Option<Id>, target: Option<Id>, amount: nat, k: Id) {
    if Some(k) == source then
      if k in before && before[k] > amount then k in after && after[k] == before[k] - amount else k !in after
    else if Some(k) == target then
      k in after && after[k] == SizeOf(before, k) + amount
    else
      (k in after <==> k in before) && (k in before ==> after[k] == before[k])
  }

  class ClusterSizeIndex {
    var sizes: Sizes

    constructor ()
      ensures sizes == map[]
    {
      sizes := map[];
    }

    method Shift(source: Option<Id>, target: Option<Id>, amount: nat)
      requires amount > 0
      modifies this
      ensures source == target ==> sizes == old(sizes)
      ensures source != target ==> forall k :: ShiftedRow(old(sizes), sizes, source, target, amount, k)
    {
      if source.Some? && source == target {
        return;
      }
      var ops: seq<SizeOp> := [];
      if source.Some? {
        ops := ops + [SizeOp(source.value, 0 - amount, false)];
      }
      if target.Some? {
        ops := ops + [SizeOp(target.value, amount, true)];
      }
      if ops == [] {
        return;
      }
      for i := 0 to |ops|
        invariant i == 0 ==> sizes == old(sizes)
        invariant i == 1 ==> sizes == Apply(old(sizes), ops[0])
        invariant i == 2 ==> sizes == Apply(Apply(old(sizes), ops[0]), ops[1])
      {
        sizes := Apply(sizes, ops[i]);
      }
      if source.Some? {
        sizes := Swept(sizes, source.value);
      }
    }

    method GetSize(cluster: Id) returns (size: int)
      ensures size == SizeOf(sizes, cluster)
    {
      if cluster !in sizes {
        return 0;
      }
      size := sizes[cluster];
    }
  }
}
