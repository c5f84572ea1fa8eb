/**
 Where the counter projection can part from the decisions it counts, over every interleaving
 of any number of calls, overlapping ones included: a ledger of the steps that put it wrong.
 */
module DriftLedger {
  import opened Common
  import opened Decisions
  import opened ClusterSizes
  import opened StoreCalls
  import opened World
  import opened ClusterIndex

  // ---- Agreement, cluster by cluster ----

  ghost predicate CountedAt(sizes: Sizes, docs: Docs, k: Id) {
    && SizeOf(sizes, k) == |PlacedIn(docs, k)|
    && (k in sizes <==> PlacedIn(docs, k) != {})
  }

  lemma Recount(sizes: Sizes, docs: Docs)
    ensures sizes == ClusterCounts(docs) <==> forall k: Id :: CountedAt(sizes, docs, k)
  {
    forall k: Id
      ensures CountedAt(ClusterCounts(docs), docs, k)
    {
      if k in ClusterCounts(docs) {
        var id :| id in docs && ClusterOf(docs[id]) == k;
        assert id in PlacedIn(docs, k);
      } else {
        assert forall id | id in docs :: ClusterOf(docs[id]) != k;
      }
    }
    if forall k: Id :: CountedAt(sizes, docs, k) {
      forall k: Id
        ensures k in sizes <==> k in ClusterCounts(docs)
        ensures k in sizes ==> sizes[k] == ClusterCounts(docs)[k]
      {
        assert CountedAt(sizes, docs, k) && CountedAt(ClusterCounts(docs), docs, k);
      }
    }
  }

  // ---- The ledger ----

  /** What the row of `k` holds beyond the decisions placed there and the updates still owed. */
  ghost function Surplus(w: World, k: Id): int {
    SizeOf(w.sizes, k) - |PlacedIn(w.docs, k)| - |Decrementing(w.stores, k)| + |Incrementing(w.stores, k)|
  }

  /** The four ways a step of a call puts the row of `k` wrong. */
  function CallDrift(docs: Docs, sizes: Sizes, args: StoreArgs, pc: StorePc,
                     duplicateKey: bool, decrementFirst: bool, k: Id): int
  {
    match pc
    case Inserting =>
      // A losing insert is handed the winner's row and counts it again.
      if args.id in docs && !duplicateKey then One(args.outcome.current.clusterId == k) else 0
    case Updating(seen) =>
      // An accepted update leaves one cluster and will take from the one it read at first.
      if args.id in docs && OlderThan(docs[args.id], args.at)
      then One(ClusterOf(docs[args.id]) == k) - One(seen == Some(k)) else 0
    case Shifting(source, owesDecrement, owesIncrement, _) =>
      // A decrement finds no row.
      if source == Some(k) && owesDecrement && (decrementFirst || !owesIncrement) && k !in sizes then 1 else 0
    case Sweeping(emptied, _) =>
      // A row below zero is deleted.
      if emptied == k && k in sizes && sizes[k] < 0 then -sizes[k] else 0
    case _ => 0
  }

  function StepDrift(w: World, e: Event, k: Id): int {
    if e.StepStore? && e.call in w.stores
    then CallDrift(w.docs, w.sizes, w.stores[e.call].args, w.stores[e.call].pc, e.duplicateKey, e.decrementFirst, k)
    else 0
  }

  function TotalDrift(w: World, events: seq<Event>, k: Id): int
    decreases |events|
  {
    if events == [] then 0 else StepDrift(w, events[0], k) + TotalDrift(Step(w, events[0]), events[1..], k)
  }

  lemma CollectionStepLedger(w: World, c: Id, duplicateKey: bool, decrementFirst: bool, k: Id)
    requires c in w.stores && !w.stores[c].pc.Shifting? && !w.stores[c].pc.Sweeping?
    ensures var call := w.stores[c];
      Surplus(StepStoreCall(w, c, duplicateKey, decrementFirst), k)
      == Surplus(w, k) + CallDrift(w.docs, w.sizes, call.args, call.pc, duplicateKey, decrementFirst, k)
  {
    hide ClusterIndex.PlacedIn, ClusterIndex.Incrementing, ClusterIndex.Decrementing;
    var w' := StepStoreCall(w, c, duplicateKey, decrementFirst);
    var call := w.stores[c];
    OwedUpdate(w.stores, c, w'.stores[c], k);
    if WritesPlacement(w.docs, call.args, call.pc) {
      PlacedUpdate(w.docs, call.args.id, w'.docs[call.args.id], k);
    }
  }

  lemma CounterStepLedger(w: World, c: Id, duplicateKey: bool, decrementFirst: bool, k: Id)
    requires c in w.stores && (w.stores[c].pc.Shifting? || w.stores[c].pc.Sweeping?)
    ensures var call := w.stores[c];
      Surplus(StepStoreCall(w, c, duplicateKey, decrementFirst), k)
      == Surplus(w, k) + CallDrift(w.docs, w.sizes, call.args, call.pc, duplicateKey, decrementFirst, k)
  {
    hide ClusterIndex.PlacedIn, ClusterIndex.Incrementing, ClusterIndex.Decrementing;
    var w' := StepStoreCall(w, c, duplicateKey, decrementFirst);
    OwedUpdate(w.stores, c, w'.stores[c], k);
  }

  /** Every step of every call moves the surplus by exactly its drift. */
  lemma StepLedger(w: World, e: Event, k: Id)
    ensures Surplus(Step(w, e), k) == Surplus(w, k) + StepDrift(w, e, k)
  {
    hide StepStoreCall, StepCuratorCall;
    match e
    case StartStore(c, args) =>
      if c !in w.stores {
        OwedUpdate(w.stores, c, StoreCall(args, Reading), k);
      }
    case StepStore(c, duplicateKey, decrementFirst) =>
      if c in w.stores {
        if w.stores[c].pc.Shifting? || w.stores[c].pc.Sweeping? {
          CounterStepLedger(w, c, duplicateKey, decrementFirst, k);
        } else {
          CollectionStepLedger(w, c, duplicateKey, decrementFirst, k);
        }
      }
    case StartCurator(_, _, _) =>
    case StepCurator(c) =>
      if c in w.curators {
        CuratorStepFootprint(w, c);
        assert PlacedIn(Step(w, e).docs, k) == PlacedIn(w.docs, k);
      }
  }

  lemma {:induction false} RunLedger(w: World, events: seq<Event>, k: Id)
    ensures Surplus(Run(w, events), k) == Surplus(w, k) + TotalDrift(w, events, k)
    decreases |events|
  {
    hide Step, Surplus, StepDrift;
    if events == [] {
    } else {
      StepLedger(w, events[0], k);
      RunLedger(Step(w, events[0]), events[1..], k);
    }
  }

  // ---- Rows at or below zero ----

  ghost predicate LowRowsAreOwed(w: World) {
    forall k | k in w.sizes && w.sizes[k] <= 0 :: SweepOwed(w.stores, k)
  }

  /** Whatever calls overlap, a row at or below zero will still be swept. */
  lemma StoreStepKeepsLowRows(w: World, c: Id, duplicateKey: bool, decrementFirst: bool)
    requires LowRowsAreOwed(w) && c in w.stores
    ensures LowRowsAreOwed(StepStoreCall(w, c, duplicateKey, decrementFirst))
  {
    var w' := StepStoreCall(w, c, duplicateKey, decrementFirst);
    forall k | k in w'.sizes && w'.sizes[k] <= 0
      ensures SweepOwed(w'.stores, k)
    {
      if k in w.sizes && w.sizes[k] <= 0 {
        var d :| d in w.stores && OwesSweep(w.stores[d], k);
        assert d in w'.stores && OwesSweep(w'.stores[d], k);
      } else {
        assert OwesSweep(w'.stores[c], k);
      }
    }
  }

  lemma StepKeepsLowRows(w: World, e: Event)
    requires LowRowsAreOwed(w)
    ensures LowRowsAreOwed(Step(w, e))
  {
    hide StepStoreCall;
    if e.StepStore? && e.call in w.stores {
      StoreStepKeepsLowRows(w, e.call, e.duplicateKey, e.decrementFirst);
    } else {
      var w' := Step(w, e);
      forall k | k in w'.sizes && w'.sizes[k] <= 0
        ensures SweepOwed(w'.stores, k)
      {
        var d :| d in w.stores && OwesSweep(w.stores[d], k);
        assert d in w'.stores && OwesSweep(w'.stores[d], k);
      }
    }
  }

  lemma {:induction false} RunKeepsLowRows(w: World, events: seq<Event>)
    requires LowRowsAreOwed(w)
    ensures LowRowsAreOwed(Run(w, events))
    decreases |events|
  {
    hide Step, LowRowsAreOwed;
    if events == [] {
    } else {
      StepKeepsLowRows(w, events[0]);
      RunKeepsLowRows(Step(w, events[0]), events[1..]);
    }
  }

  // ---- The state at rest ----

  lemma QuietSurplus(w: World, k: Id)
    requires StoresQuiet(w)
    ensures Surplus(w, k) == SizeOf(w.sizes, k) - |PlacedIn(w.docs, k)|
    ensures LowRowsAreOwed(w) && k in w.sizes ==> w.sizes[k] > 0
  {
    assert Incrementing(w.stores, k) == {} && Decrementing(w.stores, k) == {};
  }

  /** At rest the projection is the count exactly when no cluster has a surplus. */
  lemma QuietAgreementBySurplus(w: World)
    requires StoresQuiet(w) && LowRowsAreOwed(w)
    ensures w.sizes == ClusterCounts(w.docs) <==> forall k: Id :: Surplus(w, k) == 0
  {
    hide Surplus, LowRowsAreOwed, StoresQuiet, ClusterIndex.ClusterCounts, ClusterIndex.PlacedIn;
    Recount(w.sizes, w.docs);
    forall k: Id
      ensures CountedAt(w.sizes, w.docs, k) <==> Surplus(w, k) == 0
    {
      QuietSurplus(w, k);
    }
  }

  /** No call owes a counter update or a sweep. */
  ghost predicate NothingShifting(w: World) {
    forall c | c in w.stores :: !w.stores[c].pc.Shifting? && !w.stores[c].pc.Sweeping?
  }

  lemma AgreementHasNoSurplus(w: World)
    requires NothingShifting(w) && w.sizes == ClusterCounts(w.docs)
    ensures LowRowsAreOwed(w) && forall k: Id :: Surplus(w, k) == 0 && SizeOf(w.sizes, k) >= 0
  {
    Recount(w.sizes, w.docs);
    forall k: Id
      ensures k in w.sizes ==> w.sizes[k] > 0
      ensures Surplus(w, k) == 0 && SizeOf(w.sizes, k) >= 0
    {
      assert CountedAt(w.sizes, w.docs, k);
      assert Incrementing(w.stores, k) == {} && Decrementing(w.stores, k) == {};
    }
  }

  /** From any agreeing state and in every interleaving of any calls, overlapping or not: once
      all have ended every row is positive and holds its count plus its total drift, so the
      projection agrees exactly when the drifts of every cluster add up to zero. */
  lemma DriftExactly(w: World, events: seq<Event>)
    requires StoresQuiet(w) && w.sizes == ClusterCounts(w.docs)
    ensures var w' := Run(w, events);
      StoresQuiet(w') ==>
        && (forall k | k in w'.sizes :: w'.sizes[k] > 0)
        && (forall k: Id :: SizeOf(w'.sizes, k) == |PlacedIn(w'.docs, k)| + TotalDrift(w, events, k))
        && (w'.sizes == ClusterCounts(w'.docs) <==> forall k: Id :: TotalDrift(w, events, k) == 0)
  {
    var w' := Run(w, events);
    AgreementHasNoSurplus(w);
    RunKeepsLowRows(w, events);
    if StoresQuiet(w') {
      hide Surplus, LowRowsAreOwed, TotalDrift, Run, StoresQuiet, ClusterIndex.ClusterCounts, ClusterIndex.PlacedIn;
      QuietAgreementBySurplus(w');
      forall k: Id
        ensures Surplus(w', k) == TotalDrift(w, events, k)
        ensures SizeOf(w'.sizes, k) == |PlacedIn(w'.docs, k)| + TotalDrift(w, events, k)
        ensures k in w'.sizes ==> w'.sizes[k] > 0
      {
        RunLedger(w, events, k);
        QuietSurplus(w', k);
      }
    }
  }
}
