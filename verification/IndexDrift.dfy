/**
 Calls on one mention that overlap: for each way their steps can cross, exactly when the
 projection still counts the decisions once both calls have ended.
 */
module IndexDrift {
  import opened Common
  import opened Decisions
  import opened ClusterSizes
  import opened StoreCalls
  import opened DecisionStore
  import opened World
  import opened ClusterIndex
  import opened DriftLedger
  import opened Schedules

  /** One whole shift does to the count what a recount would do. */
  lemma MovedCounts(docs: Docs, id: Id, d: Decision)
    ensures var source, counts := SourceOf(docs, id), ClusterCounts(docs);
      ClusterCounts(docs[id := d])
      == if source == Some(ClusterOf(d)) then counts else ShiftedSizes(counts, source, ClusterOf(d))
  {
    hide ClusterIndex.ClusterCounts;
    var source, target := SourceOf(docs, id), ClusterOf(d);
    var counts := ClusterCounts(docs);
    var after := if source == Some(target) then counts else ShiftedSizes(counts, source, target);
    var docs' := docs[id := d];
    Recount(counts, docs);
    forall k: Id
      ensures CountedAt(after, docs', k)
    {
      assert CountedAt(counts, docs, k);
      PlacedUpdate(docs, id, d, k);
      SourceIsPlaced(docs, id, k);
      if source != Some(target) {
        hide ShiftedSizes, ClusterIndex.PlacedIn;
        ShiftedSizesRow(counts, source, target, k);
      }
    }
    Recount(after, docs');
  }

  lemma SourceIsPlaced(docs: Docs, id: Id, k: Id)
    ensures SourceOf(docs, id) == Some(k) ==> id in PlacedIn(docs, k) && |PlacedIn(docs, k)| >= 1
  {
    if SourceOf(docs, id) == Some(k) {
      assert id in PlacedIn(docs, k);
    }
  }

  ghost predicate OthersQuiet(w: World, x: Id, y: Id) {
    forall c | c in w.stores && c != x && c != y :: !Active(w.stores[c])
  }

  // ---- Both calls read before either wrote ----

  ghost predicate ReadTogether(w: World, x: Id, y: Id) {
    && x != y && x in w.stores && y in w.stores && w.stores[x].args.id == w.stores[y].args.id
    && var id := w.stores[x].args.id;
    && id in w.docs
    && w.stores[x].pc == w.stores[y].pc == Updating(Some(ClusterOf(w.docs[id])))
  }

  /** The row after an update dated `at`, accepted or not. */
  function Tried(d: Decision, args: StoreArgs): Decision {
    if Boundary(d) < args.at then MovedDocument(d, args.mention, args.outcome, args.at) else d
  }

  lemma UpdateTried(w: World, c: Id, choice: Choice) returns (w': World)
    requires c in w.stores && w.stores[c].pc.Updating? && w.stores[c].args.id in w.docs
    ensures w' == StepStoreCall(w, c, choice.duplicateKey, choice.decrementFirst)
    ensures w' == Step(w, StepStore(c, choice.duplicateKey, choice.decrementFirst))
    ensures var args := w.stores[c].args; var d := w.docs[args.id];
      && w'.docs == w.docs[args.id := Tried(d, args)] && w'.sizes == w.sizes
      && w'.stores == w.stores[c := StoreCall(args,
           if Boundary(d) < args.at
           then AfterWrite(true, w.stores[c].pc.seen, Tried(d, args), args.outcome.current.clusterId)
           else FetchingStale)]
  {
    w' := CollectionStep(w, c, choice);
    assert w.docs[w.stores[c].args.id := w.docs[w.stores[c].args.id]] == w.docs;
  }

  ghost predicate NoStarts(events: seq<Event>) {
    forall e | e in events :: !e.StartStore?
  }

  lemma {:induction false} NoStartsNoOverlap(w: World, events: seq<Event>)
    requires NoStarts(events)
    ensures NeverOverlapping(w, events)
    decreases |events|
  {
    hide Step;
    if events == [] {
    } else {
      NoStartsNoOverlap(Step(w, events[0]), events[1..]);
    }
  }

  /** Both writes will be accepted, and the first one changes the cluster. */
  predicate Drifts(d: Decision, a: StoreArgs, b: StoreArgs) {
    Boundary(d) < a.at < b.at && a.outcome.current.clusterId != ClusterOf(d)
  }

  /** In a quiet projection nothing is owed and no row is zero. */
  lemma NothingOwed(w: World, x: Id, y: Id, k: Id)
    requires ReadTogether(w, x, y) && OthersQuiet(w, x, y) && w.sizes == ClusterCounts(w.docs)
    ensures Incrementing(w.stores, k) == {} && Decrementing(w.stores, k) == {}
    ensures SizeOf(w.sizes, k) == |PlacedIn(w.docs, k)| && (k in w.sizes ==> w.sizes[k] != 0)
  {
    Recount(w.sizes, w.docs);
    assert CountedAt(w.sizes, w.docs, k);
  }

  /** After the first write the calls are in order again, unless they drift: either the write
      left the row where it was, or the other one will be rejected. */
  lemma FirstWriteKeepsIndex(w: World, x: Id, y: Id, choice: Choice)
    requires ReadTogether(w, x, y) && OthersQuiet(w, x, y) && w.sizes == ClusterCounts(w.docs)
    requires !Drifts(w.docs[w.stores[x].args.id], w.stores[x].args, w.stores[y].args)
    ensures IndexInv(Step(w, StepStore(x, choice.duplicateKey, choice.decrementFirst)))
  {
    hide Step, StepStoreCall, ClusterIndex.ClusterCounts;
    var w1 := UpdateTried(w, x, choice);
    var a := w.stores[x].args;
    var d1 := Tried(w.docs[a.id], a);
    forall c | c in w1.stores
      ensures CallOk(w1.docs, w1.stores[c])
      ensures Pending(w1.docs, w1.stores[c]) ==> c == x || (c == y && !Pending(w1.docs, w1.stores[x]))
    {
    }
    forall k: Id
      ensures BalancedAt(w1.sizes, w1.docs, w1.stores, k) && (k in w1.sizes ==> w1.sizes[k] != 0)
    {
      hide CallOk, Pending, ClusterIndex.PlacedIn, Incrementing, Decrementing;
      NothingOwed(w, x, y, k);
      OwedUpdate(w.stores, x, w1.stores[x], k);
      PlacedUpdate(w.docs, a.id, d1, k);
    }
  }

  /** The drift from the first write on: whatever else moves, the cluster `x` moved the row to
      is only ever counted up, and once `y` has moved the row on it counts one too many. */
  ghost predicate Drifting(w: World, x: Id, y: Id) {
    && x != y && x in w.stores && y in w.stores && OthersQuiet(w, x, y)
    && w.stores[y].args.id in w.docs
    && var cx, cy, there := w.stores[x], w.stores[y], w.stores[x].args.outcome.current.clusterId;
    && (cx.pc.Finished? || ShiftsElsewhere(cx.pc, there))
    && (cy.pc.Finished? || ShiftsElsewhere(cy.pc, there)
        || (cy.pc.Updating? && cy.pc.seen.Some? && cy.pc.seen.value != there
            && ClusterOf(w.docs[cy.args.id]) == there && Boundary(w.docs[cy.args.id]) < cy.args.at))
    && SizeOf(w.sizes, there) + One(OwesIncrement(cx, there)) + One(OwesIncrement(cy, there))
       == |PlacedIn(w.docs, there)| + One(!cy.pc.Updating?)
  }

  /** The call takes nothing from `k` and sweeps some other row. */
  predicate ShiftsElsewhere(pc: StorePc, k: Id) {
    || (pc.Shifting? && pc.source.Some? && pc.source.value != k)
    || (pc.Sweeping? && pc.emptied != k)
  }

  lemma FirstWriteStartsDrift(w: World, x: Id, y: Id, choice: Choice)
    requires ReadTogether(w, x, y) && OthersQuiet(w, x, y) && w.sizes == ClusterCounts(w.docs)
    requires Drifts(w.docs[w.stores[x].args.id], w.stores[x].args, w.stores[y].args)
    ensures var w' := Step(w, StepStore(x, choice.duplicateKey, choice.decrementFirst));
      Drifting(w', x, y) && w'.stores[x].args == w.stores[x].args
  {
    hide Step, StepStoreCall, ClusterIndex.ClusterCounts, ClusterIndex.PlacedIn;
    var w1 := UpdateTried(w, x, choice);
    var a := w.stores[x].args;
    var there := a.outcome.current.clusterId;
    NothingOwed(w, x, y, there);
    PlacedUpdate(w.docs, a.id, Tried(w.docs[a.id], a), there);
  }

  lemma ShiftElsewhereCounts(w: World, c: Id, duplicateKey: bool, decrementFirst: bool, k: Id)
    requires c in w.stores && ShiftsElsewhere(w.stores[c].pc, k)
    ensures var w' := StepStoreCall(w, c, duplicateKey, decrementFirst);
      && w'.docs == w.docs
      && (w'.stores[c].pc.Finished? || ShiftsElsewhere(w'.stores[c].pc, k))
      && SizeOf(w'.sizes, k) + One(OwesIncrement(w'.stores[c], k))
         == SizeOf(w.sizes, k) + One(OwesIncrement(w.stores[c], k))
  {
  }

  lemma StoreStepDrifts(w: World, x: Id, y: Id, c: Id, duplicateKey: bool, decrementFirst: bool)
    requires Drifting(w, x, y) && c in w.stores
    ensures Drifting(StepStoreCall(w, c, duplicateKey, decrementFirst), x, y)
  {
    hide StepStoreCall, ClusterIndex.PlacedIn;
    var there := w.stores[x].args.outcome.current.clusterId;
    var w' := StepStoreCall(w, c, duplicateKey, decrementFirst);
    StoreStepFootprint(w, c, duplicateKey, decrementFirst);
    if w.stores[c].pc.Finished? {
      FinishedCallRests(w, c, duplicateKey, decrementFirst);
    } else if w.stores[c].pc.Updating? {
      assert c == y;
      var w1 := UpdateTried(w, y, Choice(duplicateKey, decrementFirst));
      PlacedUpdate(w.docs, w.stores[y].args.id, Tried(w.docs[w.stores[y].args.id], w.stores[y].args), there);
    } else {
      ShiftElsewhereCounts(w, c, duplicateKey, decrementFirst, there);
    }
  }

  lemma FinishedCallRests(w: World, c: Id, duplicateKey: bool, decrementFirst: bool)
    requires c in w.stores && w.stores[c].pc.Finished?
    ensures StepStoreCall(w, c, duplicateKey, decrementFirst) == w
  {
    assert w.stores[c := w.stores[c]] == w.stores;
  }

  lemma StepDrifts(w: World, x: Id, y: Id, e: Event)
    requires Drifting(w, x, y) && !e.StartStore?
    ensures Drifting(Step(w, e), x, y) && Step(w, e).stores[x].args == w.stores[x].args
  {
    hide StepStoreCall, StepCuratorCall;
    if e.StepStore? && e.call in w.stores {
      StoreStepDrifts(w, x, y, e.call, e.duplicateKey, e.decrementFirst);
      StoreStepFootprint(w, e.call, e.duplicateKey, e.decrementFirst);
    } else if e.StepCurator? && e.call in w.curators {
      CuratorStepFootprint(w, e.call);
      var there := w.stores[x].args.outcome.current.clusterId;
      assert PlacedIn(Step(w, e).docs, there) == PlacedIn(w.docs, there);
    }
  }

  lemma {:induction false} RunDrifts(w: World, x: Id, y: Id, events: seq<Event>)
    requires Drifting(w, x, y) && NoStarts(events)
    ensures var w' := Run(w, events);
      Drifting(w', x, y) && w'.stores[x].args == w.stores[x].args
    decreases |events|
  {
    hide Step, OthersQuiet, ShiftsElsewhere, ClusterIndex.PlacedIn;
    if events == [] {
    } else {
      StepDrifts(w, x, y, events[0]);
      RunDrifts(Step(w, events[0]), x, y, events[1..]);
    }
  }

  /** Two calls on one mention have both read it, and `x` is the first to write. Whatever order
      everything else happens in, once all calls have ended the projection is wrong exactly
      when both writes were accepted and the first one changed the cluster: that cluster then
      keeps a count for a decision it no longer holds. */
  lemma OverlapDriftsExactly(w: World, x: Id, y: Id, choice: Choice, events: seq<Event>)
    requires ReadTogether(w, x, y) && OthersQuiet(w, x, y) && w.sizes == ClusterCounts(w.docs) && NoStarts(events)
    ensures var w' := Run(w, [StepStore(x, choice.duplicateKey, choice.decrementFirst)] + events);
      var a := w.stores[x].args;
      var d, there := w.docs[a.id], a.outcome.current.clusterId;
      StoresQuiet(w') ==>
        && (w'.sizes == ClusterCounts(w'.docs) <==> !Drifts(d, a, w.stores[y].args))
        && SizeOf(w'.sizes, there) == |PlacedIn(w'.docs, there)| + One(Drifts(d, a, w.stores[y].args))
  {
    hide Step, IndexInv, OthersQuiet, ClusterIndex.ClusterCounts, ClusterIndex.PlacedIn;
    var first := StepStore(x, choice.duplicateKey, choice.decrementFirst);
    var w1, w' := Step(w, first), Run(w, [first] + events);
    assert ([first] + events)[1..] == events;
    var there := w.stores[x].args.outcome.current.clusterId;
    Recount(w'.sizes, w'.docs);
    if Drifts(w.docs[w.stores[x].args.id], w.stores[x].args, w.stores[y].args) {
      FirstWriteStartsDrift(w, x, y, choice);
      RunDrifts(w1, x, y, events);
      if StoresQuiet(w') {
        assert !CountedAt(w'.sizes, w'.docs, there);
      }
    } else {
      FirstWriteKeepsIndex(w, x, y, choice);
      NoStartsNoOverlap(w1, events);
      RunKeepsIndex(w1, events);
      if StoresQuiet(w') {
        QuietAgreement(w');
        assert CountedAt(w'.sizes, w'.docs, there);
      }
    }
  }
}
