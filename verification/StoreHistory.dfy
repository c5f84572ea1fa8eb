/**
 What interleaved store calls do to the placement of each mention.
 */
module StoreHistory {
  import opened Common
  import opened Decisions
  import opened StoreCalls
  import opened World

  ghost predicate HistoryInv(w: World) {
    && UpdatedAfterCreated(w.docs)
    && forall c | c in w.stores :: StorePcOk(w.docs, w.stores[c].args, w.stores[c].pc)
  }

  /** How often a row was written against how its boundary moved. */
  ghost predicate WritesRaiseBoundary(w: World, w': World, id: Id) {
    && w.placementWrites[id] <= w'.placementWrites[id]
    && (id in w.docs ==>
          && id in w'.docs
          && (w.placementWrites[id] < w'.placementWrites[id] <==> Boundary(w.docs[id]) < Boundary(w'.docs[id]))
          && (w.placementWrites[id] == w'.placementWrites[id] ==>
                w'.docs[id].outcome == w.docs[id].outcome && w'.docs[id].updatedAt == w.docs[id].updatedAt))
    && (id !in w.docs ==> (id in w'.docs <==> w.placementWrites[id] < w'.placementWrites[id]))
  }

  ghost predicate Forward(w: World, w': World) {
    DocsAdvance(w.docs, w'.docs) && forall id: Id :: WritesRaiseBoundary(w, w', id)
  }

  lemma StoreStepForward(w: World, c: Id, duplicateKey: bool, decrementFirst: bool)
    requires HistoryInv(w) && c in w.stores
    ensures var w' := StepStoreCall(w, c, duplicateKey, decrementFirst);
      HistoryInv(w') && Forward(w, w')
  {
    var w' := StepStoreCall(w, c, duplicateKey, decrementFirst);
    var call := w.stores[c];
    StoreStepAdvances(true, w.docs, call.args, call.pc, duplicateKey);
    forall id: Id
      ensures WritesRaiseBoundary(w, w', id)
    {
      assert id in w.docs ==> id in w'.docs && RowAdvances(w.docs[id], w'.docs[id]);
    }
    forall d | d in w'.stores
      ensures StorePcOk(w'.docs, w'.stores[d].args, w'.stores[d].pc)
    {
      assert StorePcOk(w.docs, w.stores[d].args, w.stores[d].pc);
    }
  }

  lemma CuratorStepForward(w: World, c: Id)
    requires HistoryInv(w) && c in w.curators
    ensures var w' := StepCuratorCall(w, c);
      HistoryInv(w') && Forward(w, w')
  {
    var w' := StepCuratorCall(w, c);
    CuratorStepFootprint(w, c);
    forall id: Id
      ensures WritesRaiseBoundary(w, w', id)
    {
    }
    forall d | d in w'.stores
      ensures StorePcOk(w'.docs, w'.stores[d].args, w'.stores[d].pc)
    {
      assert StorePcOk(w.docs, w.stores[d].args, w.stores[d].pc);
    }
  }

  lemma StepForward(w: World, e: Event)
    requires HistoryInv(w)
    ensures HistoryInv(Step(w, e)) && Forward(w, Step(w, e))
  {
    match e
    case StartStore(_, _) =>
    case StepStore(c, duplicateKey, decrementFirst) =>
      if c in w.stores {
        StoreStepForward(w, c, duplicateKey, decrementFirst);
      }
    case StartCurator(_, _, _) =>
    case StepCurator(c) =>
      if c in w.curators {
        CuratorStepForward(w, c);
      }
  }

  lemma ForwardTransitive(a: World, b: World, c: World)
    requires Forward(a, b) && Forward(b, c)
    ensures Forward(a, c)
  {
    DocsAdvanceTransitive(a.docs, b.docs, c.docs);
    forall id: Id
      ensures WritesRaiseBoundary(a, c, id)
    {
      assert WritesRaiseBoundary(a, b, id) && WritesRaiseBoundary(b, c, id);
    }
  }

  /** In every interleaving, overlapping and racing inserts included: `created_at` never
      changes, a present `updated_at` exceeds it, a row's boundary rises exactly when one of
      its placement writes was accepted, and no call ends in an operation failure. */
  lemma {:induction false} PlacementsOnlyMoveForward(w: World, events: seq<Event>)
    requires HistoryInv(w)
    ensures var w' := Run(w, events);
      && Forward(w, w')
      && HistoryInv(w')
      && forall c | c in w'.stores :: w'.stores[c].pc != Finished(OperationFailed)
    decreases |events|
  {
    if events == [] {
    } else {
      var next := Step(w, events[0]);
      StepForward(w, events[0]);
      PlacementsOnlyMoveForward(next, events[1..]);
      ForwardTransitive(w, next, Run(w, events));
    }
    var w' := Run(w, events);
    forall c | c in w'.stores
      ensures w'.stores[c].pc != Finished(OperationFailed)
    {
      assert StorePcOk(w'.docs, w'.stores[c].args, w'.stores[c].pc);
    }
  }
}
