/**
 Two calls on one mention, the second reading between the first one's write and its shift.
 */
module EarlyReaders {
  import opened Common
  import opened Decisions
  import opened ClusterSizes
  import opened StoreCalls
  import opened World
  import opened ClusterIndex
  import opened DriftLedger
  import opened IndexDrift

  /** `x` is about to insert the row, or to move it from the cluster it read; `y` has not read. */
  ghost predicate AboutToWrite(w: World, x: Id, y: Id) {
    && x != y && x in w.stores && y in w.stores && OthersQuiet(w, x, y)
    && w.stores[x].args.id == w.stores[y].args.id
    && var id, pc := w.stores[x].args.id, w.stores[x].pc;
    && w.stores[y].pc.Reading?
    && (if id in w.docs
        then pc == Updating(Some(ClusterOf(w.docs[id]))) && Boundary(w.docs[id]) < w.stores[x].args.at
        else pc.Inserting?)
  }

  /** `x` counts `there` up and takes, if anything, from another cluster. */
  predicate Brings(pc: StorePc, there: Id) {
    || pc.Finished?
    || (pc.Shifting? && pc.source != Some(there) && (pc.owesDecrement ==> pc.source.Some?))
    || (pc.Sweeping? && pc.emptied != there)
  }

  /** `y` moved the row on and takes from `there`. */
  predicate Removes(pc: StorePc, there: Id) {
    || (pc.Shifting? && pc.source == Some(there))
    || (pc.Sweeping? && pc.emptied == there)
  }

  /** The two calls after the write and the read; `others` is what else `there` holds. */
  ghost predicate Crossing(w: World, x: Id, y: Id, others: set<Id>) {
    && x != y && x in w.stores && y in w.stores && OthersQuiet(w, x, y)
    && w.stores[x].args.id == w.stores[y].args.id && w.stores[x].args.id in w.docs
    && var id, there, pc := w.stores[x].args.id, w.stores[x].args.outcome.current.clusterId, w.stores[y].pc;
    && Brings(w.stores[x].pc, there)
    && PlacedIn(w.docs, there) - {id} == others
    && (|| pc.Finished? || pc.FetchingStale?
        || (pc == Updating(Some(there)) && ClusterOf(w.docs[id]) == there)
        || (Removes(pc, there) && ClusterOf(w.docs[id]) == w.stores[y].args.outcome.current.clusterId != there))
  }

  ghost predicate Sound(w: World, there: Id, lost: bool) {
    && LowRowsAreOwed(w)
    && forall k: Id :: Surplus(w, k) == One(lost && k == there) && SizeOf(w.sizes, k) >= 0
  }

  /** At this step `y` takes from `there` while `x` has not counted it up yet. */
  predicate TakesTooEarly(w: World, e: Event, x: Id, y: Id) {
    && e.StepStore? && e.call == y && x in w.stores && y in w.stores
    && w.stores[x].pc.Shifting? && w.stores[x].pc.owesIncrement
    && w.stores[y].pc.Shifting? && w.stores[y].pc.owesDecrement && w.stores[y].pc.source.Some?
    && (e.decrementFirst || !w.stores[y].pc.owesIncrement)
  }

  predicate TakenTooEarly(w: World, events: seq<Event>, x: Id, y: Id)
    decreases |events|
  {
    events != [] && (TakesTooEarly(w, events[0], x, y) || TakenTooEarly(Step(w, events[0]), events[1..], x, y))
  }

  lemma CrossingStep(w: World, x: Id, y: Id, others: set<Id>, c: Id, duplicateKey: bool, decrementFirst: bool)
    requires Crossing(w, x, y, others) && (c == x || c == y)
    ensures Crossing(StepStoreCall(w, c, duplicateKey, decrementFirst), x, y, others)
  {
    hide ClusterSizes.Apply, ClusterSizes.Swept;
    var w' := StepStoreCall(w, c, duplicateKey, decrementFirst);
    StoreStepFootprint(w, c, duplicateKey, decrementFirst);
    var id, there := w.stores[x].args.id, w.stores[x].args.outcome.current.clusterId;
    assert PlacedIn(w'.docs, there) - {id} == PlacedIn(w.docs, there) - {id};
  }

  lemma PairSize(s: set<Id>, x: Id, y: Id)
    requires x != y && s <= {x, y}
    ensures |s| == One(x in s) + One(y in s)
  {
    assert s == (if x in s then {x} else {}) + (if y in s then {y} else {});
  }

  /** Who owes the row of `k` something. */
  lemma OwedInCrossing(w: World, x: Id, y: Id, others: set<Id>, k: Id)
    requires Crossing(w, x, y, others)
    ensures var cx, cy := w.stores[x], w.stores[y];
      && |Incrementing(w.stores, k)| == One(OwesIncrement(cx, k)) + One(OwesIncrement(cy, k))
      && |Decrementing(w.stores, k)| == One(OwesDecrement(cx, k)) + One(OwesDecrement(cy, k))
      && (SweepOwed(w.stores, k) ==> OwesSweep(cx, k) || OwesSweep(cy, k))
  {
    hide Brings, Removes, ClusterIndex.PlacedIn;
    PairSize(Incrementing(w.stores, k), x, y);
    PairSize(Decrementing(w.stores, k), x, y);
  }

  /** The size of a row, from what is placed there and what the two calls owe it. */
  lemma SizeInCrossing(w: World, x: Id, y: Id, others: set<Id>, lost: bool, k: Id)
    requires Crossing(w, x, y, others) && Sound(w, w.stores[x].args.outcome.current.clusterId, lost)
    ensures var cx, cy := w.stores[x], w.stores[y];
      && SizeOf(w.sizes, k) == |PlacedIn(w.docs, k)| + One(OwesDecrement(cx, k)) + One(OwesDecrement(cy, k))
           - One(OwesIncrement(cx, k)) - One(OwesIncrement(cy, k)) + One(lost && k == cx.args.outcome.current.clusterId)
      && SizeOf(w.sizes, k) >= 0
      && (k in w.sizes && !OwesSweep(cx, k) && !OwesSweep(cy, k) ==> w.sizes[k] > 0)
      && (ClusterOf(w.docs[cx.args.id]) == k ==> |PlacedIn(w.docs, k)| >= 1)
  {
    hide Brings, Removes, ClusterIndex.Incrementing, ClusterIndex.Decrementing;
    OwedInCrossing(w, x, y, others, k);
    assert ClusterOf(w.docs[w.stores[x].args.id]) == k ==> w.stores[x].args.id in PlacedIn(w.docs, k);
  }

  /** `x` always finds the row it takes from: the mention was there, or has come back. */
  lemma BringerDriftsNothing(w: World, x: Id, y: Id, others: set<Id>, lost: bool,
                             duplicateKey: bool, decrementFirst: bool, k: Id)
    requires Crossing(w, x, y, others) && Sound(w, w.stores[x].args.outcome.current.clusterId, lost)
    ensures StepDrift(w, StepStore(x, duplicateKey, decrementFirst), k) == 0
  {
    SizeInCrossing(w, x, y, others, lost, k);
    hide Sound, ClusterIndex.PlacedIn;
  }

  /** `y` finds none exactly when `there` holds nothing else and was not counted up yet. */
  lemma RemoverDrift(w: World, x: Id, y: Id, others: set<Id>, lost: bool,
                     duplicateKey: bool, decrementFirst: bool, k: Id)
    requires Crossing(w, x, y, others) && Sound(w, w.stores[x].args.outcome.current.clusterId, lost)
    requires w.stores[y].pc.Shifting? && w.stores[y].pc.owesDecrement ==> !lost
    ensures var e := StepStore(y, duplicateKey, decrementFirst);
      StepDrift(w, e, k)
      == One(others == {} && TakesTooEarly(w, e, x, y) && k == w.stores[x].args.outcome.current.clusterId)
  {
    var there := w.stores[x].args.outcome.current.clusterId;
    SizeInCrossing(w, x, y, others, lost, there);
    assert Removes(w.stores[y].pc, there) ==> PlacedIn(w.docs, there) == others;
    hide Sound, ClusterIndex.PlacedIn;
  }

  /** No row of a crossing falls below zero. */
  lemma CrossingStaysNonNegative(w: World, x: Id, y: Id, others: set<Id>, lost: bool, c: Id,
                                 duplicateKey: bool, decrementFirst: bool, k: Id)
    requires Crossing(w, x, y, others) && Sound(w, w.stores[x].args.outcome.current.clusterId, lost)
    requires c == x || c == y
    ensures SizeOf(StepStoreCall(w, c, duplicateKey, decrementFirst).sizes, k) >= 0
  {
    SizeInCrossing(w, x, y, others, lost, k);
    hide Sound, ClusterIndex.PlacedIn, StoreCalls.StoreStep;
  }

  /** `y` has not taken from `there` yet. */
  predicate HasNotTaken(pc: StorePc) {
    pc.Updating? || (pc.Shifting? && pc.owesDecrement)
  }

  lemma TakingOnce(w: World, x: Id, y: Id, others: set<Id>, e: Event)
    requires Crossing(w, x, y, others) && y in Step(w, e).stores
    ensures TakesTooEarly(w, e, x, y) ==> !HasNotTaken(Step(w, e).stores[y].pc)
    ensures HasNotTaken(Step(w, e).stores[y].pc) ==> HasNotTaken(w.stores[y].pc)
  {
    hide ClusterSizes.Apply, ClusterSizes.Swept, ClusterIndex.PlacedIn;
  }

  /** One step of either call: the surplus of `there` appears exactly when `y` takes too early
      from a cluster that holds nothing else. */
  lemma OwnCrossingStep(w: World, x: Id, y: Id, others: set<Id>, lost: bool, e: Event)
    requires Crossing(w, x, y, others) && Sound(w, w.stores[x].args.outcome.current.clusterId, lost)
    requires HasNotTaken(w.stores[y].pc) ==> !lost
    requires e.StepStore? && (e.call == x || e.call == y)
    ensures var lost' := lost || (others == {} && TakesTooEarly(w, e, x, y)); var w' := Step(w, e);
      Crossing(w', x, y, others) && Sound(w', w.stores[x].args.outcome.current.clusterId, lost')
  {
    var there := w.stores[x].args.outcome.current.clusterId;
    var w' := Step(w, e);
    CrossingStep(w, x, y, others, e.call, e.duplicateKey, e.decrementFirst);
    StepKeepsLowRows(w, e);
    hide StepStoreCall, Crossing, Surplus, StepDrift, LowRowsAreOwed, ClusterIndex.PlacedIn;
    forall k: Id
      ensures Surplus(w', k) == One((lost || (others == {} && TakesTooEarly(w, e, x, y))) && k == there)
      ensures SizeOf(w'.sizes, k) >= 0
    {
      StepLedger(w, e, k);
      CrossingStaysNonNegative(w, x, y, others, lost, e.call, e.duplicateKey, e.decrementFirst, k);
      if e.call == x {
        BringerDriftsNothing(w, x, y, others, lost, e.duplicateKey, e.decrementFirst, k);
      } else {
        RemoverDrift(w, x, y, others, lost, e.duplicateKey, e.decrementFirst, k);
      }
    }
  }

  /** Any other event leaves both calls, their row and every size alone. */
  lemma OtherCrossingStep(w: World, x: Id, y: Id, others: set<Id>, lost: bool, e: Event)
    requires Crossing(w, x, y, others) && Sound(w, w.stores[x].args.outcome.current.clusterId, lost)
    requires !e.StartStore? && !(e.StepStore? && (e.call == x || e.call == y))
    ensures var w' := Step(w, e);
      && Crossing(w', x, y, others) && Sound(w', w.stores[x].args.outcome.current.clusterId, lost)
      && w'.stores[x] == w.stores[x] && w'.stores[y] == w.stores[y]
  {
    hide StepStoreCall, StepCuratorCall;
    var w' := Step(w, e);
    if e.StepStore? && e.call in w.stores {
      FinishedCallRests(w, e.call, e.duplicateKey, e.decrementFirst);
    } else {
      if e.StepCurator? && e.call in w.curators {
        CuratorStepFootprint(w, e.call);
      }
      StepKeepsLowRows(w, e);
      assert forall k: Id :: PlacedIn(w'.docs, k) == PlacedIn(w.docs, k);
      hide LowRowsAreOwed, ClusterIndex.PlacedIn;
    }
  }

  lemma {:induction false} RunCrossing(w: World, x: Id, y: Id, others: set<Id>, lost: bool, events: seq<Event>)
    requires Crossing(w, x, y, others) && Sound(w, w.stores[x].args.outcome.current.clusterId, lost)
    requires (HasNotTaken(w.stores[y].pc) ==> !lost) && NoStarts(events)
    ensures Sound(Run(w, events), w.stores[x].args.outcome.current.clusterId,
                  lost || (others == {} && TakenTooEarly(w, events, x, y)))
    decreases |events|
  {
    if events == [] {
    } else {
      hide Step, Sound, Brings, Removes, OthersQuiet, HasNotTaken, TakesTooEarly, ClusterIndex.PlacedIn;
      var e := events[0];
      var next, lost' := Step(w, e), lost || (others == {} && TakesTooEarly(w, e, x, y));
      if e.StepStore? && (e.call == x || e.call == y) {
        OwnCrossingStep(w, x, y, others, lost, e);
        OwnArguments(w, x, e);
      } else {
        OtherCrossingStep(w, x, y, others, lost, e);
        NobodyTakes(w, x, y, e);
      }
      TakingOnce(w, x, y, others, e);
      RunCrossing(next, x, y, others, lost', events[1..]);
    }
  }

  lemma OwnArguments(w: World, x: Id, e: Event)
    requires x in w.stores
    ensures x in Step(w, e).stores && Step(w, e).stores[x].args == w.stores[x].args
  {
  }

  lemma NobodyTakes(w: World, x: Id, y: Id, e: Event)
    requires !(e.StepStore? && e.call == y)
    ensures !TakesTooEarly(w, e, x, y)
  {
  }

  lemma WriteThenRead(w: World, x: Id, y: Id, write: Event, read: Event)
    requires AboutToWrite(w, x, y)
    requires write.StepStore? && write.call == x && read.StepStore? && read.call == y
    ensures var w' := Step(w, write); var w2 := Step(w', read);
      var others := PlacedIn(w.docs, w.stores[x].args.outcome.current.clusterId) - {w.stores[x].args.id};
      && Crossing(w2, x, y, others) && w2.stores[x].args == w.stores[x].args && w2.sizes == w.sizes
      && forall k: Id :: StepDrift(w, write, k) == 0 && StepDrift(w', read, k) == 0
  {
    var w2 := Step(Step(w, write), read);
    var id, there := w.stores[x].args.id, w.stores[x].args.outcome.current.clusterId;
    assert PlacedIn(w2.docs, there) - {id} == PlacedIn(w.docs, there) - {id};
  }

  lemma CrossingStarts(w: World, x: Id, y: Id, write: Event, read: Event)
    requires AboutToWrite(w, x, y) && w.sizes == ClusterCounts(w.docs)
    requires write.StepStore? && write.call == x && read.StepStore? && read.call == y
    ensures var w2 := Step(Step(w, write), read); var there := w.stores[x].args.outcome.current.clusterId;
      && Crossing(w2, x, y, PlacedIn(w.docs, there) - {w.stores[x].args.id})
      && w2.stores[x].args == w.stores[x].args && Sound(w2, there, false)
  {
    AgreementHasNoSurplus(w);
    WriteThenRead(w, x, y, write, read);
    hide Step, Surplus, StepDrift, LowRowsAreOwed, Crossing, ClusterIndex.ClusterCounts, ClusterIndex.PlacedIn;
    var w1 := Step(w, write);
    StepKeepsLowRows(w, write);
    StepKeepsLowRows(w1, read);
    forall k: Id
      ensures Surplus(Step(w1, read), k) == 0
    {
      StepLedger(w, write, k);
      StepLedger(w1, read, k);
    }
  }

  lemma SoundAtRest(w: World, there: Id, lost: bool)
    requires StoresQuiet(w) && Sound(w, there, lost)
    ensures w.sizes == ClusterCounts(w.docs) <==> !lost
  {
    hide Surplus, LowRowsAreOwed, StoresQuiet, ClusterIndex.ClusterCounts;
    QuietAgreementBySurplus(w);
    assert Surplus(w, there) == One(lost);
  }

  /** `x` writes, `y` reads the row it wrote, and everything after that happens in any order.
      Once all calls have ended the projection is wrong exactly when `y` took its decision out
      of a cluster that held no other, before `x` had counted it in: that decrement found no
      row. */
  lemma EarlyReaderDriftsExactly(w: World, x: Id, y: Id, write: Event, read: Event, events: seq<Event>)
    requires AboutToWrite(w, x, y) && w.sizes == ClusterCounts(w.docs) && NoStarts(events)
    requires write.StepStore? && write.call == x && read.StepStore? && read.call == y
    ensures var w' := Run(w, [write, read] + events);
      var there := w.stores[x].args.outcome.current.clusterId;
      StoresQuiet(w') ==>
        (w'.sizes == ClusterCounts(w'.docs) <==>
           !(PlacedIn(w.docs, there) - {w.stores[x].args.id} == {}
             && TakenTooEarly(Step(Step(w, write), read), events, x, y)))
  {
    var there := w.stores[x].args.outcome.current.clusterId;
    var others := PlacedIn(w.docs, there) - {w.stores[x].args.id};
    CrossingStarts(w, x, y, write, read);
    hide Step, Surplus, Crossing, Sound, AboutToWrite, TakenTooEarly;
    hide ClusterIndex.ClusterCounts, ClusterIndex.PlacedIn;
    var w1, w' := Step(w, write), Run(w, [write, read] + events);
    var w2 := Step(w1, read);
    assert ([write, read] + events)[1..] == [read] + events && ([read] + events)[1..] == events;
    assert Run(w1, [read] + events) == Run(w2, events);
    RunCrossing(w2, x, y, others, false, events);
    if StoresQuiet(w') {
      SoundAtRest(w', there, others == {} && TakenTooEarly(w2, events, x, y));
    }
  }
}
