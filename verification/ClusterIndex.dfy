/**
 The counter projection against the decisions it counts, over every interleaving in which no
 two calls on one mention may both still write it or owe its counters.
 */
module ClusterIndex {
  import opened Common
  import opened Decisions
  import opened ClusterSizes
  import opened StoreCalls
  import opened World

  ghost function PlacedIn(docs: Docs, k: Id): set<Id> {
    set id | id in docs && ClusterOf(docs[id]) == k
  }

  ghost predicate OwesIncrement(call: StoreCall, k: Id) {
    call.pc.Shifting? && call.pc.owesIncrement && call.args.outcome.current.clusterId == k
  }

  ghost predicate OwesDecrement(call: StoreCall, k: Id) {
    call.pc.Shifting? && call.pc.owesDecrement && call.pc.source == Some(k)
  }

  /** The call took one from `k` and will still sweep its row. */
  ghost predicate OwesSweep(call: StoreCall, k: Id) {
    || (call.pc.Shifting? && !call.pc.owesDecrement && call.pc.source == Some(k))
    || (call.pc.Sweeping? && call.pc.emptied == k)
  }

  ghost function Incrementing(stores: map<Id, StoreCall>, k: Id): set<Id> {
    set c | c in stores && OwesIncrement(stores[c], k)
  }

  ghost function Decrementing(stores: map<Id, StoreCall>, k: Id): set<Id> {
    set c | c in stores && OwesDecrement(stores[c], k)
  }

  /** What a count of the collection would give: a row for every cluster in use. */
  ghost function ClusterCounts(docs: Docs): Sizes {
    var clusters := set id | id in docs :: ClusterOf(docs[id]);
    map k | k in clusters :: |PlacedIn(docs, k)|
  }

  /** The call may still write its row or owes a counter update. A call whose update is dated
      too early, or was rejected, does neither. */
  predicate Pending(docs: Docs, call: StoreCall) {
    match call.pc
    case Updating(_) => call.args.id in docs ==> Boundary(docs[call.args.id]) < call.args.at
    case FetchingStale => false
    case Sweeping(_, _) => false
    case Finished(_) => false
    case _ => true
  }

  /** A call undisturbed on its mention still finds the row as it left it. */
  ghost predicate CallOk(docs: Docs, call: StoreCall) {
    var id := call.args.id;
    match call.pc
    case PreReading => id !in docs
    case Inserting => id !in docs
    case Updating(seen) => id in docs && (Boundary(docs[id]) < call.args.at ==> seen == Some(ClusterOf(docs[id])))
    case Shifting(source, owesDecrement, owesIncrement, _) =>
      && id in docs && ClusterOf(docs[id]) == call.args.outcome.current.clusterId
      && source != Some(call.args.outcome.current.clusterId)
      && (owesDecrement ==> source.Some?)
      && (owesDecrement || owesIncrement)
    case _ => true
  }

  ghost predicate SeparateMentions(docs: Docs, stores: map<Id, StoreCall>) {
    forall c, d | c in stores && d in stores && c != d && Pending(docs, stores[c]) && Pending(docs, stores[d]) ::
      stores[c].args.id != stores[d].args.id
  }

  ghost predicate BalancedAt(sizes: Sizes, docs: Docs, stores: map<Id, StoreCall>, k: Id) {
    SizeOf(sizes, k) == |PlacedIn(docs, k)| + |Decrementing(stores, k)| - |Incrementing(stores, k)|
  }

  ghost predicate Balanced(w: World) {
    forall k: Id :: BalancedAt(w.sizes, w.docs, w.stores, k)
  }

  ghost predicate SweepOwed(stores: map<Id, StoreCall>, k: Id) {
    exists c :: c in stores && OwesSweep(stores[c], k)
  }

  ghost predicate ZeroRowsAreOwed(w: World) {
    forall k | k in w.sizes && w.sizes[k] == 0 :: SweepOwed(w.stores, k)
  }

  ghost predicate IndexInv(w: World) {
    && (forall c | c in w.stores :: CallOk(w.docs, w.stores[c]))
    && SeparateMentions(w.docs, w.stores)
    && Balanced(w)
    && ZeroRowsAreOwed(w)
  }

  ghost predicate Overlaps(w: World, e: Event) {
    e.StartStore? && exists c :: c in w.stores && Pending(w.docs, w.stores[c]) && w.stores[c].args.id == e.args.id
  }

  /** No store call starts on a mention while another one on it may still write or shift. */
  ghost predicate NeverOverlapping(w: World, events: seq<Event>)
    decreases |events|
  {
    events == [] || (!Overlaps(w, events[0]) && NeverOverlapping(Step(w, events[0]), events[1..]))
  }

  lemma PlacedUpdate(docs: Docs, id: Id, d: Decision, k: Id)
    ensures |PlacedIn(docs[id := d], k)|
         == |PlacedIn(docs, k)| + One(ClusterOf(d) == k) - One(id in docs && ClusterOf(docs[id]) == k)
  {
    UpdatedSize(PlacedIn(docs, k), PlacedIn(docs[id := d], k), id);
  }

  lemma OwedUpdate(stores: map<Id, StoreCall>, c: Id, call: StoreCall, k: Id)
    ensures |Incrementing(stores[c := call], k)|
         == |Incrementing(stores, k)| + One(OwesIncrement(call, k)) - One(c in stores && OwesIncrement(stores[c], k))
    ensures |Decrementing(stores[c := call], k)|
         == |Decrementing(stores, k)| + One(OwesDecrement(call, k)) - One(c in stores && OwesDecrement(stores[c], k))
  {
    UpdatedSize(Incrementing(stores, k), Incrementing(stores[c := call], k), c);
    UpdatedSize(Decrementing(stores, k), Decrementing(stores[c := call], k), c);
  }

  /** Every pending increment on `k` belongs to a different mention already placed in `k`. */
  lemma PendingIncrementsArePlaced(w: World, k: Id)
    requires IndexInv(w)
    ensures |Incrementing(w.stores, k)| <= |PlacedIn(w.docs, k)|
  {
    var mention := map c | c in w.stores :: w.stores[c].args.id;
    InjectionSize(Incrementing(w.stores, k), PlacedIn(w.docs, k), mention);
  }

  /** A step on the decisions collection moves both sides of the balance together. */
  lemma CollectionStepBalance(w: World, c: Id, duplicateKey: bool, k: Id)
    requires c in w.stores && CallOk(w.docs, w.stores[c]) && BalancedAt(w.sizes, w.docs, w.stores, k)
    requires !w.stores[c].pc.Shifting? && !w.stores[c].pc.Sweeping?
    ensures var w' := StepStoreCall(w, c, duplicateKey, false);
      BalancedAt(w'.sizes, w'.docs, w'.stores, k)
  {
    var w' := StepStoreCall(w, c, duplicateKey, false);
    var call := w.stores[c];
    OwedUpdate(w.stores, c, w'.stores[c], k);
    if WritesPlacement(w.docs, call.args, call.pc) {
      PlacedUpdate(w.docs, call.args.id, w'.docs[call.args.id], k);
    }
  }

  /** So does a counter step: one `$inc` of the bulk write. */
  lemma CounterStepBalance(w: World, c: Id, decrementFirst: bool, k: Id)
    requires c in w.stores && CallOk(w.docs, w.stores[c]) && BalancedAt(w.sizes, w.docs, w.stores, k)
    requires w.stores[c].pc.Shifting? || w.stores[c].pc.Sweeping?
    requires |Incrementing(w.stores, k)| <= |PlacedIn(w.docs, k)|
    ensures var w' := StepStoreCall(w, c, false, decrementFirst);
      BalancedAt(w'.sizes, w'.docs, w'.stores, k)
  {
    var w' := StepStoreCall(w, c, false, decrementFirst);
    OwedUpdate(w.stores, c, w'.stores[c], k);
    assert OwesDecrement(w.stores[c], k) ==> c in Decrementing(w.stores, k);
  }

  /** Only the counter step that takes a row down to zero creates a zero row, and its call
      then owes the sweep. */
  lemma StoreStepZeroRow(w: World, c: Id, duplicateKey: bool, decrementFirst: bool, k: Id)
    requires c in w.stores && CallOk(w.docs, w.stores[c])
    requires k in w.sizes && w.sizes[k] == 0 ==> SweepOwed(w.stores, k)
    requires BalancedAt(w.sizes, w.docs, w.stores, k)
    requires |Incrementing(w.stores, k)| <= |PlacedIn(w.docs, k)|
    requires var w' := StepStoreCall(w, c, duplicateKey, decrementFirst); k in w'.sizes && w'.sizes[k] == 0
    ensures SweepOwed(StepStoreCall(w, c, duplicateKey, decrementFirst).stores, k)
  {
    var w' := StepStoreCall(w, c, duplicateKey, decrementFirst);
    if k in w.sizes && w.sizes[k] == 0 {
      var d :| d in w.stores && OwesSweep(w.stores[d], k);
      assert d in w'.stores && OwesSweep(w'.stores[d], k);
    } else {
      assert OwesSweep(w'.stores[c], k);
    }
  }

  lemma CounterStepCallOk(w: World, c: Id, duplicateKey: bool, decrementFirst: bool)
    requires c in w.stores && CallOk(w.docs, w.stores[c])
    requires w.stores[c].pc.Shifting? || w.stores[c].pc.Sweeping?
    ensures var w' := StepStoreCall(w, c, duplicateKey, decrementFirst); CallOk(w'.docs, w'.stores[c])
  {
    hide StoreCalls.StoreStep, ClusterSizes.Apply, ClusterSizes.Swept;
  }

  lemma CollectionStepCallOk(w: World, c: Id, duplicateKey: bool, decrementFirst: bool)
    requires c in w.stores && CallOk(w.docs, w.stores[c])
    requires !w.stores[c].pc.Shifting? && !w.stores[c].pc.Sweeping?
    ensures var w' := StepStoreCall(w, c, duplicateKey, decrementFirst); CallOk(w'.docs, w'.stores[c])
  {
    hide AfterShift, ClusterSizes.Apply, ClusterSizes.Swept;
  }

  lemma OwnCallOk(w: World, c: Id, duplicateKey: bool, decrementFirst: bool)
    requires c in w.stores && CallOk(w.docs, w.stores[c])
    ensures var w' := StepStoreCall(w, c, duplicateKey, decrementFirst); CallOk(w'.docs, w'.stores[c])
  {
    hide StepStoreCall, CallOk;
    if w.stores[c].pc.Shifting? || w.stores[c].pc.Sweeping? {
      CounterStepCallOk(w, c, duplicateKey, decrementFirst);
    } else {
      CollectionStepCallOk(w, c, duplicateKey, decrementFirst);
    }
  }

  lemma CallOkOnSameRow(docs: Docs, docs': Docs, call: StoreCall)
    requires CallOk(docs, call)
    requires call.args.id in docs <==> call.args.id in docs'
    requires call.args.id in docs ==>
      && ClusterOf(docs'[call.args.id]) == ClusterOf(docs[call.args.id])
      && Boundary(docs'[call.args.id]) == Boundary(docs[call.args.id])
    ensures CallOk(docs', call) && (Pending(docs', call) <==> Pending(docs, call))
  {
  }

  /** A call that has nothing left to do on its row is not disturbed when that row moves on. */
  lemma IdleCallOnLaterRow(docs: Docs, docs': Docs, call: StoreCall)
    requires CallOk(docs, call) && !Pending(docs, call)
    requires call.args.id in docs'
    requires call.args.id in docs ==> Boundary(docs[call.args.id]) <= Boundary(docs'[call.args.id])
    ensures CallOk(docs', call) && !Pending(docs', call)
  {
  }

  /** A step writes only a row its call may still write, and raises that row's boundary. */
  lemma StoreStepWrites(w: World, c: Id, duplicateKey: bool, decrementFirst: bool)
    requires c in w.stores
    ensures var w' := StepStoreCall(w, c, duplicateKey, decrementFirst); var id := w.stores[c].args.id;
      && (Pending(w'.docs, w'.stores[c]) ==> Pending(w.docs, w.stores[c]))
      && (w'.docs != w.docs ==>
            && Pending(w.docs, w.stores[c]) && id in w'.docs && w'.docs == w.docs[id := w'.docs[id]]
            && (id in w.docs ==> Boundary(w.docs[id]) < Boundary(w'.docs[id])))
  {
  }

  /** The calls keep their footing: only the stepping call's own row can change. */
  lemma StoreStepCallsOk(w: World, c: Id, duplicateKey: bool, decrementFirst: bool)
    requires c in w.stores && SeparateMentions(w.docs, w.stores)
    requires forall d | d in w.stores :: CallOk(w.docs, w.stores[d])
    ensures var w' := StepStoreCall(w, c, duplicateKey, decrementFirst);
      && SeparateMentions(w'.docs, w'.stores)
      && forall d | d in w'.stores :: CallOk(w'.docs, w'.stores[d])
  {
    var w' := StepStoreCall(w, c, duplicateKey, decrementFirst);
    StoreStepFootprint(w, c, duplicateKey, decrementFirst);
    StoreStepWrites(w, c, duplicateKey, decrementFirst);
    OwnCallOk(w, c, duplicateKey, decrementFirst);
    hide StepStoreCall, CallOk, Pending;
    forall d | d in w.stores && d != c
      ensures CallOk(w'.docs, w'.stores[d]) && (Pending(w'.docs, w'.stores[d]) ==> Pending(w.docs, w.stores[d]))
    {
      if w'.docs != w.docs && w.stores[d].args.id == w.stores[c].args.id {
        IdleCallOnLaterRow(w.docs, w'.docs, w.stores[d]);
      } else {
        CallOkOnSameRow(w.docs, w'.docs, w.stores[d]);
      }
    }
  }

  lemma StoreStepKeepsIndex(w: World, c: Id, duplicateKey: bool, decrementFirst: bool)
    requires IndexInv(w) && c in w.stores
    ensures IndexInv(StepStoreCall(w, c, duplicateKey, decrementFirst))
  {
    var w' := StepStoreCall(w, c, duplicateKey, decrementFirst);
    StoreStepCallsOk(w, c, duplicateKey, decrementFirst);
    forall k: Id
      ensures BalancedAt(w'.sizes, w'.docs, w'.stores, k)
    {
      assert BalancedAt(w.sizes, w.docs, w.stores, k);
      if w.stores[c].pc.Shifting? || w.stores[c].pc.Sweeping? {
        PendingIncrementsArePlaced(w, k);
        CounterStepBalance(w, c, decrementFirst, k);
      } else {
        CollectionStepBalance(w, c, duplicateKey, k);
      }
    }
    forall k | k in w'.sizes && w'.sizes[k] == 0
      ensures SweepOwed(w'.stores, k)
    {
      PendingIncrementsArePlaced(w, k);
      assert BalancedAt(w.sizes, w.docs, w.stores, k);
      StoreStepZeroRow(w, c, duplicateKey, decrementFirst, k);
    }
  }

  lemma CuratorStepKeepsIndex(w: World, c: Id)
    requires IndexInv(w) && c in w.curators
    ensures IndexInv(StepCuratorCall(w, c))
  {
    var w' := StepCuratorCall(w, c);
    CuratorStepFootprint(w, c);
    forall d | d in w'.stores
      ensures CallOk(w'.docs, w'.stores[d]) && (Pending(w'.docs, w'.stores[d]) <==> Pending(w.docs, w.stores[d]))
    {
      CallOkOnSameRow(w.docs, w'.docs, w.stores[d]);
    }
    forall k: Id
      ensures BalancedAt(w'.sizes, w'.docs, w'.stores, k)
    {
      assert BalancedAt(w.sizes, w.docs, w.stores, k);
      assert PlacedIn(w'.docs, k) == PlacedIn(w.docs, k);
    }
  }

  lemma StepKeepsIndex(w: World, e: Event)
    requires IndexInv(w) && !Overlaps(w, e)
    ensures IndexInv(Step(w, e))
  {
    match e
    case StartStore(c, args) =>
      if c !in w.stores {
        var w' := Step(w, e);
        forall k: Id
          ensures BalancedAt(w'.sizes, w'.docs, w'.stores, k)
        {
          assert BalancedAt(w.sizes, w.docs, w.stores, k);
          OwedUpdate(w.stores, c, StoreCall(args, Reading), k);
        }
        forall k | k in w'.sizes && w'.sizes[k] == 0
          ensures SweepOwed(w'.stores, k)
        {
          var d :| d in w.stores && OwesSweep(w.stores[d], k);
          assert d in w'.stores && OwesSweep(w'.stores[d], k);
        }
      }
    case StepStore(c, duplicateKey, decrementFirst) =>
      if c in w.stores {
        StoreStepKeepsIndex(w, c, duplicateKey, decrementFirst);
      }
    case StartCurator(_, _, _) =>
    case StepCurator(c) =>
      if c in w.curators {
        CuratorStepKeepsIndex(w, c);
      }
  }

  lemma {:induction false} RunKeepsIndex(w: World, events: seq<Event>)
    requires IndexInv(w) && NeverOverlapping(w, events)
    ensures IndexInv(Run(w, events))
    decreases |events|
  {
    if events == [] {
    } else {
      StepKeepsIndex(w, events[0]);
      RunKeepsIndex(Step(w, events[0]), events[1..]);
    }
  }

  lemma QuietAgreement(w: World)
    requires StoresQuiet(w)
    ensures IndexInv(w) <==> w.sizes == ClusterCounts(w.docs)
  {
    forall k: Id
      ensures Incrementing(w.stores, k) == {} && Decrementing(w.stores, k) == {}
      ensures PlacedIn(w.docs, k) == {} <==> k !in ClusterCounts(w.docs)
    {
      if k in ClusterCounts(w.docs) {
        var id :| id in w.docs && ClusterOf(w.docs[id]) == k;
        assert id in PlacedIn(w.docs, k);
      }
    }
    if IndexInv(w) {
      forall k: Id
        ensures k in w.sizes <==> k in ClusterCounts(w.docs)
        ensures k in w.sizes ==> w.sizes[k] == ClusterCounts(w.docs)[k]
      {
        assert BalancedAt(w.sizes, w.docs, w.stores, k);
      }
    }
    if w.sizes == ClusterCounts(w.docs) {
      forall k: Id
        ensures BalancedAt(w.sizes, w.docs, w.stores, k)
      {
      }
    }
  }

  /** From any agreeing state, whatever the interleaving: no counter is ever negative, a zero
      row exists only while some call still owes its sweep, and once nothing is in flight the
      projection is again exactly the count, with no other rows. */
  lemma IndexFollowsDecisions(w: World, events: seq<Event>)
    requires StoresQuiet(w) && w.sizes == ClusterCounts(w.docs)
    requires NeverOverlapping(w, events)
    ensures var w' := Run(w, events);
      && (forall k | k in w'.sizes :: w'.sizes[k] >= 0)
      && (forall k | k in w'.sizes && w'.sizes[k] == 0 :: SweepOwed(w'.stores, k))
      && (StoresQuiet(w') ==> w'.sizes == ClusterCounts(w'.docs))
  {
    var w' := Run(w, events);
    QuietAgreement(w);
    RunKeepsIndex(w, events);
    forall k | k in w'.sizes
      ensures w'.sizes[k] >= 0
    {
      PendingIncrementsArePlaced(w', k);
      assert BalancedAt(w'.sizes, w'.docs, w'.stores, k);
    }
    if StoresQuiet(w') {
      QuietAgreement(w');
    }
  }
}
