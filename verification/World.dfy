/**
 The shared database with any number of `store_decision` calls and curator calls in flight,
 each advanced one atomic database step at a time, in any order.
 */
module World {
  import opened Common
  import opened Decisions
  import opened ClusterSizes
  import opened StoreCalls

  datatype StoreCall = StoreCall(args: StoreArgs, pc: StorePc)

  /** Save the action, claim the slot with one of two guarded updates, undo the save. */
  datatype CuratorPc = Saving | ClaimingFresh | ClaimingFallback | Compensating | Recorded | AlreadyCurated

  datatype CuratorCall = CuratorCall(decisionId: Id, at: Time, pc: CuratorPc)

  /** A user action, by the decision of the mention it is about. Its identifier is the call's. */
  datatype AuditRow = AuditRow(about: Id, createdAt: Time)

  /** `placementWrites` and `freshClaims` record what happened; no step reads them. */
  datatype World = World(
    docs: Docs,
    sizes: Sizes,
    audit: map<Id, AuditRow>,
    stores: map<Id, StoreCall>,
    curators: map<Id, CuratorCall>,
    placementWrites: multiset<Id>,
    freshClaims: multiset<Id>)

  const EMPTY_WORLD := World(map[], map[], map[], map[], map[], multiset{}, multiset{})

  /** An event is disabled, and then changes nothing, when its call is unknown, finished or,
      for a start, not new. */
  datatype Event =
    | StartStore(call: Id, args: StoreArgs)
    | StepStore(call: Id, duplicateKey: bool, decrementFirst: bool)
    | StartCurator(call: Id, decisionId: Id, at: Time)
    | StepCurator(call: Id)

  function AfterShift(source: Option<Id>, owesDecrement: bool, owesIncrement: bool, written: Decision): StorePc {
    if owesDecrement || owesIncrement then Shifting(source, owesDecrement, owesIncrement, written)
    else if source.Some? then Sweeping(source.value, written)
    else Finished(Stored(written))
  }

  /** What one step of a store call does to the two collections and to the call. */
  datatype StoreEffect = StoreEffect(docs: Docs, sizes: Sizes, pc: StorePc)

  function EffectOfStore(docs: Docs, sizes: Sizes, args: StoreArgs, pc: StorePc,
                         duplicateKey: bool, decrementFirst: bool): StoreEffect
  {
    match pc
    case Shifting(source, owesDecrement, owesIncrement, written) =>
      if source.Some? && owesDecrement && (decrementFirst || !owesIncrement) then
        StoreEffect(docs, Apply(sizes, SizeOp(source.value, -1, false)),
                    AfterShift(source, false, owesIncrement, written))
      else if owesIncrement then
        StoreEffect(docs, Apply(sizes, SizeOp(args.outcome.current.clusterId, 1, true)),
                    AfterShift(source, owesDecrement, false, written))
      else StoreEffect(docs, sizes, pc)
    case Sweeping(emptied, written) =>
      StoreEffect(docs, Swept(sizes, emptied), Finished(Stored(written)))
    case _ =>
      var (docs', pc') := StoreStep(true, docs, args, pc, duplicateKey);
      StoreEffect(docs', sizes, pc')
  }

  function StepStoreCall(w: World, c: Id, duplicateKey: bool, decrementFirst: bool): World
    requires c in w.stores
  {
    var call := w.stores[c];
    var effect := EffectOfStore(w.docs, w.sizes, call.args, call.pc, duplicateKey, decrementFirst);
    w.(docs := effect.docs, sizes := effect.sizes,
       stores := w.stores[c := call.(pc := effect.pc)],
       placementWrites := if WritesPlacement(w.docs, call.args, call.pc)
                          then w.placementWrites + multiset{call.args.id} else w.placementWrites)
  }

  /** What one step of a curator call does to the decision row, the log and the call. */
  datatype ReviewEffect = ReviewEffect(docs: Docs, audit: map<Id, AuditRow>, pc: CuratorPc)

  function EffectOfCurator(docs: Docs, audit: map<Id, AuditRow>, c: Id, call: CuratorCall): ReviewEffect {
    var id := call.decisionId;
    match call.pc
    case Saving => ReviewEffect(docs, audit[c := AuditRow(id, call.at)], ClaimingFresh)
    case ClaimingFresh =>
      if FreshClaimMatches(docs, id, call.at) then ReviewEffect(docs[id := Claimed(docs[id])], audit, Recorded)
      else ReviewEffect(docs, audit, ClaimingFallback)
    case ClaimingFallback =>
      if FallbackMatches(docs, id) then ReviewEffect(docs[id := Counted(docs[id])], audit, Recorded)
      else ReviewEffect(docs, audit, Compensating)
    case Compensating => ReviewEffect(docs, audit - {c}, AlreadyCurated)
    case _ => ReviewEffect(docs, audit, call.pc)
  }

  function StepCuratorCall(w: World, c: Id): World
    requires c in w.curators
  {
    var call := w.curators[c];
    var effect := EffectOfCurator(w.docs, w.audit, c, call);
    w.(docs := effect.docs, audit := effect.audit,
       curators := w.curators[c := call.(pc := effect.pc)],
       freshClaims := if call.pc.ClaimingFresh? && effect.pc.Recorded?
                      then w.freshClaims + multiset{call.decisionId} else w.freshClaims)
  }

  function Step(w: World, e: Event): World {
    match e
    case StartStore(c, args) =>
      if c in w.stores then w else w.(stores := w.stores[c := StoreCall(args, Reading)])
    case StepStore(c, duplicateKey, decrementFirst) =>
      if c in w.stores then StepStoreCall(w, c, duplicateKey, decrementFirst) else w
    case StartCurator(c, id, at) =>
      if c in w.curators || c in w.audit then w
      else w.(curators := w.curators[c := CuratorCall(id, at, Saving)])
    case StepCurator(c) =>
      if c in w.curators then StepCuratorCall(w, c) else w
  }

  function Run(w: World, events: seq<Event>): World
    decreases |events|
  {
    if events == [] then w else Run(Step(w, events[0]), events[1..])
  }

  predicate Active(call: StoreCall) {
    !call.pc.Finished?
  }

  /** No store call is between its first read and its last step. */
  predicate StoresQuiet(w: World) {
    forall c | c in w.stores :: !Active(w.stores[c])
  }

  /** The calls that have saved their action and neither claimed nor undone it. */
  predicate InFlight(call: CuratorCall) {
    call.pc.ClaimingFresh? || call.pc.ClaimingFallback? || call.pc.Compensating?
  }

  predicate CuratorsQuiet(w: World) {
    forall c | c in w.curators :: !InFlight(w.curators[c])
  }

  /** A store step touches its own call and, at most, its own row. */
  lemma StoreStepFootprint(w: World, c: Id, duplicateKey: bool, decrementFirst: bool)
    requires c in w.stores
    ensures var w' := StepStoreCall(w, c, duplicateKey, decrementFirst);
      && w'.stores == w.stores[c := w'.stores[c]]
      && w'.stores[c].args == w.stores[c].args
      && (Active(w'.stores[c]) ==> Active(w.stores[c]))
      && (w'.docs != w.docs ==> Active(w.stores[c]) && w.stores[c].args.id in w'.docs
                                && w'.docs == w.docs[w.stores[c].args.id := w'.docs[w.stores[c].args.id]])
  {
  }

  /** Curator steps touch no placement and no counter. */
  lemma CuratorStepFootprint(w: World, c: Id)
    requires c in w.curators
    ensures var w' := StepCuratorCall(w, c);
      && w'.sizes == w.sizes && w'.stores == w.stores && w'.placementWrites == w.placementWrites
      && w'.docs.Keys == w.docs.Keys
      && forall id | id in w.docs :: w'.docs[id].outcome == w.docs[id].outcome
                                     && w'.docs[id].createdAt == w.docs[id].createdAt
                                     && w'.docs[id].updatedAt == w.docs[id].updatedAt
  {
  }
}
