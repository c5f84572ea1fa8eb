/**
 Curator calls racing with one another and with placement writes: what the audit log, the
 counter and the flag on the decision row agree on.
 */
module ReviewProtocol {
  import opened Common
  import opened Decisions
  import opened StoreCalls
  import opened World

  ghost function RowsAbout(audit: map<Id, AuditRow>, id: Id): set<Id> {
    set a | a in audit && audit[a].about == id
  }

  ghost function Flying(curators: map<Id, CuratorCall>, id: Id): set<Id> {
    set c | c in curators && InFlight(curators[c]) && curators[c].decisionId == id
  }

  function CountOf(docs: Docs, id: Id): nat {
    if id in docs then ReviewCount(docs[id]) else 0
  }

  /** A call's own row is in the log from its save until it is undone. */
  ghost predicate CallAndLog(audit: map<Id, AuditRow>, c: Id, call: CuratorCall) {
    if call.pc.Saving? || call.pc.AlreadyCurated? then c !in audit
    else c in audit && audit[c] == AuditRow(call.decisionId, call.at)
  }

  ghost predicate Conserved(audit: map<Id, AuditRow>, docs: Docs, curators: map<Id, CuratorCall>, id: Id) {
    |RowsAbout(audit, id)| == CountOf(docs, id) + |Flying(curators, id)|
  }

  /** A row of the log that no call will ever undo, dated after the boundary. */
  ghost predicate Vouches(w: World, id: Id, a: Id) {
    && a in w.audit && w.audit[a].about == id
    && id in w.docs && Boundary(w.docs[id]) < w.audit[a].createdAt
    && (a in w.curators ==> w.curators[a].pc.Recorded?)
  }

  ghost predicate FlagVouched(w: World, id: Id) {
    id in w.docs && Reviewed(w.docs[id]) ==> exists a :: Vouches(w, id, a)
  }

  ghost predicate ClaimsBounded(w: World, id: Id) {
    w.freshClaims[id] + One(id in w.docs && !Reviewed(w.docs[id])) <= w.placementWrites[id]
  }

  ghost predicate ReviewInv(w: World) {
    && LogOk(w.audit, w.curators)
    && (forall id: Id :: Conserved(w.audit, w.docs, w.curators, id))
    && (forall id: Id :: FlagVouched(w, id))
    && (forall id: Id :: ClaimsBounded(w, id))
  }

  lemma EmptyWorldReviewed()
    ensures ReviewInv(EMPTY_WORLD)
  {
    forall id: Id
      ensures Conserved(EMPTY_WORLD.audit, EMPTY_WORLD.docs, EMPTY_WORLD.curators, id)
    {
      assert RowsAbout(EMPTY_WORLD.audit, id) == {} && Flying(EMPTY_WORLD.curators, id) == {};
    }
  }

  lemma StoreStepOnRow(w: World, c: Id, duplicateKey: bool, decrementFirst: bool, id: Id)
    requires c in w.stores
    ensures var w' := StepStoreCall(w, c, duplicateKey, decrementFirst);
      && w'.audit == w.audit && w'.curators == w.curators && w'.freshClaims == w.freshClaims
      && CountOf(w'.docs, id) == CountOf(w.docs, id)
      && (id in w'.docs && Reviewed(w'.docs[id]) ==> id in w.docs && w'.docs[id] == w.docs[id])
      && (if w'.placementWrites[id] == w.placementWrites[id]
          then (id in w'.docs <==> id in w.docs) && (id in w.docs ==> w'.docs[id] == w.docs[id])
          else w'.placementWrites[id] == w.placementWrites[id] + 1 && !Reviewed(w'.docs[id]))
  {
  }

  /** A placement write resets the flag, keeps the counter and never touches the log. */
  lemma StoreStepKeepsReview(w: World, c: Id, duplicateKey: bool, decrementFirst: bool)
    requires ReviewInv(w) && c in w.stores
    ensures ReviewInv(StepStoreCall(w, c, duplicateKey, decrementFirst))
  {
    hide StepStoreCall, CountOf;
    var w' := StepStoreCall(w, c, duplicateKey, decrementFirst);
    StoreStepOnRow(w, c, duplicateKey, decrementFirst, EMPTY_ID);
    forall id: Id
      ensures Conserved(w'.audit, w'.docs, w'.curators, id)
      ensures FlagVouched(w', id)
      ensures ClaimsBounded(w', id)
    {
      StoreStepOnRow(w, c, duplicateKey, decrementFirst, id);
      assert Conserved(w.audit, w.docs, w.curators, id) && FlagVouched(w, id) && ClaimsBounded(w, id);
      if id in w'.docs && Reviewed(w'.docs[id]) {
        var a :| Vouches(w, id, a);
        assert Vouches(w', id, a);
      }
    }
  }

  lemma CuratorStepConserves(w: World, c: Id, id: Id)
    requires c in w.curators && CallAndLog(w.audit, c, w.curators[c])
    requires Conserved(w.audit, w.docs, w.curators, id)
    ensures var w' := StepCuratorCall(w, c); Conserved(w'.audit, w'.docs, w'.curators, id)
  {
    var w' := StepCuratorCall(w, c);
    UpdatedSize(RowsAbout(w.audit, id), RowsAbout(w'.audit, id), c);
    UpdatedSize(Flying(w.curators, id), Flying(w'.curators, id), c);
  }

  lemma CuratorStepVouches(w: World, c: Id, id: Id)
    requires c in w.curators && CallAndLog(w.audit, c, w.curators[c])
    requires FlagVouched(w, id)
    ensures FlagVouched(StepCuratorCall(w, c), id)
  {
    var w' := StepCuratorCall(w, c);
    if id in w'.docs && Reviewed(w'.docs[id]) {
      if Reviewed(w.docs[id]) {
        var a :| Vouches(w, id, a);
        assert Vouches(w', id, a);
      } else {
        assert Vouches(w', id, c);
      }
    }
  }

  ghost predicate LogOk(audit: map<Id, AuditRow>, curators: map<Id, CuratorCall>) {
    forall c | c in curators :: CallAndLog(audit, c, curators[c])
  }

  lemma CuratorStepLog(w: World, c: Id)
    requires c in w.curators && LogOk(w.audit, w.curators)
    ensures var w' := StepCuratorCall(w, c); LogOk(w'.audit, w'.curators)
  {
    var w' := StepCuratorCall(w, c);
    forall d | d in w'.curators
      ensures CallAndLog(w'.audit, d, w'.curators[d])
    {
      assert CallAndLog(w.audit, d, w.curators[d]);
    }
  }

  lemma CuratorStepKeepsReview(w: World, c: Id)
    requires ReviewInv(w) && c in w.curators
    ensures ReviewInv(StepCuratorCall(w, c))
  {
    var w' := StepCuratorCall(w, c);
    CuratorStepLog(w, c);
    forall id: Id
      ensures Conserved(w'.audit, w'.docs, w'.curators, id)
      ensures FlagVouched(w', id)
      ensures ClaimsBounded(w', id)
    {
      assert Conserved(w.audit, w.docs, w.curators, id) && FlagVouched(w, id) && ClaimsBounded(w, id);
      CuratorStepConserves(w, c, id);
      CuratorStepVouches(w, c, id);
    }
  }

  lemma StepKeepsReview(w: World, e: Event)
    requires ReviewInv(w)
    ensures ReviewInv(Step(w, e))
  {
    match e
    case StartStore(_, _) =>
      forall id: Id
        ensures FlagVouched(Step(w, e), id) && ClaimsBounded(Step(w, e), id)
      {
        assert FlagVouched(w, id) && ClaimsBounded(w, id);
        if id in w.docs && Reviewed(w.docs[id]) {
          var a :| Vouches(w, id, a);
          assert Vouches(Step(w, e), id, a);
        }
      }
    case StepStore(c, duplicateKey, decrementFirst) =>
      if c in w.stores {
        StoreStepKeepsReview(w, c, duplicateKey, decrementFirst);
      }
    case StartCurator(c, about, at) =>
      if c !in w.curators && c !in w.audit {
        var w' := Step(w, e);
        forall id: Id
          ensures Conserved(w'.audit, w'.docs, w'.curators, id)
          ensures FlagVouched(w', id)
          ensures ClaimsBounded(w', id)
        {
          assert Conserved(w.audit, w.docs, w.curators, id) && FlagVouched(w, id) && ClaimsBounded(w, id);
          assert Flying(w'.curators, id) == Flying(w.curators, id);
          if id in w.docs && Reviewed(w.docs[id]) {
            var a :| Vouches(w, id, a);
            assert Vouches(w', id, a);
          }
        }
      }
    case StepCurator(c) =>
      if c in w.curators {
        CuratorStepKeepsReview(w, c);
      }
  }

  lemma ClaimIsCounted(w: World, c: Id, id: Id)
    requires c in w.curators
    ensures var w' := StepCuratorCall(w, c);
      && w'.freshClaims[id] == w.freshClaims[id]
           + One(id in w.docs && !Reviewed(w.docs[id]) && id in w'.docs && Reviewed(w'.docs[id]))
      && w'.docs.Keys == w.docs.Keys
      && (id in w.docs ==> Boundary(w'.docs[id]) == Boundary(w.docs[id]))
  {
  }

  lemma WriteIsCounted(w: World, c: Id, duplicateKey: bool, decrementFirst: bool, id: Id)
    requires c in w.stores
    ensures var w' := StepStoreCall(w, c, duplicateKey, decrementFirst);
      w'.placementWrites[id] == w.placementWrites[id]
        + One(id in w'.docs && (id !in w.docs || Boundary(w.docs[id]) < Boundary(w'.docs[id])))
  {
  }

  /** What the two counts of the history stand for: the settings of a row's flag, and the writes
      that created the row or moved its boundary. */
  lemma StepIsCounted(w: World, e: Event, id: Id)
    ensures var w' := Step(w, e);
      && w'.freshClaims[id] == w.freshClaims[id]
           + One(id in w.docs && !Reviewed(w.docs[id]) && id in w'.docs && Reviewed(w'.docs[id]))
      && w'.placementWrites[id] == w.placementWrites[id]
           + One(id in w'.docs && (id !in w.docs || Boundary(w.docs[id]) < Boundary(w'.docs[id])))
  {
    if e.StepStore? && e.call in w.stores {
      WriteIsCounted(w, e.call, e.duplicateKey, e.decrementFirst, id);
      StoreStepOnRow(w, e.call, e.duplicateKey, e.decrementFirst, id);
      hide StepStoreCall;
    } else if e.StepCurator? && e.call in w.curators {
      ClaimIsCounted(w, e.call, id);
      hide EffectOfCurator;
    }
  }

  /** In every interleaving of curator calls with store calls: audit rows about a mention
      minus its counter are the calls that saved but neither claimed nor compensated; a set
      flag has a surviving audit row dated after the current boundary; fresh claims never
      outnumber placement writes. */
  lemma {:induction false} ReviewStateIsVouched(w: World, events: seq<Event>)
    requires ReviewInv(w)
    ensures var w' := Run(w, events);
      && ReviewInv(w')
      && (forall id: Id :: |RowsAbout(w'.audit, id)| - CountOf(w'.docs, id) == |Flying(w'.curators, id)|)
      && (CuratorsQuiet(w') ==> forall id: Id :: |RowsAbout(w'.audit, id)| == CountOf(w'.docs, id))
      && (forall id | id in w'.docs && Reviewed(w'.docs[id]) :: exists a :: Vouches(w', id, a))
      && (forall id: Id :: w'.freshClaims[id] <= w'.placementWrites[id])
    decreases |events|
  {
    if events == [] {
      forall id: Id
        ensures |RowsAbout(w.audit, id)| - CountOf(w.docs, id) == |Flying(w.curators, id)|
        ensures CuratorsQuiet(w) ==> |RowsAbout(w.audit, id)| == CountOf(w.docs, id)
        ensures w.freshClaims[id] <= w.placementWrites[id]
      {
        assert Conserved(w.audit, w.docs, w.curators, id) && ClaimsBounded(w, id);
        assert CuratorsQuiet(w) ==> Flying(w.curators, id) == {};
      }
      forall id | id in w.docs && Reviewed(w.docs[id])
        ensures exists a :: Vouches(w, id, a)
      {
        assert FlagVouched(w, id);
      }
    } else {
      StepKeepsReview(w, events[0]);
      ReviewStateIsVouched(Step(w, events[0]), events[1..]);
    }
  }

  /** A store that was empty once: whatever happened since, the log and the counters account
      for one another and every set flag is vouched for. */
  lemma HistoryIsAccountedFor(events: seq<Event>)
    ensures var w := Run(EMPTY_WORLD, events);
      && (CuratorsQuiet(w) ==> forall id: Id :: |RowsAbout(w.audit, id)| == CountOf(w.docs, id))
      && (forall id | id in w.docs && Reviewed(w.docs[id]) :: exists a :: Vouches(w, id, a))
  {
    hide Run, CuratorsQuiet, Vouches;
    EmptyWorldReviewed();
    ReviewStateIsVouched(EMPTY_WORLD, events);
  }

  ghost predicate Settled(w: World, a: Id, row: AuditRow) {
    a in w.audit && w.audit[a] == row && (a in w.curators ==> w.curators[a].pc.Recorded?)
  }

  lemma StepKeepsSettled(w: World, e: Event, a: Id, row: AuditRow)
    requires Settled(w, a, row)
    ensures Settled(Step(w, e), a, row)
  {
  }

  /** An action that was counted, or that no call of the run saved, is never removed. */
  lemma {:induction false} CountedActionsStay(w: World, events: seq<Event>, a: Id, row: AuditRow)
    requires Settled(w, a, row)
    ensures Settled(Run(w, events), a, row)
    decreases |events|
  {
    hide Step, Settled;
    if events == [] {
    } else {
      StepKeepsSettled(w, events[0], a, row);
      CountedActionsStay(Step(w, events[0]), events[1..], a, row);
    }
  }
}
