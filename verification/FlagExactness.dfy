/**
 When the stored review flag says exactly what it is documented to say: that some curator
 action is dated after the current placement boundary.
 */
module FlagExactness {
  import opened Common
  import opened Decisions
  import opened StoreCalls
  import opened World
  import opened ReviewProtocol

  /** The flag is set exactly when a surviving action is dated after the boundary. */
  ghost predicate Agrees(w: World, id: Id) {
    id in w.docs ==> (Reviewed(w.docs[id]) <==> exists a :: Vouches(w, id, a))
  }

  ghost predicate ActsAfter(w: World, id: Id, at: Time, a: Id) {
    && a in w.audit && w.audit[a].about == id && at < w.audit[a].createdAt
    && (a in w.curators ==> w.curators[a].pc.Recorded?)
  }

  /** This step writes a placement of the mention. */
  predicate Places(w: World, e: Event, id: Id) {
    && e.StepStore? && e.call in w.stores && w.stores[e.call].args.id == id
    && WritesPlacement(w.docs, w.stores[e.call].args, w.stores[e.call].pc)
  }

  /** This step takes the slot of the mention. */
  predicate Claims(w: World, e: Event, id: Id) {
    && e.StepCurator? && e.call in w.curators && w.curators[e.call].decisionId == id
    && w.curators[e.call].pc.ClaimingFresh? && FreshClaimMatches(w.docs, id, w.curators[e.call].at)
  }

  /** This step counts an action dated after the boundary without taking the slot: a placement
      came between its two guarded updates. */
  predicate CountsUnclaimed(w: World, e: Event, id: Id) {
    && e.StepCurator? && e.call in w.curators && w.curators[e.call].decisionId == id
    && w.curators[e.call].pc.ClaimingFallback? && FallbackMatches(w.docs, id)
    && Boundary(w.docs[id]) < w.curators[e.call].at
  }

  /** The two ways to put the flag wrong: a placement dated before an action already counted,
      and an action dated after the boundary that is counted by the unguarded update. */
  ghost predicate Breaks(w: World, e: Event, id: Id) {
    || (Places(w, e, id) && exists a :: ActsAfter(w, id, w.stores[e.call].args.at, a))
    || CountsUnclaimed(w, e, id)
  }

  /** The two ways to put it right. */
  ghost predicate Repairs(w: World, e: Event, id: Id) {
    || (Places(w, e, id) && !exists a :: ActsAfter(w, id, w.stores[e.call].args.at, a))
    || Claims(w, e, id)
  }

  /** A row just placed, its flag reset, over the log as it was. */
  lemma PlacementDecides(w: World, e: Event, id: Id)
    requires Places(w, e, id)
    ensures Agrees(Step(w, e), id) <==> !exists a :: ActsAfter(w, id, w.stores[e.call].args.at, a)
  {
    var w' := Step(w, e);
    assert w'.audit == w.audit && w'.curators == w.curators;
    assert forall a :: Vouches(w', id, a) <==> ActsAfter(w, id, w.stores[e.call].args.at, a);
  }

  /** A store step that places nothing here leaves row and log alone. */
  lemma OtherStoreStepsKeep(w: World, e: Event, id: Id)
    requires e.StepStore? && !Places(w, e, id)
    ensures Agrees(Step(w, e), id) <==> Agrees(w, id)
  {
    hide StepStoreCall;
    var w' := Step(w, e);
    if e.call in w.stores {
      StoreStepOnRow(w, e.call, e.duplicateKey, e.decrementFirst, id);
      StoreStepPlaces(w, e.call, e.duplicateKey, e.decrementFirst, id);
    }
    assert forall a :: Vouches(w', id, a) <==> Vouches(w, id, a);
  }

  lemma StoreStepPlaces(w: World, c: Id, duplicateKey: bool, decrementFirst: bool, id: Id)
    requires c in w.stores && !Places(w, StepStore(c, duplicateKey, decrementFirst), id)
    ensures StepStoreCall(w, c, duplicateKey, decrementFirst).placementWrites[id] == w.placementWrites[id]
  {
  }

  /** The actions that vouch after a curator step: the same, and the stepping call's own when it
      was just counted and is dated after the boundary. */
  lemma VouchersAfter(w: World, c: Id, id: Id, a: Id)
    requires c in w.curators && CallAndLog(w.audit, c, w.curators[c])
    ensures var w' := StepCuratorCall(w, c);
      Vouches(w', id, a) <==>
        Vouches(w, id, a)
        || (a == c && (Claims(w, StepCurator(c), id) || CountsUnclaimed(w, StepCurator(c), id)))
  {
  }

  lemma CuratorStepOnFlag(w: World, c: Id, id: Id)
    requires c in w.curators && id in w.docs
    ensures var w' := StepCuratorCall(w, c);
      && id in w'.docs
      && (Reviewed(w'.docs[id]) <==> Reviewed(w.docs[id]) || Claims(w, StepCurator(c), id))
      && (CountsUnclaimed(w, StepCurator(c), id) ==> !Reviewed(w.docs[id]) && !Claims(w, StepCurator(c), id))
  {
  }

  lemma CuratorStepDecides(w: World, e: Event, id: Id)
    requires ReviewInv(w) && e.StepCurator?
    ensures Agrees(Step(w, e), id) <==> Claims(w, e, id) || (Agrees(w, id) && !CountsUnclaimed(w, e, id))
  {
    hide StepCuratorCall, Vouches, Claims, CountsUnclaimed;
    if e.call in w.curators {
      var w' := Step(w, e);
      assert CallAndLog(w.audit, e.call, w.curators[e.call]);
      CuratorStepFootprint(w, e.call);
      forall a
        ensures Vouches(w', id, a) <==>
          Vouches(w, id, a) || (a == e.call && (Claims(w, e, id) || CountsUnclaimed(w, e, id)))
      {
        VouchersAfter(w, e.call, id, a);
      }
      if id in w.docs {
        CuratorStepOnFlag(w, e.call, id);
        assert Claims(w, e, id) || CountsUnclaimed(w, e, id) ==> Vouches(w', id, e.call);
        assert (exists a :: Vouches(w', id, a))
          <==> (exists a :: Vouches(w, id, a)) || Claims(w, e, id) || CountsUnclaimed(w, e, id);
      } else {
        CurationNeedsARow(w, e, id);
      }
    } else {
      CurationNeedsARow(w, e, id);
    }
  }

  lemma CurationNeedsARow(w: World, e: Event, id: Id)
    requires id !in w.docs || (e.StepCurator? && e.call !in w.curators)
    ensures !Claims(w, e, id) && !CountsUnclaimed(w, e, id)
  {
  }

  lemma StartsKeep(w: World, e: Event, id: Id)
    requires e.StartStore? || e.StartCurator?
    ensures Agrees(Step(w, e), id) <==> Agrees(w, id)
  {
    assert forall a :: Vouches(Step(w, e), id, a) <==> Vouches(w, id, a);
  }

  /** What each step does to the agreement: the four kinds above decide it, every other step
      leaves it as it was. */
  lemma StepDecidesAgreement(w: World, e: Event, id: Id)
    requires ReviewInv(w)
    ensures Agrees(Step(w, e), id) <==> Repairs(w, e, id) || (Agrees(w, id) && !Breaks(w, e, id))
  {
    hide Agrees, Step, ActsAfter;
    if e.StepStore? {
      if Places(w, e, id) {
        PlacementDecides(w, e, id);
      } else {
        OtherStoreStepsKeep(w, e, id);
      }
    } else if e.StepCurator? {
      CuratorStepDecides(w, e, id);
    } else {
      StartsKeep(w, e, id);
    }
  }

  // ---- Runs ----

  /** The last step of the run that breaks or repairs the agreement. */
  ghost predicate LastWord(w: World, events: seq<Event>, id: Id, agrees: bool)
    decreases |events|
  {
    if events == [] then agrees
    else
      LastWord(Step(w, events[0]), events[1..], id,
               Repairs(w, events[0], id) || (agrees && !Breaks(w, events[0], id)))
  }

  /** In every run the flag and the log agree at the end exactly when the last step that breaks
      or repairs their agreement repairs it, or there is none and they agreed at the start. */
  lemma {:induction false} FlagAgreesExactly(w: World, events: seq<Event>, id: Id)
    requires ReviewInv(w)
    ensures Agrees(Run(w, events), id) <==> LastWord(w, events, id, Agrees(w, id))
    decreases |events|
  {
    hide Step, Agrees, Repairs, Breaks, ReviewInv;
    if events == [] {
    } else {
      StepDecidesAgreement(w, events[0], id);
      StepKeepsReview(w, events[0]);
      FlagAgreesExactly(Step(w, events[0]), events[1..], id);
    }
  }

  ghost predicate AgreesThroughout(w: World, events: seq<Event>, id: Id)
    decreases |events|
  {
    Agrees(w, id) && (events == [] || AgreesThroughout(Step(w, events[0]), events[1..], id))
  }

  ghost predicate NeverBroken(w: World, events: seq<Event>, id: Id)
    decreases |events|
  {
    events == [] || (!Breaks(w, events[0], id) && NeverBroken(Step(w, events[0]), events[1..], id))
  }

  /** The documented sentence holds in every state of a run exactly when it holds at the start
      and no step of the run breaks it. */
  lemma {:induction false} DocumentedThroughoutExactly(w: World, events: seq<Event>, id: Id)
    requires ReviewInv(w)
    ensures AgreesThroughout(w, events, id) <==> Agrees(w, id) && NeverBroken(w, events, id)
    decreases |events|
  {
    hide Step, Agrees, ReviewInv;
    if events == [] {
    } else {
      StepDecidesAgreement(w, events[0], id);
      RepairsDoNotBreak(w, events[0], id);
      StepKeepsReview(w, events[0]);
      DocumentedThroughoutExactly(Step(w, events[0]), events[1..], id);
    }
  }

  lemma RepairsDoNotBreak(w: World, e: Event, id: Id)
    ensures !(Repairs(w, e, id) && Breaks(w, e, id))
  {
  }

  // ---- Placements in order ----

  /** Every placement accepted on the mention is dated no earlier than the actions logged
      about it so far. */
  ghost predicate PlacementsPostdateActions(w: World, events: seq<Event>, id: Id)
    decreases |events|
  {
    events == []
    || (PostdatesActions(w, events[0], id) && PlacementsPostdateActions(Step(w, events[0]), events[1..], id))
  }

  ghost predicate PostdatesActions(w: World, e: Event, id: Id) {
    Places(w, e, id) ==>
      forall a | a in w.audit && w.audit[a].about == id :: w.audit[a].createdAt <= w.stores[e.call].args.at
  }

  /** A call whose fresh claim failed found the flag set or is dated too early. */
  ghost predicate FallbacksAreLate(w: World, id: Id) {
    id in w.docs ==>
      forall c | c in w.curators && w.curators[c].decisionId == id && w.curators[c].pc.ClaimingFallback? ::
        Reviewed(w.docs[id]) || w.curators[c].at <= Boundary(w.docs[id])
  }

  lemma PlacementKeepsFallbacks(w: World, e: Event, id: Id)
    requires LogOk(w.audit, w.curators) && FallbacksAreLate(w, id) && PostdatesActions(w, e, id) && e.StepStore?
    ensures FallbacksAreLate(Step(w, e), id)
  {
    hide StepStoreCall;
    if e.call in w.stores {
      StoreStepOnRow(w, e.call, e.duplicateKey, e.decrementFirst, id);
      if Places(w, e, id) {
        PlacedBoundary(w, e, id);
        assert forall c | c in w.curators :: CallAndLog(w.audit, c, w.curators[c]);
      } else {
        StoreStepPlaces(w, e.call, e.duplicateKey, e.decrementFirst, id);
      }
    }
  }

  lemma PlacedBoundary(w: World, e: Event, id: Id)
    requires Places(w, e, id)
    ensures id in Step(w, e).docs && Boundary(Step(w, e).docs[id]) == w.stores[e.call].args.at
  {
  }

  lemma StepKeepsFallbacks(w: World, e: Event, id: Id)
    requires LogOk(w.audit, w.curators) && FallbacksAreLate(w, id) && PostdatesActions(w, e, id)
    ensures FallbacksAreLate(Step(w, e), id)
  {
    hide StepStoreCall;
    if e.StepStore? {
      PlacementKeepsFallbacks(w, e, id);
    } else if e.StepCurator? && e.call in w.curators {
      CuratorStepFootprint(w, e.call);
    }
  }

  lemma {:induction false} OrderedPlacementsBreakNothing(w: World, events: seq<Event>, id: Id)
    requires ReviewInv(w) && FallbacksAreLate(w, id) && PlacementsPostdateActions(w, events, id)
    ensures NeverBroken(w, events, id)
    decreases |events|
  {
    if events == [] {
    } else {
      hide Step;
      StepKeepsReview(w, events[0]);
      StepKeepsFallbacks(w, events[0], id);
      OrderedPlacementsBreakNothing(Step(w, events[0]), events[1..], id);
    }
  }

  /** So in every interleaving in which accepted placements postdate the logged actions, the
      flag is set exactly when a surviving action is dated after the boundary; once no curator
      call is in flight, exactly when the log holds any such action. */
  lemma FlagMeansReviewed(w: World, events: seq<Event>, id: Id)
    requires ReviewInv(w) && Agrees(w, id) && FallbacksAreLate(w, id) && PlacementsPostdateActions(w, events, id)
    ensures var w' := Run(w, events);
      AgreesThroughout(w, events, id)
      && (id in w'.docs && CuratorsQuiet(w') ==>
            (Reviewed(w'.docs[id]) <==>
               exists a :: a in w'.audit && w'.audit[a].about == id && Boundary(w'.docs[id]) < w'.audit[a].createdAt))
  {
    OrderedPlacementsBreakNothing(w, events, id);
    DocumentedThroughoutExactly(w, events, id);
    AgreesAtTheEnd(w, events, id);
    ReviewStateIsVouched(w, events);
    QuietVouchers(Run(w, events), id);
  }

  lemma {:induction false} AgreesAtTheEnd(w: World, events: seq<Event>, id: Id)
    requires AgreesThroughout(w, events, id)
    ensures Agrees(Run(w, events), id)
    decreases |events|
  {
    if events == [] {
    } else {
      AgreesAtTheEnd(Step(w, events[0]), events[1..], id);
    }
  }

  /** At rest every logged action dated after the boundary vouches. */
  lemma QuietVouchers(w: World, id: Id)
    requires LogOk(w.audit, w.curators)
    ensures id in w.docs && CuratorsQuiet(w) ==> forall a ::
      Vouches(w, id, a) <==> a in w.audit && w.audit[a].about == id && Boundary(w.docs[id]) < w.audit[a].createdAt
  {
    if CuratorsQuiet(w) {
      assert forall a | a in w.curators :: CallAndLog(w.audit, a, w.curators[a]);
    }
  }
}
