/**
 Curators racing for one placement: the atomic claim picks exactly one of them.
 */
module OneWinner {
  import opened Common
  import opened Decisions
  import opened World
  import opened ReviewProtocol

  /** The contenders start unsaved, dated after the placement; nobody else is reviewing. */
  ghost predicate RaceStarts(w: World, id: Id, contenders: set<Id>) {
    && contenders != {}
    && id in w.docs && !Reviewed(w.docs[id])
    && LogOk(w.audit, w.curators)
    && (forall c | c in contenders ::
          && c in w.curators
          && w.curators[c].pc.Saving? && w.curators[c].decisionId == id
          && Boundary(w.docs[id]) < w.curators[c].at)
    && (forall c | c in w.curators && w.curators[c].decisionId == id && c !in contenders ::
          w.curators[c].pc.Recorded? || w.curators[c].pc.AlreadyCurated?)
  }

  /** No placement is written on this mention and no further curator joins. */
  ghost predicate Undisturbed(w: World, events: seq<Event>, id: Id)
    decreases |events|
  {
    events == []
    || (&& !(events[0].StartCurator? && events[0].decisionId == id)
        && Step(w, events[0]).placementWrites[id] == w.placementWrites[id]
        && Undisturbed(Step(w, events[0]), events[1..], id))
  }

  predicate Over(call: CuratorCall) {
    call.pc.Recorded? || call.pc.AlreadyCurated?
  }

  /** The log about the mention, contenders aside, is the one the race started with. */
  ghost predicate OthersLogged(start: World, w: World, id: Id, contenders: set<Id>) {
    forall a | a !in contenders :: a in RowsAbout(w.audit, id) <==> a in RowsAbout(start.audit, id)
  }

  ghost predicate OthersDone(w: World, id: Id, contenders: set<Id>) {
    forall c | c in w.curators && w.curators[c].decisionId == id && c !in contenders :: Over(w.curators[c])
  }

  /** Before the claim every contender is on its way to it; after it, the winner has
      recorded and the others can only lose. */
  ghost predicate Racing(start: World, w: World, id: Id, contenders: set<Id>, winner: Option<Id>) {
    && id in start.docs && id in w.docs
    && Boundary(w.docs[id]) == Boundary(start.docs[id])
    && (forall c | c in contenders ::
          c in w.curators && w.curators[c].decisionId == id && Boundary(w.docs[id]) < w.curators[c].at)
    && (match winner
        case None =>
          && !Reviewed(w.docs[id])
          && ReviewCount(w.docs[id]) == ReviewCount(start.docs[id])
          && forall c | c in contenders :: w.curators[c].pc.Saving? || w.curators[c].pc.ClaimingFresh?
        case Some(x) =>
          && x in contenders && w.curators[x].pc.Recorded?
          && Reviewed(w.docs[id])
          && ReviewCount(w.docs[id]) == ReviewCount(start.docs[id]) + 1
          && forall c | c in contenders && c != x :: !w.curators[c].pc.Recorded?)
  }

  ghost predicate RaceInv(start: World, w: World, id: Id, contenders: set<Id>, winner: Option<Id>) {
    && LogOk(w.audit, w.curators)
    && OthersLogged(start, w, id, contenders)
    && OthersDone(w, id, contenders)
    && Racing(start, w, id, contenders, winner)
  }

  lemma CuratorStepOthers(start: World, w: World, id: Id, contenders: set<Id>, c: Id)
    requires c in w.curators && CallAndLog(w.audit, c, w.curators[c])
    requires OthersLogged(start, w, id, contenders) && OthersDone(w, id, contenders)
    ensures var w' := StepCuratorCall(w, c);
      OthersLogged(start, w', id, contenders) && OthersDone(w', id, contenders)
  {
    var w' := StepCuratorCall(w, c);
    forall a | a !in contenders
      ensures a in RowsAbout(w'.audit, id) <==> a in RowsAbout(w.audit, id)
    {
    }
  }

  lemma CuratorStepRace(start: World, w: World, id: Id, contenders: set<Id>, winner: Option<Id>, c: Id)
    returns (winner': Option<Id>)
    requires Racing(start, w, id, contenders, winner) && OthersDone(w, id, contenders) && c in w.curators
    ensures Racing(start, StepCuratorCall(w, c), id, contenders, winner')
  {
    winner' := if winner.None? && c in contenders && w.curators[c].pc.ClaimingFresh? then Some(c) else winner;
    if c in contenders {
      ContenderSteps(start, w, id, contenders, winner, c);
    } else {
      OutsiderSteps(start, w, id, contenders, winner, c);
    }
  }

  lemma ContenderSteps(start: World, w: World, id: Id, contenders: set<Id>, winner: Option<Id>, c: Id)
    requires Racing(start, w, id, contenders, winner) && c in contenders
    ensures Racing(start, StepCuratorCall(w, c), id, contenders,
                   if winner.None? && w.curators[c].pc.ClaimingFresh? then Some(c) else winner)
  {
    var w' := StepCuratorCall(w, c);
    CuratorStepFootprint(w, c);
    assert forall d | d in contenders && d != c :: w'.curators[d] == w.curators[d];
  }

  lemma OutsiderSteps(start: World, w: World, id: Id, contenders: set<Id>, winner: Option<Id>, c: Id)
    requires Racing(start, w, id, contenders, winner) && OthersDone(w, id, contenders)
    requires c in w.curators && c !in contenders
    ensures Racing(start, StepCuratorCall(w, c), id, contenders, winner)
  {
    var w' := StepCuratorCall(w, c);
    assert w.curators[c].decisionId == id ==> Over(w.curators[c]);
    assert id in w'.docs && w'.docs[id] == w.docs[id];
    assert forall d | d in contenders :: w'.curators[d] == w.curators[d];
  }

  lemma StoreStepRace(start: World, w: World, id: Id, contenders: set<Id>, winner: Option<Id>, e: Event)
    requires RaceInv(start, w, id, contenders, winner) && e.StepStore?
    requires Step(w, e).placementWrites[id] == w.placementWrites[id]
    ensures RaceInv(start, Step(w, e), id, contenders, winner)
  {
    hide StepStoreCall;
    if e.call in w.stores {
      StoreStepOnRow(w, e.call, e.duplicateKey, e.decrementFirst, id);
    }
  }

  lemma StepRace(start: World, w: World, e: Event, id: Id, contenders: set<Id>, winner: Option<Id>)
    returns (winner': Option<Id>)
    requires RaceInv(start, w, id, contenders, winner)
    requires !(e.StartCurator? && e.decisionId == id) && Step(w, e).placementWrites[id] == w.placementWrites[id]
    ensures RaceInv(start, Step(w, e), id, contenders, winner')
  {
    hide StepStoreCall, StepCuratorCall;
    winner' := winner;
    if e.StepStore? {
      StoreStepRace(start, w, id, contenders, winner, e);
    } else if e.StepCurator? && e.call in w.curators {
      hide Racing, OthersLogged, OthersDone;
      CuratorStepLog(w, e.call);
      CuratorStepOthers(start, w, id, contenders, e.call);
      winner' := CuratorStepRace(start, w, id, contenders, winner, e.call);
    }
  }

  lemma {:induction false} RunRace(start: World, w: World, events: seq<Event>, id: Id, contenders: set<Id>,
                                   winner: Option<Id>)
    returns (winner': Option<Id>)
    requires RaceInv(start, w, id, contenders, winner) && Undisturbed(w, events, id)
    ensures RaceInv(start, Run(w, events), id, contenders, winner')
    decreases |events|
  {
    if events == [] {
      return winner;
    }
    hide Step, RaceInv;
    var between := StepRace(start, w, events[0], id, contenders, winner);
    winner' := RunRace(start, Step(w, events[0]), events[1..], id, contenders, between);
  }

  /** For any number of contenders, every schedule that brings them all to an end has one
      success, all the others already-curated, one new audit row and one more count. */
  lemma ExactlyOneWinner(w: World, events: seq<Event>, id: Id, contenders: set<Id>) returns (winner: Id)
    requires RaceStarts(w, id, contenders) && Undisturbed(w, events, id)
    requires var w' := Run(w, events); forall c | c in contenders :: c in w'.curators && Over(w'.curators[c])
    ensures var w' := Run(w, events);
      && winner in contenders && w'.curators[winner].pc.Recorded?
      && (forall c | c in contenders && c != winner :: w'.curators[c].pc.AlreadyCurated?)
      && RowsAbout(w'.audit, id) == RowsAbout(w.audit, id) + {winner} && winner !in RowsAbout(w.audit, id)
      && CountOf(w'.docs, id) == CountOf(w.docs, id) + 1
      && Reviewed(w'.docs[id])
  {
    var w' := Run(w, events);
    assert RaceInv(w, w, id, contenders, None);
    var found := RunRace(w, w, events, id, contenders, None);
    var some :| some in contenders;
    assert Over(w'.curators[some]);
    winner := found.value;
    forall a
      ensures a in RowsAbout(w'.audit, id) <==> a in RowsAbout(w.audit, id) + {winner}
    {
      if a in contenders {
        assert Over(w'.curators[a]) && CallAndLog(w'.audit, a, w'.curators[a]);
      }
    }
  }

  // ---- Every call ends ----

  /** How many steps of its own a call still takes at most. */
  function StepsLeft(pc: CuratorPc): nat {
    match pc
    case Saving => 4
    case ClaimingFresh => 3
    case ClaimingFallback => 2
    case Compensating => 1
    case _ => 0
  }

  function StepsOf(events: seq<Event>, c: Id): nat {
    if events == [] then 0 else (if events[0] == StepCurator(c) then 1 else 0) + StepsOf(events[1..], c)
  }

  lemma StepBringsEndNearer(w: World, e: Event, c: Id)
    requires c in w.curators
    ensures var w' := Step(w, e);
      && c in w'.curators && w'.curators[c].decisionId == w.curators[c].decisionId
      && (if e == StepCurator(c) && !Over(w.curators[c])
          then StepsLeft(w'.curators[c].pc) < StepsLeft(w.curators[c].pc)
          else w'.curators[c] == w.curators[c])
  {
  }

  /** However it is interleaved, a call that gets four steps has ended: nobody waits. */
  lemma {:induction false} EnoughStepsEnd(w: World, events: seq<Event>, c: Id)
    requires c in w.curators && StepsOf(events, c) >= StepsLeft(w.curators[c].pc)
    ensures var w' := Run(w, events); c in w'.curators && Over(w'.curators[c])
    decreases |events|
  {
    hide Step;
    if events == [] {
    } else {
      StepBringsEndNearer(w, events[0], c);
      EnoughStepsEnd(Step(w, events[0]), events[1..], c);
    }
  }

  /** So every undisturbed schedule that gives each contender four steps ends with one
      success, one new audit row and one more count. */
  lemma FairRaceHasOneWinner(w: World, events: seq<Event>, id: Id, contenders: set<Id>) returns (winner: Id)
    requires RaceStarts(w, id, contenders) && Undisturbed(w, events, id)
    requires forall c | c in contenders :: StepsOf(events, c) >= 4
    ensures var w' := Run(w, events);
      && winner in contenders
      && (forall c | c in contenders :: c in w'.curators && w'.curators[c].pc == if c == winner then Recorded
          else AlreadyCurated)
      && RowsAbout(w'.audit, id) == RowsAbout(w.audit, id) + {winner} && winner !in RowsAbout(w.audit, id)
      && CountOf(w'.docs, id) == CountOf(w.docs, id) + 1
  {
    hide Undisturbed, Run;
    forall c | c in contenders
      ensures c in Run(w, events).curators && Over(Run(w, events).curators[c])
    {
      EnoughStepsEnd(w, events, c);
    }
    winner := ExactlyOneWinner(w, events, id, contenders);
  }
}
