/**
 Two calls on a mention that had no row: one inserts it, the other meets that row at its own
 insert, or at the repository's read and then updates it without knowing what it leaves.
 */
module InsertRaces {
  import opened Common
  import opened Decisions
  import opened ClusterSizes
  import opened StoreCalls
  import opened World
  import opened ClusterIndex
  import opened DriftLedger
  import opened IndexDrift

  /** Both first reads found nothing; `x` is about to insert. */
  ghost predicate AboutToInsert(w: World, x: Id, y: Id) {
    && x != y && x in w.stores && y in w.stores && OthersQuiet(w, x, y)
    && w.stores[x].args.id == w.stores[y].args.id && w.stores[x].args.id !in w.docs
    && w.stores[x].pc.Inserting? && (w.stores[y].pc.Inserting? || w.stores[y].pc.PreReading?)
  }

  /** The call takes from no cluster. */
  predicate TakesNothing(pc: StorePc) {
    pc.Finished? || (pc.Shifting? && pc.source.None?)
  }

  predicate Undecided(pc: StorePc) {
    pc.Inserting? || pc.PreReading? || (pc.Updating? && pc.seen.None?)
  }

  predicate Loses(pc: StorePc) {
    pc.FetchingStale? || pc == Finished(Stale)
  }

  /** The race from the insert on. */
  ghost predicate InRace(w: World, x: Id, y: Id) {
    && x != y && x in w.stores && y in w.stores && OthersQuiet(w, x, y)
    && var id, pc := w.stores[x].args.id, w.stores[y].pc;
    && w.stores[y].args.id == id && id in w.docs
    && TakesNothing(w.stores[x].pc)
    && (TakesNothing(pc) || pc.FetchingStale? || (Undecided(pc) && Boundary(w.docs[id]) == w.stores[x].args.at))
  }

  /** At this step the insert of `y` meets the row and is handed it. */
  predicate HandsRow(w: World, e: Event, y: Id) {
    && e.StepStore? && e.call == y && !e.duplicateKey
    && y in w.stores && w.stores[y].pc.Inserting? && w.stores[y].args.id in w.docs
  }

  predicate Handed(w: World, events: seq<Event>, y: Id)
    decreases |events|
  {
    events != [] && (HandsRow(w, events[0], y) || Handed(Step(w, events[0]), events[1..], y))
  }

  /** The cluster a step of the race counts once too often. */
  function Overcounted(w: World, e: Event, y: Id): Option<Id> {
    if HandsRow(w, e, y) then Some(w.stores[y].args.outcome.current.clusterId)
    else if e.StepStore? && e.call == y && y in w.stores && w.stores[y].pc == Updating(None)
            && w.stores[y].args.id in w.docs && OlderThan(w.docs[w.stores[y].args.id], w.stores[y].args.at)
    then Some(ClusterOf(w.docs[w.stores[y].args.id]))
    else None
  }

  /** What becomes of `y` at a step: undecided as before, or decided, and then for good. */
  predicate Decides(pc: StorePc, pc': StorePc, overcounted: Option<Id>, accepted: bool) {
    if Undecided(pc) then
      && (Undecided(pc') ==> overcounted.None? && (pc'.Inserting? <==> pc.Inserting?))
      && (!Undecided(pc') ==> (overcounted.None? <==> Loses(pc')))
      && (!Undecided(pc') && !pc.Inserting? ==> (overcounted.Some? <==> accepted))
    else overcounted.None? && !Undecided(pc') && (Loses(pc') <==> Loses(pc))
  }

  /** A call that takes nothing only ever counts one up. */
  lemma TakingNothingDriftsNothing(w: World, c: Id, duplicateKey: bool, decrementFirst: bool, k: Id)
    requires c in w.stores && TakesNothing(w.stores[c].pc)
    ensures var w' := StepStoreCall(w, c, duplicateKey, decrementFirst);
      && TakesNothing(w'.stores[c].pc) && w'.docs == w.docs && (Loses(w'.stores[c].pc) <==> Loses(w.stores[c].pc))
      && StepDrift(w, StepStore(c, duplicateKey, decrementFirst), k) == 0
  {
    hide ClusterSizes.Apply, ClusterSizes.Swept;
  }

  lemma MeetingStep(w: World, x: Id, y: Id, duplicateKey: bool, decrementFirst: bool, k: Id)
    requires InRace(w, x, y) && !TakesNothing(w.stores[y].pc)
    ensures var w' := StepStoreCall(w, y, duplicateKey, decrementFirst); var id := w.stores[y].args.id;
      var extra := Overcounted(w, StepStore(y, duplicateKey, decrementFirst), y);
      && id in w'.docs
      && (TakesNothing(w'.stores[y].pc) || w'.stores[y].pc.FetchingStale?
          || (Undecided(w'.stores[y].pc) && Boundary(w'.docs[id]) == w.stores[x].args.at))
      && Decides(w.stores[y].pc, w'.stores[y].pc, extra, w.stores[x].args.at < w.stores[y].args.at)
      && StepDrift(w, StepStore(y, duplicateKey, decrementFirst), k) == One(extra == Some(k))
  {
    hide ClusterSizes.Apply, ClusterSizes.Swept, OthersQuiet, AfterShift;
  }

  lemma OwnRaceStep(w: World, x: Id, y: Id, c: Id, duplicateKey: bool, decrementFirst: bool, k: Id)
    requires InRace(w, x, y) && (c == x || c == y)
    ensures var w' := StepStoreCall(w, c, duplicateKey, decrementFirst);
      var extra := Overcounted(w, StepStore(c, duplicateKey, decrementFirst), y);
      && w.stores[x].args.id in w'.docs && TakesNothing(w'.stores[x].pc)
      && (TakesNothing(w'.stores[y].pc) || w'.stores[y].pc.FetchingStale?
          || (Undecided(w'.stores[y].pc) && Boundary(w'.docs[w.stores[x].args.id]) == w.stores[x].args.at))
      && Decides(w.stores[y].pc, w'.stores[y].pc, extra, w.stores[x].args.at < w.stores[y].args.at)
      && StepDrift(w, StepStore(c, duplicateKey, decrementFirst), k) == One(extra == Some(k))
  {
    hide StepStoreCall, StepDrift, OthersQuiet;
    StoreStepFootprint(w, c, duplicateKey, decrementFirst);
    if TakesNothing(w.stores[c].pc) {
      TakingNothingDriftsNothing(w, c, duplicateKey, decrementFirst, k);
    } else {
      MeetingStep(w, x, y, duplicateKey, decrementFirst, k);
    }
  }

  lemma RaceStep(w: World, x: Id, y: Id, e: Event)
    requires InRace(w, x, y) && !e.StartStore?
    ensures var w' := Step(w, e);
      && InRace(w', x, y) && w'.stores[x].args == w.stores[x].args && w'.stores[y].args == w.stores[y].args
      && Decides(w.stores[y].pc, w'.stores[y].pc, Overcounted(w, e, y), w.stores[x].args.at < w.stores[y].args.at)
      && forall k: Id :: StepDrift(w, e, k) == One(Overcounted(w, e, y) == Some(k))
  {
    hide StepStoreCall, StepCuratorCall;
    if e.StepStore? && e.call in w.stores {
      StoreStepFootprint(w, e.call, e.duplicateKey, e.decrementFirst);
      if e.call == x || e.call == y {
        hide CallDrift, Overcounted, Undecided, TakesNothing, Decides, Loses;
        OwnRaceStep(w, x, y, e.call, e.duplicateKey, e.decrementFirst, EMPTY_ID);
        forall k: Id
          ensures StepDrift(w, e, k) == One(Overcounted(w, e, y) == Some(k))
        {
          OwnRaceStep(w, x, y, e.call, e.duplicateKey, e.decrementFirst, k);
        }
      } else {
        FinishedCallRests(w, e.call, e.duplicateKey, e.decrementFirst);
      }
    } else if e.StepCurator? && e.call in w.curators {
      CuratorStepFootprint(w, e.call);
    }
  }

  /** The drift of the rest of a race: nothing, or one cluster counted once too often; which of
      the two decides the answer of `y`, and is decided by how `y` met the row. */
  lemma {:induction false} RaceDrift(w: World, x: Id, y: Id, events: seq<Event>) returns (extra: Option<Id>)
    requires InRace(w, x, y) && NoStarts(events)
    requires y in Run(w, events).stores && !Undecided(Run(w, events).stores[y].pc)
    ensures forall k: Id :: TotalDrift(w, events, k) == One(extra == Some(k))
    ensures var pc, pc' := w.stores[y].pc, Run(w, events).stores[y].pc;
      if Undecided(pc) then
        && (extra.None? <==> Loses(pc'))
        && (extra.Some? <==> if pc.Inserting? then Handed(w, events, y) else w.stores[x].args.at < w.stores[y].args.at)
      else extra.None? && !Handed(w, events, y) && (Loses(pc') <==> Loses(pc))
    decreases |events|
  {
    if events == [] {
      extra := None;
    } else {
      hide Step, StepDrift, InRace, Loses;
      RaceStep(w, x, y, events[0]);
      extra := RaceDrift(Step(w, events[0]), x, y, events[1..]);
      if Overcounted(w, events[0], y).Some? {
        extra := Overcounted(w, events[0], y);
      }
    }
  }

  lemma FirstInsert(w: World, x: Id, y: Id, duplicateKey: bool, decrementFirst: bool)
    requires AboutToInsert(w, x, y)
    ensures var e := StepStore(x, duplicateKey, decrementFirst); var w' := Step(w, e);
      && InRace(w', x, y) && w'.stores[y] == w.stores[y] && w'.stores[x].args == w.stores[x].args
      && forall k: Id :: StepDrift(w, e, k) == 0
  {
  }

  /** `x` inserts first; everything after that happens in any order. Once all calls have ended
      the projection is wrong exactly when `y` did not lose: an insert that was handed the
      winner's row, or an update, dated after the insert, that knows no cluster to take from. */
  lemma InsertRaceExactly(w: World, x: Id, y: Id, duplicateKey: bool, decrementFirst: bool, events: seq<Event>)
    requires AboutToInsert(w, x, y) && w.sizes == ClusterCounts(w.docs) && NoStarts(events)
    ensures var first := StepStore(x, duplicateKey, decrementFirst);
      var w' := Run(w, [first] + events);
      StoresQuiet(w') ==>
        && y in w'.stores
        && (w'.sizes == ClusterCounts(w'.docs) <==> w'.stores[y].pc == Finished(Stale))
        && (w'.sizes == ClusterCounts(w'.docs) <==>
              !(if w.stores[y].pc.Inserting? then Handed(Step(w, first), events, y)
                else w.stores[x].args.at < w.stores[y].args.at))
  {
    hide Step, InRace, StepDrift, Surplus, LowRowsAreOwed, Handed, ClusterIndex.ClusterCounts;
    var first := StepStore(x, duplicateKey, decrementFirst);
    var w1, w' := Step(w, first), Run(w, [first] + events);
    assert ([first] + events)[1..] == events;
    AgreementHasNoSurplus(w);
    FirstInsert(w, x, y, duplicateKey, decrementFirst);
    CallsStay(w1, events, y);
    if StoresQuiet(w') {
      var extra := RaceDrift(w1, x, y, events);
      RunKeepsLowRows(w, [first] + events);
      forall k: Id
        ensures Surplus(w', k) == One(extra == Some(k))
      {
        RunLedger(w, [first] + events, k);
      }
      QuietAgreementBySurplus(w');
      assert extra.Some? ==> Surplus(w', extra.value) == 1;
    }
  }

  lemma {:induction false} CallsStay(w: World, events: seq<Event>, c: Id)
    requires c in w.stores
    ensures c in Run(w, events).stores
    decreases |events|
  {
    if events == [] {
    } else {
      CallsStay(Step(w, events[0]), events[1..], c);
    }
  }
}
