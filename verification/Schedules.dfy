/**
 Calls of the shared database that run alone: they do, whatever the database chooses, what the
 services' own methods promise.
 */
module Schedules {
  import opened Common
  import opened Decisions
  import opened ClusterSizes
  import opened StoreCalls
  import opened DecisionStore
  import opened World

  /** The database's choices at a step of a store call. */
  datatype Choice = Choice(duplicateKey: bool, decrementFirst: bool)

  function Steps(c: Id, choices: seq<Choice>): (events: seq<Event>)
    ensures |events| == |choices|
  {
    if choices == [] then []
    else [StepStore(c, choices[0].duplicateKey, choices[0].decrementFirst)] + Steps(c, choices[1..])
  }

  lemma NextStep(w: World, c: Id, choices: seq<Choice>)
    requires c in w.stores && choices != []
    ensures Run(w, Steps(c, choices))
         == Run(StepStoreCall(w, c, choices[0].duplicateKey, choices[0].decrementFirst), Steps(c, choices[1..]))
  {
    assert Steps(c, choices)[1..] == Steps(c, choices[1..]);
  }

  /** The call finished with `r`, leaving these collections; nothing else of interest moved. */
  ghost predicate Ends(w: World, w': World, c: Id, docs: Docs, sizes: Sizes, r: StoreResult) {
    && c in w.stores && w'.docs == docs && w'.sizes == sizes
    && w'.stores == w.stores[c := StoreCall(w.stores[c].args, Finished(r))]
    && w'.audit == w.audit && w'.curators == w.curators
  }

  lemma {:induction false} FinishedStays(w: World, c: Id, choices: seq<Choice>)
    requires c in w.stores && w.stores[c].pc.Finished?
    ensures Run(w, Steps(c, choices)) == w
    decreases |choices|
  {
    if choices == [] {
    } else {
      NextStep(w, c, choices);
      assert w.stores[c := w.stores[c]] == w.stores;
      assert StepStoreCall(w, c, choices[0].duplicateKey, choices[0].decrementFirst) == w;
      FinishedStays(w, c, choices[1..]);
    }
  }

  /** The sizes after a whole shift, its three database calls in either order. */
  ghost function ShiftedSizes(sizes: Sizes, source: Option<Id>, target: Id): Sizes {
    var added := Apply(sizes, SizeOp(target, 1, true));
    if source.None? then added
    else Swept(Apply(added, SizeOp(source.value, -1, false)), source.value)
  }

  /** One step of a call on the index: only the sizes and the call change. */
  lemma CounterStep(w: World, c: Id, choice: Choice) returns (w': World)
    requires c in w.stores && (w.stores[c].pc.Shifting? || w.stores[c].pc.Sweeping?)
    ensures w' == StepStoreCall(w, c, choice.duplicateKey, choice.decrementFirst)
    ensures var call := w.stores[c];
      var effect := EffectOfStore(w.docs, w.sizes, call.args, call.pc, choice.duplicateKey, choice.decrementFirst);
      && w'.docs == w.docs && w'.sizes == effect.sizes && w'.audit == w.audit && w'.curators == w.curators
      && w'.stores == w.stores[c := StoreCall(call.args, effect.pc)]
  {
    w' := StepStoreCall(w, c, choice.duplicateKey, choice.decrementFirst);
  }

  lemma SweepRuns(w: World, c: Id, choices: seq<Choice>)
    requires c in w.stores && w.stores[c].pc.Sweeping? && |choices| >= 1
    ensures Ends(w, Run(w, Steps(c, choices)), c, w.docs,
                 Swept(w.sizes, w.stores[c].pc.emptied), Stored(w.stores[c].pc.written))
  {
    hide Run, StepStoreCall, Steps, Swept;
    var w1 := CounterStep(w, c, choices[0]);
    NextStep(w, c, choices);
    FinishedStays(w1, c, choices[1..]);
  }

  /** The decrement alone is still owed: then the sweep. */
  lemma DecrementRuns(w: World, c: Id, choices: seq<Choice>)
    requires c in w.stores && w.stores[c].pc.Shifting? && |choices| >= 2
    requires w.stores[c].pc.owesDecrement && !w.stores[c].pc.owesIncrement && w.stores[c].pc.source.Some?
    ensures var pc := w.stores[c].pc;
      Ends(w, Run(w, Steps(c, choices)), c, w.docs,
           Swept(Apply(w.sizes, SizeOp(pc.source.value, -1, false)), pc.source.value), Stored(pc.written))
  {
    hide Run, StepStoreCall, Steps, Swept, Apply;
    var w1 := CounterStep(w, c, choices[0]);
    NextStep(w, c, choices);
    SweepRuns(w1, c, choices[1..]);
  }

  /** The increment alone is still owed: then the sweep, if something was decremented. */
  lemma IncrementRuns(w: World, c: Id, choices: seq<Choice>)
    requires c in w.stores && w.stores[c].pc.Shifting? && |choices| >= 2
    requires w.stores[c].pc.owesIncrement && !w.stores[c].pc.owesDecrement
    ensures var pc := w.stores[c].pc;
      var added := Apply(w.sizes, SizeOp(w.stores[c].args.outcome.current.clusterId, 1, true));
      Ends(w, Run(w, Steps(c, choices)), c, w.docs,
           if pc.source.Some? then Swept(added, pc.source.value) else added, Stored(pc.written))
  {
    hide Run, StepStoreCall, Steps, Swept, Apply;
    var w1 := CounterStep(w, c, choices[0]);
    NextStep(w, c, choices);
    if w.stores[c].pc.source.Some? {
      SweepRuns(w1, c, choices[1..]);
    } else {
      FinishedStays(w1, c, choices[1..]);
    }
  }

  lemma ShiftRuns(w: World, c: Id, choices: seq<Choice>)
    requires c in w.stores && w.stores[c].pc.Shifting? && |choices| >= 3
    requires w.stores[c].pc.owesIncrement && w.stores[c].pc.owesDecrement == w.stores[c].pc.source.Some?
    requires w.stores[c].pc.source != Some(w.stores[c].args.outcome.current.clusterId)
    ensures var pc, target := w.stores[c].pc, w.stores[c].args.outcome.current.clusterId;
      Ends(w, Run(w, Steps(c, choices)), c, w.docs, ShiftedSizes(w.sizes, pc.source, target), Stored(pc.written))
  {
    hide Run, StepStoreCall, Steps, Swept, Apply;
    if w.stores[c].pc.source.None? {
      IncrementRuns(w, c, choices);
    } else {
      var w1 := CounterStep(w, c, choices[0]);
      NextStep(w, c, choices);
      if choices[0].decrementFirst {
        OrderOfUpdatesIsFree(w.sizes, w.stores[c].pc.source.value, w.stores[c].args.outcome.current.clusterId);
        IncrementRuns(w1, c, choices[1..]);
      } else {
        DecrementRuns(w1, c, choices[1..]);
      }
    }
  }

  lemma OrderOfUpdatesIsFree(sizes: Sizes, source: Id, target: Id)
    requires source != target
    ensures Apply(Apply(sizes, SizeOp(source, -1, false)), SizeOp(target, 1, true))
         == Apply(Apply(sizes, SizeOp(target, 1, true)), SizeOp(source, -1, false))
  {
  }

  /** Each cluster's row after a whole shift is what the index method promises. */
  lemma ShiftedSizesRow(sizes: Sizes, source: Option<Id>, target: Id, k: Id)
    requires source != Some(target)
    ensures ShiftedRow(sizes, ShiftedSizes(sizes, source, target), source, Some(target), 1, k)
  {
  }

  function SourceOf(docs: Docs, id: Id): Option<Id> {
    if id in docs then Some(ClusterOf(docs[id])) else None
  }

  /** What `store_decision` returns when nothing else runs. */
  function AloneResult(row: Option<Decision>, args: StoreArgs): StoreResult {
    match row
    case None => Stored(NewDocument(args.mention, args.outcome, args.at))
    case Some(d) =>
      if d.outcome == args.outcome then Unchanged(d)
      else if Boundary(d) < args.at then Stored(MovedDocument(d, args.mention, args.outcome, args.at))
      else Stale
  }

  ghost function AloneSizes(docs: Docs, sizes: Sizes, args: StoreArgs): Sizes {
    var source, target := SourceOf(docs, args.id), args.outcome.current.clusterId;
    if AloneResult(RowOf(docs, args.id), args).Stored? && source != Some(target)
    then ShiftedSizes(sizes, source, target) else sizes
  }

  lemma AfterWriteRuns(w: World, c: Id, choices: seq<Choice>, source: Option<Id>, d: Decision)
    requires c in w.stores && |choices| >= 3
    requires w.stores[c].pc == AfterWrite(true, source, d, w.stores[c].args.outcome.current.clusterId)
    ensures var target := w.stores[c].args.outcome.current.clusterId;
      Ends(w, Run(w, Steps(c, choices)), c, w.docs,
           if source != Some(target) then ShiftedSizes(w.sizes, source, target) else w.sizes, Stored(d))
  {
    if source != Some(w.stores[c].args.outcome.current.clusterId) {
      ShiftRuns(w, c, choices);
    } else {
      FinishedStays(w, c, choices);
      assert w.stores[c := w.stores[c]] == w.stores;
    }
  }

  /** One step of a call that has not written yet: only the decisions and the call change. */
  lemma CollectionStep(w: World, c: Id, choice: Choice) returns (w': World)
    requires c in w.stores && !w.stores[c].pc.Shifting? && !w.stores[c].pc.Sweeping?
    ensures w' == StepStoreCall(w, c, choice.duplicateKey, choice.decrementFirst)
    ensures var call := w.stores[c];
      var (docs', pc') := StoreStep(true, w.docs, call.args, call.pc, choice.duplicateKey);
      && w'.docs == docs' && w'.sizes == w.sizes && w'.audit == w.audit && w'.curators == w.curators
      && w'.stores == w.stores[c := StoreCall(call.args, pc')]
  {
    w' := StepStoreCall(w, c, choice.duplicateKey, choice.decrementFirst);
  }

  lemma InsertRuns(w: World, c: Id, choices: seq<Choice>)
    requires c in w.stores && w.stores[c].pc == PreReading && w.stores[c].args.id !in w.docs && |choices| >= 5
    ensures var args := w.stores[c].args; var d := NewDocument(args.mention, args.outcome, args.at);
      Ends(w, Run(w, Steps(c, choices)), c, w.docs[args.id := d],
           ShiftedSizes(w.sizes, None, args.outcome.current.clusterId), Stored(d))
  {
    hide Run, StepStoreCall, Steps, ShiftedSizes;
    var args := w.stores[c].args;
    var w1 := CollectionStep(w, c, choices[0]);
    NextStep(w, c, choices);
    var w2 := CollectionStep(w1, c, choices[1]);
    NextStep(w1, c, choices[1..]);
    AfterWriteRuns(w2, c, choices[1..][1..], None, NewDocument(args.mention, args.outcome, args.at));
  }

  /** The update is accepted. */
  lemma MoveRuns(w: World, c: Id, choices: seq<Choice>)
    requires c in w.stores && w.stores[c].args.id in w.docs && |choices| >= 4
    requires w.stores[c].pc == Updating(Some(ClusterOf(w.docs[w.stores[c].args.id])))
    requires Boundary(w.docs[w.stores[c].args.id]) < w.stores[c].args.at
    ensures var args := w.stores[c].args; var d := w.docs[args.id];
      var moved := MovedDocument(d, args.mention, args.outcome, args.at);
      Ends(w, Run(w, Steps(c, choices)), c, w.docs[args.id := moved],
           if Some(ClusterOf(d)) != Some(args.outcome.current.clusterId)
           then ShiftedSizes(w.sizes, Some(ClusterOf(d)), args.outcome.current.clusterId) else w.sizes,
           Stored(moved))
  {
    hide Run, StepStoreCall, Steps, ShiftedSizes;
    var args := w.stores[c].args;
    var d := w.docs[args.id];
    var w1 := CollectionStep(w, c, choices[0]);
    NextStep(w, c, choices);
    AfterWriteRuns(w1, c, choices[1..], Some(ClusterOf(d)), MovedDocument(d, args.mention, args.outcome, args.at));
  }

  /** The update is rejected: the call reads the row once more and reports it stale. */
  lemma StaleRuns(w: World, c: Id, choices: seq<Choice>)
    requires c in w.stores && w.stores[c].args.id in w.docs && |choices| >= 2
    requires w.stores[c].pc == Updating(Some(ClusterOf(w.docs[w.stores[c].args.id])))
    requires w.stores[c].args.at <= Boundary(w.docs[w.stores[c].args.id])
    ensures Ends(w, Run(w, Steps(c, choices)), c, w.docs, w.sizes, Stale)
  {
    hide Run, StepStoreCall, Steps;
    var w1 := CollectionStep(w, c, choices[0]);
    NextStep(w, c, choices);
    var w2 := CollectionStep(w1, c, choices[1]);
    NextStep(w1, c, choices[1..]);
    FinishedStays(w2, c, choices[1..][1..]);
  }

  /** A store call that runs alone does, whatever the database chooses, what the service's
      method promises: the row is the delivered one and the index is shifted by one whole
      shift. */
  lemma SoloStoreCall(w: World, c: Id, choices: seq<Choice>)
    requires c in w.stores && w.stores[c].pc == Reading && |choices| >= 6
    ensures var args := w.stores[c].args;
      Ends(w, Run(w, Steps(c, choices)), c,
           w.docs[args.id := Deliver(RowOf(w.docs, args.id), args.mention, args.outcome, args.at).value],
           AloneSizes(w.docs, w.sizes, args), AloneResult(RowOf(w.docs, args.id), args))
  {
    hide Run, StepStoreCall, Steps, ShiftedSizes;
    var args := w.stores[c].args;
    var w1 := CollectionStep(w, c, choices[0]);
    NextStep(w, c, choices);
    if args.id !in w.docs {
      InsertRuns(w1, c, choices[1..]);
    } else {
      assert w.docs[args.id := w.docs[args.id]] == w.docs;
      if w.docs[args.id].outcome == args.outcome {
        FinishedStays(w1, c, choices[1..]);
      } else if Boundary(w.docs[args.id]) < args.at {
        MoveRuns(w1, c, choices[1..]);
      } else {
        StaleRuns(w1, c, choices[1..]);
      }
    }
  }

  /** A curator call that runs alone does what the service's method promises: it counts its
      action when the slot is open and otherwise leaves no trace. */
  lemma SoloCuratorCall(w: World, c: Id)
    requires c in w.curators && w.curators[c].pc.Saving? && c !in w.audit
    ensures var call := w.curators[c]; var id := call.decisionId;
      var w' := Run(w, [StepCurator(c), StepCurator(c)] + [StepCurator(c), StepCurator(c)]);
      var open := id in w.docs && !Reviewed(w.docs[id]);
      && w'.curators == w.curators[c := call.(pc := if open then Recorded else AlreadyCurated)]
      && w'.stores == w.stores && w'.sizes == w.sizes
      && w'.audit == (if open then w.audit[c := AuditRow(id, call.at)] else w.audit)
      && (!open ==> w'.docs == w.docs)
      && (open ==> w'.docs == w.docs[id := if Boundary(w.docs[id]) < call.at then Claimed(w.docs[id])
                                     else Counted(w.docs[id])])
  {
    hide Run, Step, StepCuratorCall, Decisions.Claimed, Decisions.Counted;
    var step := StepCurator(c);
    var call := w.curators[c];
    var id := call.decisionId;
    var w1 := CuratorStep(w, c);
    var w2 := CuratorStep(w1, c);
    var w3 := CuratorStep(w2, c);
    var w4 := CuratorStep(w3, c);
    TwoSteps(w, step, step);
    TwoSteps(w2, step, step);
    RunConcat(w, [step, step], [step, step]);
    var saved := w.audit[c := AuditRow(id, call.at)];
    assert w1.docs == w.docs && w1.audit == saved && w1.curators[c].pc == ClaimingFresh;
    if id in w.docs && !Reviewed(w.docs[id]) {
      assert w3.curators[c].pc == Recorded && w3.audit == saved;
    } else {
      assert w3.curators[c].pc == Compensating && w3.docs == w.docs;
      assert saved - {c} == w.audit;
    }
  }

  lemma CuratorStep(w: World, c: Id) returns (w': World)
    requires c in w.curators
    ensures w' == Step(w, StepCurator(c))
    ensures var call := w.curators[c]; var effect := EffectOfCurator(w.docs, w.audit, c, call);
      && w'.docs == effect.docs && w'.audit == effect.audit && w'.sizes == w.sizes && w'.stores == w.stores
      && w'.curators == w.curators[c := call.(pc := effect.pc)]
  {
    w' := Step(w, StepCurator(c));
  }

  lemma {:induction false} RunConcat(w: World, a: seq<Event>, b: seq<Event>)
    ensures Run(w, a + b) == Run(Run(w, a), b)
    decreases |a|
  {
    hide Step;
    if a == [] {
      assert a + b == b;
    } else {
      assert (a + b)[1..] == a[1..] + b;
      RunConcat(Step(w, a[0]), a[1..], b);
    }
  }

  lemma TwoSteps(w: World, first: Event, second: Event)
    ensures Run(w, [first, second]) == Step(Step(w, first), second)
  {
    hide Step;
    var next := Step(w, first);
    assert [first, second][1..] == [second] && [second][1..] == [];
    assert Run(next, [second]) == Run(Step(next, second), []);
  }
}
