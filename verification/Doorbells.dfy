/**
 Doorbells that arrive: the outcome call that rings, the waiting calls it wakes, and calls of
 both kinds that are left alone from their start.
 */
module Doorbells {
  import opened Common
  import opened Decisions
  import opened StoreCalls
  import DecisionStore
  import opened Resolution
  import opened Drafts

  // ---- A set event ends the wait ----

  /** A call waiting for an event that is set reads the store and answers what it finds, without
      a time-out. */
  lemma WokenCallAnswers(config: Config, s: System, c: Id, choices: seq<Choice>)
    requires ResolveInv(config, s) && c in s.calls
    requires s.calls[c].pc.Waiting? && s.calls[c].pc.event in s.rung
    requires AllAnswer(choices) && |choices| >= 2
    ensures s.calls[c].key in s.docs
    ensures Answers(s, Run(config, s, Steps(c, choices)), c, s.docs, Replied(s.docs[s.calls[c].key], Canonical))
  {
    EventHasRow(config, s, c);
    hide Step, Run, Steps, ResolveInv, NextPc;
    var s1 := StepTaken(config, s, c, choices);
    WakingPcs(config, s, s.calls[c], choices[0]);
    var s2 := StepTaken(config, s1, c, choices[1..]);
    WakingPcs(config, s1, s1.calls[c], choices[1]);
    AnsweredStays(config, s2, c, choices[1..][1..]);
  }

  lemma WakingPcs(config: Config, s: System, call: ResolveCall, choice: Choice)
    ensures call.pc.Waiting? && call.pc.event in s.rung ==>
      NextPc(config, s, call, choice) == ReadingWoken(call.pc.event)
    ensures call.pc.ReadingWoken? && choice.ok && call.key in s.docs ==>
      NextPc(config, s, call, choice) == Answered(Replied(s.docs[call.key], Canonical))
  {
    hide StoreCalls.StoreStep;
  }

  lemma EventHasRow(config: Config, s: System, c: Id)
    requires ResolveInv(config, s) && c in s.calls
    requires s.calls[c].pc.Waiting? && s.calls[c].pc.event in s.rung
    ensures s.calls[c].key in s.docs
  {
    assert CallOk(config, s.docs, s.eventKey, s.rung, s.calls[c]);
  }

  // ---- An outcome call left alone ----

  function OutcomeSteps(o: Id, choices: seq<Choice>, reach: set<Id>): seq<Event> {
    if choices == [] then [] else [StepOutcome(o, choices[0], reach)] + OutcomeSteps(o, choices[1..], reach)
  }

  lemma OutcomeStepTaken(config: Config, s: System, o: Id, choices: seq<Choice>, reach: set<Id>) returns (s': System)
    requires o in s.outcomes && choices != []
    ensures s' == StepOutcomeCall(config, s, o, choices[0], reach)
    ensures Run(config, s, OutcomeSteps(o, choices, reach)) == Run(config, s', OutcomeSteps(o, choices[1..], reach))
  {
    s' := Step(config, s, StepOutcome(o, choices[0], reach));
    assert OutcomeSteps(o, choices, reach)[1..] == OutcomeSteps(o, choices[1..], reach);
  }

  lemma {:induction false} EndedOutcomeRests(config: Config, s: System, o: Id, choices: seq<Choice>, reach: set<Id>)
    requires o in s.outcomes && (s.outcomes[o].pc.Integrated? || s.outcomes[o].pc.Rejected?)
    ensures Run(config, s, OutcomeSteps(o, choices, reach)) == s
    decreases |choices|
  {
    if choices == [] {
    } else {
      var s1 := OutcomeStepTaken(config, s, o, choices, reach);
      assert s.outcomes[o := s.outcomes[o]] == s.outcomes;
      assert s1 == s;
      EndedOutcomeRests(config, s, o, choices[1..], reach);
    }
  }

  /** The bells an outcome call sends out. */
  function Bells(reach: set<Id>, key: Id): set<Door> {
    set i | i in reach :: Door(i, key)
  }

  /** The state after ringing: the own instance's event if it has one, else the channel. */
  function Rung(s: System, o: Id, reach: set<Id>, decision: Option<Decision>): System
    requires o in s.outcomes
  {
    var door := Door(s.outcomes[o].instance, s.outcomes[o].response.key);
    var ended := s.outcomes[o := s.outcomes[o].(pc := Integrated(decision))];
    if door in s.doors then s.(outcomes := ended, rung := s.rung + {s.doors[door]})
    else s.(outcomes := ended, inbox := s.inbox + Bells(reach, door.key))
  }

  /** Ringing: the own instance first, the channel only without an event there. */
  lemma RingingRuns(config: Config, s: System, o: Id, choices: seq<Choice>, reach: set<Id>)
    requires o in s.outcomes && s.outcomes[o].pc.RingingHere? && AllAnswer(choices) && |choices| >= 2
    ensures Run(config, s, OutcomeSteps(o, choices, reach)) == Rung(s, o, reach, s.outcomes[o].pc.decision)
  {
    hide Step, Run, OutcomeSteps;
    var s1 := OutcomeStepTaken(config, s, o, choices, reach);
    if s1.outcomes[o].pc.Integrated? {
      EndedOutcomeRests(config, s1, o, choices[1..], reach);
      assert s1 == Rung(s, o, reach, s.outcomes[o].pc.decision);
    } else {
      var s2 := OutcomeStepTaken(config, s1, o, choices[1..], reach);
      EndedOutcomeRests(config, s2, o, choices[1..][1..], reach);
      assert s2.outcomes == Rung(s, o, reach, s.outcomes[o].pc.decision).outcomes;
      assert s2 == Rung(s, o, reach, s.outcomes[o].pc.decision);
    }
  }

  /** The outcome call `o` at some control point. */
  function At(s: System, o: Id, docs: Docs, pc: OutcomePc): System
    requires o in s.outcomes
  {
    s.(docs := docs, outcomes := s.outcomes[o := s.outcomes[o].(pc := pc)])
  }

  /** The row one undisturbed delivery of the response leaves. */
  function DeliveredRow(config: Config, docs: Docs, r: Response): Decision
    requires Valid(r)
  {
    var args := EngineArgs(r, config.maxCandidates);
    DecisionStore.Deliver(DecisionStore.RowOf(docs, r.key), args.mention, args.outcome, args.at).value
  }

  /** The response is older than a different row. */
  predicate IsStale(config: Config, docs: Docs, r: Response)
    requires Valid(r)
  {
    var args := EngineArgs(r, config.maxCandidates);
    r.key in docs && docs[r.key].outcome != args.outcome && args.at <= Boundary(docs[r.key])
  }

  /** One step of the engine's store call, seen from a state given by its control point. */
  lemma StoringStep(config: Config, s: System, o: Id, docs: Docs, store: StorePc, choices: seq<Choice>, reach: set<Id>)
    requires o in s.outcomes && Valid(s.outcomes[o].response)
    requires choices != [] && choices[0].ok
    ensures var (docs', store') := StoreStep(false, docs, EngineArgs(s.outcomes[o].response, config.maxCandidates),
                                             store,
                                             choices[0].duplicateKey);
      Run(config, At(s, o, docs, Storing(store)), OutcomeSteps(o, choices, reach))
      == Run(config, At(s, o, docs', AfterStoring(store')), OutcomeSteps(o, choices[1..], reach))
  {
    hide StoreCalls.StoreStep, EngineArgs, Run, OutcomeSteps;
    var before := At(s, o, docs, Storing(store));
    var after := OutcomeStepTaken(config, before, o, choices, reach);
    assert after == At(s, o, after.docs, after.outcomes[o].pc);
  }

  /** The engine's store call left alone, up to the doorbell. */
  lemma StoringRuns(config: Config, s: System, o: Id, choices: seq<Choice>, reach: set<Id>) returns (rest: seq<Choice>)
    requires o in s.outcomes && Valid(s.outcomes[o].response)
    requires AllAnswer(choices) && |choices| >= 3
    ensures AllAnswer(rest) && |rest| >= |choices| - 3
    ensures var r := s.outcomes[o].response; var row := DeliveredRow(config, s.docs, r);
      Run(config, At(s, o, s.docs, Storing(Reading)), OutcomeSteps(o, choices, reach))
      == Run(config, At(s, o, s.docs[r.key := row], RingingHere(if IsStale(config, s.docs, r) then None
                                                                else Some(row))),
             OutcomeSteps(o, rest, reach))
  {
    hide Step, Run, OutcomeSteps, EngineArgs, At;
    var r := s.outcomes[o].response;
    var args := EngineArgs(r, config.maxCandidates);
    assert args.id == r.key;
    var d := if r.key in s.docs then Some(s.docs[r.key]) else None;
    assert d.Some? ==> s.docs[r.key := d.value] == s.docs;
    StoringStep(config, s, o, s.docs, Reading, choices, reach);
    rest := choices[1..];
    if d.None? {
      StoringStep(config, s, o, s.docs, PreReading, rest, reach);
      StoringStep(config, s, o, s.docs, Inserting, rest[1..], reach);
      rest := rest[1..][1..];
    } else if d.value.outcome != args.outcome {
      StoringStep(config, s, o, s.docs, Updating(Some(ClusterOf(d.value))), rest, reach);
      rest := rest[1..];
      if args.at <= Boundary(d.value) {
        StoringStep(config, s, o, s.docs, FetchingStale, rest, reach);
        rest := rest[1..];
      }
    }
  }

  /** Validation and the registry check: on to the store, or rejected. */
  lemma ValidationRuns(config: Config, s: System, o: Id, choices: seq<Choice>, reach: set<Id>)
    requires o in s.outcomes && s.outcomes[o].pc.Validating? && |choices| >= 2
    ensures var r := s.outcomes[o].response;
      var valid := r.timestamp.Some? && r.zoned && r.candidates != [];
      if valid && r.key in s.registered
      then Run(config, s, OutcomeSteps(o, choices, reach))
           == Run(config, At(s, o, s.docs, Storing(Reading)), OutcomeSteps(o, choices[1..][1..], reach))
      else Run(config, s, OutcomeSteps(o, choices, reach)) == At(s, o, s.docs, Rejected)
  {
    hide Step, Run, OutcomeSteps, EngineArgs, StoreCalls.StoreStep;
    var r := s.outcomes[o].response;
    var s1 := OutcomeStepTaken(config, s, o, choices, reach);
    assert s1 == At(s, o, s.docs, if Valid(r) then CheckingRegistry else Rejected);
    if Valid(r) {
      var s2 := OutcomeStepTaken(config, s1, o, choices[1..], reach);
      assert s2 == At(s, o, s.docs, if r.key in s.registered then Storing(Reading) else Rejected);
      if r.key !in s.registered {
        EndedOutcomeRests(config, s2, o, choices[1..][1..], reach);
      }
    } else {
      EndedOutcomeRests(config, s1, o, choices[1..], reach);
    }
  }

  /** A call left alone does what `integrate_outcome` does: it rejects a malformed or unknown
      response without a trace, and otherwise delivers the row and rings once. */
  lemma SoloOutcomeCall(config: Config, s: System, o: Id, choices: seq<Choice>, reach: set<Id>)
    requires o in s.outcomes && s.outcomes[o].pc.Validating? && AllAnswer(choices) && |choices| >= 7
    ensures var r := s.outcomes[o].response; var s' := Run(config, s, OutcomeSteps(o, choices, reach));
      if r.timestamp.None? || !r.zoned || r.candidates == [] || r.key !in s.registered
      then s' == At(s, o, s.docs, Rejected)
      else
        var row := DeliveredRow(config, s.docs, r);
        var stored := At(s, o, s.docs[r.key := row], s.outcomes[o].pc);
        s' == Rung(stored, o, reach, if IsStale(config, s.docs, r) then None else Some(row))
  {
    hide Step, Run, OutcomeSteps, EngineArgs;
    var r := s.outcomes[o].response;
    ValidationRuns(config, s, o, choices, reach);
    if Valid(r) && r.key in s.registered {
      var rest := StoringRuns(config, s, o, choices[1..][1..], reach);
      var row := DeliveredRow(config, s.docs, r);
      var decision := if IsStale(config, s.docs, r) then None else Some(row);
      hide DeliveredRow, IsStale;
      RingingRuns(config, At(s, o, s.docs[r.key := row], RingingHere(decision)), o, rest, reach);
      RungAt(s, o, s.docs[r.key := row], RingingHere(decision), reach, decision);
    }
  }

  lemma RungAt(s: System, o: Id, docs: Docs, pc: OutcomePc, reach: set<Id>, decision: Option<Decision>)
    requires o in s.outcomes
    ensures Rung(At(s, o, docs, pc), o, reach, decision) == Rung(At(s, o, docs, s.outcomes[o].pc), o, reach, decision)
  {
    assert Rung(At(s, o, docs, pc), o, reach, decision).outcomes
        == Rung(At(s, o, docs, s.outcomes[o].pc), o, reach, decision).outcomes;
  }

  /** In any interleaving, a row written by an outcome call is its response's: the first
      candidate, the leading alternatives that fit, and the response's date. */
  lemma EngineWritesItsResponse(config: Config, s: System, o: Id, choice: Choice, reach: set<Id>)
    requires ResolveInv(config, s) && o in s.outcomes
    ensures var s' := Step(config, s, StepOutcome(o, choice, reach)); var r := s.outcomes[o].response;
      s'.docs != s.docs ==>
        && r.timestamp.Some? && r.zoned && r.candidates != [] && r.key in s'.docs
        && s'.docs == s.docs[r.key := s'.docs[r.key]]
        && var d, rest := s'.docs[r.key], r.candidates[1..];
        && d.mention == r.mention && Boundary(d) == r.timestamp.value
        && d.outcome.current == r.candidates[0]
        && d.outcome.candidates == rest[..if |rest| < config.maxCandidates then |rest| else config.maxCandidates]
  {
    assert OutcomeOk(config, s.docs, s.outcomes[o]);
    hide ResolveInv, NextOutcomePc;
  }

  /** And a row written by a resolve call is the draft of its own key, dated by its own clock. */
  lemma ResolveWritesItsDraft(config: Config, s: System, c: Id, choice: Choice)
    requires c in s.calls
    ensures var s' := Step(config, s, StepResolve(c, choice)); var call := s.calls[c];
      s'.docs != s.docs ==>
        && call.pc.Drafting? && call.key in s'.docs && s'.docs == s.docs[call.key := s'.docs[call.key]]
        && var d := s'.docs[call.key];
        && d.mention == call.mention && Boundary(d) == call.pc.at
        && d.outcome.current == ClusterReference(call.key, 0.0, 0.0)
  {
    hide NextPc;
  }

  // ---- From the engine's response to the waiting call ----

  /** A call holds the event of its own door. */
  ghost predicate DoorsHeld(s: System) {
    forall c | c in s.calls && Held(s.calls[c].pc).Some? ::
      var door := Door(s.calls[c].instance, s.calls[c].key);
      door in s.doors && s.doors[door] == Held(s.calls[c].pc).value
  }

  /** No two doors share an event. */
  ghost predicate DoorsDistinct(s: System) {
    forall d, e | d in s.doors && e in s.doors && d != e :: s.doors[d] != s.doors[e]
  }

  lemma ResolveStepDoors(config: Config, s: System, c: Id, choice: Choice)
    requires EventsOk(s.docs, s.doors, s.eventKey, s.rung, s.inbox) && c in s.calls && DoorsHeld(s) && DoorsDistinct(s)
    ensures DoorsHeld(StepResolveCall(config, s, c, choice)) && DoorsDistinct(StepResolveCall(config, s, c, choice))
  {
    hide StoreCalls.StoreStep, DraftOutcome;
  }

  lemma StepKeepsDoors(config: Config, s: System, e: Event)
    requires ResolveInv(config, s) && DoorsHeld(s) && DoorsDistinct(s)
    ensures DoorsHeld(Step(config, s, e)) && DoorsDistinct(Step(config, s, e))
  {
    hide StepResolveCall, NextOutcomePc, StoreCalls.StoreStep, CallOk, OutcomeOk;
    if e.StepResolve? && e.call in s.calls {
      ResolveStepDoors(config, s, e.call, e.choice);
    }
  }

  /** A call that went on from its registration is registered, and one that has waited keeps its
      event while it drafts. */
  ghost predicate Admitted(config: Config, registered: set<Id>, call: ResolveCall) {
    && (!call.pc.Registering? && call.pc != Answered(Failed) ==> call.key in registered)
    && (call.pc.Drafting? || call.pc.ReadingWinner? ==> (Held(call.pc).None? <==> config.noBudget))
    && (config.noBudget ==> Held(call.pc).None? && !call.pc.Joining?)
  }

  ghost predicate OutcomeAdmitted(registered: set<Id>, call: OutcomeCall) {
    !call.pc.Validating? && !call.pc.CheckingRegistry? && !call.pc.Rejected? ==> call.response.key in registered
  }

  /** Only registered mentions get past the registry, and only they have decisions. */
  ghost predicate RegistryOk(config: Config, s: System) {
    && s.docs.Keys <= s.registered
    && (forall c | c in s.calls :: Admitted(config, s.registered, s.calls[c]))
    && (forall o | o in s.outcomes :: OutcomeAdmitted(s.registered, s.outcomes[o]))
  }

  lemma ResolveStepAdmits(config: Config, s: System, c: Id, choice: Choice)
    requires c in s.calls && Admitted(config, s.registered, s.calls[c])
    ensures var s' := StepResolveCall(config, s, c, choice); Admitted(config, s'.registered, s'.calls[c])
  {
    hide StoreCalls.StoreStep, DraftOutcome;
  }

  lemma ResolveStepRegistry(config: Config, s: System, c: Id, choice: Choice)
    requires ResolveInv(config, s) && c in s.calls && RegistryOk(config, s)
    ensures RegistryOk(config, StepResolveCall(config, s, c, choice))
  {
    ResolveStepAdmits(config, s, c, choice);
    hide NextPc, StoreCalls.StoreStep, DraftOutcome;
    var call := s.calls[c];
    assert CallOk(config, s.docs, s.eventKey, s.rung, call);
    if call.pc.Drafting? {
      StoreStepKeepsRows(s.docs, DraftArgs(call, call.pc.at, config.maxCandidates), call.pc.store, choice.duplicateKey);
    }
  }

  lemma OutcomeStepRegistry(config: Config, s: System, o: Id, choice: Choice, reach: set<Id>)
    requires ResolveInv(config, s) && o in s.outcomes && RegistryOk(config, s)
    ensures RegistryOk(config, StepOutcomeCall(config, s, o, choice, reach))
  {
    hide StoreCalls.StoreStep, EngineArgs;
    var call := s.outcomes[o];
    assert OutcomeOk(config, s.docs, call);
    if call.pc.Storing? {
      StoreStepKeepsRows(s.docs, EngineArgs(call.response, config.maxCandidates), call.pc.store, choice.duplicateKey);
    }
  }

  lemma StepKeepsRegistry(config: Config, s: System, e: Event)
    requires ResolveInv(config, s) && RegistryOk(config, s)
    ensures RegistryOk(config, Step(config, s, e))
  {
    hide StepResolveCall, StepOutcomeCall, ResolveInv;
    if e.StepResolve? && e.call in s.calls {
      ResolveStepRegistry(config, s, e.call, e.choice);
    } else if e.StepOutcome? && e.call in s.outcomes {
      OutcomeStepRegistry(config, s, e.call, e.choice, e.reach);
    }
  }

  /** A mention becomes registered exactly when a resolve call goes on from its registration. */
  lemma StepRegisters(config: Config, s: System, e: Event, key: Id)
    ensures var s' := Step(config, s, e);
      key in s'.registered <==>
        || key in s.registered
        || exists c :: c in s.calls && s.calls[c].key == key && s.calls[c].pc.Registering?
                       && s'.calls[c].pc.CheckingStore?
  {
    hide StoreCalls.StoreStep, NextOutcomePc, DraftOutcome, AfterDraft;
    if e.StepResolve? && e.call in s.calls {
      var s' := Step(config, s, e);
      assert s'.calls == s.calls[e.call := s'.calls[e.call]];
    }
  }

  ghost predicate SystemOk(config: Config, s: System) {
    ResolveInv(config, s) && DoorsHeld(s) && DoorsDistinct(s) && RegistryOk(config, s)
  }

  lemma {:induction false} RunKeepsSystem(config: Config, s: System, events: seq<Event>)
    requires SystemOk(config, s)
    ensures SystemOk(config, Run(config, s, events))
    decreases |events|
  {
    hide Step, ResolveInv, DoorsHeld, DoorsDistinct, RegistryOk;
    if events == [] {
    } else {
      StepKeepsInv(config, s, events[0]);
      StepKeepsDoors(config, s, events[0]);
      StepKeepsRegistry(config, s, events[0]);
      RunKeepsSystem(config, Step(config, s, events[0]), events[1..]);
    }
  }

  /** In every run: each call holds its own door's event, no two doors share one, and no mention
      has a decision without being registered. */
  lemma EveryDoorIsKept(config: Config, events: seq<Event>)
    ensures SystemOk(config, Run(config, EMPTY_SYSTEM, events))
  {
    RunKeepsSystem(config, EMPTY_SYSTEM, events);
  }

  /** The outcome call can ring the waiting call: it runs where the call waits, or nobody waits
      where it runs and the channel reaches the call's instance. */
  predicate Reaches(s: System, o: Id, c: Id, reach: set<Id>)
    requires o in s.outcomes && c in s.calls
  {
    || s.calls[c].instance == s.outcomes[o].instance
    || (Door(s.outcomes[o].instance, s.outcomes[o].response.key) !in s.doors && s.calls[c].instance in reach)
  }

  /** The doorbell's way to the waiting call. */
  function Delivery(s: System, o: Id, c: Id): seq<Event>
    requires o in s.outcomes && c in s.calls
  {
    if s.calls[c].instance == s.outcomes[o].instance then []
    else [Deliver(Door(s.calls[c].instance, s.calls[c].key))]
  }

  /** A call waits for the mention of a valid response. */
  ghost predicate WaitsFor(config: Config, s: System, o: Id, c: Id) {
    && SystemOk(config, s)
    && o in s.outcomes && s.outcomes[o].pc.Validating? && Valid(s.outcomes[o].response)
    && c in s.calls && s.calls[c].pc.Waiting? && s.calls[c].key == s.outcomes[o].response.key
  }

  /** Integrating the response sets the event, stores first and touches no resolve call. */
  lemma ResponseRings(config: Config, s: System, o: Id, c: Id, choices: seq<Choice>, reach: set<Id>)
      returns (s': System)
    requires WaitsFor(config, s, o, c) && Reaches(s, o, c, reach) && AllAnswer(choices) && |choices| >= 7
    ensures s' == Run(config, s, OutcomeSteps(o, choices, reach) + Delivery(s, o, c))
    ensures ResolveInv(config, s') && s'.calls == s.calls && s.calls[c].pc.event in s'.rung
    ensures s'.docs == s.docs[s.calls[c].key := DeliveredRow(config, s.docs, s.outcomes[o].response)]
  {
    var key := s.calls[c].key;
    var door := Door(s.calls[c].instance, key);
    assert door in s.doors && s.doors[door] == s.calls[c].pc.event;
    SoloOutcomeCall(config, s, o, choices, reach);
    var s1 := Run(config, s, OutcomeSteps(o, choices, reach));
    hide EngineArgs, DeliveredRow, IsStale, ResolveInv, DoorsHeld, DoorsDistinct, RegistryOk, OutcomeSteps,
        StepResolveCall, StepOutcomeCall;
    RunKeepsSystem(config, s, OutcomeSteps(o, choices, reach) + Delivery(s, o, c));
    RunConcat(config, s, OutcomeSteps(o, choices, reach), Delivery(s, o, c));
    s' := Run(config, s1, Delivery(s, o, c));
    if s.calls[c].instance != s.outcomes[o].instance {
      assert [Deliver(door)][1..] == [];
      assert s' == Run(config, Step(config, s1, Deliver(door)), []);
      assert door in Bells(reach, key);
    }
  }

  /** An engine response that reaches the instance where a call waits is what that call answers,
      canonically and without any time-out. */
  lemma RungCallAnswers(config: Config, s: System, o: Id, c: Id, choices: seq<Choice>, reach: set<Id>,
                        woken: seq<Choice>)
    requires WaitsFor(config, s, o, c) && Reaches(s, o, c, reach)
    requires AllAnswer(choices) && |choices| >= 7 && AllAnswer(woken) && |woken| >= 2
    ensures var row := DeliveredRow(config, s.docs, s.outcomes[o].response);
      Answers(s, Run(config, s, OutcomeSteps(o, choices, reach) + Delivery(s, o, c) + Steps(c, woken)), c,
              s.docs[s.calls[c].key := row], Replied(row, Canonical))
  {
    hide Run, Step, SystemOk, DeliveredRow, Reaches, Delivery, Steps, OutcomeSteps;
    var s' := ResponseRings(config, s, o, c, choices, reach);
    WokenCallAnswers(config, s', c, woken);
    RunConcat(config, s, OutcomeSteps(o, choices, reach) + Delivery(s, o, c), Steps(c, woken));
  }

  /** Otherwise it rings nowhere for that call: somebody waits where the response is integrated,
      so the channel is not used, and only the call's own time-out ends its wait. */
  lemma UnreachedCallIsNotRung(config: Config, s: System, o: Id, c: Id, choices: seq<Choice>, reach: set<Id>)
    requires WaitsFor(config, s, o, c) && !Reaches(s, o, c, reach) && AllAnswer(choices) && |choices| >= 7
    requires s.calls[c].pc.event !in s.rung && Door(s.calls[c].instance, s.calls[c].key) !in s.inbox
    ensures var s' := Run(config, s, OutcomeSteps(o, choices, reach));
      && s'.calls == s.calls && s.calls[c].pc.event !in s'.rung
      && Door(s.calls[c].instance, s.calls[c].key) !in s'.inbox
      && s'.docs == s.docs[s.calls[c].key := DeliveredRow(config, s.docs, s.outcomes[o].response)]
  {
    var door := Door(s.calls[c].instance, s.calls[c].key);
    assert door in s.doors && s.doors[door] == s.calls[c].pc.event;
    SoloOutcomeCall(config, s, o, choices, reach);
    hide EngineArgs, DeliveredRow, IsStale, ResolveInv, OutcomeSteps, Run;
  }

  // ---- A resolve call left alone from its start ----

  /** Registration, first read, joining and publishing: the answer of a replay, or the wait. */
  lemma ArrivesAtWait(config: Config, s: System, c: Id, choices: seq<Choice>) returns (s': System)
    requires c in s.calls && s.calls[c].pc.Registering? && !config.noBudget
    requires AllAnswer(choices) && |choices| == 4
    requires Door(s.calls[c].instance, s.calls[c].key) in s.doors || choices[2].newEvent !in s.eventKey
    ensures s' == Run(config, s, Steps(c, choices)) && s'.docs == s.docs && c in s'.calls
    ensures var call := s.calls[c];
      if call.key in s.docs then s'.calls == s.calls[c := call.(pc := Answered(Replied(s.docs[call.key], Canonical)))]
      else s'.calls[c].pc.Waiting? && s'.calls == s.calls[c := call.(pc := s'.calls[c].pc)]
  {
    hide Run, StoreCalls.StoreStep;
    var s1 := NextState(config, s, c, choices);
    var s2 := NextState(config, s1, c, choices[1..]);
    if s.calls[c].key in s.docs {
      hide Step, Steps;
      AnsweredStays(config, s2, c, choices[1..][1..]);
      s' := Run(config, s, Steps(c, choices));
    } else {
      var s3 := NextState(config, s2, c, choices[1..][1..]);
      var s4 := NextState(config, s3, c, choices[1..][1..][1..]);
      assert choices[1..][1..][1..][1..] == [];
      s' := s4;
      assert Run(config, s4, Steps(c, [])) == s4 by { NothingLeft(config, s4, c); }
    }
  }

  lemma NothingLeft(config: Config, s: System, c: Id)
    ensures Run(config, s, Steps(c, [])) == s
  {
  }

  lemma NextState(config: Config, s: System, c: Id, choices: seq<Choice>) returns (s': System)
    requires c in s.calls && choices != []
    ensures s' == StepResolveCall(config, s, c, choices[0])
    ensures Run(config, s, Steps(c, choices)) == Run(config, s', Steps(c, choices[1..]))
  {
    s' := Step(config, s, StepResolve(c, choices[0]));
    assert Steps(c, choices)[1..] == Steps(c, choices[1..]);
  }

  /** A call that is never rung answers what `resolve_single` answers: a replay at once, and
      otherwise, after its time-out, its own draft. */
  lemma SoloResolveCall(config: Config, s: System, c: Id, first: seq<Choice>, late: seq<Choice>)
    requires c in s.calls && s.calls[c].pc.Registering? && !config.noBudget
    requires AllAnswer(first) && |first| == 4 && AllAnswer(late) && |late| >= 4
    requires Door(s.calls[c].instance, s.calls[c].key) in s.doors || first[2].newEvent !in s.eventKey
    ensures var call, s' := s.calls[c], Run(config, s, Steps(c, first) + ([TimeOut(c)] + Steps(c, late)));
      var draft := NewDocument(call.mention, DraftOutcome(call.key, config.maxCandidates), late[0].now);
      if call.key in s.docs then Answers(s, s', c, s.docs, Replied(s.docs[call.key], Canonical))
      else Answers(s, s', c, s.docs[call.key := draft], Replied(draft, Provisional))
  {
    hide Run, Steps, Step, DraftOutcome;
    var s1 := ArrivesAtWait(config, s, c, first);
    RunConcat(config, s, Steps(c, first), [TimeOut(c)] + Steps(c, late));
    var s2 := TimeOutTaken(config, s1, c, Steps(c, late));
    if s.calls[c].key in s.docs {
      AnsweredStays(config, s2, c, late);
    } else {
      LateReadAnswers(config, s2, c, late);
    }
  }

  /** A time-out ends a wait and nothing else. */
  lemma TimeOutTaken(config: Config, s: System, c: Id, rest: seq<Event>) returns (s': System)
    requires c in s.calls
    ensures Run(config, s, [TimeOut(c)] + rest) == Run(config, s', rest)
    ensures var call := s.calls[c];
      s' == if call.pc.Waiting? then s.(calls := s.calls[c := call.(pc := ReadingLate(call.pc.event))]) else s
  {
    s' := Step(config, s, TimeOut(c));
    assert ([TimeOut(c)] + rest)[1..] == rest;
  }

  /** Without a time budget the draft follows at once. */
  lemma SoloDraftingCall(config: Config, s: System, c: Id, choices: seq<Choice>)
    requires c in s.calls && s.calls[c].pc.Registering? && config.noBudget
    requires AllAnswer(choices) && |choices| >= 5
    ensures var call, s' := s.calls[c], Run(config, s, Steps(c, choices));
      var draft := NewDocument(call.mention, DraftOutcome(call.key, config.maxCandidates), choices[1].now);
      if call.key in s.docs then Answers(s, s', c, s.docs, Replied(s.docs[call.key], Canonical))
      else Answers(s, s', c, s.docs[call.key := draft], Replied(draft, Provisional))
  {
    hide Run, Step, Steps, DraftOutcome;
    var s1 := StepTaken(config, s, c, choices);
    var s2 := StepTaken(config, s1, c, choices[1..]);
    if s.calls[c].key in s.docs {
      AnsweredStays(config, s2, c, choices[1..][1..]);
    } else {
      DraftInserts(config, s2, c, choices[1..][1..]);
    }
  }
}
