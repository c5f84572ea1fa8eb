/**
 Resolve, wait, notify: several instances over one shared store, each with its own waiter,
 connected by a channel that may lose doorbells. Every call is cut at its awaits.

 The waiter's key and the decision's id are both functions of the same concatenation of the
 mention's fields, so one `key` stands for both.
 */
module Resolution {
  import opened Common
  import opened Decisions
  import opened StoreCalls

  datatype Verdict = Canonical | Provisional

  datatype Reply = Replied(decision: Decision, verdict: Verdict) | Failed

  /** `resolve_single`. An event is held from joining until the answer. */
  datatype ResolvePc =
    | Registering
    | CheckingStore
    | Joining
    | Publishing(event: Id)
    | Waiting(event: Id)
    | ReadingWoken(event: Id)
    | ReadingLate(event: Id)
    | Drafting(held: Option<Id>, at: Time, store: StorePc)
    | ReadingWinner(held: Option<Id>)
    | Answered(reply: Reply)

  datatype ResolveCall = ResolveCall(instance: Id, mention: Triad, key: Id, pc: ResolvePc)

  /** An engine response; `zoned` says that the timestamp carries a time zone. */
  datatype Response = Response(mention: Triad, key: Id, timestamp: Option<Time>, zoned: bool,
                               candidates: seq<ClusterReference>)

  /** `integrate_outcome`: validate, check the registry, store, ring. */
  datatype OutcomePc =
    | Validating
    | CheckingRegistry
    | Storing(store: StorePc)
    | RingingHere(decision: Option<Decision>)
    | RingingOut(decision: Option<Decision>)
    | Integrated(decision: Option<Decision>)
    | Rejected

  datatype OutcomeCall = OutcomeCall(instance: Id, response: Response, pc: OutcomePc)

  /** Where an instance keeps the event of a key, and where a doorbell for it arrives. */
  datatype Door = Door(instance: Id, key: Id)

  datatype System = System(
    docs: Docs,
    registered: set<Id>,
    doors: map<Door, Id>,       // each waiter's events
    eventKey: map<Id, Id>,      // every event ever created, by the key it was created for
    rung: set<Id>,              // events that are set
    inbox: set<Door>,           // doorbells published and not yet lost
    calls: map<Id, ResolveCall>,
    outcomes: map<Id, OutcomeCall>)

  /** Configuration: whether the time budget is zero, and how many candidates are kept. */
  datatype Config = Config(noBudget: bool, maxCandidates: nat)

  /** The environment's choices at a step: whether the backend answers, the identity of a new
      event, the clock, and the store's reaction to an insert race. */
  datatype Choice = Choice(ok: bool, newEvent: Id, now: Time, duplicateKey: bool)

  datatype Event =
    | StartResolve(call: Id, instance: Id, mention: Triad, key: Id)
    | StepResolve(call: Id, choice: Choice)
    | TimeOut(call: Id)
    | StartOutcome(call: Id, instance: Id, response: Response)
    | StepOutcome(call: Id, choice: Choice, reach: set<Id>)
    | Deliver(door: Door)
    | Lose(door: Door)
    | Collect(door: Door)

  /** The mention's own identifier as its cluster, without any score, and as its only candidate. */
  function DraftOutcome(key: Id, maxCandidates: nat): (o: Outcome)
    ensures o.current == ClusterReference(key, 0.0, 0.0)
    ensures o.candidates == if maxCandidates == 0 then [] else [ClusterReference(key, 0.0, 0.0)]
  {
    var draft := ClusterReference(key, 0.0, 0.0);
    Truncated(draft, [draft], maxCandidates)
  }

  function DraftArgs(call: ResolveCall, at: Time, maxCandidates: nat): StoreArgs {
    StoreArgs(call.key, call.mention, DraftOutcome(call.key, maxCandidates), at)
  }

  predicate Valid(r: Response) {
    r.timestamp.Some? && r.zoned && r.candidates != []
  }

  /** The first candidate is the placement, the others are its alternatives. */
  function EngineArgs(r: Response, maxCandidates: nat): (args: StoreArgs)
    requires Valid(r)
    ensures args.id == r.key && args.mention == r.mention && args.at == r.timestamp.value
    ensures args.outcome.current == r.candidates[0] && args.outcome.candidates <= r.candidates[1..]
    ensures |args.outcome.candidates| == if |r.candidates| - 1 < maxCandidates then |r.candidates| - 1
        else maxCandidates
  {
    StoreArgs(r.key, r.mention, Truncated(r.candidates[0], r.candidates[1..], maxCandidates), r.timestamp.value)
  }

  function AfterDraft(held: Option<Id>, at: Time, store: StorePc): ResolvePc {
    match store
    case Finished(Stored(d)) => Answered(Replied(d, Provisional))
    case Finished(Unchanged(d)) => Answered(Replied(d, Provisional))
    case Finished(Stale) => ReadingWinner(held)
    case Finished(OperationFailed) => Answered(Failed)
    case _ => Drafting(held, at, store)
  }

  function Held(pc: ResolvePc): Option<Id> {
    match pc
    case Publishing(e) => Some(e)
    case Waiting(e) => Some(e)
    case ReadingWoken(e) => Some(e)
    case ReadingLate(e) => Some(e)
    case Drafting(held, _, _) => held
    case ReadingWinner(held) => held
    case _ => None
  }

  /** The next control point of a resolve call, reading the store as it is. */
  function NextPc(config: Config, s: System, call: ResolveCall, choice: Choice): ResolvePc {
    var key := call.key;
    match call.pc
    case Registering => if choice.ok then CheckingStore else Answered(Failed)
    case CheckingStore =>
      if !choice.ok then Answered(Failed)
      else if key in s.docs then Answered(Replied(s.docs[key], Canonical))
      else if config.noBudget then Drafting(None, choice.now, Reading)
      else Joining
    case Joining =>
      var door := Door(call.instance, key);
      if door in s.doors then Publishing(s.doors[door])
      else if choice.newEvent in s.eventKey then Joining
      else Publishing(choice.newEvent)
    case Publishing(e) => if choice.ok then Waiting(e) else Answered(Failed)
    case Waiting(e) => if e in s.rung then ReadingWoken(e) else Waiting(e)
    case ReadingWoken(e) =>
      if !choice.ok then Answered(Failed)
      else if key in s.docs then Answered(Replied(s.docs[key], Canonical))
      else Drafting(Some(e), choice.now, Reading)
    case ReadingLate(e) =>
      if !choice.ok then Answered(Failed)
      else if key in s.docs then Answered(Replied(s.docs[key], Canonical))
      else Drafting(Some(e), choice.now, Reading)
    case Drafting(held, at, store) =>
      if !choice.ok then Answered(Failed)
      else AfterDraft(held, at, StoreStep(false, s.docs, DraftArgs(call, at, config.maxCandidates), store,
                                          choice.duplicateKey).1)
    case ReadingWinner(_) =>
      if choice.ok && key in s.docs then Answered(Replied(s.docs[key], Canonical)) else Answered(Failed)
    case Answered(_) => call.pc
  }

  function StepResolveCall(config: Config, s: System, c: Id, choice: Choice): System
    requires c in s.calls
  {
    var call := s.calls[c];
    var door := Door(call.instance, call.key);
    var creates := call.pc.Joining? && door !in s.doors && choice.newEvent !in s.eventKey;
    s.(calls := s.calls[c := call.(pc := NextPc(config, s, call, choice))],
       docs := if call.pc.Drafting? && choice.ok
               then StoreStep(false, s.docs, DraftArgs(call, call.pc.at, config.maxCandidates), call.pc.store,
                              choice.duplicateKey).0
               else s.docs,
       registered := if call.pc.Registering? && choice.ok then s.registered + {call.key} else s.registered,
       doors := if creates then s.doors[door := choice.newEvent] else s.doors,
       eventKey := if creates then s.eventKey[choice.newEvent := call.key] else s.eventKey)
  }

  function AfterStoring(store: StorePc): OutcomePc {
    match store
    case Finished(Stored(d)) => RingingHere(Some(d))
    case Finished(Unchanged(d)) => RingingHere(Some(d))
    case Finished(Stale) => RingingHere(None)
    case Finished(OperationFailed) => Rejected
    case _ => Storing(store)
  }

  function NextOutcomePc(config: Config, s: System, call: OutcomeCall, choice: Choice): OutcomePc {
    match call.pc
    case Validating => if Valid(call.response) then CheckingRegistry else Rejected
    case CheckingRegistry =>
      if call.response.key in s.registered && Valid(call.response) then Storing(Reading) else Rejected
    case Storing(store) =>
      if !choice.ok || !Valid(call.response) then Rejected
      else AfterStoring(StoreStep(false, s.docs, EngineArgs(call.response, config.maxCandidates), store,
                                  choice.duplicateKey).1)
    case RingingHere(d) =>
      if Door(call.instance, call.response.key) in s.doors then Integrated(d) else RingingOut(d)
    case RingingOut(d) => Integrated(d)
    case _ => call.pc
  }

  function StepOutcomeCall(config: Config, s: System, c: Id, choice: Choice, reach: set<Id>): System
    requires c in s.outcomes
  {
    var call := s.outcomes[c];
    var key := call.response.key;
    var door := Door(call.instance, key);
    s.(outcomes := s.outcomes[c := call.(pc := NextOutcomePc(config, s, call, choice))],
       docs := if call.pc.Storing? && choice.ok && Valid(call.response)
               then StoreStep(false, s.docs, EngineArgs(call.response, config.maxCandidates), call.pc.store,
                              choice.duplicateKey).0
               else s.docs,
       rung := if call.pc.RingingHere? && door in s.doors then s.rung + {s.doors[door]} else s.rung,
       inbox := if call.pc.RingingOut? && choice.ok
                then s.inbox + set i | i in reach :: Door(i, key) else s.inbox)
  }

  function Step(config: Config, s: System, e: Event): System {
    match e
    case StartResolve(c, instance, mention, key) =>
      if c in s.calls then s else s.(calls := s.calls[c := ResolveCall(instance, mention, key, Registering)])
    case StepResolve(c, choice) =>
      if c in s.calls then StepResolveCall(config, s, c, choice) else s
    case TimeOut(c) =>
      if c in s.calls && s.calls[c].pc.Waiting?
      then s.(calls := s.calls[c := s.calls[c].(pc := ReadingLate(s.calls[c].pc.event))]) else s
    case StartOutcome(c, instance, response) =>
      if c in s.outcomes then s else s.(outcomes := s.outcomes[c := OutcomeCall(instance, response, Validating)])
    case StepOutcome(c, choice, reach) =>
      if c in s.outcomes then StepOutcomeCall(config, s, c, choice, reach) else s
    case Deliver(door) =>
      if door in s.inbox && door in s.doors then s.(rung := s.rung + {s.doors[door]}) else s
    case Lose(door) => s.(inbox := s.inbox - {door})
    case Collect(door) =>
      if door in s.doors && forall c | c in s.calls :: Held(s.calls[c].pc) != Some(s.doors[door])
      then s.(doors := s.doors - {door}) else s
  }

  function Run(config: Config, s: System, events: seq<Event>): System
    decreases |events|
  {
    if events == [] then s else Run(config, Step(config, s, events[0]), events[1..])
  }

  const EMPTY_SYSTEM := System(map[], {}, map[], map[], {}, {}, map[], map[])

  // ---- A set event means a stored decision ----

  ghost predicate CallOk(config: Config, docs: Docs, eventKey: map<Id, Id>, rung: set<Id>, call: ResolveCall) {
    && (Held(call.pc).Some? ==> Held(call.pc).value in eventKey && eventKey[Held(call.pc).value] == call.key)
    && (call.pc.ReadingWoken? ==> call.pc.event in rung)
    && (call.pc.Drafting? ==> StorePcOk(docs, DraftArgs(call, call.pc.at, config.maxCandidates), call.pc.store))
    && (call.pc.ReadingWinner? ==> call.key in docs)
  }

  ghost predicate OutcomeOk(config: Config, docs: Docs, call: OutcomeCall) {
    && (call.pc.Storing? ==> Valid(call.response) && StorePcOk(docs, EngineArgs(call.response, config.maxCandidates),
                                                               call.pc.store))
    && (call.pc.RingingHere? || call.pc.RingingOut? ==> call.response.key in docs)
  }

  ghost predicate EventsOk(docs: Docs, doors: map<Door, Id>, eventKey: map<Id, Id>, rung: set<Id>, inbox: set<Door>) {
    && (forall d | d in doors :: doors[d] in eventKey && eventKey[doors[d]] == d.key)
    && (forall e | e in rung :: e in eventKey && eventKey[e] in docs)
    && (forall d | d in inbox :: d.key in docs)
  }

  ghost predicate ResolveInv(config: Config, s: System) {
    && EventsOk(s.docs, s.doors, s.eventKey, s.rung, s.inbox)
    && (forall c | c in s.calls :: CallOk(config, s.docs, s.eventKey, s.rung, s.calls[c]))
    && (forall c | c in s.outcomes :: OutcomeOk(config, s.docs, s.outcomes[c]))
  }

  /** Stored rows and set events stay, and an event keeps the key it was created for. */
  ghost predicate Grows(s: System, s': System) {
    && s.docs.Keys <= s'.docs.Keys
    && s.rung <= s'.rung
    && forall e | e in s.eventKey :: e in s'.eventKey && s'.eventKey[e] == s.eventKey[e]
  }

  lemma StoreStepKeepsRows(docs: Docs, args: StoreArgs, pc: StorePc, duplicateKey: bool)
    requires StorePcOk(docs, args, pc)
    ensures var (docs', pc') := StoreStep(false, docs, args, pc, duplicateKey);
      && docs.Keys <= docs'.Keys <= docs.Keys + {args.id}
      && StorePcOk(docs', args, pc')
  {
  }

  lemma CallStaysOk(config: Config, s: System, s': System, call: ResolveCall)
    requires Grows(s, s') && CallOk(config, s.docs, s.eventKey, s.rung, call)
    ensures CallOk(config, s'.docs, s'.eventKey, s'.rung, call)
  {
  }

  lemma OutcomeStaysOk(config: Config, docs: Docs, docs': Docs, call: OutcomeCall)
    requires docs.Keys <= docs'.Keys && OutcomeOk(config, docs, call)
    ensures OutcomeOk(config, docs', call)
  {
  }

  /** At most one call changed, and it is in order. */
  ghost predicate OneTouched(config: Config, s: System, s': System) {
    && Grows(s, s') && EventsOk(s'.docs, s'.doors, s'.eventKey, s'.rung, s'.inbox)
    && (forall c | c in s'.calls :: (c in s.calls && s'.calls[c] == s.calls[c])
                                    || CallOk(config, s'.docs, s'.eventKey, s'.rung, s'.calls[c]))
    && (forall c | c in s'.outcomes :: (c in s.outcomes && s'.outcomes[c] == s.outcomes[c])
                                       || OutcomeOk(config, s'.docs, s'.outcomes[c]))
  }

  lemma OwnResolveStep(config: Config, s: System, c: Id, choice: Choice)
    requires ResolveInv(config, s) && c in s.calls
    ensures OneTouched(config, s, StepResolveCall(config, s, c, choice))
  {
    hide CallOk, Grows, NextPc;
    ResolveStepGrows(config, s, c, choice);
    ResolveStepCallOk(config, s, c, choice);
  }

  lemma ResolveStepCallOk(config: Config, s: System, c: Id, choice: Choice)
    requires c in s.calls && CallOk(config, s.docs, s.eventKey, s.rung, s.calls[c])
    requires var door := Door(s.calls[c].instance, s.calls[c].key);
      door in s.doors ==> s.doors[door] in s.eventKey && s.eventKey[s.doors[door]] == door.key
    ensures var s' := StepResolveCall(config, s, c, choice);
      CallOk(config, s'.docs, s'.eventKey, s'.rung, s'.calls[c])
  {
    hide StoreCalls.StoreStep, DraftOutcome;
    var call := s.calls[c];
    if call.pc.Drafting? {
      StoreStepKeepsRows(s.docs, DraftArgs(call, call.pc.at, config.maxCandidates), call.pc.store, choice.duplicateKey);
    }
  }

  lemma ResolveStepGrows(config: Config, s: System, c: Id, choice: Choice)
    requires EventsOk(s.docs, s.doors, s.eventKey, s.rung, s.inbox)
    requires c in s.calls && CallOk(config, s.docs, s.eventKey, s.rung, s.calls[c])
    ensures var s' := StepResolveCall(config, s, c, choice);
      Grows(s, s') && EventsOk(s'.docs, s'.doors, s'.eventKey, s'.rung, s'.inbox)
  {
    hide NextPc, StoreStep;
    var call := s.calls[c];
    if call.pc.Drafting? {
      StoreStepKeepsRows(s.docs, DraftArgs(call, call.pc.at, config.maxCandidates), call.pc.store, choice.duplicateKey);
    }
  }

  lemma OutcomeStepGrows(config: Config, s: System, c: Id, choice: Choice, reach: set<Id>)
    requires EventsOk(s.docs, s.doors, s.eventKey, s.rung, s.inbox)
    requires c in s.outcomes && OutcomeOk(config, s.docs, s.outcomes[c])
    ensures var s' := StepOutcomeCall(config, s, c, choice, reach);
      Grows(s, s') && EventsOk(s'.docs, s'.doors, s'.eventKey, s'.rung, s'.inbox)
  {
    hide NextOutcomePc, StoreCalls.StoreStep;
    var call := s.outcomes[c];
    if call.pc.Storing? {
      StoreStepKeepsRows(s.docs, EngineArgs(call.response, config.maxCandidates), call.pc.store, choice.duplicateKey);
    }
  }

  lemma OutcomeStepOk(config: Config, s: System, c: Id, choice: Choice, reach: set<Id>)
    requires c in s.outcomes && OutcomeOk(config, s.docs, s.outcomes[c])
    ensures var s' := StepOutcomeCall(config, s, c, choice, reach); OutcomeOk(config, s'.docs, s'.outcomes[c])
  {
    hide StoreCalls.StoreStep;
    var call := s.outcomes[c];
    if call.pc.Storing? {
      StoreStepKeepsRows(s.docs, EngineArgs(call.response, config.maxCandidates), call.pc.store, choice.duplicateKey);
    }
  }

  lemma OwnOutcomeStep(config: Config, s: System, c: Id, choice: Choice, reach: set<Id>)
    requires ResolveInv(config, s) && c in s.outcomes
    ensures OneTouched(config, s, StepOutcomeCall(config, s, c, choice, reach))
  {
    hide OutcomeOk, Grows, NextOutcomePc;
    OutcomeStepGrows(config, s, c, choice, reach);
    OutcomeStepOk(config, s, c, choice, reach);
  }

  /** Starts, time-outs and doorbells. */
  lemma OtherEvent(config: Config, s: System, e: Event)
    requires ResolveInv(config, s) && !e.StepResolve? && !e.StepOutcome?
    ensures OneTouched(config, s, Step(config, s, e))
  {
    hide StepResolveCall, StepOutcomeCall;
    if e.TimeOut? && e.call in s.calls {
      assert CallOk(config, s.docs, s.eventKey, s.rung, s.calls[e.call]);
    }
  }

  lemma StepTouchesOne(config: Config, s: System, e: Event)
    requires ResolveInv(config, s)
    ensures OneTouched(config, s, Step(config, s, e))
  {
    hide StepResolveCall, StepOutcomeCall, CallOk, OutcomeOk;
    match e
    case StepResolve(c, choice) => if c in s.calls { OwnResolveStep(config, s, c, choice); }
    case StepOutcome(c, choice, reach) => if c in s.outcomes { OwnOutcomeStep(config, s, c, choice, reach); }
    case _ => OtherEvent(config, s, e);
  }

  lemma StepKeepsInv(config: Config, s: System, e: Event)
    requires ResolveInv(config, s)
    ensures ResolveInv(config, Step(config, s, e)) && Grows(s, Step(config, s, e))
  {
    hide Step, EventsOk, CallOk, OutcomeOk;
    var s' := Step(config, s, e);
    StepTouchesOne(config, s, e);
    forall c | c in s'.calls
      ensures CallOk(config, s'.docs, s'.eventKey, s'.rung, s'.calls[c])
    {
      if c in s.calls && s'.calls[c] == s.calls[c] {
        CallStaysOk(config, s, s', s.calls[c]);
      }
    }
    forall c | c in s'.outcomes
      ensures OutcomeOk(config, s'.docs, s'.outcomes[c])
    {
      if c in s.outcomes && s'.outcomes[c] == s.outcomes[c] {
        OutcomeStaysOk(config, s.docs, s'.docs, s.outcomes[c]);
      }
    }
  }

  lemma {:induction false} RunKeepsInv(config: Config, s: System, events: seq<Event>)
    requires ResolveInv(config, s)
    ensures ResolveInv(config, Run(config, s, events)) && Grows(s, Run(config, s, events))
    decreases |events|
  {
    if events == [] {
    } else {
      StepKeepsInv(config, s, events[0]);
      RunKeepsInv(config, Step(config, s, events[0]), events[1..]);
    }
  }

  /** In every run, whichever doorbells are lost: a set event and a doorbell under way mean a
      stored decision for their key, and a call woken by its event reads one and answers
      canonically as long as the store answers. */
  lemma BellsMeanDecisions(config: Config, events: seq<Event>, c: Id, choice: Choice)
    ensures var s := Run(config, EMPTY_SYSTEM, events);
      && (forall d | d in s.doors && s.doors[d] in s.rung :: d.key in s.docs)
      && (forall d | d in s.inbox :: d.key in s.docs)
      && (c in s.calls && s.calls[c].pc.ReadingWoken? && choice.ok ==>
            var after := Step(config, s, StepResolve(c, choice));
            s.calls[c].key in s.docs
            && after.calls[c].pc == Answered(Replied(s.docs[s.calls[c].key], Canonical)))
  {
    RunKeepsInv(config, EMPTY_SYSTEM, events);
    var s := Run(config, EMPTY_SYSTEM, events);
    if c in s.calls {
      assert CallOk(config, s.docs, s.eventKey, s.rung, s.calls[c]);
    }
  }

  // ---- The final read ----

  /** The call has not yet read the store for the last time before drafting. */
  predicate BeforeFinalRead(pc: ResolvePc) {
    !pc.Drafting? && !pc.ReadingWinner? && !pc.Answered?
  }

  /** Where a call can be when the store held its decision before its final read. */
  predicate NeverDrafts(pc: ResolvePc) {
    BeforeFinalRead(pc) || (pc.Answered? && (pc.reply.Replied? ==> pc.reply.verdict.Canonical?))
  }

  lemma StepNeverDrafts(config: Config, s: System, e: Event, c: Id)
    requires c in s.calls && s.calls[c].key in s.docs && NeverDrafts(s.calls[c].pc)
    ensures var s' := Step(config, s, e);
      c in s'.calls && s'.calls[c].key == s.calls[c].key && NeverDrafts(s'.calls[c].pc)
  {
    if e.StepResolve? && e.call == c {
      assert NeverDrafts(NextPc(config, s, s.calls[c], e.choice));
    }
  }

  /** Once a decision is stored, whatever happens afterwards and whichever doorbells are lost,
      a call that has not done its final read yet never drafts a provisional identifier: it
      answers canonically or fails. */
  lemma {:induction false} StoredBeforeFinalRead(config: Config, s: System, events: seq<Event>, c: Id)
    requires ResolveInv(config, s)
    requires c in s.calls && s.calls[c].key in s.docs && NeverDrafts(s.calls[c].pc)
    ensures var s' := Run(config, s, events);
      c in s'.calls && s'.calls[c].key == s.calls[c].key && NeverDrafts(s'.calls[c].pc)
    decreases |events|
  {
    hide Step, ResolveInv;
    if events == [] {
    } else {
      StepKeepsInv(config, s, events[0]);
      StepNeverDrafts(config, s, events[0], c);
      StoredBeforeFinalRead(config, Step(config, s, events[0]), events[1..], c);
    }
  }

  // ---- Provisional agreement ----

  ghost predicate AllDrafts(docs: Docs, maxCandidates: nat) {
    forall key | key in docs :: docs[key].outcome == DraftOutcome(key, maxCandidates)
  }

  /** Whatever decision a call has in hand is the draft of its own key. */
  ghost predicate HoldsDraft(config: Config, call: ResolveCall) {
    && (call.pc.Answered? && call.pc.reply.Replied? ==>
          call.pc.reply.decision.outcome == DraftOutcome(call.key, config.maxCandidates))
    && (call.pc.Drafting? && call.pc.store.Finished?
        && (call.pc.store.result.Stored? || call.pc.store.result.Unchanged?) ==>
          call.pc.store.result.decision.outcome == DraftOutcome(call.key, config.maxCandidates))
  }

  ghost predicate DraftsOnly(config: Config, s: System) {
    && AllDrafts(s.docs, config.maxCandidates)
    && s.outcomes == map[]
    && forall c | c in s.calls :: HoldsDraft(config, s.calls[c])
  }

  lemma DraftStepRows(config: Config, s: System, c: Id, choice: Choice)
    requires AllDrafts(s.docs, config.maxCandidates) && c in s.calls
    ensures AllDrafts(StepResolveCall(config, s, c, choice).docs, config.maxCandidates)
  {
    hide DraftOutcome, NextPc;
  }

  lemma DraftStepReply(config: Config, s: System, c: Id, choice: Choice)
    requires AllDrafts(s.docs, config.maxCandidates) && c in s.calls && HoldsDraft(config, s.calls[c])
    ensures HoldsDraft(config, s.calls[c].(pc := NextPc(config, s, s.calls[c], choice)))
  {
    hide DraftOutcome;
    var call := s.calls[c];
    assert call.key in s.docs ==> s.docs[call.key].outcome == DraftOutcome(call.key, config.maxCandidates);
  }

  lemma DraftStep(config: Config, s: System, c: Id, choice: Choice)
    requires AllDrafts(s.docs, config.maxCandidates) && c in s.calls && HoldsDraft(config, s.calls[c])
    ensures var s' := StepResolveCall(config, s, c, choice);
      AllDrafts(s'.docs, config.maxCandidates) && HoldsDraft(config, s'.calls[c])
  {
    DraftStepRows(config, s, c, choice);
    DraftStepReply(config, s, c, choice);
    hide AllDrafts, HoldsDraft, NextPc, StoreCalls.StoreStep;
  }

  lemma StepKeepsDrafts(config: Config, s: System, e: Event)
    requires DraftsOnly(config, s) && !e.StartOutcome?
    ensures DraftsOnly(config, Step(config, s, e))
  {
    hide DraftOutcome, NextPc, AllDrafts;
    if e.StepResolve? && e.call in s.calls {
      DraftStep(config, s, e.call, e.choice);
    }
  }

  /** With no engine outcome, any number of overlapping resolve calls agree: every stored
      placement is the derived identifier of its key in every state, and every answered call
      returns that identifier. */
  lemma {:induction false} DraftsAgree(config: Config, s: System, events: seq<Event>)
    requires DraftsOnly(config, s)
    requires forall e | e in events :: !e.StartOutcome?
    ensures var s' := Run(config, s, events);
      && DraftsOnly(config, s')
      && (forall key | key in s'.docs :: ClusterOf(s'.docs[key]) == key)
      && (forall c | c in s'.calls && s'.calls[c].pc.Answered? && s'.calls[c].pc.reply.Replied? ::
            ClusterOf(s'.calls[c].pc.reply.decision) == s'.calls[c].key)
    decreases |events|
  {
    hide Step;
    if events == [] {
      forall c | c in s.calls && s.calls[c].pc.Answered? && s.calls[c].pc.reply.Replied?
        ensures ClusterOf(s.calls[c].pc.reply.decision) == s.calls[c].key
      {
        assert HoldsDraft(config, s.calls[c]);
      }
    } else {
      hide DraftsOnly;
      StepKeepsDrafts(config, s, events[0]);
      DraftsAgree(config, Step(config, s, events[0]), events[1..]);
    }
  }
}
