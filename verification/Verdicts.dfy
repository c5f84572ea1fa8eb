/**
 What a provisional and a canonical answer mean, in every run of the resolve machine.
 */
module Verdicts {
  import opened Common
  import opened Decisions
  import opened StoreCalls
  import opened Resolution
  import opened Drafts

  // ---- What a provisional answer means ----

  /** At this step the call's insert meets the row `d` and is handed it. */
  predicate HandsOver(s: System, e: Event, c: Id, d: Decision) {
    && e.StepResolve? && e.call == c && e.choice.ok && !e.choice.duplicateKey
    && c in s.calls && s.calls[c].pc.Drafting? && s.calls[c].pc.store.Inserting?
    && s.calls[c].key in s.docs && s.docs[s.calls[c].key] == d
  }

  /** Somewhere in the run the call's insert was handed `d`. */
  predicate Handed(config: Config, s: System, events: seq<Event>, c: Id, d: Decision)
    decreases |events|
  {
    events != [] && (HandsOver(s, events[0], c, d) || Handed(config, Step(config, s, events[0]), events[1..], c, d))
  }

  predicate SaysProvisional(s: System, c: Id, d: Decision) {
    c in s.calls && s.calls[c].pc == Answered(Replied(d, Provisional))
  }

  /** The call has not said provisional of anything but its own draft. */
  ghost predicate OwnSoFar(config: Config, s: System, c: Id) {
    c in s.calls ==>
      && !(s.calls[c].pc.Drafting? && s.calls[c].pc.store.Finished?)
      && forall d | SaysProvisional(s, c, d) :: d.outcome == DraftOutcome(s.calls[c].key, config.maxCandidates)
  }

  /** Only its own steps and its own time-out move a call. */
  lemma OthersLeaveCall(config: Config, s: System, e: Event, c: Id)
    requires c in s.calls && !(e.StepResolve? && e.call == c)
    ensures var s' := Step(config, s, e);
      && c in s'.calls && s'.calls[c].key == s.calls[c].key
      && (s'.calls[c].pc == s.calls[c].pc || s'.calls[c].pc.ReadingLate?)
  {
  }

  /** A draft's step: the answer it gives as provisional is its own draft or a row handed over. */
  lemma DraftAnswer(config: Config, s: System, call: ResolveCall, choice: Choice, d: Decision)
    requires call.pc.Drafting? && !call.pc.store.Finished?
    requires NextPc(config, s, call, choice) == Answered(Replied(d, Provisional))
    ensures d.outcome == DraftOutcome(call.key, config.maxCandidates)
            || (choice.ok && !choice.duplicateKey && call.pc.store.Inserting? && call.key in s.docs
                && s.docs[call.key] == d)
  {
    hide DraftOutcome;
  }

  lemma ProvisionalStep(config: Config, s: System, e: Event, c: Id)
    requires OwnSoFar(config, s, c)
    ensures var s' := Step(config, s, e);
      OwnSoFar(config, s', c) || exists d :: HandsOver(s, e, c, d) && SaysProvisional(s', c, d)
  {
    hide DraftOutcome, StoreCalls.StoreStep;
    var s' := Step(config, s, e);
    if c in s.calls {
      if e.StepResolve? && e.call == c {
        hide DraftOutcome;
        if d :| SaysProvisional(s', c, d) && d.outcome != DraftOutcome(s.calls[c].key, config.maxCandidates) {
          DraftAnswer(config, s, s.calls[c], e.choice, d);
          assert HandsOver(s, e, c, d);
        }
      } else {
        OthersLeaveCall(config, s, e, c);
      }
    }
  }

  lemma AnswerIsFinal(config: Config, s: System, e: Event, c: Id, d: Decision)
    requires SaysProvisional(s, c, d)
    ensures SaysProvisional(Step(config, s, e), c, d) && Step(config, s, e).calls[c].key == s.calls[c].key
  {
  }

  lemma {:induction false} AnswerStays(config: Config, s: System, events: seq<Event>, c: Id, d: Decision)
    requires SaysProvisional(s, c, d)
    ensures SaysProvisional(Run(config, s, events), c, d)
    decreases |events|
  {
    hide Step, SaysProvisional;
    if events == [] {
    } else {
      AnswerIsFinal(config, s, events[0], c, d);
      AnswerStays(config, Step(config, s, events[0]), events[1..], c, d);
    }
  }

  lemma {:induction false} OwnOrHanded(config: Config, s: System, events: seq<Event>, c: Id)
    requires OwnSoFar(config, s, c)
    ensures var s' := Run(config, s, events);
      OwnSoFar(config, s', c) || exists d :: Handed(config, s, events, c, d) && SaysProvisional(s', c, d)
    decreases |events|
  {
    hide Step, OwnSoFar, SaysProvisional, HandsOver;
    if events == [] {
    } else {
      var next := Step(config, s, events[0]);
      ProvisionalStep(config, s, events[0], c);
      if OwnSoFar(config, next, c) {
        OwnOrHanded(config, next, events[1..], c);
        if d :| Handed(config, next, events[1..], c, d) && SaysProvisional(Run(config, s, events), c, d) {
          assert Handed(config, s, events, c, d);
        }
      } else {
        var d :| HandsOver(s, events[0], c, d) && SaysProvisional(next, c, d);
        AnswerStays(config, next, events[1..], c, d);
        assert Handed(config, s, events, c, d);
      }
    }
  }

  lemma {:induction false} HandedIsAnswered(config: Config, s: System, events: seq<Event>, c: Id, d: Decision)
    requires Handed(config, s, events, c, d)
    ensures SaysProvisional(Run(config, s, events), c, d)
    decreases |events|
  {
    var next := Step(config, s, events[0]);
    if HandsOver(s, events[0], c, d) {
      assert SaysProvisional(next, c, d);
      AnswerStays(config, next, events[1..], c, d);
    } else {
      HandedIsAnswered(config, next, events[1..], c, d);
    }
  }

  /** In every run a provisional answer carries the draft of its key, except when the call's
      insert met a row and was handed it; and whatever row it was handed, an engine outcome
      included, it calls provisional. */
  lemma ProvisionalMeansDraftedOrHanded(config: Config, events: seq<Event>, c: Id, d: Decision)
    ensures var s := Run(config, EMPTY_SYSTEM, events);
      && (c in s.calls && d.outcome != DraftOutcome(s.calls[c].key, config.maxCandidates) ==>
            (SaysProvisional(s, c, d) <==> Handed(config, EMPTY_SYSTEM, events, c, d)))
      && (Handed(config, EMPTY_SYSTEM, events, c, d) ==> SaysProvisional(s, c, d))
  {
    hide Step, Run, Handed, DraftOutcome;
    OwnOrHanded(config, EMPTY_SYSTEM, events, c);
    if Handed(config, EMPTY_SYSTEM, events, c, d) {
      HandedIsAnswered(config, EMPTY_SYSTEM, events, c, d);
    }
  }

  // ---- What a canonical answer means ----

  predicate IsDrafting(s: System, c: Id) {
    c in s.calls && s.calls[c].pc.Drafting?
  }

  /** Somewhere in the run the call was drafting. */
  predicate Drafted(config: Config, s: System, events: seq<Event>, c: Id)
    decreases |events|
  {
    IsDrafting(s, c) || (events != [] && Drafted(config, Step(config, s, events[0]), events[1..], c))
  }

  /** At this step a row rejects the draft: its date does, or the insert is a duplicate key. */
  predicate RejectsDraft(s: System, e: Event, c: Id) {
    && e.StepResolve? && e.call == c && e.choice.ok && IsDrafting(s, c) && s.calls[c].key in s.docs
    && var pc := s.calls[c].pc;
    && ((pc.store.Inserting? && e.choice.duplicateKey)
        || (pc.store.Updating? && pc.at <= Boundary(s.docs[s.calls[c].key])))
  }

  predicate Rejected(config: Config, s: System, events: seq<Event>, c: Id)
    decreases |events|
  {
    events != [] && (RejectsDraft(s, events[0], c) || Rejected(config, Step(config, s, events[0]), events[1..], c))
  }

  /** Where a call is, given whether it has drafted and whether a row has rejected its draft. */
  predicate Phase(s: System, c: Id, drafted: bool, rejected: bool) {
    if c !in s.calls then !drafted && !rejected
    else
      match s.calls[c].pc
      case Drafting(_, _, store) => drafted && (rejected <==> store.FetchingStale?) && !store.Finished?
      case ReadingWinner(_) => drafted && rejected
      case Answered(Failed) => true
      case Answered(Replied(_, verdict)) => verdict.Canonical? <==> !drafted || rejected
      case _ => !drafted && !rejected
  }

  lemma OwnPhase(config: Config, s: System, c: Id, choice: Choice, drafted: bool, rejected: bool)
    requires ResolveInv(config, s) && c in s.calls && Phase(s, c, drafted, rejected)
    ensures var e := StepResolve(c, choice); var s' := Step(config, s, e);
      Phase(s', c, drafted || IsDrafting(s', c), rejected || RejectsDraft(s, e, c))
  {
    assert CallOk(config, s.docs, s.eventKey, s.rung, s.calls[c]);
    hide ResolveInv, DraftOutcome;
  }

  lemma StepPhase(config: Config, s: System, e: Event, c: Id, drafted: bool, rejected: bool)
    requires ResolveInv(config, s) && Phase(s, c, drafted, rejected)
    ensures var s' := Step(config, s, e);
      Phase(s', c, drafted || IsDrafting(s', c), rejected || RejectsDraft(s, e, c))
  {
    if c in s.calls {
      if e.StepResolve? && e.call == c {
        OwnPhase(config, s, c, e.choice, drafted, rejected);
      } else {
        hide NextPc, ResolveInv;
      }
    } else {
      hide ResolveInv;
    }
  }

  lemma {:induction false} RunPhase(config: Config, s: System, events: seq<Event>, c: Id, drafted: bool, rejected: bool)
    requires ResolveInv(config, s) && Phase(s, c, drafted, rejected) && (IsDrafting(s, c) ==> drafted)
    ensures Phase(Run(config, s, events), c, drafted || Drafted(config, s, events, c),
                  rejected || Rejected(config, s, events, c))
    decreases |events|
  {
    hide Step, ResolveInv, Phase, IsDrafting, RejectsDraft;
    if events == [] {
    } else {
      var next := Step(config, s, events[0]);
      StepKeepsInv(config, s, events[0]);
      StepPhase(config, s, events[0], c, drafted, rejected);
      RunPhase(config, next, events[1..], c, drafted || IsDrafting(next, c), rejected || RejectsDraft(s, events[0], c));
    }
  }

  /** In every run an answered decision is called canonical exactly when the call never drafted
      or a row rejected its draft, whoever wrote that row. */
  lemma CanonicalMeansReadOrRejected(config: Config, events: seq<Event>, c: Id)
    ensures var s := Run(config, EMPTY_SYSTEM, events);
      c in s.calls && s.calls[c].pc.Answered? && s.calls[c].pc.reply.Replied? ==>
        (s.calls[c].pc.reply.verdict.Canonical? <==>
           !Drafted(config, EMPTY_SYSTEM, events, c) || Rejected(config, EMPTY_SYSTEM, events, c))
  {
    hide Run, Drafted, Rejected;
    RunPhase(config, EMPTY_SYSTEM, events, c, false, false);
  }

  // ---- The exceptions happen ----

  const PROMPT := Choice(true, 0, 0.0, false)

  /** A call without a time budget comes to its insert. */
  lemma ReachesInsert(config: Config, s: System, c: Id, mention: Triad, key: Id) returns (s': System)
    requires config.noBudget && c !in s.calls && key !in s.docs
    ensures var e := StepResolve(c, PROMPT); s' == Run(config, s, [StartResolve(c, 0, mention, key)] + [e, e, e, e])
    ensures var call := ResolveCall(0, mention, key, Drafting(None, 0.0, Inserting));
      s' == s.(registered := s.registered + {key}, calls := s.calls[c := call])
  {
    var start, e := StartResolve(c, 0, mention, key), StepResolve(c, PROMPT);
    var s0 := Step(config, s, start);
    var s1 := Step(config, s0, e);
    var s2 := Step(config, s1, e);
    var s3 := Step(config, s2, e);
    s' := Step(config, s3, e);
    hide Step;
    FourEvents(config, s0, e);
    RunConcat(config, s, [start], [e, e, e, e]);
    assert [start][1..] == [];
    assert Run(config, s, [start]) == Run(config, s0, []);
  }

  lemma FourEvents(config: Config, s: System, e: Event)
    ensures Run(config, s, [e, e, e, e]) == Step(config, Step(config, Step(config, Step(config, s, e), e), e), e)
  {
    hide Step;
    var s1 := Step(config, s, e);
    var s2 := Step(config, s1, e);
    var s3 := Step(config, s2, e);
    assert [e, e, e, e][1..] == [e, e, e] && [e, e, e][1..] == [e, e] && [e, e][1..] == [e] && [e][1..] == [];
    assert Run(config, s2, [e, e]) == Run(config, s3, [e]);
    assert Run(config, s3, [e]) == Run(config, Step(config, s3, e), []);
  }

  /** An engine response comes to its store. */
  lemma EngineComesToStore(config: Config, s: System, response: Response) returns (s': System)
    requires Valid(response) && s.outcomes == map[] && response.key in s.registered
    ensures var e := StepOutcome(0, PROMPT, {});
      s' == Step(config, Step(config, Step(config, s, StartOutcome(0, 0, response)), e), e)
    ensures s'.docs == s.docs && s'.calls == s.calls
    ensures s'.outcomes == map[0 := OutcomeCall(0, response, Storing(Reading))]
  {
    var e := StepOutcome(0, PROMPT, {});
    var s1 := Step(config, Step(config, s, StartOutcome(0, 0, response)), e);
    assert s1.outcomes == map[0 := OutcomeCall(0, response, CheckingRegistry)];
    s' := Step(config, s1, e);
  }

  /** Finding nothing, it is inserted. */
  lemma EngineInserts(config: Config, s: System, response: Response) returns (s': System)
    requires Valid(response) && s.docs == map[] && s.outcomes == map[0 := OutcomeCall(0, response, Storing(Reading))]
    ensures var e := StepOutcome(0, PROMPT, {}); s' == Step(config, Step(config, Step(config, s, e), e), e)
    ensures var args := EngineArgs(response, config.maxCandidates);
      s'.docs == map[response.key := NewDocument(args.mention, args.outcome, args.at)] && s'.calls == s.calls
  {
    assert EngineArgs(response, config.maxCandidates).id == response.key;
    hide EngineArgs;
    var e := StepOutcome(0, PROMPT, {});
    var s1 := Step(config, s, e);
    assert s1.docs == map[] && s1.calls == s.calls;
    assert s1.outcomes == map[0 := OutcomeCall(0, response, Storing(PreReading))];
    var s2 := Step(config, s1, e);
    assert s2.docs == map[] && s2.calls == s.calls;
    assert s2.outcomes == map[0 := OutcomeCall(0, response, Storing(Inserting))];
    s' := Step(config, s2, e);
  }

  /** The engine's response is integrated, up to its store. */
  lemma EngineStores(config: Config, s: System, response: Response) returns (s': System)
    requires Valid(response) && s.docs == map[] && s.outcomes == map[] && response.key in s.registered
    ensures var e := StepOutcome(0, PROMPT, {});
      s' == Run(config, s, [StartOutcome(0, 0, response), e] + [e, e, e, e])
    ensures var args := EngineArgs(response, config.maxCandidates);
      s'.docs == map[response.key := NewDocument(args.mention, args.outcome, args.at)] && s'.calls == s.calls
  {
    hide Step;
    var start, e := StartOutcome(0, 0, response), StepOutcome(0, PROMPT, {});
    var s0 := Step(config, s, start);
    var s2 := EngineComesToStore(config, s, response);
    s' := EngineInserts(config, s2, response);
    FourEvents(config, Step(config, s0, e), e);
    RunConcat(config, s, [start, e], [e, e, e, e]);
    assert [start, e][1..] == [e] && [e][1..] == [];
    assert Run(config, s0, [e]) == Run(config, Step(config, s0, e), []);
  }

  /** An engine outcome stored between a draft's last read and its insert is answered as
      provisional, although nothing was drafted. */
  lemma EngineRowCalledProvisional(config: Config, mention: Triad, response: Response) returns (events: seq<Event>)
    requires config.noBudget && Valid(response)
    ensures var args := EngineArgs(response, config.maxCandidates);
      SaysProvisional(Run(config, EMPTY_SYSTEM, events), 0, NewDocument(args.mention, args.outcome, args.at))
  {
    var start, e, f := StartResolve(0, 0, mention, response.key), StepResolve(0, PROMPT), StepOutcome(0, PROMPT, {});
    var s1 := ReachesInsert(config, EMPTY_SYSTEM, 0, mention, response.key);
    var s2 := EngineStores(config, s1, response);
    var first, second := [start] + [e, e, e, e], [StartOutcome(0, 0, response), f] + [f, f, f, f];
    events := first + second + Steps(0, [PROMPT]);
    hide Step, Run;
    RunConcat(config, EMPTY_SYSTEM, first, second);
    RunConcat(config, EMPTY_SYSTEM, first + second, Steps(0, [PROMPT]));
    var s3 := StepTaken(config, s2, 0, [PROMPT]);
    AnsweredStays(config, s3, 0, []);
  }

  lemma {:induction false} StepsAreResolves(c: Id, choices: seq<Choice>)
    ensures forall e | e in Steps(c, choices) :: e.StepResolve?
  {
    if choices == [] {
    } else {
      StepsAreResolves(c, choices[1..]);
    }
  }

  /** Two calls on one mention come to their inserts. */
  lemma BothReachInsert(config: Config, mention: Triad, key: Id) returns (events: seq<Event>, s: System)
    requires config.noBudget
    ensures s == Run(config, EMPTY_SYSTEM, events) && forall e | e in events :: !e.StartOutcome?
    ensures var call := ResolveCall(0, mention, key, Drafting(None, 0.0, Inserting));
      s.docs == map[] && s.calls == map[0 := call, 1 := call]
  {
    hide Step, Run;
    var e, f := StepResolve(0, PROMPT), StepResolve(1, PROMPT);
    var first := [StartResolve(0, 0, mention, key)] + [e, e, e, e];
    var second := [StartResolve(1, 0, mention, key)] + [f, f, f, f];
    var s1 := ReachesInsert(config, EMPTY_SYSTEM, 0, mention, key);
    s := ReachesInsert(config, s1, 1, mention, key);
    RunConcat(config, EMPTY_SYSTEM, first, second);
    events := first + second;
  }

  /** Without any engine outcome, a call whose insert loses to another call's draft with a
      duplicate-key error answers that draft as canonical. */
  lemma OtherDraftCalledCanonical(config: Config, mention: Triad, key: Id) returns (events: seq<Event>)
    requires config.noBudget
    ensures forall e | e in events :: !e.StartOutcome?
    ensures var s := Run(config, EMPTY_SYSTEM, events);
      && key in s.docs && s.docs[key].outcome == DraftOutcome(key, config.maxCandidates)
      && 1 in s.calls && s.calls[1].pc == Answered(Replied(s.docs[key], Canonical))
  {
    var losing := [PROMPT.(duplicateKey := true), PROMPT, PROMPT];
    hide Step, Run, DraftOutcome, Steps;
    var before, s := BothReachInsert(config, mention, key);
    var s1 := StepTaken(config, s, 0, [PROMPT]);
    assert [PROMPT][1..] == [] && s1.calls[0].pc.Answered? && s1.docs.Keys == {key};
    AnsweredStays(config, s1, 0, []);
    var s2 := Run(config, s, Steps(0, [PROMPT]));
    DraftReplacesExactly(config, s2, 1, losing);
    StepsAreResolves(0, [PROMPT]);
    StepsAreResolves(1, losing);
    events := before + Steps(0, [PROMPT]) + Steps(1, losing);
    RunConcat(config, EMPTY_SYSTEM, before, Steps(0, [PROMPT]));
    RunConcat(config, EMPTY_SYSTEM, before + Steps(0, [PROMPT]), Steps(1, losing));
  }
}
