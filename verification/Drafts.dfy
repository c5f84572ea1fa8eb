/**
 What becomes of a provisional draft: calls of the resolve machine that are left alone from
 some point on.
 */
module Drafts {
  import opened Common
  import opened Decisions
  import opened StoreCalls
  import opened Resolution

  function Steps(c: Id, choices: seq<Choice>): seq<Event> {
    if choices == [] then [] else [StepResolve(c, choices[0])] + Steps(c, choices[1..])
  }

  predicate AllAnswer(choices: seq<Choice>) {
    forall choice | choice in choices :: choice.ok
  }

  /** One step of a call; only the store and the call itself are described. */
  lemma StepTaken(config: Config, s: System, c: Id, choices: seq<Choice>) returns (s': System)
    requires c in s.calls && choices != []
    ensures Run(config, s, Steps(c, choices)) == Run(config, s', Steps(c, choices[1..]))
    ensures var call, choice := s.calls[c], choices[0];
      && s'.calls == s.calls[c := call.(pc := NextPc(config, s, call, choice))]
      && (!call.pc.Drafting? ==> s'.docs == s.docs)
      && (call.pc.Drafting? && choice.ok ==>
            s'.docs == StoreStep(false, s.docs, DraftArgs(call, call.pc.at, config.maxCandidates),
                                 call.pc.store, choice.duplicateKey).0)
  {
    s' := Step(config, s, StepResolve(c, choices[0]));
    assert Steps(c, choices)[1..] == Steps(c, choices[1..]);
  }

  lemma {:induction false} RunConcat(config: Config, s: System, a: seq<Event>, b: seq<Event>)
    ensures Run(config, s, a + b) == Run(config, Run(config, s, a), b)
    decreases |a|
  {
    hide Step;
    if a == [] {
      assert a + b == b;
    } else {
      assert (a + b)[1..] == a[1..] + b;
      RunConcat(config, Step(config, s, a[0]), a[1..], b);
    }
  }

  /** The call gave this answer and left these rows; no other call moved. */
  ghost predicate Answers(s: System, s': System, c: Id, docs: Docs, reply: Reply) {
    c in s.calls && s'.docs == docs && s'.calls == s.calls[c := s.calls[c].(pc := Answered(reply))]
  }

  lemma {:induction false} AnsweredStays(config: Config, s: System, c: Id, choices: seq<Choice>)
    requires c in s.calls && s.calls[c].pc.Answered?
    ensures Answers(s, Run(config, s, Steps(c, choices)), c, s.docs, s.calls[c].pc.reply)
    decreases |choices|
  {
    hide Step;
    if choices == [] {
      assert s.calls[c := s.calls[c]] == s.calls;
    } else {
      var s1 := StepTaken(config, s, c, choices);
      AnsweredStays(config, s1, c, choices[1..]);
    }
  }

  lemma WinnerAnswers(config: Config, s: System, c: Id, choices: seq<Choice>)
    requires c in s.calls && s.calls[c].pc.ReadingWinner? && s.calls[c].key in s.docs
    requires choices != [] && choices[0].ok
    ensures Answers(s, Run(config, s, Steps(c, choices)), c, s.docs, Replied(s.docs[s.calls[c].key], Canonical))
  {
    hide Step, Run, Steps;
    var s1 := StepTaken(config, s, c, choices);
    AnsweredStays(config, s1, c, choices[1..]);
  }

  // ---- A draft that meets a row ----

  /** The draft's store call has not come to a result yet. */
  predicate Undecided(store: StorePc) {
    store.Reading? || store.PreReading? || store.Inserting? || store.Updating? || store.FetchingStale?
  }

  function StepsNeeded(store: StorePc): nat
    requires Undecided(store)
  {
    match store
    case Reading => 4
    case PreReading => 4
    case Inserting => 3
    case Updating(_) => 3
    case _ => 2
  }

  /** The row is replaced: a path that updates, a clock past the boundary, something to change
      for a path that compares. */
  predicate DraftWrites(d: Decision, args: StoreArgs, store: StorePc) {
    && Boundary(d) < args.at
    && (store.PreReading? || store.Updating? || (store.Reading? && d.outcome != args.outcome))
  }

  function RowAfterDraft(d: Decision, args: StoreArgs, store: StorePc): Decision {
    if DraftWrites(d, args, store) then MovedDocument(d, args.mention, args.outcome, args.at) else d
  }

  /** The answer is called provisional: the draft was written, it was stored already, or the
      insert was handed the winner's row. */
  predicate CalledProvisional(d: Decision, args: StoreArgs, store: StorePc, duplicateKey: bool) {
    || DraftWrites(d, args, store)
    || (store.Reading? && d.outcome == args.outcome)
    || (store.Inserting? && !duplicateKey)
  }

  /** A draft meets a row, at whatever step its store call is: whether it replaces the row, and
      whether the row it answers with is called provisional or canonical. */
  lemma {:induction false} DraftReplacesExactly(config: Config, s: System, c: Id, choices: seq<Choice>)
    requires c in s.calls && s.calls[c].pc.Drafting? && Undecided(s.calls[c].pc.store) && s.calls[c].key in s.docs
    requires AllAnswer(choices) && |choices| >= StepsNeeded(s.calls[c].pc.store)
    ensures var call := s.calls[c];
      var d, args := s.docs[call.key], DraftArgs(call, call.pc.at, config.maxCandidates);
      var d' := RowAfterDraft(d, args, call.pc.store);
      Answers(s, Run(config, s, Steps(c, choices)), c, s.docs[call.key := d'],
              Replied(d', if CalledProvisional(d, args, call.pc.store, choices[0].duplicateKey) then Provisional
                      else Canonical))
    decreases |choices|
  {
    hide Step, Run, Steps, DraftOutcome;
    var call := s.calls[c];
    assert s.docs[call.key := s.docs[call.key]] == s.docs;
    var s1 := StepTaken(config, s, c, choices);
    assert AllAnswer(choices[1..]);
    if s1.calls[c].pc.Drafting? {
      DraftReplacesExactly(config, s1, c, choices[1..]);
    } else if s1.calls[c].pc.ReadingWinner? {
      WinnerAnswers(config, s1, c, choices[1..]);
    } else {
      AnsweredStays(config, s1, c, choices[1..]);
    }
  }

  // ---- A call left alone from its final read on ----

  /** A draft that meets nothing is inserted. */
  lemma DraftInserts(config: Config, s: System, c: Id, choices: seq<Choice>)
    requires c in s.calls && s.calls[c].pc.Drafting? && s.calls[c].pc.store.Reading? && s.calls[c].key !in s.docs
    requires AllAnswer(choices) && |choices| >= 3
    ensures var call := s.calls[c];
      var draft := NewDocument(call.mention, DraftOutcome(call.key, config.maxCandidates), call.pc.at);
      Answers(s, Run(config, s, Steps(c, choices)), c, s.docs[call.key := draft], Replied(draft, Provisional))
  {
    hide Step, Run, Steps, DraftOutcome;
    var s1 := StepTaken(config, s, c, choices);
    var s2 := StepTaken(config, s1, c, choices[1..]);
    var s3 := StepTaken(config, s2, c, choices[1..][1..]);
    AnsweredStays(config, s3, c, choices[1..][1..][1..]);
  }

  /** The machine gives the answer and the row the method gives. */
  lemma LateReadAnswers(config: Config, s: System, c: Id, choices: seq<Choice>)
    requires c in s.calls && s.calls[c].pc.ReadingLate? && AllAnswer(choices) && |choices| >= 4
    ensures var call := s.calls[c];
      var draft := NewDocument(call.mention, DraftOutcome(call.key, config.maxCandidates), choices[0].now);
      if call.key in s.docs
      then Answers(s, Run(config, s, Steps(c, choices)), c, s.docs, Replied(s.docs[call.key], Canonical))
      else Answers(s, Run(config, s, Steps(c, choices)), c, s.docs[call.key := draft], Replied(draft, Provisional))
  {
    hide Step, Run, Steps, DraftOutcome;
    var s1 := StepTaken(config, s, c, choices);
    assert AllAnswer(choices[1..]);
    if s.calls[c].key in s.docs {
      AnsweredStays(config, s1, c, choices[1..]);
    } else {
      DraftInserts(config, s1, c, choices[1..]);
    }
  }
}
