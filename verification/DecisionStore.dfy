/**
 `DecisionStoreService.store_decision` run on its own, and what a whole delivery history of
 one mention leaves in the store.
 */
module DecisionStore {
  import opened Common
  import opened Decisions
  import opened ClusterSizes
  import opened StoreCalls

  function RowOf(docs: Docs, id: Id): Option<Decision> {
    if id in docs then Some(docs[id]) else None
  }

  /** The row after one undisturbed call. */
  function Deliver(row: Option<Decision>, mention: Triad, o: Outcome, at: Time): (r: Option<Decision>)
    ensures r.Some?
  {
    match row
    case None => Some(NewDocument(mention, o, at))
    case Some(d) =>
      if d.outcome != o && Boundary(d) < at then Some(MovedDocument(d, mention, o, at)) else row
  }

  class DecisionStoreService {
    const repository: DecisionRepository
    const index: ClusterSizeIndex?
    const maxCandidates: nat

    constructor (repository: DecisionRepository, index: ClusterSizeIndex?, maxCandidates: nat)
      ensures this.repository == repository && this.index == index && this.maxCandidates == maxCandidates
    {
      this.repository := repository;
      this.index := index;
      this.maxCandidates := maxCandidates;
    }

    method StoreDecision(id: Id, mention: Triad, current: ClusterReference,
                         candidates: seq<ClusterReference>, at: Time)
      returns (r: StoreResult)
      modifies repository, if index == null then {} else {index}
      ensures var o := Truncated(current, candidates, maxCandidates);
        var was := RowOf(old(repository.docs), id);
        var now := Deliver(was, mention, o, at);
        && repository.docs == old(repository.docs)[id := now.value]
        && (r.Unchanged? <==> was.Some? && was.value.outcome == o)
        && (r.Stale? <==> was.Some? && was.value.outcome != o && at <= Boundary(was.value))
        && !r.OperationFailed?
        && (r.Stored? || r.Unchanged? ==> r.decision == now.value)
      ensures r.Stored? || r.Unchanged? ==>
        && id in repository.docs && r.decision == repository.docs[id]
        && r.decision.outcome.current == current
        && r.decision.outcome.candidates
           == candidates[..if |candidates| < maxCandidates then |candidates| else maxCandidates]
      ensures r.Stored? ==> Boundary(r.decision) == at && r.decision.mention == mention
      ensures index != null ==>
        var source := if id in old(repository.docs) then Some(ClusterOf(old(repository.docs)[id])) else None;
        if r.Stored? && source != Some(current.clusterId)
        then forall k :: ShiftedRow(old(index.sizes), index.sizes, source, Some(current.clusterId), 1, k)
        else index.sizes == old(index.sizes)
    {
      var existing := repository.FindById(id);
      var o := Truncated(current, candidates, maxCandidates);
      if existing.Some? && existing.value.outcome == o {
        assert repository.docs == repository.docs[id := existing.value];
        return Unchanged(existing.value);
      }
      r := repository.UpsertDecision(id, mention, o, at, existing.Some?);
      if r.Stored? {
        if index != null {
          var source := if existing.Some? then Some(ClusterOf(existing.value)) else None;
          index.Shift(source, Some(current.clusterId), 1);
        }
      } else {
        assert repository.docs == repository.docs[id := existing.value];
      }
    }
  }

  // ---- Delivery histories of one mention ----

  /** An engine message for the mention, its candidates already truncated. */
  datatype Message = Message(outcome: Outcome, at: Time)

  /** The row left by a history of messages, processed one at a time. */
  function Delivered(mention: Triad, history: seq<Message>): Option<Decision> {
    if history == [] then None
    else
      var last := history[|history| - 1];
      Deliver(Delivered(mention, history[..|history| - 1]), mention, last.outcome, last.at)
  }

  ghost predicate Greatest(top: Message, messages: set<Message>) {
    top in messages && forall m | m in messages :: m.at <= top.at
  }

  ghost predicate HoldsMessage(row: Option<Decision>, m: Message) {
    row.Some? && row.value.outcome == m.outcome && Boundary(row.value) == m.at
  }

  ghost predicate Covers(history: seq<Message>, messages: set<Message>) {
    forall m :: m in history <==> m in messages
  }

  /** Whatever the order and the repetitions, the store ends with the outcome of the
      greatest timestamp, and its boundary is that timestamp. */
  ghost predicate Converges(mention: Triad, messages: set<Message>) {
    forall history, top | Covers(history, messages) && Greatest(top, messages) ::
      HoldsMessage(Delivered(mention, history), top)
  }

  /** Exactly the messages dated like the greatest one carry its outcome. */
  ghost predicate TopOutcomeIsDatedOnce(messages: set<Message>) {
    forall top, m | Greatest(top, messages) && m in messages ::
      m.outcome == top.outcome <==> m.at == top.at
  }

  /** What is stored was put there by a delivered message, boundary included. */
  lemma {:induction false} StoredByAMessage(mention: Triad, history: seq<Message>) returns (m: Message)
    requires history != []
    ensures m in history && HoldsMessage(Delivered(mention, history), m)
  {
    var earlier, last := history[..|history| - 1], history[|history| - 1];
    if earlier == [] {
      m := last;
    } else {
      m := StoredByAMessage(mention, earlier);
      if m.outcome != last.outcome && m.at < last.at {
        m := last;
      }
    }
  }

  lemma {:induction false} GreatestWins(mention: Triad, messages: set<Message>, history: seq<Message>, top: Message)
    requires TopOutcomeIsDatedOnce(messages) && Greatest(top, messages)
    requires forall m | m in history :: m in messages
    requires top in history
    ensures HoldsMessage(Delivered(mention, history), top)
  {
    var earlier, last := history[..|history| - 1], history[|history| - 1];
    if top in earlier {
      GreatestWins(mention, messages, earlier, top);
    } else if earlier != [] {
      var m := StoredByAMessage(mention, earlier);
    }
  }

  /** Messages with the stored outcome are short-circuited: the boundary does not move. */
  lemma {:induction false} SameOutcomeKeepsRow(mention: Triad, before: seq<Message>, more: seq<Message>)
    requires before != []
    requires forall m | m in more :: m.outcome == Delivered(mention, before).value.outcome
    ensures Delivered(mention, before + more) == Delivered(mention, before)
  {
    if more == [] {
      assert before + more == before;
    } else {
      var n := |more| - 1;
      SameOutcomeKeepsRow(mention, before, more[..n]);
      assert (before + more)[..|before + more| - 1] == before + more[..n];
    }
  }

  lemma {:induction false} BoundaryStaysBelow(mention: Triad, before: seq<Message>, more: seq<Message>, bound: Time)
    requires before != [] && Boundary(Delivered(mention, before).value) < bound
    requires forall m | m in more :: m.at < bound
    ensures Boundary(Delivered(mention, before + more).value) < bound
  {
    if more == [] {
      assert before + more == before;
    } else {
      var n := |more| - 1;
      BoundaryStaysBelow(mention, before, more[..n], bound);
      assert (before + more)[..|before + more| - 1] == before + more[..n];
    }
  }

  lemma {:induction false} Enumerate(messages: set<Message>) returns (history: seq<Message>)
    ensures Covers(history, messages)
  {
    if messages == {} {
      history := [];
    } else {
      var m :| m in messages;
      var rest := Enumerate(messages - {m});
      history := [m] + rest;
    }
  }

  /** An older message with the top outcome can be delivered first; the top one is then
      short-circuited and the boundary never reaches its date. */
  lemma OlderTwinBreaksConvergence(mention: Triad, messages: set<Message>, top: Message, twin: Message)
    requires Greatest(top, messages) && twin in messages
    requires twin.outcome == top.outcome && twin.at < top.at
    requires forall m | m in messages && m.at == top.at :: m.outcome == top.outcome
    ensures !Converges(mention, messages)
  {
    var tops := Enumerate(set m | m in messages && m.at == top.at);
    var others := Enumerate(set m | m in messages && m.at < top.at);
    assert Delivered(mention, [twin]) == Deliver(None, mention, twin.outcome, twin.at);
    SameOutcomeKeepsRow(mention, [twin], tops);
    BoundaryStaysBelow(mention, [twin] + tops, others, top.at);
    var history := [twin] + tops + others;
    assert Covers(history, messages);
    assert !HoldsMessage(Delivered(mention, history), top);
  }

  /** Delivery order does not matter exactly when the top outcome is dated once. */
  lemma ConvergenceExactly(mention: Triad, messages: set<Message>)
    ensures Converges(mention, messages) <==> TopOutcomeIsDatedOnce(messages)
  {
    if TopOutcomeIsDatedOnce(messages) {
      forall history, top | Covers(history, messages) && Greatest(top, messages)
        ensures HoldsMessage(Delivered(mention, history), top)
      {
        GreatestWins(mention, messages, history, top);
      }
    }
    if Converges(mention, messages) {
      forall top, m | Greatest(top, messages) && m in messages
        ensures m.outcome == top.outcome <==> m.at == top.at
      {
        var all := Enumerate(messages);
        forall m' | m' in messages && m'.at == top.at
          ensures m'.outcome == top.outcome
        {
          assert Greatest(m', messages);
          assert HoldsMessage(Delivered(mention, all), m') && HoldsMessage(Delivered(mention, all), top);
        }
        if m.outcome == top.outcome && m.at != top.at {
          OlderTwinBreaksConvergence(mention, messages, top, m);
        }
      }
    }
  }

  /** The short-circuit at work: a newer message repeating the outcome does not raise the
      boundary, so an older different one is accepted after it. */
  lemma RepeatedOutcomeLosesDate(mention: Triad, a: Outcome, b: Outcome)
    requires a != b
    ensures var m1, m3, late := Message(a, 1.0), Message(a, 3.0), Message(b, 2.0);
      && HoldsMessage(Delivered(mention, [m1, m3, late]), late)
      && HoldsMessage(Delivered(mention, [m1, late, m3]), m3)
  {
    var m1, m3, late := Message(a, 1.0), Message(a, 3.0), Message(b, 2.0);
    assert [m1, m3, late][..2] == [m1, m3] && [m1, m3][..1] == [m1];
    assert [m1, late, m3][..2] == [m1, late] && [m1, late][..1] == [m1];
    assert Delivered(mention, [m1]) == Some(NewDocument(mention, a, 1.0));
  }
}
