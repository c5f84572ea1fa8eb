/**
 The `decisions` collection: one document per mention triad, the filters that guard its
 atomic writes, and the repository that issues those writes.
 */
module Decisions {
  import opened Common

  datatype Triad = Triad(sourceId: Id, requestId: Id, entityType: Id)

  datatype ClusterReference = ClusterReference(clusterId: Id, confidence: real, similarity: real)

  /** What one engine message, or one provisional write, says about a mention. */
  datatype Outcome = Outcome(current: ClusterReference, candidates: seq<ClusterReference>)

  /** A stored document. `None` is an absent field: `updatedAt` until the first update,
      `reviewCount` until the first counted action, `reviewed` on legacy documents. */
  datatype Decision = Decision(
    mention: Triad,
    outcome: Outcome,
    createdAt: Time,
    updatedAt: Option<Time>,
    reviewCount: Option<nat>,
    reviewed: Option<bool>)

  type Docs = map<Id, Decision>

  function ClusterOf(d: Decision): Id {
    d.outcome.current.clusterId
  }

  /** The placement boundary: `updated_at` if set, else `created_at`. */
  function Boundary(d: Decision): Time {
    if d.updatedAt.Some? then d.updatedAt.value else d.createdAt
  }

  /** The flat `$or` shared by the stale filter and the review filter. `$lt` against a value
      matches only documents that carry the field. */
  predicate OlderThan(d: Decision, t: Time): (b: bool)
    ensures b <==> Boundary(d) < t
  {
    || (d.updatedAt.Some? && d.updatedAt.value < t)
    || (d.updatedAt.None? && d.createdAt < t)
  }

  /** The curator's slot is taken: the stored flag is exactly true. */
  predicate Reviewed(d: Decision) {
    d.reviewed == Some(true)
  }

  function ReviewCount(d: Decision): nat {
    if d.reviewCount.Some? then d.reviewCount.value else 0
  }

  function NewDocument(mention: Triad, o: Outcome, at: Time): Decision {
    Decision(mention, o, at, None, None, Some(false))
  }

  function MovedDocument(d: Decision, mention: Triad, o: Outcome, at: Time): Decision {
    d.(mention := mention, outcome := o, updatedAt := Some(at), reviewed := Some(false))
  }

  /** `$inc` of the counter: an absent counter becomes 1. */
  function Counted(d: Decision): (r: Decision)
    ensures ReviewCount(r) == ReviewCount(d) + 1
    ensures Boundary(r) == Boundary(d) && r.outcome == d.outcome && Reviewed(r) == Reviewed(d)
  {
    d.(reviewCount := Some(ReviewCount(d) + 1))
  }

  function Claimed(d: Decision): (r: Decision)
    ensures ReviewCount(r) == ReviewCount(d) + 1
    ensures Boundary(r) == Boundary(d) && r.outcome == d.outcome && Reviewed(r)
  {
    Counted(d).(reviewed := Some(true))
  }

  /** Filter of the first review update. */
  predicate FreshClaimMatches(docs: Docs, id: Id, at: Time) {
    id in docs && !Reviewed(docs[id]) && OlderThan(docs[id], at)
  }

  /** Filter of the second review update. */
  predicate FallbackMatches(docs: Docs, id: Id) {
    id in docs && !Reviewed(docs[id])
  }

  datatype StoreResult =
    | Stored(decision: Decision)
    | Unchanged(decision: Decision)
    | Stale
    | OperationFailed

  /** `MongoDecisionRepository`, its collection held as a field. */
  class DecisionRepository {
    var docs: Docs

    constructor ()
      ensures docs == map[]
    {
      docs := map[];
    }

    method FindById(id: Id) returns (r: Option<Decision>)
      ensures r.Some? <==> id in docs
      ensures r.Some? ==> r.value == docs[id]
    {
      r := if id in docs then Some(docs[id]) else None;
    }

    /** `$setOnInsert` with `upsert=True`: a row that is already there is returned untouched. */
    method ExecuteInsert(id: Id, mention: Triad, o: Outcome, at: Time) returns (r: Decision)
      modifies this
      ensures id in docs && r == docs[id]
      ensures id in old(docs) ==> docs == old(docs)
      ensures id !in old(docs) ==>
        docs == old(docs)[id := r] && r == Decision(mention, o, at, None, None, Some(false))
    {
      if id !in docs {
        docs := docs[id := NewDocument(mention, o, at)];
      }
      r := docs[id];
    }

    /** The guarded update: nothing is written unless the row's boundary is before `at`. */
    method ExecuteUpdate(id: Id, mention: Triad, o: Outcome, at: Time) returns (r: Option<Decision>)
      modifies this
      ensures r.Some? <==> id in old(docs) && Boundary(old(docs)[id]) < at
      ensures r.None? ==> docs == old(docs)
      ensures r.Some? ==>
        docs == old(docs)[id := r.value]
        && r.value == old(docs)[id].(mention := mention, outcome := o, updatedAt := Some(at), reviewed := Some(false))
    {
      if id in docs && OlderThan(docs[id], at) {
        var moved := MovedDocument(docs[id], mention, o, at);
        docs := docs[id := moved];
        r := Some(moved);
      } else {
        r := None;
      }
    }

    /** `upsert_decision`. `hinted` says that the caller already holds the current document,
        in which case the repository skips its own read. */
    method UpsertDecision(id: Id, mention: Triad, o: Outcome, at: Time, hinted: bool)
      returns (r: StoreResult)
      modifies this
      ensures r.Stored? <==>
        (id in old(docs) && Boundary(old(docs)[id]) < at) || (id !in old(docs) && !hinted)
      ensures r.Stored? ==> docs == old(docs)[id := r.decision]
      ensures r.Stored? && id !in old(docs) ==>
        r.decision == Decision(mention, o, at, None, None, Some(false))
      ensures r.Stored? && id in old(docs) ==>
        r.decision == old(docs)[id].(mention := mention, outcome := o, updatedAt := Some(at), reviewed := Some(false))
      ensures !r.Stored? ==> docs == old(docs)
      ensures r.Stale? <==> id in old(docs) && at <= Boundary(old(docs)[id])
      ensures r.OperationFailed? <==> id !in old(docs) && hinted
    {
      var present := hinted;
      if !hinted {
        var existing := FindById(id);
        present := existing.Some?;
      }
      var written: Option<Decision>;
      if !present {
        var inserted := ExecuteInsert(id, mention, o, at);
        written := Some(inserted);
      } else {
        written := ExecuteUpdate(id, mention, o, at);
      }
      if written.Some? {
        return Stored(written.value);
      }
      var existing := FindById(id);
      r := if existing.Some? then Stale else OperationFailed;
    }

    /** `record_review`: two guarded updates, the second one only when the first matches
        nothing. Either way a match counts the action; the flag is set only by an action
        dated after the placement boundary. */
    method RecordReview(id: Id, at: Time) returns (counted: bool)
      modifies this
      ensures counted <==> id in old(docs) && !Reviewed(old(docs)[id])
      ensures !counted ==> docs == old(docs)
      ensures counted ==> id in docs && docs == old(docs)[id := docs[id]]
                          && ReviewCount(docs[id]) == ReviewCount(old(docs)[id]) + 1
                          && (Reviewed(docs[id]) <==> Boundary(old(docs)[id]) < at)
                          && docs[id].outcome == old(docs)[id].outcome
                          && docs[id].createdAt == old(docs)[id].createdAt
                          && docs[id].updatedAt == old(docs)[id].updatedAt
                          && docs[id].mention == old(docs)[id].mention
    {
      if FreshClaimMatches(docs, id, at) {
        docs := docs[id := Claimed(docs[id])];
        return true;
      }
      if FallbackMatches(docs, id) {
        docs := docs[id := Counted(docs[id])];
        return true;
      }
      return false;
    }
  }
}
