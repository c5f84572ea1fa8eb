/**
 `UserActionService`: save the action, claim the placement's slot, undo the save when the
 claim is lost. Here one call at a time; `World` interleaves them.
 */
module Curation {
  import opened Common
  import opened Decisions

  datatype ActionType = AcceptTop | AcceptAlternative | RejectAll

  datatype UserAction = UserAction(
    about: Triad,
    candidates: seq<ClusterReference>,
    selected: Option<ClusterReference>,
    kind: ActionType,
    actor: Id,
    createdAt: Time)

  datatype CurationResult = Accepted | AlreadyCurated | InvalidCluster

  class UserActionService {
    const decisions: DecisionRepository
    var actions: map<Id, UserAction>

    constructor (decisions: DecisionRepository)
      ensures this.decisions == decisions && actions == map[]
    {
      this.decisions := decisions;
      this.actions := map[];
    }

    /** The decision's slot is open: the row exists and its flag is not set. */
    ghost predicate Open(decisionId: Id)
      reads decisions
    {
      decisionId in decisions.docs && !Reviewed(decisions.docs[decisionId])
    }

    /** What the row of a counted action becomes. */
    twostate predicate CountedOnce(decisionId: Id, at: Time)
      reads decisions
    {
      && decisionId in old(decisions.docs) && decisionId in decisions.docs
      && var d, d' := old(decisions.docs)[decisionId], decisions.docs[decisionId];
      && decisions.docs == old(decisions.docs)[decisionId := d']
      && ReviewCount(d') == ReviewCount(d) + 1
      && (Reviewed(d') <==> Boundary(d) < at)
      && d'.outcome == d.outcome && Boundary(d') == Boundary(d)
    }

    method RecordOrCompensate(decisionId: Id, actionId: Id, at: Time) returns (r: CurationResult)
      requires actionId in actions
      modifies this, decisions
      ensures r == if old(Open(decisionId)) then Accepted else AlreadyCurated
      ensures r.Accepted? ==> actions == old(actions) && CountedOnce(decisionId, at)
      ensures r.AlreadyCurated? ==> actions == old(actions) - {actionId} && decisions.docs == old(decisions.docs)
    {
      var claimed := decisions.RecordReview(decisionId, at);
      if !claimed {
        actions := actions - {actionId};
        return AlreadyCurated;
      }
      r := Accepted;
    }

    /** Saved and counted, or nothing at all happened. */
    twostate predicate AllOrNothing(r: CurationResult, decisionId: Id, actionId: Id, action: UserAction)
      reads this, decisions
    {
      && r == (if old(Open(decisionId)) then Accepted else AlreadyCurated)
      && (r.Accepted? ==> actions == old(actions)[actionId := action] && CountedOnce(decisionId, action.createdAt))
      && (r.AlreadyCurated? ==> actions == old(actions) && decisions.docs == old(decisions.docs))
    }

    method RecordAccept(actor: Id, decisionId: Id, decision: Decision, actionId: Id, now: Time)
      returns (r: CurationResult)
      requires actionId !in actions
      modifies this, decisions
      ensures AllOrNothing(r, decisionId, actionId,
                           UserAction(decision.mention, decision.outcome.candidates, Some(decision.outcome.current),
                                      AcceptTop, actor, now))
    {
      var action := UserAction(decision.mention, decision.outcome.candidates, Some(decision.outcome.current),
                               AcceptTop, actor, now);
      actions := actions[actionId := action];
      r := RecordOrCompensate(decisionId, actionId, now);
      assert r.AlreadyCurated? ==> actions == old(actions);
    }

    method RecordReject(actor: Id, decisionId: Id, decision: Decision, actionId: Id, now: Time)
      returns (r: CurationResult)
      requires actionId !in actions
      modifies this, decisions
      ensures AllOrNothing(r, decisionId, actionId,
                           UserAction(decision.mention, decision.outcome.candidates, None, RejectAll, actor, now))
    {
      var action := UserAction(decision.mention, decision.outcome.candidates, None, RejectAll, actor, now);
      actions := actions[actionId := action];
      r := RecordOrCompensate(decisionId, actionId, now);
      assert r.AlreadyCurated? ==> actions == old(actions);
    }

    static method FindCandidate(candidates: seq<ClusterReference>, cluster: Id)
      returns (found: Option<ClusterReference>)
      ensures found.None? <==> forall c | c in candidates :: c.clusterId != cluster
      ensures found.Some? ==> found.value.clusterId == cluster
      ensures found.Some? ==>
        exists i :: 0 <= i < |candidates| && candidates[i] == found.value
                    && forall j | 0 <= j < i :: candidates[j].clusterId != cluster
    {
      for i := 0 to |candidates|
        invariant forall j | 0 <= j < i :: candidates[j].clusterId != cluster
      {
        if candidates[i].clusterId == cluster {
          return Some(candidates[i]);
        }
      }
      found := None;
    }

    method RecordAssign(actor: Id, decisionId: Id, decision: Decision, cluster: Id, actionId: Id, now: Time)
      returns (r: CurationResult)
      requires actionId !in actions
      modifies this, decisions
      ensures r.InvalidCluster? <==> forall c | c in decision.outcome.candidates :: c.clusterId != cluster
      ensures r.InvalidCluster? ==> actions == old(actions) && decisions.docs == old(decisions.docs)
      ensures !r.InvalidCluster? ==>
        exists i ::
          && 0 <= i < |decision.outcome.candidates| && decision.outcome.candidates[i].clusterId == cluster
          && (forall j | 0 <= j < i :: decision.outcome.candidates[j].clusterId != cluster)
          && AllOrNothing(r, decisionId, actionId,
                          UserAction(decision.mention, decision.outcome.candidates,
                                     Some(decision.outcome.candidates[i]), AcceptAlternative, actor, now))
    {
      var target := FindCandidate(decision.outcome.candidates, cluster);
      if target.None? {
        return InvalidCluster;
      }
      var action := UserAction(decision.mention, decision.outcome.candidates, target, AcceptAlternative, actor, now);
      actions := actions[actionId := action];
      r := RecordOrCompensate(decisionId, actionId, now);
      assert r.AlreadyCurated? ==> actions == old(actions);
      assert AllOrNothing(r, decisionId, actionId, action);
    }
  }
}
