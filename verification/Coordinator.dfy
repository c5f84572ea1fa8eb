/**
 `ResolutionCoordinatorService.resolve_single` as one call runs it, with the other writers'
 work taken in where the call waits and just before it drafts. `Resolution` interleaves any
 number of such calls at every await.
 */
module Coordinator {
  import opened Common
  import opened Decisions
  import opened StoreCalls
  import opened DecisionStore
  import opened Notification
  import opened Resolution

  /** Which accesses of the call are answered, and what the other writers have left in the
      store when the wait ends, in time or not, and when the draft is stored. */
  datatype Surroundings = Surroundings(
    registryUp: bool,
    firstReadUp: bool,
    noBudget: bool,
    channelUp: bool,
    meanwhile: Docs,
    lateReadUp: bool,
    beforeDraft: Docs,
    now: Time,
    draftUp: bool,
    winnerReadUp: bool)

  class ResolutionCoordinatorService {
    var registered: set<Id>
    const store: DecisionStoreService
    const waiter: AsyncResolutionWaiter

    constructor (store: DecisionStoreService, waiter: AsyncResolutionWaiter)
      ensures this.store == store && this.waiter == waiter && registered == {}
    {
      this.store := store;
      this.waiter := waiter;
      this.registered := {};
    }

    /** The answer is the row now stored. It is canonical exactly when a different placement,
        dated no earlier, was already there; that answer needs one more read. */
    ghost predicate DraftIssued(before: Docs, after: Docs, mention: Triad, key: Id, env: Surroundings, r: Reply) {
      var draft, was := DraftOutcome(key, store.maxCandidates), RowOf(before, key);
      var rejected := was.Some? && was.value.outcome != draft && env.now <= Boundary(was.value);
      && (r.Failed? <==> !env.draftUp || (rejected && !env.winnerReadUp))
      && after == (if env.draftUp then before[key := DecisionStore.Deliver(was, mention, draft, env.now).value]
                   else before)
      && (r.Replied? ==> r == Replied(after[key], if rejected then Canonical else Provisional))
    }

    /** `_issue_provisional`. */
    method IssueProvisional(mention: Triad, key: Id, env: Surroundings) returns (r: Reply)
      modifies store.repository, if store.index == null then {} else {store.index}
      ensures DraftIssued(old(store.repository.docs), store.repository.docs, mention, key, env, r)
    {
      if !env.draftUp {
        return Failed;
      }
      var draft := ClusterReference(key, 0.0, 0.0);
      var stored := store.StoreDecision(key, mention, draft, [draft], env.now);
      if stored.Stored? || stored.Unchanged? {
        return Replied(stored.decision, Provisional);
      }
      if !env.winnerReadUp {
        return Failed;
      }
      var winner := store.repository.FindById(key);
      if winner.None? {
        return Failed;
      }
      r := Replied(winner.value, Canonical);
    }

    /** The call comes to drafting: it has read the store for the last time and found nothing. */
    ghost predicate Drafts(docs: Docs, key: Id, env: Surroundings) {
      && env.registryUp && env.firstReadUp && key !in docs
      && (env.noBudget || (env.channelUp && env.lateReadUp && key !in env.meanwhile))
    }

    /** A stored decision is always the answer: before publishing, or at the read that follows
        the wait, whether or not the doorbell rang. Only without one is a draft issued. */
    method ResolveSingle(mention: Triad, key: Id, env: Surroundings) returns (r: Reply)
      modifies this`registered, waiter, store.repository, if store.index == null then {} else {store.index}
      ensures registered == if env.registryUp then old(registered) + {key} else old(registered)
      ensures Drafts(old(store.repository.docs), key, env) ==>
        DraftIssued(env.beforeDraft, store.repository.docs, mention, key, env, r)
      ensures !Drafts(old(store.repository.docs), key, env) ==>
        var docs := old(store.repository.docs);
        var waited := env.registryUp && env.firstReadUp && key !in docs && env.channelUp;
        && store.repository.docs == (if waited then env.meanwhile else docs)
        && (r.Failed? <==> !env.registryUp || !env.firstReadUp || (key !in docs && !(env.channelUp && env.lateReadUp)))
        && (r.Replied? ==> key in store.repository.docs && r == Replied(store.repository.docs[key], Canonical))
      ensures old(waiter.events.Keys) <= waiter.events.Keys
              && forall k | k in old(waiter.events) :: waiter.events[k] == old(waiter.events)[k]
    {
      if !env.registryUp {
        return Failed;
      }
      registered := registered + {key};
      if !env.firstReadUp {
        return Failed;
      }
      var existing := store.repository.FindById(key);
      if existing.Some? {
        return Replied(existing.value, Canonical);
      }
      if !env.noBudget {
        var event := waiter.GetOrCreate(key);
        if !env.channelUp {
          return Failed;
        }
        store.repository.docs := env.meanwhile;
        if !env.lateReadUp {
          return Failed;
        }
        var decision := store.repository.FindById(key);
        if decision.Some? {
          return Replied(decision.value, Canonical);
        }
      }
      store.repository.docs := env.beforeDraft;
      r := IssueProvisional(mention, key, env);
    }
  }
}
