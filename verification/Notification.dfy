/**
 The waiter of one instance, the callback that rings locally first and publishes otherwise,
 and the integration of one engine response.
 */
module Notification {
  import opened Common
  import opened Decisions
  import opened StoreCalls
  import opened DecisionStore
  import Resolution

  class WaitEvent {
    var isSet: bool

    constructor ()
      ensures !isSet
    {
      isSet := false;
    }
  }

  class AsyncResolutionWaiter {
    var events: map<Id, WaitEvent>

    constructor ()
      ensures events == map[]
    {
      events := map[];
    }

    /** Concurrent callers for one key share one event. */
    method GetOrCreate(key: Id) returns (event: WaitEvent)
      modifies this
      ensures key in events && events[key] == event
      ensures key in old(events) ==> events == old(events)
      ensures key !in old(events) ==> fresh(event) && !event.isSet && events == old(events)[key := event]
    {
      if key in events {
        event := events[key];
      } else {
        event := new WaitEvent();
        events := events[key := event];
      }
    }

    /** One call unblocks every waiter of the key, and nobody else. */
    method Notify(key: Id) returns (owned: bool)
      modifies if key in events then {events[key]} else {}
      ensures owned <==> key in events
      ensures owned ==> events[key].isSet
    {
      if key in events {
        events[key].isSet := true;
        return true;
      }
      owned := false;
    }
  }

  /** The Pub/Sub channel, as the messages handed to it. */
  class Channel {
    var published: seq<Id>

    constructor ()
      ensures published == []
    {
      published := [];
    }
  }

  datatype Integration =
    | Invalid
    | UnknownMention
    | Absorbed(decision: Option<Decision>)

  class OutcomeIntegrationService {
    var registered: set<Id>
    const store: DecisionStoreService
    const waiter: AsyncResolutionWaiter
    const channel: Channel

    constructor (store: DecisionStoreService, waiter: AsyncResolutionWaiter, channel: Channel)
      ensures this.store == store && this.waiter == waiter && this.channel == channel
    {
      this.store := store;
      this.waiter := waiter;
      this.channel := channel;
      this.registered := {};
    }

    /** The callback: local first, then the channel. A failing channel raises. */
    method OnOutcomeStored(key: Id, channelUp: bool) returns (raised: bool)
      modifies channel, if key in waiter.events then {waiter.events[key]} else {}
      ensures key in waiter.events ==>
        waiter.events[key].isSet && channel.published == old(channel.published) && !raised
      ensures key !in waiter.events ==>
        channel.published == old(channel.published) + (if channelUp then [key] else []) && raised == !channelUp
    {
      var owned := waiter.Notify(key);
      if owned {
        return false;
      }
      if !channelUp {
        return true;
      }
      channel.published := channel.published + [key];
      raised := false;
    }

    /** `integrate_outcome`. A rejected response changes nothing. An absorbed one leaves the
        row as one undisturbed delivery does and is followed by exactly one doorbell, stale
        rejections included; a failing channel loses the bell but not the outcome. */
    method IntegrateOutcome(response: Resolution.Response, channelUp: bool) returns (r: Integration)
      modifies channel, store.repository, if store.index == null then {} else {store.index},
               if response.key in waiter.events then {waiter.events[response.key]} else {}
      ensures r.Invalid? <==> response.timestamp.None? || !response.zoned || response.candidates == []
      ensures r.UnknownMention? <==> !r.Invalid? && response.key !in registered
      ensures !r.Absorbed? ==>
        store.repository.docs == old(store.repository.docs) && channel.published == old(channel.published)
        && (response.key in waiter.events ==>
              waiter.events[response.key].isSet == old(waiter.events[response.key].isSet))
      ensures r.Absorbed? && r.decision.Some? ==>
        var rest := response.candidates[1..];
        && response.key in store.repository.docs && r.decision.value == store.repository.docs[response.key]
        && r.decision.value.outcome.current == response.candidates[0]
        && r.decision.value.outcome.candidates
           == rest[..if |rest| < store.maxCandidates then |rest| else store.maxCandidates]
        && (store.repository.docs != old(store.repository.docs) ==>
              Boundary(r.decision.value) == response.timestamp.value && r.decision.value.mention == response.mention)
      ensures r.Absorbed? ==>
        var args := Resolution.EngineArgs(response, store.maxCandidates);
        var was := RowOf(old(store.repository.docs), response.key);
        var now := Deliver(was, response.mention, args.outcome, args.at);
        && store.repository.docs == old(store.repository.docs)[response.key := now.value]
        && (r.decision.None? <==> was.Some? && was.value.outcome != args.outcome && args.at <= Boundary(was.value))
        && (r.decision.Some? ==> r.decision == now)
        && if response.key in waiter.events
           then waiter.events[response.key].isSet && channel.published == old(channel.published)
           else channel.published == old(channel.published) + (if channelUp then [response.key] else [])
    {
      if response.timestamp.None? || !response.zoned || response.candidates == [] {
        return Invalid;
      }
      if response.key !in registered {
        return UnknownMention;
      }
      var current, candidates := response.candidates[0], response.candidates[1..];
      var stored := store.StoreDecision(response.key, response.mention, current, candidates, response.timestamp.value);
      var decision: Option<Decision> := if stored.Stored? || stored.Unchanged? then Some(stored.decision) else None;
      var _ := OnOutcomeStored(response.key, channelUp);
      r := Absorbed(decision);
    }
  }
}
