// The request-scoped deferred notification queue of app/broadcast.py.
// Events are only queued while a request runs; they reach the
// broadcasters when the queue is flushed, which the code does after the
// database commit.

module Broadcast {

  /** The seven event kinds the emit helpers queue. */
  datatype EventType =
    | OrderUpdate | ChatMessage | SessionStatus | PaymentUpdate
    | StoreChange | ApplicationUpdate | GroupUpdate

  /** The event payload: the action or status it announces and a
      reference to the affected record; the remaining dictionary fields
      are not modelled. */
  datatype Payload = Payload(kind: string, ref: string)

  datatype Event = Event(eventType: EventType, room: string, data: Payload)

  /** A registered broadcaster, identified by the callable main.py hands in. */
  type HandlerId = nat

  /** What the outside world observes, in order. */
  datatype Effect =
    | Commit                                            // database commit
    | Sent(handler: HandlerId, room: string, data: Payload)  // broadcaster returned
    | Failed(eventType: EventType)                      // broadcaster raised; logged
    | Unrouted(eventType: EventType)                    // no broadcaster; warning

  const AdminRoom: string := "admin"

  /** The effect of handing one queued event to the broadcaster table;
      `failing` holds the events whose broadcaster raises. */
  function Dispatch(e: Event, broadcasters: map<EventType, HandlerId>, failing: set<Event>): Effect {
    if e.eventType !in broadcasters then Unrouted(e.eventType)
    else if e in failing then Failed(e.eventType)
    else Sent(broadcasters[e.eventType], e.room, e.data)
  }

  /** The effects of flushing queue `q`, one per event. */
  function Dispatches(q: seq<Event>, broadcasters: map<EventType, HandlerId>, failing: set<Event>): seq<Effect> {
    if q == [] then []
    else Dispatches(q[..|q| - 1], broadcasters, failing) + [Dispatch(q[|q| - 1], broadcasters, failing)]
  }

  /** A flush produces exactly one effect per queued event, the i-th for
      the i-th event, whatever happened to the events before it. */
  lemma {:induction false} DispatchesPointwise(q: seq<Event>, broadcasters: map<EventType, HandlerId>, failing: set<Event>)
    ensures |Dispatches(q, broadcasters, failing)| == |q|
    ensures forall i :: 0 <= i < |q| ==> Dispatches(q, broadcasters, failing)[i] == Dispatch(q[i], broadcasters, failing)
    decreases |q|
  {
    if q != [] {
      DispatchesPointwise(q[..|q| - 1], broadcasters, failing);
    }
  }

  /** An event is delivered to its broadcaster exactly when its type is
      registered and that broadcaster does not raise; a skipped or failed
      event never stops the ones queued after it. */
  lemma DeliveredIff(q: seq<Event>, broadcasters: map<EventType, HandlerId>, failing: set<Event>, i: int)
    requires 0 <= i < |q|
    ensures |Dispatches(q, broadcasters, failing)| == |q|
    ensures Dispatches(q, broadcasters, failing)[i].Sent?
            <==> q[i].eventType in broadcasters && q[i] !in failing
    ensures Dispatches(q, broadcasters, failing)[i].Sent? ==>
            Dispatches(q, broadcasters, failing)[i] == Sent(broadcasters[q[i].eventType], q[i].room, q[i].data)
  {
    DispatchesPointwise(q, broadcasters, failing);
  }

  /** Flushing never commits: the commit effect only comes from the caller. */
  lemma {:induction false} DispatchesNeverCommit(q: seq<Event>, broadcasters: map<EventType, HandlerId>, failing: set<Event>)
    ensures Commit !in Dispatches(q, broadcasters, failing)
    decreases |q|
  {
    if q != [] {
      DispatchesNeverCommit(q[..|q| - 1], broadcasters, failing);
    }
  }

  /** The broadcaster table register_broadcasters installs. */
  function Registry(orderUpdate: HandlerId, chatMessage: HandlerId, sessionStatus: HandlerId,
                    paymentUpdate: HandlerId, storeChange: HandlerId, applicationUpdate: HandlerId,
                    groupUpdate: HandlerId): (m: map<EventType, HandlerId>)
    ensures m.Keys == {OrderUpdate, ChatMessage, SessionStatus, PaymentUpdate,
                       StoreChange, ApplicationUpdate, GroupUpdate}
    ensures m[OrderUpdate] == orderUpdate && m[ChatMessage] == chatMessage
    ensures m[SessionStatus] == sessionStatus && m[PaymentUpdate] == paymentUpdate
    ensures m[StoreChange] == storeChange && m[ApplicationUpdate] == applicationUpdate
    ensures m[GroupUpdate] == groupUpdate
  {
    var m := map[OrderUpdate := orderUpdate, ChatMessage := chatMessage,
                 SessionStatus := sessionStatus, PaymentUpdate := paymentUpdate,
                 StoreChange := storeChange, ApplicationUpdate := applicationUpdate,
                 GroupUpdate := groupUpdate];
    assert m.Keys == {OrderUpdate, ChatMessage, SessionStatus, PaymentUpdate,
                      StoreChange, ApplicationUpdate, GroupUpdate};
    m
  }

  /** The per-request event queue (a context variable that may not be set
      yet), the process-wide broadcaster table, and the effects seen so far. */
  class EventBus {
    var hasQueue: bool
    var queue: seq<Event>
    var broadcasters: map<EventType, HandlerId>
    var effects: seq<Effect>

    /** No queue is visible before the context variable is set. */
    predicate Valid()
      reads this
    {
      !hasQueue ==> queue == []
    }

    constructor ()
      ensures Valid()
      ensures !hasQueue && queue == [] && broadcasters == map[] && effects == []
    {
      hasQueue := false;
      queue := [];
      broadcasters := map[];
      effects := [];
    }

    /** `_get_queue`: returns the current queue, creating an empty one on
        first use. */
    method GetQueue() returns (q: seq<Event>)
      requires Valid()
      modifies this`hasQueue
      ensures Valid() && hasQueue
      ensures q == queue
    {
      if !hasQueue {
        hasQueue := true;
      }
      q := queue;
    }

    /** `_queue_event`: appends one event; nothing is dispatched. */
    method QueueEvent(eventType: EventType, room: string, data: Payload)
      requires Valid()
      modifies this`hasQueue, this`queue
      ensures Valid() && hasQueue
      ensures queue == old(queue) + [Event(eventType, room, data)]
    {
      var _ := GetQueue();
      queue := queue + [Event(eventType, room, data)];
    }

    method EmitOrderUpdate(groupId: string, data: Payload)
      requires Valid()
      modifies this`hasQueue, this`queue
      ensures Valid() && hasQueue
      ensures queue == old(queue) + [Event(OrderUpdate, groupId, data)]
    {
      QueueEvent(OrderUpdate, groupId, data);
    }

    method EmitChatMessage(groupId: string, data: Payload)
      requires Valid()
      modifies this`hasQueue, this`queue
      ensures Valid() && hasQueue
      ensures queue == old(queue) + [Event(ChatMessage, groupId, data)]
    {
      QueueEvent(ChatMessage, groupId, data);
    }

    method EmitSessionStatus(groupId: string, data: Payload)
      requires Valid()
      modifies this`hasQueue, this`queue
      ensures Valid() && hasQueue
      ensures queue == old(queue) + [Event(SessionStatus, groupId, data)]
    {
      QueueEvent(SessionStatus, groupId, data);
    }

    method EmitPaymentUpdate(groupId: string, data: Payload)
      requires Valid()
      modifies this`hasQueue, this`queue
      ensures Valid() && hasQueue
      ensures queue == old(queue) + [Event(PaymentUpdate, groupId, data)]
    {
      QueueEvent(PaymentUpdate, groupId, data);
    }

    method EmitStoreChange(groupId: string, data: Payload)
      requires Valid()
      modifies this`hasQueue, this`queue
      ensures Valid() && hasQueue
      ensures queue == old(queue) + [Event(StoreChange, groupId, data)]
    {
      QueueEvent(StoreChange, groupId, data);
    }

    /** Application updates always go to the admin room. */
    method EmitApplicationUpdate(data: Payload)
      requires Valid()
      modifies this`hasQueue, this`queue
      ensures Valid() && hasQueue
      ensures queue == old(queue) + [Event(ApplicationUpdate, AdminRoom, data)]
    {
      QueueEvent(ApplicationUpdate, AdminRoom, data);
    }

    /** Group updates always go to the admin room. */
    method EmitGroupUpdate(data: Payload)
      requires Valid()
      modifies this`hasQueue, this`queue
      ensures Valid() && hasQueue
      ensures queue == old(queue) + [Event(GroupUpdate, AdminRoom, data)]
    {
      QueueEvent(GroupUpdate, AdminRoom, data);
    }

    /** `register_broadcasters`: installs exactly the seven handlers. */
    method RegisterBroadcasters(orderUpdate: HandlerId, chatMessage: HandlerId, sessionStatus: HandlerId,
                                paymentUpdate: HandlerId, storeChange: HandlerId,
                                applicationUpdate: HandlerId, groupUpdate: HandlerId)
      modifies this`broadcasters
      ensures broadcasters == Registry(orderUpdate, chatMessage, sessionStatus, paymentUpdate,
                                       storeChange, applicationUpdate, groupUpdate)
    {
      broadcasters := map[OrderUpdate := orderUpdate, ChatMessage := chatMessage,
                          SessionStatus := sessionStatus, PaymentUpdate := paymentUpdate,
                          StoreChange := storeChange, ApplicationUpdate := applicationUpdate,
                          GroupUpdate := groupUpdate];
    }

    /** `flush_events`: hands every queued event, in queue order, to its
        broadcaster (swallowing failures, warning on unregistered types),
        then empties the queue. An empty queue dispatches nothing. */
    method FlushEvents(failing: set<Event>)
      requires Valid()
      modifies this`hasQueue, this`queue, this`effects
      ensures Valid() && hasQueue && queue == []
      ensures effects == old(effects) + Dispatches(old(queue), broadcasters, failing)
    {
      var q := GetQueue();
      if q == [] {
        return;
      }
      var i := 0;
      while i < |q|
        invariant 0 <= i <= |q|
        invariant hasQueue && queue == q
        invariant effects == old(effects) + Dispatches(q[..i], broadcasters, failing)
      {
        assert q[..i + 1][..i] == q[..i];
        effects := effects + [Dispatch(q[i], broadcasters, failing)];
        i := i + 1;
      }
      assert q[..i] == q;
      queue := [];
    }

    /** `clear_events`: drops the queued events without dispatching them;
        when no queue exists yet nothing happens. */
    method ClearEvents()
      requires Valid()
      modifies this`queue
      ensures Valid() && queue == []
    {
      if hasQueue {
        queue := [];
      }
    }

    /** The database commit, recorded as an effect. */
    method Commit()
      modifies this`effects
      ensures effects == old(effects) + [Effect.Commit]
    {
      effects := effects + [Effect.Commit];
    }

    /** `commit_and_notify`: commits, then flushes, so every dispatch of
        this request comes after the commit. */
    method CommitAndNotify(failing: set<Event>)
      requires Valid()
      modifies this`hasQueue, this`queue, this`effects
      ensures Valid() && hasQueue && queue == []
      ensures effects == old(effects) + [Effect.Commit] + Dispatches(old(queue), broadcasters, failing)
    {
      Commit();
      FlushEvents(failing);
    }
  }
}
