// OrderService of app/services/order_service.py: opening and closing the
// group's ordering session, creating and replacing a user's order lines,
// cancelling, payment status and clearing a session's orders.

module OrderService {
  import opened Common
  import opened Tables
  import opened OrderRepo
  import Broadcast

  // ---------------------------------------------------------------
  // start_ordering / end_ordering

  /** `start_ordering`: the open session if there is one, otherwise a new
      one. Starting twice never opens a second session. */
  method StartOrdering(db: Database, groupId: Id, startedBy: Option<Id>, now: Time) returns (s: Session)
    modifies db`sessions, db`nextId
    ensures ActiveSession(old(db.sessions), groupId).Some? ==>
              s == ActiveSession(old(db.sessions), groupId).value
              && db.sessions == old(db.sessions) && db.nextId == old(db.nextId)
    ensures ActiveSession(old(db.sessions), groupId).None? ==>
              s == Session(old(db.nextId), groupId, Ordering, startedBy, None, None, now)
              && db.sessions == StartSessionRows(old(db.sessions), s.id, groupId, startedBy, now)
              && db.nextId == old(db.nextId) + 1
    ensures AtMostOneOrdering(old(db.sessions)) ==>
              AtMostOneOrdering(db.sessions) && ActiveSession(db.sessions, groupId) == Some(s)
  {
    var active := ActiveSession(db.sessions, groupId);
    if active.Some? {
      return active.value;
    }
    s := StartSession(db, groupId, startedBy, now);
    if AtMostOneOrdering(old(db.sessions)) {
      StartSessionKeepsInvariant(old(db.sessions), s.id, groupId, startedBy, now);
    }
  }

  /** Session keys are distinct. */
  predicate SessionIdsUnique(sessions: seq<Session>) {
    forall i, j :: 0 <= i < j < |sessions| ==> sessions[i].id != sessions[j].id
  }

  /** `end_ordering`: None and no change when the group is not ordering;
      otherwise that session is ended and the group is left with none. */
  method EndOrdering(db: Database, groupId: Id, endedBy: Option<Id>, now: Time) returns (r: Option<Session>)
    modifies db`sessions
    ensures ActiveSession(old(db.sessions), groupId).None? ==> r.None? && db.sessions == old(db.sessions)
    ensures ActiveSession(old(db.sessions), groupId).Some? ==>
              var a := ActiveSession(old(db.sessions), groupId).value;
              r == Some(a.(status := Ended, endedAt := Some(now), endedBy := endedBy))
              && db.sessions == EndSessionRows(old(db.sessions), a.id, endedBy, now)
    ensures AtMostOneOrdering(old(db.sessions)) && SessionIdsUnique(old(db.sessions)) ==>
              AtMostOneOrdering(db.sessions) && ActiveSession(db.sessions, groupId).None?
  {
    var active := ActiveSession(db.sessions, groupId);
    if active.None? {
      return None;
    }
    var a := active.value;
    if AtMostOneOrdering(db.sessions) && SessionIdsUnique(db.sessions) {
      var k :| 0 <= k < |db.sessions| && db.sessions[k] == a && IsOrderingIn(db.sessions[k], groupId);
      assert forall i :: 0 <= i < |db.sessions| && db.sessions[i].id == a.id ==> i == k;
      EndSessionKeepsInvariant(db.sessions, a, endedBy, now);
    }
    EndSession(db, a.id, endedBy, now);
    r := Some(a.(status := Ended, endedAt := Some(now), endedBy := endedBy));
  }

  // ---------------------------------------------------------------
  // Order lines

  /** One requested line; `quantity` is None when the key is missing. */
  datatype NewItem = NewItem(name: string, quantity: Option<int>, unitPrice: int, note: string)

  /** `item_data.get("quantity", 1)`. */
  function Quantity(it: NewItem): (q: int)
    ensures it.quantity.None? ==> q == 1
    ensures it.quantity.Some? ==> q == it.quantity.value
  {
    if it.quantity.Some? then it.quantity.value else 1
  }

  /** The stored line: subtotal is unit price times quantity. */
  function ItemRow(it: NewItem, orderId: Id, id: Id): (r: OrderItem)
    ensures r.id == id && r.orderId == orderId && r.name == it.name && r.note == it.note
    ensures r.quantity == Quantity(it) && r.unitPrice == it.unitPrice
    ensures r.subtotal == r.unitPrice * r.quantity
  {
    OrderItem(id, orderId, it.name, Quantity(it), it.unitPrice, it.unitPrice * Quantity(it), it.note)
  }

  /** The rows inserted for a list of lines, with consecutive fresh keys. */
  function ItemRows(items: seq<NewItem>, orderId: Id, firstId: Id): (r: seq<OrderItem>)
    ensures |r| == |items|
    ensures forall i :: 0 <= i < |items| ==> r[i] == ItemRow(items[i], orderId, firstId + i)
  {
    seq(|items|, i requires 0 <= i < |items| => ItemRow(items[i], orderId, firstId + i))
  }

  /** What the requested lines cost together. */
  function RequestedTotal(items: seq<NewItem>): int {
    if items == [] then 0
    else RequestedTotal(items[..|items| - 1]) + items[|items| - 1].unitPrice * Quantity(items[|items| - 1])
  }

  /** Inserting the lines of an order adds exactly their cost to its sum. */
  lemma {:induction false} AddedItemsTotal(rows: seq<OrderItem>, items: seq<NewItem>, orderId: Id, firstId: Id)
    ensures ItemsTotal(rows + ItemRows(items, orderId, firstId), orderId)
            == ItemsTotal(rows, orderId) + RequestedTotal(items)
    decreases |items|
  {
    if items == [] {
      assert rows + ItemRows(items, orderId, firstId) == rows;
    } else {
      var n := |items| - 1;
      var last := ItemRow(items[n], orderId, firstId + n);
      assert ItemRows(items, orderId, firstId) == ItemRows(items[..n], orderId, firstId) + [last];
      assert rows + ItemRows(items, orderId, firstId) == (rows + ItemRows(items[..n], orderId, firstId)) + [last];
      AddedItemsTotal(rows, items[..n], orderId, firstId);
      ItemsTotalAppend(rows + ItemRows(items[..n], orderId, firstId), last, orderId);
    }
  }

  /** The item table without the order's rows. */
  function DropItemsOf(rows: seq<OrderItem>, orderId: Id): (r: seq<OrderItem>)
    ensures forall i :: 0 <= i < |r| ==> r[i] in rows && r[i].orderId != orderId
    ensures forall i :: 0 <= i < |rows| && rows[i].orderId != orderId ==> rows[i] in r
  {
    Filter(rows, (it: OrderItem) => it.orderId != orderId)
  }

  /** After a replacement the order's lines are exactly the new ones, and
      its sum is exactly their cost. */
  lemma ReplacedItems(rows: seq<OrderItem>, items: seq<NewItem>, orderId: Id, firstId: Id)
    ensures ItemsOf(DropItemsOf(rows, orderId) + ItemRows(items, orderId, firstId), orderId)
            == ItemRows(items, orderId, firstId)
    ensures ItemsTotal(DropItemsOf(rows, orderId) + ItemRows(items, orderId, firstId), orderId)
            == RequestedTotal(items)
  {
    var kept := DropItemsOf(rows, orderId);
    var added := ItemRows(items, orderId, firstId);
    var p := (it: OrderItem) => it.orderId == orderId;
    FilterAppend(kept, added, p);
    FilterKeepsNone(kept, p);
    FilterKeepsAll(added, p);
    NoItemsZeroTotal(kept, orderId);
    AddedItemsTotal(kept, items, orderId, firstId);
  }

  /** The insertion loop shared by `create_order` and `update_order`. */
  method InsertItems(db: Database, orderId: Id, items: seq<NewItem>)
    modifies db`orderItems, db`nextId
    ensures db.orderItems == old(db.orderItems) + ItemRows(items, orderId, old(db.nextId))
    ensures db.nextId == old(db.nextId) + |items|
  {
    var i := 0;
    while i < |items|
      invariant 0 <= i <= |items|
      invariant db.orderItems == old(db.orderItems) + ItemRows(items[..i], orderId, old(db.nextId))
      invariant db.nextId == old(db.nextId) + i
    {
      var id := db.FreshId();
      assert ItemRows(items[..i + 1], orderId, old(db.nextId))
             == ItemRows(items[..i], orderId, old(db.nextId)) + [ItemRow(items[i], orderId, id)];
      db.orderItems := db.orderItems + [ItemRow(items[i], orderId, id)];
      i := i + 1;
    }
    assert items[..i] == items;
  }

  /** `for item in order.items: delete(item)`. */
  method DeleteItemsOf(db: Database, orderId: Id)
    modifies db`orderItems
    ensures db.orderItems == DropItemsOf(old(db.orderItems), orderId)
  {
    var rows := db.orderItems;
    var kept: seq<OrderItem> := [];
    var i := 0;
    while i < |rows|
      invariant 0 <= i <= |rows|
      invariant kept == Filter(rows[..i], (it: OrderItem) => it.orderId != orderId)
    {
      assert rows[..i + 1][..i] == rows[..i];
      if rows[i].orderId != orderId {
        kept := kept + [rows[i]];
      }
      i := i + 1;
    }
    assert rows[..i] == rows;
    db.orderItems := kept;
  }

  // ---------------------------------------------------------------
  // Orders

  function NewOrder(id: Id, sessionId: Id, userId: Id, storeId: Id): Order {
    Order(id, sessionId, userId, storeId, 0, Unpaid, 0, None)
  }

  /** The order table once the user has an order in the session. */
  function WithOrder(orders: seq<Order>, sessionId: Id, userId: Id, storeId: Id, freshId: Id): seq<Order> {
    if OrderOf(orders, sessionId, userId).Some? then orders
    else orders + [NewOrder(freshId, sessionId, userId, storeId)]
  }

  /** The key of the order the lines go to. */
  function TargetOrderId(orders: seq<Order>, sessionId: Id, userId: Id, freshId: Id): Id {
    if OrderOf(orders, sessionId, userId).Some? then OrderOf(orders, sessionId, userId).value.id
    else freshId
  }

  /** `create_order` reuses the user's order or adds exactly one, keeping
      one order per (session, user), and the user's order is the target. */
  lemma WithOrderFacts(orders: seq<Order>, sessionId: Id, userId: Id, storeId: Id, freshId: Id)
    ensures var r := WithOrder(orders, sessionId, userId, storeId, freshId);
      OrderOf(r, sessionId, userId).Some?
      && OrderOf(r, sessionId, userId).value.id == TargetOrderId(orders, sessionId, userId, freshId)
      && OrderById(r, TargetOrderId(orders, sessionId, userId, freshId)).Some?
      && (OneOrderPerUser(orders) ==> OneOrderPerUser(r))
  {
    var r := WithOrder(orders, sessionId, userId, storeId, freshId);
    var oid := TargetOrderId(orders, sessionId, userId, freshId);
    if OrderOf(orders, sessionId, userId).None? {
      assert IsOrderOf(r[|r| - 1], sessionId, userId);
      assert r[|r| - 1].id == oid;
    } else {
      var o := OrderOf(orders, sessionId, userId).value;
      var k :| 0 <= k < |orders| && orders[k] == o && IsOrderOf(orders[k], sessionId, userId);
      assert r[k].id == oid;
    }
  }

  /** Writing a total changes only that order's amount: a lookup by key
      sees the new total. */
  lemma SetTotalById(orders: seq<Order>, orderId: Id, total: int)
    requires OrderById(orders, orderId).Some?
    ensures OrderById(SetTotalRows(orders, orderId, total), orderId)
            == Some(OrderById(orders, orderId).value.(totalAmount := total))
  {
    var r := SetTotalRows(orders, orderId, total);
    var o := OrderById(orders, orderId).value;
    var k :| 0 <= k < |orders| && orders[k] == o && orders[k].id == orderId
             && forall i :: 0 <= i < k ==> orders[i].id != orderId;
    assert r[k].id == orderId;
    var a := OrderById(r, orderId).value;
    var k2 :| 0 <= k2 < |r| && r[k2] == a && r[k2].id == orderId
              && forall i :: 0 <= i < k2 ==> r[i].id != orderId;
    assert k2 <= k;
    assert k2 == k;
  }

  /** Writing a total keeps every order's session and user: the lookup by
      (session, user) finds the same order, and uniqueness is kept. */
  lemma SetTotalKeepsOwners(orders: seq<Order>, orderId: Id, total: int, sessionId: Id, userId: Id)
    ensures OrderOf(SetTotalRows(orders, orderId, total), sessionId, userId).Some?
            <==> OrderOf(orders, sessionId, userId).Some?
    ensures OrderOf(orders, sessionId, userId).Some? ==>
              OrderOf(SetTotalRows(orders, orderId, total), sessionId, userId).value.id
              == OrderOf(orders, sessionId, userId).value.id
    ensures OneOrderPerUser(orders) ==> OneOrderPerUser(SetTotalRows(orders, orderId, total))
  {
    var r := SetTotalRows(orders, orderId, total);
    assert forall i :: 0 <= i < |r| ==> r[i].sessionId == orders[i].sessionId && r[i].userId == orders[i].userId
                                        && r[i].id == orders[i].id;
    if OrderOf(orders, sessionId, userId).Some? {
      var b := OrderOf(orders, sessionId, userId).value;
      var m :| 0 <= m < |orders| && orders[m] == b && IsOrderOf(orders[m], sessionId, userId)
               && forall i :: 0 <= i < m ==> !IsOrderOf(orders[i], sessionId, userId);
      assert IsOrderOf(r[m], sessionId, userId);
      var c := OrderOf(r, sessionId, userId).value;
      var m2 :| 0 <= m2 < |r| && r[m2] == c && IsOrderOf(r[m2], sessionId, userId)
                && forall i :: 0 <= i < m2 ==> !IsOrderOf(r[i], sessionId, userId);
      assert m2 <= m;
      assert m2 == m;
    }
  }

  /** The first half of `create_order`: the user's order in the session,
      added when missing. */
  method EnsureOrder(db: Database, sessionId: Id, userId: Id, storeId: Id) returns (oid: Id)
    modifies db`orders, db`nextId
    ensures oid == TargetOrderId(old(db.orders), sessionId, userId, old(db.nextId))
    ensures db.orders == WithOrder(old(db.orders), sessionId, userId, storeId, old(db.nextId))
    ensures db.nextId == if OrderOf(old(db.orders), sessionId, userId).Some? then old(db.nextId) else old(db.nextId) + 1
  {
    var existing := OrderOf(db.orders, sessionId, userId);
    if existing.Some? {
      oid := existing.value.id;
    } else {
      oid := db.FreshId();
      db.orders := db.orders + [NewOrder(oid, sessionId, userId, storeId)];
    }
  }

  /** `create_order`: lines go to the user's order in the session (created
      when missing); afterwards the order's total is its lines' sum. */
  method CreateOrder(db: Database, sessionId: Id, userId: Id, storeId: Id, items: seq<NewItem>)
    returns (order: Order)
    modifies db`orders, db`orderItems, db`nextId
    ensures var oid := TargetOrderId(old(db.orders), sessionId, userId, old(db.nextId));
      var firstItem := if OrderOf(old(db.orders), sessionId, userId).Some? then old(db.nextId) else old(db.nextId) + 1;
      db.orderItems == old(db.orderItems) + ItemRows(items, oid, firstItem)
      && db.orders == SetTotalRows(WithOrder(old(db.orders), sessionId, userId, storeId, old(db.nextId)),
                                   oid, ItemsTotal(db.orderItems, oid))
      && db.nextId == firstItem + |items|
      && order.id == oid
      && order.totalAmount == ItemsTotal(old(db.orderItems), oid) + RequestedTotal(items)
      && OrderById(db.orders, oid) == Some(order)
      && OrderOf(db.orders, sessionId, userId).Some? && OrderOf(db.orders, sessionId, userId).value.id == oid
    ensures OneOrderPerUser(old(db.orders)) ==> OneOrderPerUser(db.orders)
  {
    ghost var freshId := db.nextId;
    var oid := EnsureOrder(db, sessionId, userId, storeId);
    WithOrderFacts(old(db.orders), sessionId, userId, storeId, freshId);
    var firstItem := db.nextId;
    InsertItems(db, oid, items);
    AddedItemsTotal(old(db.orderItems), items, oid, firstItem);
    ghost var withOrder := db.orders;
    CalculateTotal(db, oid);
    SetTotalById(withOrder, oid, ItemsTotal(db.orderItems, oid));
    SetTotalKeepsOwners(withOrder, oid, ItemsTotal(db.orderItems, oid), sessionId, userId);
    order := OrderById(db.orders, oid).value;
  }

  /** `update_order`: None for an unknown order; otherwise every previous
      line of the order is deleted, the new ones inserted, and the total
      becomes their cost. */
  method UpdateOrder(db: Database, orderId: Id, items: seq<NewItem>) returns (r: Option<Order>)
    modifies db`orders, db`orderItems, db`nextId
    ensures r.None? <==> OrderById(old(db.orders), orderId).None?
    ensures r.None? ==> db.orders == old(db.orders) && db.orderItems == old(db.orderItems)
                        && db.nextId == old(db.nextId)
    ensures r.Some? ==>
      db.orderItems == DropItemsOf(old(db.orderItems), orderId) + ItemRows(items, orderId, old(db.nextId))
      && db.orders == SetTotalRows(old(db.orders), orderId, ItemsTotal(db.orderItems, orderId))
      && db.nextId == old(db.nextId) + |items|
      && r.value.id == orderId && r.value.totalAmount == RequestedTotal(items)
      && OrderById(db.orders, orderId) == r
  {
    if OrderById(db.orders, orderId).None? {
      return None;
    }
    DeleteItemsOf(db, orderId);
    var firstItem := db.nextId;
    InsertItems(db, orderId, items);
    ReplacedItems(old(db.orderItems), items, orderId, firstItem);
    CalculateTotal(db, orderId);
    SetTotalById(old(db.orders), orderId, ItemsTotal(db.orderItems, orderId));
    r := OrderById(db.orders, orderId);
  }

  /** `cancel_order`: deletes the order and, by cascade, its lines; a
      missing order is a no-op. */
  method CancelOrder(db: Database, orderId: Id)
    modifies db`orders, db`orderItems
    ensures OrderById(old(db.orders), orderId).None? ==>
              db.orders == old(db.orders) && db.orderItems == old(db.orderItems)
    ensures OrderById(old(db.orders), orderId).Some? ==>
              db.orders == Filter(old(db.orders), (o: Order) => o.id != orderId)
              && db.orderItems == DropItemsOf(old(db.orderItems), orderId)
    ensures OrderById(db.orders, orderId).None?
    ensures OrderById(old(db.orders), orderId).Some? ==> ItemsOf(db.orderItems, orderId) == []
  {
    if OrderById(db.orders, orderId).Some? {
      db.orders := Filter(db.orders, (o: Order) => o.id != orderId);
      db.orderItems := DropItemsOf(db.orderItems, orderId);
      FilterKeepsNone(db.orderItems, (it: OrderItem) => it.orderId == orderId);
    }
  }

  // ---------------------------------------------------------------
  // Payment

  /** `paid_amount or order.total_amount`: a missing or zero amount means
      the order's total. */
  function SettledAmount(given: Option<int>, total: int): (r: int)
    ensures given.Some? && given.value != 0 ==> r == given.value
    ensures given.None? || given.value == 0 ==> r == total
  {
    if given.Some? && given.value != 0 then given.value else total
  }

  /** The order table with the row of that key replaced. */
  function ReplaceOrder(orders: seq<Order>, orderId: Id, o: Order): (r: seq<Order>)
    ensures |r| == |orders|
    ensures forall i :: 0 <= i < |r| ==> r[i] == (if orders[i].id == orderId then o else orders[i])
  {
    seq(|orders|, i requires 0 <= i < |orders| => if orders[i].id == orderId then o else orders[i])
  }

  function PaymentEvent(sessions: seq<Session>, o: Order, kind: string): Option<Broadcast.Event> {
    match SessionById(sessions, o.sessionId)
    case None => None
    case Some(s) => Some(Broadcast.Event(Broadcast.PaymentUpdate, IdText(s.groupId),
                                         Broadcast.Payload(kind, IdText(o.id))))
  }

  /** `mark_paid`: None for an unknown order; otherwise status "paid",
      the settled amount and the time are recorded and one payment update
      is queued for the session's group. */
  method MarkPaid(db: Database, bus: Broadcast.EventBus, orderId: Id, paidAmount: Option<int>, now: Time)
    returns (r: Option<Order>)
    requires bus.Valid()
    modifies db`orders, bus`hasQueue, bus`queue
    ensures bus.Valid()
    ensures r.None? <==> OrderById(old(db.orders), orderId).None?
    ensures r.None? ==> db.orders == old(db.orders) && bus.queue == old(bus.queue)
    ensures r.Some? ==>
      var o := OrderById(old(db.orders), orderId).value;
      r.value == o.(paymentStatus := Paid, paidAmount := SettledAmount(paidAmount, o.totalAmount), paidAt := Some(now))
      && db.orders == ReplaceOrder(old(db.orders), orderId, r.value)
      && bus.queue == old(bus.queue) + (match PaymentEvent(db.sessions, o, "paid")
                                         case None => []
                                         case Some(e) => [e])
  {
    var found := OrderById(db.orders, orderId);
    if found.None? {
      return None;
    }
    var o := found.value;
    var paid := o.(paymentStatus := Paid, paidAmount := SettledAmount(paidAmount, o.totalAmount), paidAt := Some(now));
    db.orders := ReplaceOrder(db.orders, orderId, paid);
    var session := SessionById(db.sessions, o.sessionId);
    if session.Some? {
      bus.EmitPaymentUpdate(IdText(session.value.groupId), Broadcast.Payload("paid", IdText(o.id)));
    }
    r := Some(paid);
  }

  /** `refund`: status "refunded"; the paid amount is left as it was. */
  method Refund(db: Database, bus: Broadcast.EventBus, orderId: Id) returns (r: Option<Order>)
    requires bus.Valid()
    modifies db`orders, bus`hasQueue, bus`queue
    ensures bus.Valid()
    ensures r.None? <==> OrderById(old(db.orders), orderId).None?
    ensures r.None? ==> db.orders == old(db.orders) && bus.queue == old(bus.queue)
    ensures r.Some? ==>
      var o := OrderById(old(db.orders), orderId).value;
      r.value == o.(paymentStatus := Refunded)
      && db.orders == ReplaceOrder(old(db.orders), orderId, r.value)
      && bus.queue == old(bus.queue) + (match PaymentEvent(db.sessions, o, "refunded")
                                         case None => []
                                         case Some(e) => [e])
  {
    var found := OrderById(db.orders, orderId);
    if found.None? {
      return None;
    }
    var o := found.value;
    var refunded := o.(paymentStatus := Refunded);
    db.orders := ReplaceOrder(db.orders, orderId, refunded);
    var session := SessionById(db.sessions, o.sessionId);
    if session.Some? {
      bus.EmitPaymentUpdate(IdText(session.value.groupId), Broadcast.Payload("refunded", IdText(o.id)));
    }
    r := Some(refunded);
  }

  // ---------------------------------------------------------------
  // clear_session_orders

  function OrdersOfSession(orders: seq<Order>, sessionId: Id): (r: seq<Order>)
    ensures forall i :: 0 <= i < |r| ==> r[i] in orders && r[i].sessionId == sessionId
    ensures forall i :: 0 <= i < |orders| && orders[i].sessionId == sessionId ==> orders[i] in r
  {
    Filter(orders, (o: Order) => o.sessionId == sessionId)
  }

  function OrdersOutside(orders: seq<Order>, sessionId: Id): seq<Order> {
    Filter(orders, (o: Order) => o.sessionId != sessionId)
  }

  predicate InSessionOrder(orders: seq<Order>, it: OrderItem, sessionId: Id) {
    exists i :: 0 <= i < |orders| && orders[i].id == it.orderId && orders[i].sessionId == sessionId
  }

  /** The item table once the session's orders are gone (the cascade). */
  function ItemsOutside(items: seq<OrderItem>, orders: seq<Order>, sessionId: Id): seq<OrderItem> {
    Filter(items, (it: OrderItem) => !InSessionOrder(orders, it, sessionId))
  }

  /** Clearing one session leaves it with no orders and every other
      session's orders exactly as they were, in order. */
  lemma ClearedSessionOrders(orders: seq<Order>, sessionId: Id, other: Id)
    requires other != sessionId
    ensures OrdersOfSession(OrdersOutside(orders, sessionId), sessionId) == []
    ensures OrdersOfSession(OrdersOutside(orders, sessionId), other) == OrdersOfSession(orders, other)
  {
    FilterKeepsNone(OrdersOutside(orders, sessionId), (o: Order) => o.sessionId == sessionId);
    FilterNarrow(orders, (o: Order) => o.sessionId != sessionId, (o: Order) => o.sessionId == other);
  }

  /** `clear_session_orders`: None for an unknown session; otherwise the
      number of its orders, all of which are deleted with their lines, and
      one order update is queued for the group. */
  method ClearSessionOrders(db: Database, bus: Broadcast.EventBus, sessionId: Id) returns (r: Option<nat>)
    requires bus.Valid()
    modifies db`orders, db`orderItems, bus`hasQueue, bus`queue
    ensures bus.Valid()
    ensures r.None? <==> SessionById(db.sessions, sessionId).None?
    ensures r.None? ==> db.orders == old(db.orders) && db.orderItems == old(db.orderItems)
                        && bus.queue == old(bus.queue)
    ensures r.Some? ==>
      r.value == |OrdersOfSession(old(db.orders), sessionId)|
      && db.orders == OrdersOutside(old(db.orders), sessionId)
      && db.orderItems == ItemsOutside(old(db.orderItems), old(db.orders), sessionId)
      && bus.queue == old(bus.queue) + [Broadcast.Event(Broadcast.OrderUpdate,
            IdText(SessionById(db.sessions, sessionId).value.groupId),
            Broadcast.Payload("cleared", IdText(sessionId)))]
  {
    var session := SessionById(db.sessions, sessionId);
    if session.None? {
      return None;
    }
    var count := |OrdersOfSession(db.orders, sessionId)|;
    db.orderItems := ItemsOutside(db.orderItems, db.orders, sessionId);
    db.orders := OrdersOutside(db.orders, sessionId);
    bus.EmitOrderUpdate(IdText(session.value.groupId), Broadcast.Payload("cleared", IdText(sessionId)));
    r := Some(count);
  }
}
