// The order actions of LineService (app/services/line_service.py): the
// four group actions the AI may ask for while a session is open, each
// applied on its own with a partial-apply policy, the batch that runs
// them and announces the last successful one, and the menu price lookup
// they share.

module LineActions {
  import opened Common
  import opened Tables
  import opened OrderRepo
  import OrderService
  import Broadcast
  import opened AiService
  import opened LineRouting

  // ---------------------------------------------------------------
  // The menu rows `_find_item_price` gathers

  function CategoryById(cats: seq<Category>, id: Id): Option<Category> {
    First(cats, (c: Category) => c.id == id)
  }

  function MenuById(menus: seq<Menu>, id: Id): Option<Menu> {
    First(menus, (m: Menu) => m.id == id)
  }

  /** The join row of one menu item when its category's menu belongs to
      the store, and nothing otherwise. */
  function PricedRow(menus: seq<Menu>, cats: seq<Category>, it: MenuItem, storeId: Id): seq<PricedItem> {
    var c := CategoryById(cats, it.categoryId);
    if c.None? then []
    else
      var m := MenuById(menus, c.value.menuId);
      if m.Some? && m.value.storeId == storeId then [PricedItem(it.name, it.price, c.value.name)] else []
  }

  /** `MenuItem join MenuCategory join Menu where Menu.store_id == id`,
      in item table order. */
  function StoreRows(menus: seq<Menu>, cats: seq<Category>, items: seq<MenuItem>, storeId: Id): seq<PricedItem> {
    if items == [] then []
    else StoreRows(menus, cats, items[..|items| - 1], storeId) + PricedRow(menus, cats, items[|items| - 1], storeId)
  }

  /** `all_items`: the rows of every today store, store by store. */
  function MenuRows(menus: seq<Menu>, cats: seq<Category>, items: seq<MenuItem>, storeIds: seq<Id>): seq<PricedItem> {
    if storeIds == [] then []
    else MenuRows(menus, cats, items, storeIds[..|storeIds| - 1]) + StoreRows(menus, cats, items, storeIds[|storeIds| - 1])
  }

  /** The row names a menu item with its own name and price. */
  predicate RowOf(r: PricedItem, items: seq<MenuItem>) {
    exists i :: 0 <= i < |items| && r.name == items[i].name && r.price == items[i].price
  }

  /** Every row gathered for a store is one of the menu items, with its
      own name and price. */
  lemma {:induction false} StoreRowsFromItems(menus: seq<Menu>, cats: seq<Category>, items: seq<MenuItem>, storeId: Id)
    ensures forall r :: r in StoreRows(menus, cats, items, storeId) ==> RowOf(r, items)
    decreases |items|
  {
    if items != [] {
      var n := |items| - 1;
      StoreRowsFromItems(menus, cats, items[..n], storeId);
      forall r | r in StoreRows(menus, cats, items, storeId) ensures RowOf(r, items) {
        if r in PricedRow(menus, cats, items[n], storeId) {
          assert r.name == items[n].name && r.price == items[n].price;
        } else {
          assert r in StoreRows(menus, cats, items[..n], storeId);
          assert RowOf(r, items[..n]);
          var i :| 0 <= i < n && r.name == items[..n][i].name && r.price == items[..n][i].price;
          assert items[..n][i] == items[i];
        }
      }
    }
  }

  /** Every row gathered for the today stores is one of the menu items. */
  lemma {:induction false} MenuRowsFromItems(menus: seq<Menu>, cats: seq<Category>, items: seq<MenuItem>, storeIds: seq<Id>)
    ensures forall r :: r in MenuRows(menus, cats, items, storeIds) ==> RowOf(r, items)
    decreases |storeIds|
  {
    if storeIds != [] {
      MenuRowsFromItems(menus, cats, items, storeIds[..|storeIds| - 1]);
      StoreRowsFromItems(menus, cats, items, storeIds[|storeIds| - 1]);
    }
  }

  /** A non-zero price is that of a menu item whose name contains the
      requested one. */
  lemma PriceFromMenu(menus: seq<Menu>, cats: seq<Category>, items: seq<MenuItem>, storeIds: seq<Id>,
                      name: string, category: string)
    ensures var p := FindItemPrice(MenuRows(menus, cats, items, storeIds), name, category);
      p != 0 ==> exists i :: 0 <= i < |items| && Contains(items[i].name, name) && items[i].price == p
  {
    var rows := MenuRows(menus, cats, items, storeIds);
    var p := FindItemPrice(rows, name, category);
    FindItemPriceFacts(rows, name, category);
    MenuRowsFromItems(menus, cats, items, storeIds);
    if p != 0 {
      var k :| 0 <= k < |rows| && Contains(rows[k].name, name) && rows[k].price == p;
      assert RowOf(rows[k], items);
    }
  }

  /** The gathering loops of `_find_item_price`. */
  method GatherMenuRows(db: Database, storeIds: seq<Id>) returns (all: seq<PricedItem>)
    ensures all == MenuRows(db.menus, db.categories, db.menuItems, storeIds)
  {
    all := [];
    var j := 0;
    while j < |storeIds|
      invariant 0 <= j <= |storeIds|
      invariant all == MenuRows(db.menus, db.categories, db.menuItems, storeIds[..j])
    {
      assert storeIds[..j + 1][..j] == storeIds[..j];
      var rows := GatherStoreRows(db, storeIds[j]);
      all := all + rows;
      j := j + 1;
    }
    assert storeIds[..j] == storeIds;
  }

  /** The inner loop: the rows of one today store. */
  method GatherStoreRows(db: Database, storeId: Id) returns (all: seq<PricedItem>)
    ensures all == StoreRows(db.menus, db.categories, db.menuItems, storeId)
  {
    all := [];
    var rows := db.menuItems;
    var i := 0;
    while i < |rows|
      invariant 0 <= i <= |rows|
      invariant all == StoreRows(db.menus, db.categories, rows[..i], storeId)
    {
      assert rows[..i + 1][..i] == rows[..i];
      all := all + PricedRow(db.menus, db.categories, rows[i], storeId);
      i := i + 1;
    }
    assert rows[..i] == rows;
  }

  // ---------------------------------------------------------------
  // Order state and outcomes

  /** The part of the database the order actions change. */
  datatype OrderState = OrderState(orders: seq<Order>, items: seq<OrderItem>, nextId: nat)

  function StateOf(db: Database): OrderState
    reads db
  {
    OrderState(db.orders, db.orderItems, db.nextId)
  }

  datatype Failure =
    | NoItems                  // the action lists no item
    | NoTodayStore             // a new order needs a today store
    | NotOnMenu(name: string)  // the price lookup gave 0
    | NoOrder                  // the user has no order in the session
    | NoSuchLine(name: string) // no line of the order matches
    | Raised                   // the action's data is not an object

  datatype Outcome = Succeeded | Failed(failure: Failure)

  /** The user acting and the open session. */
  datatype Actor = Actor(sessionId: Id, userId: Id)

  // ---------------------------------------------------------------
  // _action_create_order

  /** The stored line for a requested item at its menu price. */
  function LineRow(id: Id, orderId: Id, req: ItemRequest, price: int): (r: OrderItem)
    requires req.ItemRequest?
    ensures r.id == id && r.orderId == orderId && r.name == req.name && r.note == req.note
    ensures r.quantity == req.quantity && r.unitPrice == price
    ensures r.subtotal == r.unitPrice * r.quantity
  {
    OrderItem(id, orderId, req.name, req.quantity, price, price * req.quantity, req.note)
  }

  /** `_find_item_price` for one request; a malformed request has none. */
  function PriceOf(priced: seq<PricedItem>, req: ItemRequest): int {
    if req.ItemRequest? then FindItemPrice(priced, req.name, req.category) else 0
  }

  /** The lookup the item loop uses, over the gathered menu rows. */
  function Pricing(priced: seq<PricedItem>): ItemRequest -> int {
    (req: ItemRequest) => PriceOf(priced, req)
  }

  /** The item loop: each request is priced and inserted in turn; the
      first malformed or unpriced request stops the loop and the lines
      already inserted stay. */
  function AddLines(s: OrderState, orderId: Id, price: ItemRequest -> int, reqs: seq<ItemRequest>): (OrderState, Option<Failure>)
    decreases |reqs|
  {
    if reqs == [] then (s, None)
    else if reqs[0].MalformedItem? then (s, Some(Raised))
    else
      var p := price(reqs[0]);
      if p == 0 then (s, Some(NotOnMenu(reqs[0].name)))
      else AddLines(s.(items := s.items + [LineRow(s.nextId, orderId, reqs[0], p)], nextId := s.nextId + 1),
                    orderId, price, reqs[1..])
  }

  /** The i-th inserted line is the i-th request at its non-zero menu price. */
  predicate InsertedFor(line: OrderItem, req: ItemRequest, id: Id, orderId: Id, price: ItemRequest -> int) {
    req.ItemRequest? && price(req) != 0 && line == LineRow(id, orderId, req, price(req))
  }

  /** Why the loop stopped at a request. */
  predicate StopsAt(req: ItemRequest, price: ItemRequest -> int, f: Failure) {
    (req.MalformedItem? && f == Raised)
    || (req.ItemRequest? && price(req) == 0 && f == NotOnMenu(req.name))
  }

  /** The item loop only appends lines, one fresh key each, at most one
      per request, and all of them exactly when it does not stop early;
      it touches no order. */
  lemma {:induction false} AddLinesShape(s: OrderState, orderId: Id, price: ItemRequest -> int, reqs: seq<ItemRequest>)
    ensures var r := AddLines(s, orderId, price, reqs);
      var n := |r.0.items| - |s.items|;
      r.0.orders == s.orders
      && |s.items| <= |r.0.items| && r.0.items[..|s.items|] == s.items
      && n <= |reqs| && r.0.nextId == s.nextId + n
      && (r.1.None? <==> n == |reqs|)
    decreases |reqs|
  {
    if reqs != [] && reqs[0].ItemRequest? && price(reqs[0]) != 0 {
      var line := LineRow(s.nextId, orderId, reqs[0], price(reqs[0]));
      var s1 := s.(items := s.items + [line], nextId := s.nextId + 1);
      AddLinesShape(s1, orderId, price, reqs[1..]);
      var r := AddLines(s1, orderId, price, reqs[1..]);
      assert r.0.items[..|s.items|] == r.0.items[..|s1.items|][..|s.items|];
    }
  }

  /** The i-th appended line is the i-th request at its non-zero menu
      price, and the loop stops at a malformed or unpriced request. */
  lemma {:induction false} AddLinesContent(s: OrderState, orderId: Id, price: ItemRequest -> int, reqs: seq<ItemRequest>)
    ensures var r := AddLines(s, orderId, price, reqs);
      var n := |r.0.items| - |s.items|;
      0 <= n <= |reqs|
      && (forall i :: 0 <= i < n ==> InsertedFor(r.0.items[|s.items| + i], reqs[i], s.nextId + i, orderId, price))
      && (r.1.Some? ==> n < |reqs| && StopsAt(reqs[n], price, r.1.value))
    decreases |reqs|
  {
    AddLinesShape(s, orderId, price, reqs);
    if reqs != [] && reqs[0].ItemRequest? && price(reqs[0]) != 0 {
      var line := LineRow(s.nextId, orderId, reqs[0], price(reqs[0]));
      var s1 := s.(items := s.items + [line], nextId := s.nextId + 1);
      AddLinesShape(s1, orderId, price, reqs[1..]);
      AddLinesContent(s1, orderId, price, reqs[1..]);
      var r := AddLines(s1, orderId, price, reqs[1..]);
      var n := |r.0.items| - |s.items|;
      assert r.0.items[|s.items|] == r.0.items[..|s1.items|][|s.items|];
      forall i | 0 <= i < n
        ensures InsertedFor(r.0.items[|s.items| + i], reqs[i], s.nextId + i, orderId, price)
      {
        if i > 0 {
          assert InsertedFor(r.0.items[|s1.items| + (i - 1)], reqs[1..][i - 1], s1.nextId + (i - 1), orderId, price);
          assert reqs[1..][i - 1] == reqs[i];
        }
      }
      if r.1.Some? {
        assert reqs[1..][n - 1] == reqs[n];
      }
    }
  }

  /** The cost of some lines: the sum of their subtotals. */
  function LinesCost(lines: seq<OrderItem>): int {
    Sum(Subtotals(lines))
  }

  /** Appending lines of one order adds their cost to its sum. */
  lemma ItemsTotalAppendLines(items: seq<OrderItem>, added: seq<OrderItem>, orderId: Id)
    requires forall i :: 0 <= i < |added| ==> added[i].orderId == orderId
    ensures ItemsTotal(items + added, orderId) == ItemsTotal(items, orderId) + LinesCost(added)
  {
    var p := (it: OrderItem) => it.orderId == orderId;
    FilterAppend(items, added, p);
    FilterKeepsAll(added, p);
    var before := ItemsOf(items, orderId);
    assert ItemsOf(items + added, orderId) == before + added;
    assert Subtotals(before + added) == Subtotals(before) + Subtotals(added);
    SumAppend(Subtotals(before), Subtotals(added));
  }

  /** The user's order in the session, or a fresh one on the first
      today store; the lines go to it. */
  function Prepared(s: OrderState, who: Actor, storeIds: seq<Id>): OrderState
    requires OrderOf(s.orders, who.sessionId, who.userId).Some? || storeIds != []
  {
    var existing := OrderOf(s.orders, who.sessionId, who.userId);
    var storeId := if existing.Some? then existing.value.storeId else storeIds[0];
    OrderState(OrderService.WithOrder(s.orders, who.sessionId, who.userId, storeId, s.nextId),
               s.items, if existing.Some? then s.nextId else s.nextId + 1)
  }

  function Target(s: OrderState, who: Actor): Id {
    OrderService.TargetOrderId(s.orders, who.sessionId, who.userId, s.nextId)
  }

  /** `_action_create_order`: the total is recomputed only when every
      line was inserted. */
  function CreateStep(s: OrderState, who: Actor, storeIds: seq<Id>, price: ItemRequest -> int,
                      reqs: seq<ItemRequest>): (OrderState, Outcome)
  {
    if reqs == [] then (s, Failed(NoItems))
    else if OrderOf(s.orders, who.sessionId, who.userId).None? && storeIds == [] then (s, Failed(NoTodayStore))
    else
      var oid := Target(s, who);
      var r := AddLines(Prepared(s, who, storeIds), oid, price, reqs);
      if r.1.Some? then (r.0, Failed(r.1.value))
      else (r.0.(orders := SetTotalRows(r.0.orders, oid, ItemsTotal(r.0.items, oid))), Succeeded)
  }

  /** Past its two guards, create-order appends lines to the user's
      order, every one of them priced from the menu at a non-zero price
      with subtotal = price × quantity. */
  lemma CreateStepLines(s: OrderState, who: Actor, storeIds: seq<Id>, price: ItemRequest -> int, reqs: seq<ItemRequest>)
    requires reqs != [] && (OrderOf(s.orders, who.sessionId, who.userId).Some? || storeIds != [])
    ensures var r := CreateStep(s, who, storeIds, price, reqs);
      var oid := Target(s, who);
      |s.items| <= |r.0.items| && r.0.items[..|s.items|] == s.items
      && (forall i :: |s.items| <= i < |r.0.items| ==>
            r.0.items[i].orderId == oid && r.0.items[i].unitPrice != 0
            && r.0.items[i].subtotal == r.0.items[i].unitPrice * r.0.items[i].quantity)
  {
    var s1 := Prepared(s, who, storeIds);
    var oid := Target(s, who);
    var a := AddLines(s1, oid, price, reqs);
    assert CreateStep(s, who, storeIds, price, reqs).0.items == a.0.items;
    assert s1.items == s.items;
    AddLinesShape(s1, oid, price, reqs);
    AddedLinesPriced(s1, oid, price, reqs);
  }

  /** Every line the item loop appends belongs to the order and carries a
      non-zero price with subtotal = price × quantity. */
  lemma AddedLinesPriced(s: OrderState, orderId: Id, price: ItemRequest -> int, reqs: seq<ItemRequest>)
    ensures var a := AddLines(s, orderId, price, reqs);
      forall i :: |s.items| <= i < |a.0.items| ==>
        a.0.items[i].orderId == orderId && a.0.items[i].unitPrice != 0
        && a.0.items[i].subtotal == a.0.items[i].unitPrice * a.0.items[i].quantity
  {
    var a := AddLines(s, orderId, price, reqs);
    AddLinesContent(s, orderId, price, reqs);
    forall i | |s.items| <= i < |a.0.items|
      ensures a.0.items[i].orderId == orderId && a.0.items[i].unitPrice != 0
              && a.0.items[i].subtotal == a.0.items[i].unitPrice * a.0.items[i].quantity
    {
      var j := i - |s.items|;
      assert InsertedFor(a.0.items[|s.items| + j], reqs[j], s.nextId + j, orderId, price);
    }
  }

  /** Past its two guards, create-order leaves the user with an order in
      the session, the one the lines went to. */
  lemma CreateStepOwner(s: OrderState, who: Actor, storeIds: seq<Id>, price: ItemRequest -> int, reqs: seq<ItemRequest>)
    requires reqs != [] && (OrderOf(s.orders, who.sessionId, who.userId).Some? || storeIds != [])
    ensures var r := CreateStep(s, who, storeIds, price, reqs);
      OrderOf(r.0.orders, who.sessionId, who.userId).Some?
      && OrderOf(r.0.orders, who.sessionId, who.userId).value.id == Target(s, who)
  {
    var s1 := Prepared(s, who, storeIds);
    var oid := Target(s, who);
    var a := AddLines(s1, oid, price, reqs);
    AddLinesShape(s1, oid, price, reqs);
    var existing := OrderOf(s.orders, who.sessionId, who.userId);
    var storeId := if existing.Some? then existing.value.storeId else storeIds[0];
    OrderService.WithOrderFacts(s.orders, who.sessionId, who.userId, storeId, s.nextId);
    if a.1.None? {
      OrderService.SetTotalKeepsOwners(a.0.orders, oid, ItemsTotal(a.0.items, oid), who.sessionId, who.userId);
    }
  }

  /** A successful create inserted a line for every request, and the
      order's total is its lines' sum, grown by the new lines' cost. */
  lemma CreateStepSuccess(s: OrderState, who: Actor, storeIds: seq<Id>, price: ItemRequest -> int, reqs: seq<ItemRequest>)
    requires CreateStep(s, who, storeIds, price, reqs).1.Succeeded?
    ensures var r := CreateStep(s, who, storeIds, price, reqs);
      var oid := Target(s, who);
      |s.items| <= |r.0.items|
      && |r.0.items| - |s.items| == |reqs|
      && OrderById(r.0.orders, oid).Some?
      && OrderById(r.0.orders, oid).value.totalAmount == ItemsTotal(r.0.items, oid)
      && ItemsTotal(r.0.items, oid) == ItemsTotal(s.items, oid) + LinesCost(r.0.items[|s.items|..])
  {
    var s1 := Prepared(s, who, storeIds);
    var oid := Target(s, who);
    var a := AddLines(s1, oid, price, reqs);
    var total := ItemsTotal(a.0.items, oid);
    assert CreateStep(s, who, storeIds, price, reqs) == (a.0.(orders := SetTotalRows(a.0.orders, oid, total)), Succeeded);
    AddLinesShape(s1, oid, price, reqs);
    var existing := OrderOf(s.orders, who.sessionId, who.userId);
    var storeId := if existing.Some? then existing.value.storeId else storeIds[0];
    OrderService.WithOrderFacts(s.orders, who.sessionId, who.userId, storeId, s.nextId);
    OrderService.SetTotalById(a.0.orders, oid, total);
    AddedLinesTotal(s, who, storeIds, price, reqs);
  }

  /** The lines a create appends all belong to the target order, so they
      add their cost to its sum. */
  lemma AddedLinesTotal(s: OrderState, who: Actor, storeIds: seq<Id>, price: ItemRequest -> int, reqs: seq<ItemRequest>)
    requires reqs != [] && (OrderOf(s.orders, who.sessionId, who.userId).Some? || storeIds != [])
    ensures var a := AddLines(Prepared(s, who, storeIds), Target(s, who), price, reqs);
      |s.items| <= |a.0.items|
      && ItemsTotal(a.0.items, Target(s, who)) == ItemsTotal(s.items, Target(s, who)) + LinesCost(a.0.items[|s.items|..])
  {
    var s1 := Prepared(s, who, storeIds);
    var oid := Target(s, who);
    var a := AddLines(s1, oid, price, reqs);
    CreateStepLines(s, who, storeIds, price, reqs);
    assert CreateStep(s, who, storeIds, price, reqs).0.items == a.0.items;
    var added := a.0.items[|s.items|..];
    assert a.0.items == s.items + added;
    ItemsTotalAppendLines(s.items, added, oid);
  }

  /** A create that fails past its guards stopped at a malformed or
      unpriced request: the lines before it stay, and the order table is
      only the user's order added, with no total recomputed. */
  lemma CreateStepFailure(s: OrderState, who: Actor, storeIds: seq<Id>, price: ItemRequest -> int, reqs: seq<ItemRequest>)
    requires reqs != [] && (OrderOf(s.orders, who.sessionId, who.userId).Some? || storeIds != [])
    requires CreateStep(s, who, storeIds, price, reqs).1.Failed?
    ensures var r := CreateStep(s, who, storeIds, price, reqs);
      var n := |r.0.items| - |s.items|;
      0 <= n < |reqs|
      && StopsAt(reqs[n], price, r.1.failure)
      && r.0.orders == Prepared(s, who, storeIds).orders
  {
    var s1 := Prepared(s, who, storeIds);
    var oid := Target(s, who);
    AddLinesShape(s1, oid, price, reqs);
    AddLinesContent(s1, oid, price, reqs);
  }

  // ---------------------------------------------------------------
  // _action_remove_item

  /** `item.name == item_name or item_name in item.name`. */
  predicate NameMatches(line: OrderItem, name: string) {
    line.name == name || Contains(line.name, name)
  }

  function Matching(name: string): OrderItem -> bool {
    (it: OrderItem) => NameMatches(it, name)
  }

  function WithoutLine(items: seq<OrderItem>, id: Id): seq<OrderItem> {
    Filter(items, (x: OrderItem) => x.id != id)
  }

  function WithoutOrder(orders: seq<Order>, id: Id): seq<Order> {
    Filter(orders, (o: Order) => o.id != id)
  }

  /** The line with quantity lowered and subtotal recomputed from it. */
  function Decremented(items: seq<OrderItem>, id: Id, units: int): (r: seq<OrderItem>)
    ensures |r| == |items|
  {
    seq(|items|, i requires 0 <= i < |items| =>
      if items[i].id == id
      then items[i].(quantity := items[i].quantity - units, subtotal := items[i].unitPrice * (items[i].quantity - units))
      else items[i])
  }

  /** `_action_remove_item`: the first line of the user's order that
      matches loses `quantity` units, or goes when that is all of it; the
      total is recomputed, and an order left with no line is deleted. */
  function RemoveStep(s: OrderState, who: Actor, name: string, quantity: int): (OrderState, Outcome) {
    var o := OrderOf(s.orders, who.sessionId, who.userId);
    if o.None? then (s, Failed(NoOrder))
    else
      var oid := o.value.id;
      var hit := First(ItemsOf(s.items, oid), Matching(name));
      if hit.None? then (s, Failed(NoSuchLine(name)))
      else (Settled(s, oid, Shrunk(s.items, hit.value, quantity)), Succeeded)
  }

  /** The lines after `quantity` units of `line` are taken off. */
  function Shrunk(items: seq<OrderItem>, line: OrderItem, quantity: int): seq<OrderItem> {
    if quantity >= line.quantity then WithoutLine(items, line.id)
    else Decremented(items, line.id, quantity)
  }

  /** The state once the order's total follows its new lines, without the
      order when it has none left. */
  function Settled(s: OrderState, oid: Id, items1: seq<OrderItem>): OrderState {
    var orders1 := SetTotalRows(s.orders, oid, ItemsTotal(items1, oid));
    if ItemsOf(items1, oid) == [] then OrderState(WithoutOrder(orders1, oid), items1, s.nextId)
    else OrderState(orders1, items1, s.nextId)
  }

  /** Remove-item fails exactly when the user has no order, or no line
      of it contains the name, and then changes nothing; it never hands
      out a key. */
  lemma RemoveStepFailures(s: OrderState, who: Actor, name: string, quantity: int)
    ensures var r := RemoveStep(s, who, name, quantity);
      var o := OrderOf(s.orders, who.sessionId, who.userId);
      (r.1 == Failed(NoOrder) <==> o.None?)
      && (o.Some? ==> (r.1 == Failed(NoSuchLine(name)) <==>
                        forall i :: 0 <= i < |ItemsOf(s.items, o.value.id)| ==> !Contains(ItemsOf(s.items, o.value.id)[i].name, name)))
      && (r.1.Failed? ==> r.0 == s)
      && r.0.nextId == s.nextId
  {
    var o := OrderOf(s.orders, who.sessionId, who.userId);
    if o.Some? {
      var lines := ItemsOf(s.items, o.value.id);
      forall i | 0 <= i < |lines| ensures NameMatches(lines[i], name) <==> Contains(lines[i].name, name) {
        if lines[i].name == name {
          ContainsSelf(name);
        }
      }
    }
  }

  /** After a successful remove-item the order survives exactly when it
      keeps a line, and then its total is its lines' sum. */
  lemma RemoveStepSuccess(s: OrderState, who: Actor, name: string, quantity: int)
    requires RemoveStep(s, who, name, quantity).1.Succeeded?
    ensures var r := RemoveStep(s, who, name, quantity);
      var oid := OrderOf(s.orders, who.sessionId, who.userId).value.id;
      (OrderById(r.0.orders, oid).Some? <==> ItemsOf(r.0.items, oid) != [])
      && (OrderById(r.0.orders, oid).Some? ==> OrderById(r.0.orders, oid).value.totalAmount == ItemsTotal(r.0.items, oid))
  {
    var o := OrderOf(s.orders, who.sessionId, who.userId).value;
    var oid := o.id;
    var k :| 0 <= k < |s.orders| && s.orders[k] == o && IsOrderOf(s.orders[k], who.sessionId, who.userId);
    assert OrderById(s.orders, oid).Some? by {
      assert s.orders[k].id == oid;
    }
    var line := First(ItemsOf(s.items, oid), Matching(name)).value;
    var items1 := Shrunk(s.items, line, quantity);
    assert RemoveStep(s, who, name, quantity).0 == Settled(s, oid, items1);
    SettledFacts(s, oid, items1);
  }

  /** Settling keeps the order exactly when it has a line left, with its
      total the sum of those lines. */
  lemma SettledFacts(s: OrderState, oid: Id, items1: seq<OrderItem>)
    requires OrderById(s.orders, oid).Some?
    ensures var r := Settled(s, oid, items1);
      r.items == items1
      && (OrderById(r.orders, oid).Some? <==> ItemsOf(items1, oid) != [])
      && (OrderById(r.orders, oid).Some? ==> OrderById(r.orders, oid).value.totalAmount == ItemsTotal(items1, oid))
  {
    var total := ItemsTotal(items1, oid);
    var orders1 := SetTotalRows(s.orders, oid, total);
    OrderService.SetTotalById(s.orders, oid, total);
    if ItemsOf(items1, oid) == [] {
      var rest := WithoutOrder(orders1, oid);
      assert forall i :: 0 <= i < |rest| ==> rest[i].id != oid;
    }
  }

  /** Every line belongs to an order key already handed out. */
  predicate KeysBelow(s: OrderState) {
    forall i :: 0 <= i < |s.items| ==> s.items[i].orderId < s.nextId
  }

  /** Remove-item hands out no key and keeps every line's order. */
  lemma RemoveKeepsKeysBelow(s: OrderState, who: Actor, name: string, quantity: int)
    requires KeysBelow(s)
    ensures KeysBelow(RemoveStep(s, who, name, quantity).0)
  {
    var o := OrderOf(s.orders, who.sessionId, who.userId);
    if o.Some? {
      var hit := First(ItemsOf(s.items, o.value.id), Matching(name));
      if hit.Some? {
        var items1 := Shrunk(s.items, hit.value, quantity);
        assert RemoveStep(s, who, name, quantity).0 == Settled(s, o.value.id, items1);
        ShrunkKeysBelow(s.items, hit.value, quantity, s.nextId);
      }
    }
  }

  lemma ShrunkKeysBelow(items: seq<OrderItem>, line: OrderItem, quantity: int, next: Id)
    requires forall i :: 0 <= i < |items| ==> items[i].orderId < next
    ensures var r := Shrunk(items, line, quantity);
      forall i :: 0 <= i < |r| ==> r[i].orderId < next
  {
    if quantity >= line.quantity {
      var kept := WithoutLine(items, line.id);
      forall i | 0 <= i < |kept| ensures kept[i].orderId < next {
        assert kept[i] in items;
      }
    } else {
      var d := Decremented(items, line.id, quantity);
      assert forall i :: 0 <= i < |d| ==> d[i].orderId == items[i].orderId;
    }
  }

  // ---------------------------------------------------------------
  // _action_cancel_order

  /** `_action_cancel_order`: the user's order and, by cascade, its lines
      are deleted. */
  function CancelStep(s: OrderState, who: Actor): (OrderState, Outcome) {
    var o := OrderOf(s.orders, who.sessionId, who.userId);
    if o.None? then (s, Failed(NoOrder))
    else (OrderState(WithoutOrder(s.orders, o.value.id), OrderService.DropItemsOf(s.items, o.value.id), s.nextId), Succeeded)
  }

  /** After a cancel the user has no order in the session and no line of
      the old order is left; without an order it fails and changes nothing. */
  lemma CancelStepFacts(s: OrderState, who: Actor)
    ensures var r := CancelStep(s, who);
      var o := OrderOf(s.orders, who.sessionId, who.userId);
      (r.1.Failed? <==> o.None?)
      && (o.None? ==> r.0 == s)
      && (o.Some? ==> OrderById(r.0.orders, o.value.id).None? && ItemsOf(r.0.items, o.value.id) == [])
  {
    var o := OrderOf(s.orders, who.sessionId, who.userId);
    if o.Some? {
      var oid := o.value.id;
      var rest := OrderService.DropItemsOf(s.items, oid);
      FilterKeepsNone(rest, (it: OrderItem) => it.orderId == oid);
      assert forall i :: 0 <= i < |WithoutOrder(s.orders, oid)| ==> WithoutOrder(s.orders, oid)[i].id != oid;
    }
  }

  // ---------------------------------------------------------------
  // _action_update_order

  /** `_action_update_order`: removes up to 999 units of the old line,
      then creates the new one; a failed create does not undo the removal. */
  function UpdateStep(s: OrderState, who: Actor, storeIds: seq<Id>, price: ItemRequest -> int,
                      oldItem: string, newItem: ItemRequest): (OrderState, Outcome)
  {
    var removed := RemoveStep(s, who, oldItem, 999);
    if removed.1.Failed? then removed
    else CreateStep(removed.0, who, storeIds, price, [newItem])
  }

  /** An order added for a user who had none in the session is the one
      the lookup finds. */
  lemma OrderOfAppended(orders: seq<Order>, o: Order, sessionId: Id, userId: Id)
    requires OrderOf(orders, sessionId, userId).None? && IsOrderOf(o, sessionId, userId)
    ensures OrderOf(orders + [o], sessionId, userId) == Some(o)
  {
    var w := orders + [o];
    assert IsOrderOf(w[|orders|], sessionId, userId);
    var found := OrderOf(w, sessionId, userId).value;
    var k :| 0 <= k < |w| && w[k] == found && IsOrderOf(w[k], sessionId, userId);
    if k < |orders| {
      assert false;
    }
  }

  /** When the old line was the order's last one and the new item is not
      on the menu, the update fails but the user is left with an order
      that has no line and total 0: the removal deleted the old order and
      the create made a fresh one before failing. */
  lemma UpdateToUnknownItem(s: OrderState, who: Actor, storeIds: seq<Id>, price: ItemRequest -> int,
                            oldItem: string, newItem: ItemRequest)
    requires RemoveStep(s, who, oldItem, 999).1.Succeeded?
    requires OrderOf(RemoveStep(s, who, oldItem, 999).0.orders, who.sessionId, who.userId).None?
    requires storeIds != []
    requires KeysBelow(s)
    requires newItem.ItemRequest? && price(newItem) == 0
    ensures var r := UpdateStep(s, who, storeIds, price, oldItem, newItem);
      r.1 == Failed(NotOnMenu(newItem.name))
      && OrderOf(r.0.orders, who.sessionId, who.userId).Some?
      && ItemsOf(r.0.items, OrderOf(r.0.orders, who.sessionId, who.userId).value.id) == []
      && OrderOf(r.0.orders, who.sessionId, who.userId).value.totalAmount == 0
  {
    var mid := RemoveStep(s, who, oldItem, 999).0;
    var added := OrderService.NewOrder(mid.nextId, who.sessionId, who.userId, storeIds[0]);
    var prepared := Prepared(mid, who, storeIds);
    assert prepared.orders == mid.orders + [added];
    assert AddLines(prepared, Target(mid, who), price, [newItem]) == (prepared, Some(NotOnMenu(newItem.name)));
    assert UpdateStep(s, who, storeIds, price, oldItem, newItem) == (prepared, Failed(NotOnMenu(newItem.name)));
    OrderOfAppended(mid.orders, added, who.sessionId, who.userId);
    RemoveKeepsKeysBelow(s, who, oldItem, 999);
    FilterKeepsNone(mid.items, (it: OrderItem) => it.orderId == mid.nextId);
  }

  // ---------------------------------------------------------------
  // _execute_group_actions

  datatype OrderEvent = Created | Updated | Cancelled

  function EventName(e: OrderEvent): string {
    match e
    case Created => "created"
    case Updated => "updated"
    case Cancelled => "cancelled"
  }

  /** The four action types the executor runs. */
  predicate IsOrderType(t: string) {
    t in ["group_create_order", "group_remove_item", "group_cancel_order", "group_update_order"]
  }

  /** The actions that announce themselves when they succeed; a cancel
      whose data is not an object still runs, since it reads no data. */
  predicate Announcing(a: AiAction) {
    a.CreateOrder? || a.RemoveItem? || a.CancelOrder? || a.UpdateOrder?
    || (a.MalformedData? && a.actionType == "group_cancel_order")
  }

  function EventOf(a: AiAction): OrderEvent
    requires Announcing(a)
  {
    if a.CreateOrder? then Created
    else if a.RemoveItem? || a.UpdateOrder? then Updated
    else Cancelled
  }

  /** An order action whose data is not an object raises on its first
      read of it. */
  predicate RaisesOnData(a: AiAction) {
    a.MalformedData? && IsOrderType(a.actionType) && a.actionType != "group_cancel_order"
  }

  function Announce(r: (OrderState, Outcome), e: OrderEvent): (OrderState, Outcome, Option<OrderEvent>) {
    (r.0, r.1, if r.1.Succeeded? then Some(e) else None)
  }

  /** One action as the executor dispatches it: the new state, the
      outcome, and the event a success announces. */
  function ActionStep(s: OrderState, who: Actor, storeIds: seq<Id>, price: ItemRequest -> int, a: AiAction)
    : (OrderState, Outcome, Option<OrderEvent>)
  {
    match a
    case CreateOrder(reqs) => Announce(CreateStep(s, who, storeIds, price, reqs), Created)
    case RemoveItem(name, quantity) => Announce(RemoveStep(s, who, name, quantity), Updated)
    case CancelOrder => Announce(CancelStep(s, who), Cancelled)
    case UpdateOrder(oldItem, newItem) => Announce(UpdateStep(s, who, storeIds, price, oldItem, newItem), Updated)
    case MalformedData(t) =>
      if t == "group_cancel_order" then Announce(CancelStep(s, who), Cancelled)
      else if IsOrderType(t) then (s, Failed(Raised), None)
      else (s, Succeeded, None)
    case _ => (s, Succeeded, None)
  }

  /** The result of a batch: the state, one outcome per action, and the
      event of the last action that succeeded and announces. */
  datatype Batch = Batch(state: OrderState, results: seq<Outcome>, last: Option<OrderEvent>)

  function Run(s: OrderState, who: Actor, storeIds: seq<Id>, price: ItemRequest -> int, actions: seq<AiAction>): Batch
    decreases |actions|
  {
    if actions == [] then Batch(s, [], None)
    else
      var b := Run(s, who, storeIds, price, actions[..|actions| - 1]);
      var r := ActionStep(b.state, who, storeIds, price, actions[|actions| - 1]);
      Batch(r.0, b.results + [r.1], if r.2.Some? then r.2 else b.last)
  }

  /** Action i succeeded and announces itself. */
  predicate AnnouncedAt(results: seq<Outcome>, actions: seq<AiAction>, i: int) {
    0 <= i < |results| && i < |actions| && results[i].Succeeded? && Announcing(actions[i])
  }

  /** One action announces an event exactly when it succeeds and is an
      order action; anything else leaves the orders alone, and only an
      order action with unreadable data fails among those. */
  lemma ActionStepFacts(s: OrderState, who: Actor, storeIds: seq<Id>, price: ItemRequest -> int, a: AiAction)
    ensures var r := ActionStep(s, who, storeIds, price, a);
      (r.2.Some? <==> r.1.Succeeded? && Announcing(a))
      && (r.2.Some? ==> r.2.value == EventOf(a))
      && (!Announcing(a) ==> r.0 == s && (r.1.Failed? <==> RaisesOnData(a)))
  {
  }

  /** A batch gives one outcome per action; an action fails only when it
      is an order action; and the batch announces an event exactly when
      some action succeeded and announces, the event of the last such. */
  lemma RunFacts(s: OrderState, who: Actor, storeIds: seq<Id>, price: ItemRequest -> int, actions: seq<AiAction>)
    ensures var b := Run(s, who, storeIds, price, actions);
      |b.results| == |actions|
      && (forall i :: 0 <= i < |actions| && b.results[i].Failed? ==> Announcing(actions[i]) || RaisesOnData(actions[i]))
      && (b.last.Some? <==> exists i :: AnnouncedAt(b.results, actions, i))
      && (b.last.Some? ==> exists k :: AnnouncedAt(b.results, actions, k) && b.last == Some(EventOf(actions[k]))
                                       && forall j :: k < j < |actions| ==> !AnnouncedAt(b.results, actions, j))
  {
    RunResults(s, who, storeIds, price, actions);
    RunAnnounces(s, who, storeIds, price, actions);
  }

  /** One outcome per action, and only order actions fail. */
  lemma {:induction false} RunResults(s: OrderState, who: Actor, storeIds: seq<Id>, price: ItemRequest -> int, actions: seq<AiAction>)
    ensures var b := Run(s, who, storeIds, price, actions);
      |b.results| == |actions|
      && (forall i :: 0 <= i < |actions| && b.results[i].Failed? ==> Announcing(actions[i]) || RaisesOnData(actions[i]))
    decreases |actions|
  {
    if actions != [] {
      var n := |actions| - 1;
      var init := actions[..n];
      RunResults(s, who, storeIds, price, init);
      var b0 := Run(s, who, storeIds, price, init);
      var r := ActionStep(b0.state, who, storeIds, price, actions[n]);
      ActionStepFacts(b0.state, who, storeIds, price, actions[n]);
      var b := Run(s, who, storeIds, price, actions);
      assert b.results == b0.results + [r.1];
      forall i | 0 <= i < |actions| && b.results[i].Failed?
        ensures Announcing(actions[i]) || RaisesOnData(actions[i])
      {
        if i < n {
          assert b.results[i] == b0.results[i] && actions[i] == init[i];
        }
      }
    }
  }

  /** The batch announces exactly when some action succeeded and
      announces, with the event of the last such action. */
  ghost predicate AnnouncesLast(results: seq<Outcome>, actions: seq<AiAction>, last: Option<OrderEvent>) {
    (last.Some? <==> exists i :: AnnouncedAt(results, actions, i))
    && (last.Some? ==> exists k :: AnnouncedAt(results, actions, k) && last == Some(EventOf(actions[k]))
                                   && forall j :: k < j < |actions| ==> !AnnouncedAt(results, actions, j))
  }

  lemma {:induction false} RunAnnounces(s: OrderState, who: Actor, storeIds: seq<Id>, price: ItemRequest -> int, actions: seq<AiAction>)
    ensures var b := Run(s, who, storeIds, price, actions);
      AnnouncesLast(b.results, actions, b.last)
    decreases |actions|
  {
    if actions != [] {
      var n := |actions| - 1;
      var init := actions[..n];
      RunAnnounces(s, who, storeIds, price, init);
      RunResults(s, who, storeIds, price, init);
      var b0 := Run(s, who, storeIds, price, init);
      var r := ActionStep(b0.state, who, storeIds, price, actions[n]);
      ActionStepFacts(b0.state, who, storeIds, price, actions[n]);
      assert actions == init + [actions[n]];
      AnnounceStep(b0.results, init, actions[n], r.1, r.2, b0.last);
    }
  }

  /** One more action keeps the announcement of the last announcing one. */
  lemma AnnounceStep(results: seq<Outcome>, init: seq<AiAction>, a: AiAction, o: Outcome, ev: Option<OrderEvent>,
                     last: Option<OrderEvent>)
    requires |results| == |init|
    requires (ev.Some? <==> o.Succeeded? && Announcing(a)) && (ev.Some? ==> ev.value == EventOf(a))
    requires AnnouncesLast(results, init, last)
    ensures AnnouncesLast(results + [o], init + [a], if ev.Some? then ev else last)
  {
    var rs := results + [o];
    var acts := init + [a];
    var n := |init|;
    forall i | 0 <= i < n ensures AnnouncedAt(rs, acts, i) == AnnouncedAt(results, init, i) {
      assert rs[i] == results[i] && acts[i] == init[i];
    }
    if ev.Some? {
      assert AnnouncedAt(rs, acts, n);
    } else {
      assert !AnnouncedAt(rs, acts, n);
      if last.Some? {
        var k :| AnnouncedAt(results, init, k) && last == Some(EventOf(init[k]))
                 && forall j :: k < j < n ==> !AnnouncedAt(results, init, j);
        assert AnnouncedAt(rs, acts, k);
      }
      if exists i :: AnnouncedAt(rs, acts, i) {
        var i :| AnnouncedAt(rs, acts, i);
        assert AnnouncedAt(results, init, i);
      }
    }
  }

  /** When no action is an order action, the batch changes no order,
      announces nothing and every action succeeds. */
  lemma {:induction false} RunWithoutOrderActions(s: OrderState, who: Actor, storeIds: seq<Id>, price: ItemRequest -> int,
                                                  actions: seq<AiAction>)
    requires forall i :: 0 <= i < |actions| ==> !Announcing(actions[i]) && !RaisesOnData(actions[i])
    ensures var b := Run(s, who, storeIds, price, actions);
      b.state == s && b.last.None? && forall i :: 0 <= i < |b.results| ==> b.results[i] == Succeeded
    decreases |actions|
  {
    if actions != [] {
      var n := |actions| - 1;
      RunWithoutOrderActions(s, who, storeIds, price, actions[..n]);
      var b0 := Run(s, who, storeIds, price, actions[..n]);
      ActionStepFacts(b0.state, who, storeIds, price, actions[n]);
    }
  }

  // ---------------------------------------------------------------
  // The executor, step by step on the database

  /** The user's order, or a new one on the first today store. */
  method PrepareOrder(db: Database, who: Actor, storeIds: seq<Id>) returns (oid: Id)
    requires OrderOf(db.orders, who.sessionId, who.userId).Some? || storeIds != []
    modifies db`orders, db`nextId
    ensures StateOf(db) == Prepared(old(StateOf(db)), who, storeIds)
    ensures oid == Target(old(StateOf(db)), who)
  {
    var existing := OrderOf(db.orders, who.sessionId, who.userId);
    if existing.Some? {
      oid := existing.value.id;
    } else {
      oid := db.FreshId();
      db.orders := db.orders + [OrderService.NewOrder(oid, who.sessionId, who.userId, storeIds[0])];
    }
  }

  /** `_find_item_price` for one well-formed request. */
  method LookUpPrice(priced: seq<PricedItem>, req: ItemRequest) returns (price: int)
    requires req.ItemRequest?
    ensures price == Pricing(priced)(req)
  {
    price := FindItemPrice(priced, req.name, req.category);
  }

  /** The item loop on the database. */
  method InsertLines(db: Database, oid: Id, priced: seq<PricedItem>, reqs: seq<ItemRequest>)
    returns (failure: Option<Failure>)
    modifies db`orderItems, db`nextId
    ensures (StateOf(db), failure) == AddLines(old(StateOf(db)), oid, Pricing(priced), reqs)
  {
    ghost var s0 := StateOf(db);
    var i := 0;
    while i < |reqs|
      invariant 0 <= i <= |reqs|
      invariant db.orders == s0.orders
      invariant AddLines(s0, oid, Pricing(priced), reqs) == AddLines(StateOf(db), oid, Pricing(priced), reqs[i..])
    {
      var req := reqs[i];
      assert reqs[i..][0] == req && reqs[i..][1..] == reqs[i + 1..];
      if req.MalformedItem? {
        return Some(Raised);
      }
      var price := LookUpPrice(priced, req);
      if price == 0 {
        return Some(NotOnMenu(req.name));
      }
      var id := db.FreshId();
      db.orderItems := db.orderItems + [LineRow(id, oid, req, price)];
      i := i + 1;
    }
    assert reqs[i..] == [];
    failure := None;
  }

  /** `_action_create_order` on the database. */
  method CreateAction(db: Database, who: Actor, storeIds: seq<Id>, priced: seq<PricedItem>, reqs: seq<ItemRequest>)
    returns (outcome: Outcome)
    modifies db`orders, db`orderItems, db`nextId
    ensures (StateOf(db), outcome) == CreateStep(old(StateOf(db)), who, storeIds, Pricing(priced), reqs)
  {
    if reqs == [] {
      return Failed(NoItems);
    }
    var existing := OrderOf(db.orders, who.sessionId, who.userId);
    if existing.None? && storeIds == [] {
      return Failed(NoTodayStore);
    }
    var oid := PrepareOrder(db, who, storeIds);
    var failure := InsertLines(db, oid, priced, reqs);
    if failure.Some? {
      return Failed(failure.value);
    }
    CalculateTotal(db, oid);
    outcome := Succeeded;
  }

  /** The scan for the first of an order's lines that names the item. */
  method FindLine(lines: seq<OrderItem>, name: string) returns (hit: Option<OrderItem>)
    ensures hit == First(lines, Matching(name))
  {
    var i := 0;
    while i < |lines|
      invariant 0 <= i <= |lines|
      invariant forall j :: 0 <= j < i ==> !Matching(name)(lines[j])
    {
      if NameMatches(lines[i], name) {
        FirstAt(lines, Matching(name), i);
        return Some(lines[i]);
      }
      i := i + 1;
    }
    return None;
  }

  /** The matched line loses `quantity` units, or goes when that is all
      of it; its subtotal follows its new quantity. */
  method ShrinkLine(db: Database, line: OrderItem, quantity: int)
    modifies db`orderItems
    ensures db.orderItems == Shrunk(old(db.orderItems), line, quantity)
  {
    if quantity >= line.quantity {
      db.orderItems := WithoutLine(db.orderItems, line.id);
    } else {
      db.orderItems := Decremented(db.orderItems, line.id, quantity);
    }
  }

  /** The order's total is recomputed, and the order deleted when it has
      no line left. */
  method SettleOrder(db: Database, oid: Id)
    modifies db`orders
    ensures StateOf(db) == Settled(old(StateOf(db)), oid, db.orderItems)
  {
    CalculateTotal(db, oid);
    if ItemsOf(db.orderItems, oid) == [] {
      db.orders := WithoutOrder(db.orders, oid);
    }
  }

  /** `_action_remove_item` on the database: the first matching line is
      deleted or lowered, the total recomputed, and an order left with no
      lines deleted. */
  method RemoveAction(db: Database, who: Actor, name: string, quantity: int) returns (outcome: Outcome)
    modifies db`orders, db`orderItems
    ensures (StateOf(db), outcome) == RemoveStep(old(StateOf(db)), who, name, quantity)
  {
    var existing := OrderOf(db.orders, who.sessionId, who.userId);
    if existing.None? {
      return Failed(NoOrder);
    }
    var oid := existing.value.id;
    var hit := FindLine(ItemsOf(db.orderItems, oid), name);
    if hit.None? {
      return Failed(NoSuchLine(name));
    }
    ShrinkLine(db, hit.value, quantity);
    SettleOrder(db, oid);
    outcome := Succeeded;
  }

  /** `_action_cancel_order` on the database: the order row goes, and its
      lines with it by cascade. */
  method CancelAction(db: Database, who: Actor) returns (outcome: Outcome)
    modifies db`orders, db`orderItems
    ensures (StateOf(db), outcome) == CancelStep(old(StateOf(db)), who)
  {
    var existing := OrderOf(db.orders, who.sessionId, who.userId);
    if existing.None? {
      return Failed(NoOrder);
    }
    db.orders := WithoutOrder(db.orders, existing.value.id);
    db.orderItems := OrderService.DropItemsOf(db.orderItems, existing.value.id);
    outcome := Succeeded;
  }

  /** `_action_update_order` on the database. */
  method UpdateAction(db: Database, who: Actor, storeIds: seq<Id>, priced: seq<PricedItem>,
                      oldItem: string, newItem: ItemRequest) returns (outcome: Outcome)
    modifies db`orders, db`orderItems, db`nextId
    ensures (StateOf(db), outcome) == UpdateStep(old(StateOf(db)), who, storeIds, Pricing(priced), oldItem, newItem)
  {
    outcome := RemoveAction(db, who, oldItem, 999);
    if outcome.Failed? {
      return;
    }
    outcome := CreateAction(db, who, storeIds, priced, [newItem]);
  }

  /** One action, dispatched on its type. */
  method RunAction(db: Database, who: Actor, storeIds: seq<Id>, priced: seq<PricedItem>, a: AiAction)
    returns (outcome: Outcome, event: Option<OrderEvent>)
    modifies db`orders, db`orderItems, db`nextId
    ensures (StateOf(db), outcome, event) == ActionStep(old(StateOf(db)), who, storeIds, Pricing(priced), a)
  {
    match a
    case CreateOrder(reqs) =>
      outcome := CreateAction(db, who, storeIds, priced, reqs);
      event := if outcome.Succeeded? then Some(Created) else None;
    case RemoveItem(name, quantity) =>
      outcome := RemoveAction(db, who, name, quantity);
      event := if outcome.Succeeded? then Some(Updated) else None;
    case CancelOrder =>
      outcome := CancelAction(db, who);
      event := if outcome.Succeeded? then Some(Cancelled) else None;
    case UpdateOrder(oldItem, newItem) =>
      outcome := UpdateAction(db, who, storeIds, priced, oldItem, newItem);
      event := if outcome.Succeeded? then Some(Updated) else None;
    case MalformedData(t) =>
      if t == "group_cancel_order" {
        outcome := CancelAction(db, who);
        event := if outcome.Succeeded? then Some(Cancelled) else None;
      } else if IsOrderType(t) {
        outcome, event := Failed(Raised), None;
      } else {
        outcome, event := Succeeded, None;
      }
    case _ =>
      outcome, event := Succeeded, None;
  }

  /** The order_update event the batch announces for the group. */
  function OrderUpdateEvent(groupId: Id, e: OrderEvent, userId: Id): Broadcast.Event {
    Broadcast.Event(Broadcast.OrderUpdate, IdText(groupId), Broadcast.Payload(EventName(e), IdText(userId)))
  }

  /** `_execute_group_actions`: every action runs on its own; when one of
      the order actions succeeded, the database is committed and one
      order_update for the last of them is queued and flushed. */
  method ExecuteGroupActions(db: Database, bus: Broadcast.EventBus, groupId: Id, who: Actor, storeIds: seq<Id>,
                             actions: seq<AiAction>, failing: set<Broadcast.Event>)
    returns (results: seq<Outcome>)
    requires bus.Valid()
    modifies db`orders, db`orderItems, db`nextId, bus`hasQueue, bus`queue, bus`effects
    ensures bus.Valid()
    ensures var b := Run(old(StateOf(db)), who, storeIds, Pricing(MenuRows(db.menus, db.categories, db.menuItems, storeIds)), actions);
      StateOf(db) == b.state && results == b.results
      && (b.last.None? ==> bus.queue == old(bus.queue) && bus.effects == old(bus.effects))
      && (b.last.Some? ==>
            bus.queue == []
            && bus.effects == old(bus.effects) + [Broadcast.Effect.Commit]
                              + Broadcast.Dispatches(old(bus.queue) + [OrderUpdateEvent(groupId, b.last.value, who.userId)],
                                                     bus.broadcasters, failing))
  {
    var priced := GatherMenuRows(db, storeIds);
    var last;
    results, last := RunActions(db, who, storeIds, priced, actions);
    if last.Some? {
      AnnounceBatch(bus, groupId, last.value, who.userId, failing);
    }
  }

  /** The action loop of `_execute_group_actions`. */
  method RunActions(db: Database, who: Actor, storeIds: seq<Id>, priced: seq<PricedItem>, actions: seq<AiAction>)
    returns (results: seq<Outcome>, last: Option<OrderEvent>)
    modifies db`orders, db`orderItems, db`nextId
    ensures Run(old(StateOf(db)), who, storeIds, Pricing(priced), actions) == Batch(StateOf(db), results, last)
  {
    ghost var s0 := StateOf(db);
    results := [];
    last := None;
    var i := 0;
    while i < |actions|
      invariant 0 <= i <= |actions|
      invariant Run(s0, who, storeIds, Pricing(priced), actions[..i]) == Batch(StateOf(db), results, last)
    {
      assert actions[..i + 1][..i] == actions[..i];
      var outcome, event := RunAction(db, who, storeIds, priced, actions[i]);
      results := results + [outcome];
      if event.Some? {
        last := event;
      }
      i := i + 1;
    }
    assert actions[..i] == actions;
  }

  /** The commit and the one order_update of a batch that announced. */
  method AnnounceBatch(bus: Broadcast.EventBus, groupId: Id, e: OrderEvent, userId: Id, failing: set<Broadcast.Event>)
    requires bus.Valid()
    modifies bus`hasQueue, bus`queue, bus`effects
    ensures bus.Valid()
    ensures bus.queue == []
    ensures bus.effects == old(bus.effects) + [Broadcast.Effect.Commit]
              + Broadcast.Dispatches(old(bus.queue) + [OrderUpdateEvent(groupId, e, userId)], bus.broadcasters, failing)
  {
    bus.Commit();
    bus.EmitOrderUpdate(IdText(groupId), Broadcast.Payload(EventName(e), IdText(userId)));
    bus.FlushEvents(failing);
  }
}
