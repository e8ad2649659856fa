// The stateful parts of the super-admin HTTP API (app/routers/admin.py):
// the in-memory token store with its 24-hour expiry, removing a group
// admin, reviewing an application, proxy orders, and the bounds on chat
// cleanup and on the security-log listing. An HTTP error is modelled by
// its status. The request's database session rolls back when a handler
// raises, so a request that fails leaves every table as it was.

module AdminRouter {
  import opened Common
  import opened Tables
  import opened OrderRepo
  import opened GroupRepo
  import UserRepo
  import ChatRepo
  import SystemRepo
  import OrderService
  import Broadcast
  import LineActions
  import LineRouting

  // ---------------------------------------------------------------
  // _admin_sessions

  const Hour: int := 3600
  const SessionExpireHours: int := 24

  /** The tokens whose expiry is not before `now`. */
  function Live(tokens: map<string, Time>, now: Time): (r: map<string, Time>)
    ensures forall k :: k in r <==> k in tokens && tokens[k] >= now
    ensures forall k :: k in r ==> r[k] == tokens[k]
  {
    map k | k in tokens && tokens[k] >= now :: tokens[k]
  }

  /** `s.replace(pattern, "")`: every occurrence, found left to right
      without overlap, removed. */
  function RemoveAll(s: string, pattern: string): string
    requires pattern != []
    decreases |s|
  {
    if s == [] then []
    else if StartsWith(s, pattern) then RemoveAll(s[|pattern|..], pattern)
    else [s[0]] + RemoveAll(s[1..], pattern)
  }

  const Bearer: string := "Bearer "

  /** The token read from an Authorization header. */
  function TokenOf(authorization: string): string {
    if StartsWith(authorization, Bearer) then RemoveAll(authorization, Bearer) else authorization
  }

  predicate NoSpace(s: string) {
    forall i :: 0 <= i < |s| ==> s[i] != ' '
  }

  lemma SpacelessIsNotBearer(s: string)
    requires NoSpace(s)
    ensures !StartsWith(s, Bearer)
  {
    if |Bearer| <= |s| {
      assert s[..|Bearer|][6] == s[6];
    }
  }

  /** A text without a space has no "Bearer " in it to remove. */
  lemma {:induction false} RemoveAllKeepsSpaceless(s: string)
    requires NoSpace(s)
    ensures RemoveAll(s, Bearer) == s
    decreases |s|
  {
    if s != [] {
      SpacelessIsNotBearer(s);
      assert NoSpace(s[1..]) by {
        assert forall i :: 0 <= i < |s| - 1 ==> s[1..][i] == s[i + 1];
      }
      RemoveAllKeepsSpaceless(s[1..]);
      assert [s[0]] + s[1..] == s;
    }
  }

  /** A token as `token_urlsafe` makes it (no spaces) is read back both
      from "Bearer <token>" and from the bare token. */
  lemma BearerTokenRecovered(token: string)
    requires NoSpace(token)
    ensures TokenOf(Bearer + token) == token
    ensures TokenOf(token) == token
  {
    var h := Bearer + token;
    assert StartsWith(h, Bearer) by {
      assert h[..|Bearer|] == Bearer;
    }
    assert h[|Bearer|..] == token;
    RemoveAllKeepsSpaceless(token);
    SpacelessIsNotBearer(token);
  }

  /** The header is cleaned with a replace-all, not a prefix cut: a later
      "Bearer " inside the header is removed as well. */
  lemma BearerRemovedEverywhere()
    ensures TokenOf("Bearer aBearer b") == "ab"
  {
    var h := "Bearer aBearer b";
    assert StartsWith(h, Bearer) by {
      assert h[..7] == Bearer;
    }
    assert h[7..] == "aBearer b";
    assert "aBearer b"[..7][0] == 'a';
    assert "aBearer b"[1..] == "Bearer b";
    assert StartsWith("Bearer b", Bearer) by {
      assert "Bearer b"[..7] == Bearer;
    }
    assert "Bearer b"[7..] == "b";
    assert !StartsWith("b", Bearer);
    assert "b"[1..] == [];
  }

  /** A token just created is accepted for 24 hours, and rejected once
      its expiry has passed. */
  lemma CreatedTokenLifetime(tokens: map<string, Time>, token: string, created: Time, later: Time)
    requires NoSpace(token) && created <= later
    ensures var after := Live(tokens, created)[token := created + SessionExpireHours * Hour];
      TokenOf(Bearer + token) in after
      && (after[TokenOf(Bearer + token)] >= later <==> later <= created + 24 * 3600)
  {
    BearerTokenRecovered(token);
  }

  /** The token dictionary, which lives for the whole process. */
  class AdminSessions {
    var tokens: map<string, Time>

    constructor ()
      ensures tokens == map[]
    {
      tokens := map[];
    }

    /** `_cleanup_expired_sessions`: every token whose expiry lies before
        `now` is deleted, and nothing else. */
    method CleanupExpired(now: Time)
      modifies this
      ensures tokens == Live(old(tokens), now)
    {
      var expired := set k | k in tokens && tokens[k] < now;
      while expired != {}
        invariant expired <= old(tokens).Keys
        invariant forall k :: k in expired ==> old(tokens)[k] < now
        invariant tokens == map k | k in old(tokens) && (old(tokens)[k] >= now || k in expired) :: old(tokens)[k]
        decreases expired
      {
        var k :| k in expired;
        tokens := tokens - {k};
        expired := expired - {k};
      }
      assert tokens.Keys == Live(old(tokens), now).Keys;
    }

    /** `create_admin_session`: expired tokens are purged and `token`
        (the random `token_urlsafe(32)`) expires 24 hours from now. */
    method CreateSession(token: string, now: Time) returns (t: string)
      modifies this
      ensures t == token
      ensures tokens == Live(old(tokens), now)[token := now + SessionExpireHours * Hour]
    {
      CleanupExpired(now);
      tokens := tokens[token := now + SessionExpireHours * Hour];
      t := token;
    }

    /** `verify_admin_token`: a missing or empty header, an unknown
        token and an expired token are all refused with 401; an expired
        token is deleted as it is refused. */
    method VerifyToken(authorization: Option<string>, now: Time) returns (status: Status)
      modifies this
      ensures authorization.None? || authorization.value == [] ==>
                status == Unauthorized && tokens == old(tokens)
      ensures authorization.Some? && authorization.value != [] ==>
        var t := TokenOf(authorization.value);
        (t !in old(tokens) ==> status == Unauthorized && tokens == old(tokens))
        && (t in old(tokens) && old(tokens)[t] < now ==> status == Unauthorized && tokens == old(tokens) - {t})
        && (t in old(tokens) && old(tokens)[t] >= now ==> status == Ok && tokens == old(tokens))
    {
      if authorization.None? || authorization.value == [] {
        return Unauthorized;
      }
      var t := TokenOf(authorization.value);
      if t !in tokens {
        return Unauthorized;
      }
      if tokens[t] < now {
        tokens := tokens - {t};
        return Unauthorized;
      }
      status := Ok;
    }
  }

  // ---------------------------------------------------------------
  // remove_group_admin

  /** `remove_group_admin`: refused with 400 while the group has at most
      one admin, whoever is named; otherwise 404 for a user who is not an
      admin, and the binding is deleted for one who is. */
  method RemoveGroupAdmin(db: Database, groupId: Id, userId: Id) returns (status: Status)
    modifies db`admins
    ensures |GroupAdmins(old(db.admins), groupId)| <= 1 ==> status == BadRequest && db.admins == old(db.admins)
    ensures |GroupAdmins(old(db.admins), groupId)| > 1 ==>
      (status == Ok || status == NotFound)
      && (status == NotFound <==> !IsAdmin(old(db.admins), groupId, userId))
      && (status == NotFound ==> db.admins == old(db.admins))
      && (status == Ok ==> db.admins == RemoveAdminRows(old(db.admins), groupId, userId))
  {
    if |GroupAdmins(db.admins, groupId)| <= 1 {
      return BadRequest;
    }
    var removed := RemoveAdmin(db, groupId, userId);
    status := if removed then Ok else NotFound;
  }

  // ---------------------------------------------------------------
  // review_application

  function ApplicationById(apps: seq<Application>, id: Id): Option<Application> {
    First(apps, (a: Application) => a.id == id)
  }

  /** The application table with the row of that key replaced. */
  function ReplaceApplication(apps: seq<Application>, id: Id, a: Application): (r: seq<Application>)
    ensures |r| == |apps|
    ensures forall i :: 0 <= i < |r| ==> r[i] == (if apps[i].id == id then a else apps[i])
  {
    seq(|apps|, i requires 0 <= i < |apps| => if apps[i].id == id then a else apps[i])
  }

  function Reviewed(a: Application, status: ApplicationStatus, note: Option<string>, now: Time): Application {
    a.(status := status, reviewedAt := Some(now), reviewNote := note)
  }

  /** An existing group after approval: active, with the application's
      name and code. */
  function Approved(g: Group, a: Application): Group {
    g.(status := GroupActive, name := a.groupName, groupCode := a.groupCode)
  }

  /** The group created by an approval. */
  function GroupFor(a: Application, id: Id): Group {
    Group(id, a.lineGroupId, a.groupName, None, a.groupCode, GroupActive)
  }

  /** The group table after approving `a`. */
  function ApprovedGroups(groups: seq<Group>, a: Application, freshId: Id): seq<Group> {
    var g := GroupByLineId(groups, a.lineGroupId);
    if g.None? then groups + [GroupFor(a, freshId)]
    else ReplaceGroup(groups, g.value.id, Approved(g.value, a))
  }

  /** After approval the LINE group is found active, named and coded as
      the application says, whether it existed before or not. */
  lemma ApprovalActivatesGroup(groups: seq<Group>, a: Application, freshId: Id)
    ensures var g := GroupByLineId(ApprovedGroups(groups, a, freshId), a.lineGroupId);
      g.Some? && g.value.status == GroupActive && g.value.name == a.groupName && g.value.groupCode == a.groupCode
  {
    var old_ := GroupByLineId(groups, a.lineGroupId);
    if old_.Some? {
      ReplaceKeepsLineLookup(groups, a.lineGroupId, Approved(old_.value, a));
    } else {
      var r := groups + [GroupFor(a, freshId)];
      assert r[|groups|].lineGroupId == a.lineGroupId;
      var found := GroupByLineId(r, a.lineGroupId);
      var m :| 0 <= m < |r| && r[m] == found.value && r[m].lineGroupId == a.lineGroupId;
      if m < |groups| {
        assert false;
      }
    }
  }

  /** `review_application`: 404 for an unknown application; otherwise its
      status, review time and note are recorded and, on approval, the
      LINE group is created or updated as active with the application's
      name and code. */
  method ReviewApplication(db: Database, appId: Id, status: ApplicationStatus, note: Option<string>, now: Time)
    returns (r: Status)
    modifies db`applications, db`groups, db`nextId
    ensures r == NotFound <==> ApplicationById(old(db.applications), appId).None?
    ensures r == NotFound ==>
              db.applications == old(db.applications) && db.groups == old(db.groups) && db.nextId == old(db.nextId)
    ensures r != NotFound ==>
      r == Ok
      && var a := ApplicationById(old(db.applications), appId).value;
      db.applications == ReplaceApplication(old(db.applications), appId, Reviewed(a, status, note, now))
      && (status != AppApproved ==> db.groups == old(db.groups) && db.nextId == old(db.nextId))
      && (status == AppApproved ==>
            db.groups == ApprovedGroups(old(db.groups), a, old(db.nextId))
            && db.nextId == (if GroupByLineId(old(db.groups), a.lineGroupId).None? then old(db.nextId) + 1 else old(db.nextId)))
  {
    var found := ApplicationById(db.applications, appId);
    if found.None? {
      return NotFound;
    }
    var a := found.value;
    db.applications := ReplaceApplication(db.applications, appId, Reviewed(a, status, note, now));
    if status == AppApproved {
      var g := GroupByLineId(db.groups, a.lineGroupId);
      if g.None? {
        var id := db.FreshId();
        db.groups := db.groups + [GroupFor(a, id)];
      } else {
        db.groups := ReplaceGroup(db.groups, g.value.id, Approved(g.value, a));
      }
    }
    r := Ok;
  }

  // ---------------------------------------------------------------
  // create_proxy_order / update_proxy_order

  datatype ProxyItem = ProxyItem(name: string, quantity: int, note: Option<string>)

  /** The price of the first menu row of the store whose name equals or
      contains the requested name; 0 when none does. */
  function ProxyPrice(rows: seq<LineRouting.PricedItem>, name: string): int
    decreases |rows|
  {
    if rows == [] then 0
    else if rows[0].name == name || Contains(rows[0].name, name) then rows[0].price
    else ProxyPrice(rows[1..], name)
  }

  /** The price is taken from a row that matches, and from the first one;
      0 comes back only from a matching zero-priced row or from no match. */
  lemma ProxyPriceFacts(rows: seq<LineRouting.PricedItem>, name: string)
    ensures (forall i :: 0 <= i < |rows| ==> !Contains(rows[i].name, name)) ==> ProxyPrice(rows, name) == 0
    ensures forall k :: 0 <= k < |rows| && Contains(rows[k].name, name)
                        && (forall i :: 0 <= i < k ==> !Contains(rows[i].name, name))
                        ==> ProxyPrice(rows, name) == rows[k].price
  {
    if forall i :: 0 <= i < |rows| ==> !Contains(rows[i].name, name) {
      ProxyPriceNoMatch(rows, name);
    }
    forall k | 0 <= k < |rows| && Contains(rows[k].name, name) && (forall i :: 0 <= i < k ==> !Contains(rows[i].name, name))
      ensures ProxyPrice(rows, name) == rows[k].price
    {
      ProxyPriceFirstMatch(rows, name, k);
    }
  }

  lemma {:induction false} ProxyPriceNoMatch(rows: seq<LineRouting.PricedItem>, name: string)
    requires forall i :: 0 <= i < |rows| ==> !Contains(rows[i].name, name)
    ensures ProxyPrice(rows, name) == 0
    decreases |rows|
  {
    if rows != [] {
      ContainsSelf(name);
      assert !Contains(rows[0].name, name);
      assert rows[0].name != name;
      assert forall i :: 0 <= i < |rows| - 1 ==> rows[1..][i] == rows[i + 1];
      ProxyPriceNoMatch(rows[1..], name);
    }
  }

  lemma {:induction false} ProxyPriceFirstMatch(rows: seq<LineRouting.PricedItem>, name: string, k: int)
    requires 0 <= k < |rows| && Contains(rows[k].name, name)
    requires forall i :: 0 <= i < k ==> !Contains(rows[i].name, name)
    ensures ProxyPrice(rows, name) == rows[k].price
    decreases k
  {
    if k > 0 {
      ContainsSelf(name);
      assert !Contains(rows[0].name, name);
      assert rows[0].name != name;
      assert rows[1..][k - 1] == rows[k];
      assert forall i :: 0 <= i < k - 1 ==> rows[1..][i] == rows[i + 1];
      ProxyPriceFirstMatch(rows[1..], name, k - 1);
    }
  }

  /** The priced lines of a proxy order, or the first name with no price. */
  datatype Pricing = AllPriced(items: seq<OrderService.NewItem>) | Unpriced(name: string)

  function NoteOf(note: Option<string>): string {
    if note.Some? then note.value else ""
  }

  function PricedLine(it: ProxyItem, price: int): OrderService.NewItem {
    OrderService.NewItem(it.name, Some(it.quantity), price, NoteOf(it.note))
  }

  function PriceItems(rows: seq<LineRouting.PricedItem>, items: seq<ProxyItem>): Pricing
    decreases |items|
  {
    if items == [] then AllPriced([])
    else
      var price := ProxyPrice(rows, items[0].name);
      if price == 0 then Unpriced(items[0].name)
      else
        var rest := PriceItems(rows, items[1..]);
        if rest.Unpriced? then rest else AllPriced([PricedLine(items[0], price)] + rest.items)
  }

  /** Every line is priced from the menu and none is free, or the first
      item whose lookup gives 0 is named. */
  lemma {:induction false} PriceItemsFacts(rows: seq<LineRouting.PricedItem>, items: seq<ProxyItem>)
    ensures var p := PriceItems(rows, items);
      (p.AllPriced? ==>
         |p.items| == |items|
         && forall i :: 0 <= i < |items| ==>
              p.items[i] == PricedLine(items[i], ProxyPrice(rows, items[i].name)) && p.items[i].unitPrice != 0)
      && (p.Unpriced? ==>
            exists k :: 0 <= k < |items| && items[k].name == p.name && ProxyPrice(rows, items[k].name) == 0
                        && forall i :: 0 <= i < k ==> ProxyPrice(rows, items[i].name) != 0)
    decreases |items|
  {
    if items != [] {
      PriceItemsFacts(rows, items[1..]);
      var p := PriceItems(rows, items);
      var rest := PriceItems(rows, items[1..]);
      assert forall i :: 0 <= i < |items| - 1 ==> items[1..][i] == items[i + 1];
      if ProxyPrice(rows, items[0].name) != 0 && rest.Unpriced? {
        var k :| 0 <= k < |items| - 1 && items[1..][k].name == rest.name && ProxyPrice(rows, items[1..][k].name) == 0
                 && forall i :: 0 <= i < k ==> ProxyPrice(rows, items[1..][i].name) != 0;
        assert items[k + 1].name == p.name;
      }
      if ProxyPrice(rows, items[0].name) == 0 {
        assert items[0].name == p.name;
      }
    }
  }

  /** The order_update event of a proxy order. */
  function ProxyEvent(groupId: Id, action: string, userId: Id): Broadcast.Event {
    Broadcast.Event(Broadcast.OrderUpdate, IdText(groupId), Broadcast.Payload(action, IdText(userId)))
  }

  /** `create_proxy_order`: 400 without an ordering session, 404 for an
      unknown user, 400 without a today store, 400 when an item finds no
      price in the first today store's menu; otherwise the lines go to the
      user's order in the session, the total is recomputed, and the
      change is committed and broadcast. */
  method CreateProxyOrder(db: Database, bus: Broadcast.EventBus, groupId: Id, userId: Id, items: seq<ProxyItem>,
                          today: Date, failing: set<Broadcast.Event>)
    returns (status: Status, orderId: Option<Id>)
    requires bus.Valid()
    modifies db`orders, db`orderItems, db`nextId, bus`hasQueue, bus`queue, bus`effects
    ensures bus.Valid()
    ensures var active := ActiveSession(old(db.sessions), groupId);
      var stores := TodayStoresOf(db.todayStores, groupId, today);
      (active.None? ==> status == BadRequest)
      && (active.Some? && UserRepo.UserById(db.users, userId).None? ==> status == NotFound)
      && (active.Some? && UserRepo.UserById(db.users, userId).Some? && stores == [] ==> status == BadRequest)
      && (active.Some? && UserRepo.UserById(db.users, userId).Some? && stores != [] ==>
            var priced := PriceItems(LineActions.StoreRows(db.menus, db.categories, db.menuItems, stores[0].storeId), items);
            (priced.Unpriced? ==> status == BadRequest)
            && (priced.AllPriced? ==>
                  var oid := OrderService.TargetOrderId(old(db.orders), active.value.id, userId, old(db.nextId));
                  var firstItem := if OrderOf(old(db.orders), active.value.id, userId).Some? then old(db.nextId)
                                   else old(db.nextId) + 1;
                  status == Ok && orderId == Some(oid)
                  && db.orderItems == old(db.orderItems) + OrderService.ItemRows(priced.items, oid, firstItem)
                  && db.orders == SetTotalRows(OrderService.WithOrder(old(db.orders), active.value.id, userId,
                                                                      stores[0].storeId, old(db.nextId)),
                                               oid, ItemsTotal(db.orderItems, oid))
                  && db.nextId == firstItem + |priced.items|
                  && OrderOf(db.orders, active.value.id, userId).Some?
                  && OrderOf(db.orders, active.value.id, userId).value.id == oid
                  && OrderById(db.orders, oid).Some?
                  && OrderById(db.orders, oid).value.totalAmount
                     == ItemsTotal(old(db.orderItems), oid) + OrderService.RequestedTotal(priced.items)
                  && bus.effects == old(bus.effects) + [Broadcast.Effect.Commit]
                     + Broadcast.Dispatches(old(bus.queue) + [ProxyEvent(groupId, "created", userId)],
                                            bus.broadcasters, failing)))
    ensures status != Ok ==>
              orderId.None? && db.orders == old(db.orders) && db.orderItems == old(db.orderItems)
              && db.nextId == old(db.nextId) && bus.queue == old(bus.queue) && bus.effects == old(bus.effects)
  {
    orderId := None;
    var active := ActiveSession(db.sessions, groupId);
    if active.None? {
      return BadRequest, None;
    }
    if UserRepo.UserById(db.users, userId).None? {
      return NotFound, None;
    }
    var stores := TodayStoresOf(db.todayStores, groupId, today);
    if stores == [] {
      return BadRequest, None;
    }
    var priced := PriceItems(LineActions.StoreRows(db.menus, db.categories, db.menuItems, stores[0].storeId), items);
    if priced.Unpriced? {
      return BadRequest, None;
    }
    var oid := PlaceProxyOrder(db, bus, groupId, active.value.id, userId, stores[0].storeId, priced.items, failing);
    status, orderId := Ok, Some(oid);
  }

  /** The writes of `create_proxy_order` once every check has passed. */
  method PlaceProxyOrder(db: Database, bus: Broadcast.EventBus, groupId: Id, sessionId: Id, userId: Id, storeId: Id,
                         items: seq<OrderService.NewItem>, failing: set<Broadcast.Event>)
    returns (oid: Id)
    requires bus.Valid()
    modifies db`orders, db`orderItems, db`nextId, bus`hasQueue, bus`queue, bus`effects
    ensures bus.Valid()
    ensures oid == OrderService.TargetOrderId(old(db.orders), sessionId, userId, old(db.nextId))
    ensures var firstItem := if OrderOf(old(db.orders), sessionId, userId).Some? then old(db.nextId) else old(db.nextId) + 1;
      db.orderItems == old(db.orderItems) + OrderService.ItemRows(items, oid, firstItem)
      && db.orders == SetTotalRows(OrderService.WithOrder(old(db.orders), sessionId, userId, storeId, old(db.nextId)),
                                   oid, ItemsTotal(db.orderItems, oid))
      && db.nextId == firstItem + |items|
    ensures OrderOf(db.orders, sessionId, userId).Some? && OrderOf(db.orders, sessionId, userId).value.id == oid
    ensures OrderById(db.orders, oid).Some?
    ensures OrderById(db.orders, oid).value.totalAmount == ItemsTotal(old(db.orderItems), oid) + OrderService.RequestedTotal(items)
    ensures bus.effects == old(bus.effects) + [Broadcast.Effect.Commit]
              + Broadcast.Dispatches(old(bus.queue) + [ProxyEvent(groupId, "created", userId)], bus.broadcasters, failing)
  {
    var order := OrderService.CreateOrder(db, sessionId, userId, storeId, items);
    AnnounceProxy(bus, groupId, "created", userId, failing);
    oid := order.id;
  }

  /** The commit of a proxy write and the order update it broadcasts. */
  method AnnounceProxy(bus: Broadcast.EventBus, groupId: Id, action: string, userId: Id, failing: set<Broadcast.Event>)
    requires bus.Valid()
    modifies bus`hasQueue, bus`queue, bus`effects
    ensures bus.Valid()
    ensures bus.effects == old(bus.effects) + [Broadcast.Effect.Commit]
              + Broadcast.Dispatches(old(bus.queue) + [ProxyEvent(groupId, action, userId)], bus.broadcasters, failing)
  {
    bus.EmitOrderUpdate(IdText(groupId), Broadcast.Payload(action, IdText(userId)));
    bus.CommitAndNotify(failing);
  }

  /** `update_proxy_order`: 404 for an unknown order, 400 without a
      today store or when an item finds no price; otherwise every line of
      the order is replaced by the new ones and the total recomputed. The
      order is not checked against the group of the request. */
  method UpdateProxyOrder(db: Database, bus: Broadcast.EventBus, groupId: Id, orderId: Id, items: seq<ProxyItem>,
                          today: Date, failing: set<Broadcast.Event>)
    returns (status: Status)
    requires bus.Valid()
    modifies db`orders, db`orderItems, db`nextId, bus`hasQueue, bus`queue, bus`effects
    ensures bus.Valid()
    ensures var order := OrderById(old(db.orders), orderId);
      var stores := TodayStoresOf(db.todayStores, groupId, today);
      (order.None? ==> status == NotFound)
      && (order.Some? && stores == [] ==> status == BadRequest)
      && (order.Some? && stores != [] ==>
            var priced := PriceItems(LineActions.StoreRows(db.menus, db.categories, db.menuItems, stores[0].storeId), items);
            (priced.Unpriced? ==> status == BadRequest)
            && (priced.AllPriced? ==>
                  status == Ok
                  && db.orderItems == OrderService.DropItemsOf(old(db.orderItems), orderId)
                                      + OrderService.ItemRows(priced.items, orderId, old(db.nextId))
                  && db.orders == SetTotalRows(old(db.orders), orderId, ItemsTotal(db.orderItems, orderId))
                  && db.nextId == old(db.nextId) + |priced.items|
                  && OrderById(db.orders, orderId).Some?
                  && OrderById(db.orders, orderId).value.totalAmount == OrderService.RequestedTotal(priced.items)
                  && bus.effects == old(bus.effects) + [Broadcast.Effect.Commit]
                     + Broadcast.Dispatches(old(bus.queue) + [ProxyEvent(groupId, "updated", order.value.userId)],
                                            bus.broadcasters, failing)))
    ensures status != Ok ==>
              db.orders == old(db.orders) && db.orderItems == old(db.orderItems)
              && db.nextId == old(db.nextId) && bus.queue == old(bus.queue) && bus.effects == old(bus.effects)
  {
    var order := OrderById(db.orders, orderId);
    if order.None? {
      return NotFound;
    }
    var stores := TodayStoresOf(db.todayStores, groupId, today);
    if stores == [] {
      return BadRequest;
    }
    var priced := PriceItems(LineActions.StoreRows(db.menus, db.categories, db.menuItems, stores[0].storeId), items);
    if priced.Unpriced? {
      return BadRequest;
    }
    ReplaceProxyLines(db, bus, groupId, orderId, order.value.userId, priced.items, failing);
    status := Ok;
  }

  /** The writes of `update_proxy_order` once every check has passed. */
  method ReplaceProxyLines(db: Database, bus: Broadcast.EventBus, groupId: Id, orderId: Id, userId: Id,
                           items: seq<OrderService.NewItem>, failing: set<Broadcast.Event>)
    requires bus.Valid()
    requires OrderById(db.orders, orderId).Some?
    modifies db`orders, db`orderItems, db`nextId, bus`hasQueue, bus`queue, bus`effects
    ensures bus.Valid()
    ensures db.orderItems == OrderService.DropItemsOf(old(db.orderItems), orderId)
                             + OrderService.ItemRows(items, orderId, old(db.nextId))
    ensures db.orders == SetTotalRows(old(db.orders), orderId, ItemsTotal(db.orderItems, orderId))
    ensures db.nextId == old(db.nextId) + |items|
    ensures OrderById(db.orders, orderId).Some?
    ensures OrderById(db.orders, orderId).value.totalAmount == OrderService.RequestedTotal(items)
    ensures bus.effects == old(bus.effects) + [Broadcast.Effect.Commit]
              + Broadcast.Dispatches(old(bus.queue) + [ProxyEvent(groupId, "updated", userId)], bus.broadcasters, failing)
  {
    var updated := OrderService.UpdateOrder(db, orderId, items);
    AnnounceProxy(bus, groupId, "updated", userId, failing);
  }

  // ---------------------------------------------------------------
  // cleanup_chat_messages / get_security_logs

  const MinRetentionDays: int := 30
  const MaxLogPage: nat := 100

  /** `cleanup_chat_messages`: a retention shorter than 30 days is
      refused and nothing is deleted; otherwise the old messages go. */
  method CleanupChat(db: Database, retentionDays: int, now: Time) returns (status: Status, deleted: nat)
    modifies db`chatMessages
    ensures retentionDays < MinRetentionDays <==> status == BadRequest
    ensures status == BadRequest ==> deleted == 0 && db.chatMessages == old(db.chatMessages)
    ensures status != BadRequest ==>
              status == Ok
              && deleted == ChatRepo.CountOld(old(db.chatMessages), now, retentionDays)
              && db.chatMessages == ChatRepo.RecentMessages(old(db.chatMessages), ChatRepo.Cutoff(now, retentionDays))
  {
    if retentionDays < MinRetentionDays {
      return BadRequest, 0;
    }
    deleted := ChatRepo.CleanupOldMessages(db, now, retentionDays);
    status := Ok;
  }

  /** The page `get_security_logs` lists: at most 100 logs, whatever
      limit is asked for, newest first. */
  function SecurityLogPage(logs: seq<SecurityLog>, limit: nat, offset: nat, lineUserId: Option<string>,
                           lineGroupId: Option<string>): (r: seq<SecurityLog>)
    ensures |r| <= MaxLogPage && |r| <= limit
    ensures forall i :: 0 <= i < |r| ==> r[i] in logs && SystemRepo.LogMatches(r[i], lineUserId, lineGroupId)
    ensures forall i :: 0 <= i < |r| - 1 ==> r[i].createdAt >= r[i + 1].createdAt
  {
    var capped := if limit < MaxLogPage then limit else MaxLogPage;
    SystemRepo.RecentLogsFacts(logs, capped, offset, lineUserId, lineGroupId);
    SystemRepo.RecentLogs(logs, capped, offset, lineUserId, lineGroupId)
  }
}
