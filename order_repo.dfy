// app/repositories/order_repo.py: today's stores of a group, ordering
// sessions, and the per-(session, user) order with its recomputed total.

module OrderRepo {
  import opened Common
  import opened Tables
  import Sorting

  // ---------------------------------------------------------------
  // GroupTodayStoreRepository

  /** `get_today_stores`: the group's rows for that date. */
  function TodayStoresOf(rows: seq<TodayStore>, groupId: Id, date: Date): (r: seq<TodayStore>)
    ensures forall i :: 0 <= i < |r| ==> r[i] in rows && r[i].groupId == groupId && r[i].date == date
    ensures forall i :: 0 <= i < |rows| && rows[i].groupId == groupId && rows[i].date == date ==> rows[i] in r
  {
    Filter(rows, (t: TodayStore) => t.groupId == groupId && t.date == date)
  }

  predicate HasKey(t: TodayStore, groupId: Id, storeId: Id, date: Date) {
    t.groupId == groupId && t.storeId == storeId && t.date == date
  }

  /** The unique constraint on (group, store, date). */
  predicate UniqueTodayKeys(rows: seq<TodayStore>) {
    forall i, j :: 0 <= i < j < |rows| ==>
      !HasKey(rows[j], rows[i].groupId, rows[i].storeId, rows[i].date)
  }

  function FindTodayStore(rows: seq<TodayStore>, groupId: Id, storeId: Id, date: Date): Option<TodayStore> {
    First(rows, (t: TodayStore) => HasKey(t, groupId, storeId, date))
  }

  /** The table after `set_today_store`: unchanged when the key exists,
      otherwise one new row at the end. */
  function SetTodayStoreRows(rows: seq<TodayStore>, groupId: Id, storeId: Id, date: Date, setBy: Option<Id>): seq<TodayStore> {
    if FindTodayStore(rows, groupId, storeId, date).Some? then rows
    else rows + [TodayStore(groupId, storeId, date, setBy)]
  }

  /** `set_today_store` is idempotent: setting the same (group, store,
      date) again adds no row, whoever sets it. */
  lemma SetTodayStoreIdempotent(rows: seq<TodayStore>, groupId: Id, storeId: Id, date: Date, by1: Option<Id>, by2: Option<Id>)
    ensures var once := SetTodayStoreRows(rows, groupId, storeId, date, by1);
      SetTodayStoreRows(once, groupId, storeId, date, by2) == once
      && FindTodayStore(once, groupId, storeId, date).Some?
  {
    var once := SetTodayStoreRows(rows, groupId, storeId, date, by1);
    if FindTodayStore(rows, groupId, storeId, date).None? {
      assert HasKey(once[|once| - 1], groupId, storeId, date);
    }
  }

  /** `set_today_store` keeps the (group, store, date) key unique. */
  lemma SetTodayStoreKeepsUnique(rows: seq<TodayStore>, groupId: Id, storeId: Id, date: Date, setBy: Option<Id>)
    requires UniqueTodayKeys(rows)
    ensures UniqueTodayKeys(SetTodayStoreRows(rows, groupId, storeId, date, setBy))
  {
  }

  method SetTodayStore(db: Database, groupId: Id, storeId: Id, date: Date, setBy: Option<Id>)
    returns (row: TodayStore)
    modifies db`todayStores
    ensures db.todayStores == SetTodayStoreRows(old(db.todayStores), groupId, storeId, date, setBy)
    ensures HasKey(row, groupId, storeId, date) && row in db.todayStores
    ensures FindTodayStore(old(db.todayStores), groupId, storeId, date).Some? ==>
              row == FindTodayStore(old(db.todayStores), groupId, storeId, date).value
  {
    var existing := FindTodayStore(db.todayStores, groupId, storeId, date);
    if existing.Some? {
      row := existing.value;
    } else {
      row := TodayStore(groupId, storeId, date, setBy);
      db.todayStores := db.todayStores + [row];
    }
  }

  /** The table after `clear_today_stores`: every row of other groups or
      other dates, in order. */
  function ClearTodayStoreRows(rows: seq<TodayStore>, groupId: Id, date: Date): (r: seq<TodayStore>)
    ensures forall i :: 0 <= i < |r| ==> r[i] in rows && !(r[i].groupId == groupId && r[i].date == date)
    ensures forall i :: 0 <= i < |rows| && !(rows[i].groupId == groupId && rows[i].date == date) ==> rows[i] in r
  {
    Filter(rows, (t: TodayStore) => !(t.groupId == groupId && t.date == date))
  }

  /** After clearing, the group has no store for that date, and every
      other group's and date's rows are still there. */
  lemma ClearedGroupHasNoStores(rows: seq<TodayStore>, groupId: Id, date: Date)
    ensures TodayStoresOf(ClearTodayStoreRows(rows, groupId, date), groupId, date) == []
  {
    var c := ClearTodayStoreRows(rows, groupId, date);
    FilterKeepsNone(c, (t: TodayStore) => t.groupId == groupId && t.date == date);
  }

  /** `clear_today_stores`: deletes the group's rows for the date one by one. */
  method ClearTodayStores(db: Database, groupId: Id, date: Date)
    modifies db`todayStores
    ensures db.todayStores == ClearTodayStoreRows(old(db.todayStores), groupId, date)
  {
    var rows := db.todayStores;
    var kept: seq<TodayStore> := [];
    var i := 0;
    while i < |rows|
      invariant 0 <= i <= |rows|
      invariant kept == Filter(rows[..i], (t: TodayStore) => !(t.groupId == groupId && t.date == date))
    {
      assert rows[..i + 1][..i] == rows[..i];
      if !(rows[i].groupId == groupId && rows[i].date == date) {
        kept := kept + [rows[i]];
      }
      i := i + 1;
    }
    assert rows[..i] == rows;
    db.todayStores := kept;
  }

  /** The table after `remove_today_store`. */
  function RemoveTodayStoreRows(rows: seq<TodayStore>, groupId: Id, storeId: Id, date: Date): (r: seq<TodayStore>)
    ensures FindTodayStore(r, groupId, storeId, date).None?
    ensures forall i :: 0 <= i < |rows| && !HasKey(rows[i], groupId, storeId, date) ==> rows[i] in r
    ensures forall i :: 0 <= i < |r| ==> r[i] in rows
  {
    Filter(rows, (t: TodayStore) => !HasKey(t, groupId, storeId, date))
  }

  /** `remove_today_store`: reports whether the row existed; afterwards
      it is gone. */
  method RemoveTodayStore(db: Database, groupId: Id, storeId: Id, date: Date) returns (removed: bool)
    modifies db`todayStores
    ensures removed <==> FindTodayStore(old(db.todayStores), groupId, storeId, date).Some?
    ensures removed ==> db.todayStores == RemoveTodayStoreRows(old(db.todayStores), groupId, storeId, date)
    ensures !removed ==> db.todayStores == old(db.todayStores)
    ensures FindTodayStore(db.todayStores, groupId, storeId, date).None?
  {
    removed := FindTodayStore(db.todayStores, groupId, storeId, date).Some?;
    if removed {
      db.todayStores := RemoveTodayStoreRows(db.todayStores, groupId, storeId, date);
    }
  }

  // ---------------------------------------------------------------
  // OrderSessionRepository

  predicate IsOrderingIn(s: Session, groupId: Id) {
    s.groupId == groupId && s.status == Ordering
  }

  /** `get_active_session`: the group's session with status "ordering". */
  function ActiveSession(sessions: seq<Session>, groupId: Id): Option<Session> {
    First(sessions, (s: Session) => IsOrderingIn(s, groupId))
  }

  /** What `scalar_one_or_none` relies on: no group has two ordering
      sessions. Nothing in the schema enforces it. */
  predicate AtMostOneOrdering(sessions: seq<Session>) {
    forall i, j :: 0 <= i < j < |sessions| && sessions[i].status == Ordering ==>
      !IsOrderingIn(sessions[j], sessions[i].groupId)
  }

  /** Under the invariant the active session is the only ordering one. */
  lemma ActiveSessionUnique(sessions: seq<Session>, groupId: Id, i: int)
    requires AtMostOneOrdering(sessions)
    requires 0 <= i < |sessions| && IsOrderingIn(sessions[i], groupId)
    ensures ActiveSession(sessions, groupId) == Some(sessions[i])
  {
    var a := ActiveSession(sessions, groupId);
    var k :| 0 <= k < |sessions| && sessions[k] == a.value && IsOrderingIn(sessions[k], groupId)
             && forall m :: 0 <= m < k ==> !IsOrderingIn(sessions[m], groupId);
    assert k == i;
  }

  function StartSessionRows(sessions: seq<Session>, id: Id, groupId: Id, startedBy: Option<Id>, now: Time): seq<Session> {
    sessions + [Session(id, groupId, Ordering, startedBy, None, None, now)]
  }

  /** Opening a session keeps at most one ordering session per group
      exactly when the group had none open. */
  lemma StartSessionKeepsInvariant(sessions: seq<Session>, id: Id, groupId: Id, startedBy: Option<Id>, now: Time)
    requires AtMostOneOrdering(sessions)
    requires ActiveSession(sessions, groupId).None?
    ensures AtMostOneOrdering(StartSessionRows(sessions, id, groupId, startedBy, now))
    ensures ActiveSession(StartSessionRows(sessions, id, groupId, startedBy, now), groupId)
            == Some(Session(id, groupId, Ordering, startedBy, None, None, now))
  {
    var r := StartSessionRows(sessions, id, groupId, startedBy, now);
    ActiveSessionUnique(r, groupId, |r| - 1);
  }

  /** `start_session`: a new session with the default status "ordering". */
  method StartSession(db: Database, groupId: Id, startedBy: Option<Id>, now: Time) returns (s: Session)
    modifies db`sessions, db`nextId
    ensures s == Session(old(db.nextId), groupId, Ordering, startedBy, None, None, now)
    ensures db.sessions == StartSessionRows(old(db.sessions), s.id, groupId, startedBy, now)
    ensures db.nextId == old(db.nextId) + 1
  {
    var id := db.FreshId();
    s := Session(id, groupId, Ordering, startedBy, None, None, now);
    db.sessions := db.sessions + [s];
  }

  /** The table after `end_session`: that session is "ended" with time
      and closer recorded; every other row is untouched. */
  function EndSessionRows(sessions: seq<Session>, id: Id, endedBy: Option<Id>, now: Time): (r: seq<Session>)
    ensures |r| == |sessions|
    ensures forall i :: 0 <= i < |r| ==>
      r[i] == (if sessions[i].id == id then sessions[i].(status := Ended, endedAt := Some(now), endedBy := endedBy)
               else sessions[i])
  {
    seq(|sessions|, i requires 0 <= i < |sessions| =>
      if sessions[i].id == id then sessions[i].(status := Ended, endedAt := Some(now), endedBy := endedBy)
      else sessions[i])
  }

  /** Ending sessions never breaks the invariant and leaves the group of
      the ended session with no ordering session. */
  lemma EndSessionKeepsInvariant(sessions: seq<Session>, s: Session, endedBy: Option<Id>, now: Time)
    requires AtMostOneOrdering(sessions)
    requires ActiveSession(sessions, s.groupId) == Some(s)
    requires forall i :: 0 <= i < |sessions| && sessions[i].id == s.id ==> sessions[i] == s
    ensures AtMostOneOrdering(EndSessionRows(sessions, s.id, endedBy, now))
    ensures ActiveSession(EndSessionRows(sessions, s.id, endedBy, now), s.groupId).None?
  {
    var r := EndSessionRows(sessions, s.id, endedBy, now);
    forall i | 0 <= i < |r| ensures !IsOrderingIn(r[i], s.groupId) {
    }
  }

  /** `end_session`. */
  method EndSession(db: Database, sessionId: Id, endedBy: Option<Id>, now: Time)
    modifies db`sessions
    ensures db.sessions == EndSessionRows(old(db.sessions), sessionId, endedBy, now)
  {
    db.sessions := EndSessionRows(db.sessions, sessionId, endedBy, now);
  }

  predicate InWindow(s: Session, groupId: Id, startAt: Option<Time>, endBefore: Option<Time>) {
    s.groupId == groupId
    && (startAt.Some? ==> s.createdAt >= startAt.value)
    && (endBefore.Some? ==> s.createdAt < endBefore.value)
  }

  function CreatedAt(s: Session): int { s.createdAt }

  /** `get_group_sessions`: the group's sessions created in the window,
      newest first; the day bounds arrive already converted to instants. */
  function GroupSessions(sessions: seq<Session>, groupId: Id, startAt: Option<Time>, endBefore: Option<Time>): seq<Session> {
    Sorting.SortDesc(Filter(sessions, (s: Session) => InWindow(s, groupId, startAt, endBefore)), CreatedAt)
  }

  /** The history holds exactly the group's sessions in the window, each
      once, newest first. */
  lemma GroupSessionsNewestFirst(sessions: seq<Session>, groupId: Id, startAt: Option<Time>, endBefore: Option<Time>)
    ensures var r := GroupSessions(sessions, groupId, startAt, endBefore);
      (forall i, j :: 0 <= i <= j < |r| ==> r[i].createdAt >= r[j].createdAt)
      && multiset(r) == multiset(Filter(sessions, (s: Session) => InWindow(s, groupId, startAt, endBefore)))
      && (forall i :: 0 <= i < |r| ==> InWindow(r[i], groupId, startAt, endBefore))
  {
    var f := Filter(sessions, (s: Session) => InWindow(s, groupId, startAt, endBefore));
    var r := GroupSessions(sessions, groupId, startAt, endBefore);
    Sorting.SortDescCorrect(f, CreatedAt);
    forall i, j | 0 <= i <= j < |r| ensures r[i].createdAt >= r[j].createdAt {
      Sorting.SortedDescPairwise(r, CreatedAt, i, j);
    }
    forall i | 0 <= i < |r| ensures InWindow(r[i], groupId, startAt, endBefore) {
      assert r[i] in multiset(f);
    }
  }

  // ---------------------------------------------------------------
  // OrderRepository

  /** `get_by_id` on the sessions table. */
  function SessionById(sessions: seq<Session>, id: Id): Option<Session> {
    First(sessions, (s: Session) => s.id == id)
  }

  /** `get_by_id` on the orders table. */
  function OrderById(orders: seq<Order>, id: Id): Option<Order> {
    First(orders, (o: Order) => o.id == id)
  }

  predicate IsOrderOf(o: Order, sessionId: Id, userId: Id) {
    o.sessionId == sessionId && o.userId == userId
  }

  /** `get_by_session_and_user`. */
  function OrderOf(orders: seq<Order>, sessionId: Id, userId: Id): Option<Order> {
    First(orders, (o: Order) => IsOrderOf(o, sessionId, userId))
  }

  /** What `scalar_one_or_none` relies on: one order per (session, user). */
  predicate OneOrderPerUser(orders: seq<Order>) {
    forall i, j :: 0 <= i < j < |orders| ==> !IsOrderOf(orders[j], orders[i].sessionId, orders[i].userId)
  }

  function Subtotal(it: OrderItem): int { it.subtotal }

  function Subtotals(items: seq<OrderItem>): (r: seq<int>)
    ensures |r| == |items| && forall i :: 0 <= i < |items| ==> r[i] == items[i].subtotal
  {
    seq(|items|, i requires 0 <= i < |items| => items[i].subtotal)
  }

  /** The order's item rows, in insertion order. */
  function ItemsOf(items: seq<OrderItem>, orderId: Id): (r: seq<OrderItem>)
    ensures forall i :: 0 <= i < |r| ==> r[i] in items && r[i].orderId == orderId
    ensures forall i :: 0 <= i < |items| && items[i].orderId == orderId ==> items[i] in r
  {
    Filter(items, (it: OrderItem) => it.orderId == orderId)
  }

  /** `coalesce(sum(subtotal), 0)` over the order's items. */
  function ItemsTotal(items: seq<OrderItem>, orderId: Id): int {
    Sum(Subtotals(ItemsOf(items, orderId)))
  }

  lemma NoItemsZeroTotal(items: seq<OrderItem>, orderId: Id)
    requires forall i :: 0 <= i < |items| ==> items[i].orderId != orderId
    ensures ItemsTotal(items, orderId) == 0
  {
    FilterKeepsNone(items, (it: OrderItem) => it.orderId == orderId);
  }

  /** Adding one item row to an order adds its subtotal to the order's
      sum and leaves every other order's sum alone. */
  lemma {:induction false} ItemsTotalAppend(items: seq<OrderItem>, it: OrderItem, orderId: Id)
    ensures ItemsTotal(items + [it], orderId)
            == ItemsTotal(items, orderId) + (if it.orderId == orderId then it.subtotal else 0)
  {
    var s := items + [it];
    assert s[..|s| - 1] == items;
    var a := ItemsOf(items, orderId);
    var b := if it.orderId == orderId then [it] else [];
    assert ItemsOf(s, orderId) == a + b;
    assert Subtotals(a + b) == Subtotals(a) + Subtotals(b);
    SumAppend(Subtotals(a), Subtotals(b));
  }

  /** The order table with one order's total replaced. */
  function SetTotalRows(orders: seq<Order>, orderId: Id, total: int): (r: seq<Order>)
    ensures |r| == |orders|
    ensures forall i :: 0 <= i < |r| ==>
      r[i] == (if orders[i].id == orderId then orders[i].(totalAmount := total) else orders[i])
  {
    seq(|orders|, i requires 0 <= i < |orders| =>
      if orders[i].id == orderId then orders[i].(totalAmount := total) else orders[i])
  }

  /** `calculate_total`: the order's total becomes the sum of its item
      subtotals, 0 with no items. */
  method CalculateTotal(db: Database, orderId: Id)
    modifies db`orders
    ensures db.orders == SetTotalRows(old(db.orders), orderId, ItemsTotal(db.orderItems, orderId))
  {
    db.orders := SetTotalRows(db.orders, orderId, ItemsTotal(db.orderItems, orderId));
  }
}
