// The stateful handlers of LineService (app/services/line_service.py):
// admin binding, the today-store commands, opening and closing a
// session, the session summary, the security log with its automatic ban,
// pending groups, and leaving and rejoining. Replies are modelled by
// their kind; the Chinese reply text is not.

module LineService {
  import opened Common
  import opened Tables
  import opened OrderRepo
  import opened GroupRepo
  import UserRepo
  import SystemRepo
  import ChatRepo
  import StoreRepo
  import Sorting
  import Broadcast
  import Cache
  import Sanitizer
  import opened LineRouting
  import AiService
  import LineActions

  // ---------------------------------------------------------------
  // _get_group_code / _get_stores_for_group

  predicate ApprovedFor(a: Application, lineGroupId: string) {
    a.lineGroupId == lineGroupId && a.status == AppApproved
  }

  /** The code of the group's newest approved application. */
  function ApprovedCode(apps: seq<Application>, lineGroupId: string): Option<string> {
    var approved := Sorting.SortDesc(Filter(apps, (a: Application) => ApprovedFor(a, lineGroupId)), AppCreatedAt);
    if approved == [] then None else approved[0].groupCode
  }

  /** The stores a group may use: global and own-code group stores when
      the group has a non-empty approved code, else the global ones. */
  function StoresForGroup(stores: seq<Store>, apps: seq<Application>, group: Group): seq<Store> {
    var code := ApprovedCode(apps, group.lineGroupId);
    if code.Some? && code.value != "" then StoreRepo.StoresForGroupCode(stores, code.value, false)
    else StoreRepo.StoresByScope(stores, GlobalScope, None)
  }

  /** The store_change event a today-store command announces. */
  function StoreChangeEvent(groupId: Id, action: string, storeName: string): Broadcast.Event {
    Broadcast.Event(Broadcast.StoreChange, IdText(groupId), Broadcast.Payload(action, storeName))
  }

  // ---------------------------------------------------------------
  // _bind_admin / _unbind_admin

  datatype BindReply = AlreadyAdmin | WrongCode | Bound

  /** `_bind_admin`: an existing admin is told so; otherwise the code must
      equal the group's non-empty code, and the user becomes an admin. */
  method BindAdmin(db: Database, group: Group, userId: Id, code: string) returns (reply: BindReply)
    modifies db`admins
    ensures reply == AlreadyAdmin <==> IsAdmin(old(db.admins), group.id, userId)
    ensures reply == Bound <==> !IsAdmin(old(db.admins), group.id, userId) && group.groupCode == Some(code) && code != ""
    ensures reply == Bound ==> db.admins == old(db.admins) + [AdminBinding(group.id, userId)]
    ensures reply != Bound ==> db.admins == old(db.admins)
    ensures IsAdmin(db.admins, group.id, userId) <==> reply != WrongCode
  {
    if IsAdmin(db.admins, group.id, userId) {
      return AlreadyAdmin;
    }
    if group.groupCode.None? || group.groupCode.value == "" || group.groupCode.value != code {
      return WrongCode;
    }
    var _ := AddAdmin(db, group.id, userId);
    reply := Bound;
  }

  datatype UnbindReply = NotAdmin | SoleAdmin | Unbound

  /** `_unbind_admin`: refused for a non-admin and for the group's only
      admin; otherwise the binding is deleted. */
  method UnbindAdmin(db: Database, groupId: Id, userId: Id) returns (reply: UnbindReply)
    modifies db`admins
    ensures reply == NotAdmin <==> !IsAdmin(old(db.admins), groupId, userId)
    ensures reply == SoleAdmin <==> IsAdmin(old(db.admins), groupId, userId) && |GroupAdmins(old(db.admins), groupId)| <= 1
    ensures reply == Unbound ==> db.admins == RemoveAdminRows(old(db.admins), groupId, userId)
    ensures reply != Unbound ==> db.admins == old(db.admins)
  {
    if !IsAdmin(db.admins, groupId, userId) {
      return NotAdmin;
    }
    var admins := GroupAdmins(db.admins, groupId);
    if |admins| <= 1 {
      return SoleAdmin;
    }
    var _ := RemoveAdmin(db, groupId, userId);
    reply := Unbound;
  }

  ghost predicate NoRepeats<T>(s: seq<T>) {
    forall i, j :: 0 <= i < j < |s| ==> s[i] != s[j]
  }

  /** A filter of a sequence without repeats has no repeats. */
  lemma {:induction false} FilterUnique<T>(s: seq<T>, p: T -> bool)
    requires NoRepeats(s)
    ensures NoRepeats(Filter(s, p))
    decreases |s|
  {
    if s != [] {
      var init := s[..|s| - 1];
      var x := s[|s| - 1];
      FilterUnique(init, p);
      var f := Filter(init, p);
      var r := Filter(s, p);
      if p(x) {
        assert r == f + [x];
        assert x !in init by {
          forall k | 0 <= k < |init| ensures init[k] != x {
            assert init[k] == s[k];
          }
        }
        assert NoRepeats(f);
        forall i, j | 0 <= i < j < |r| ensures r[i] != r[j] {
          if j == |f| {
            assert r[i] == f[i] && f[i] in init;
          } else {
            assert r[i] == f[i] && r[j] == f[j];
          }
        }
      } else {
        assert r == f;
      }
    }
  }

  /** Unbinding never leaves a group without an admin: it goes ahead only
      when another admin of the group remains. */
  lemma UnbindKeepsAnAdmin(admins: seq<AdminBinding>, groupId: Id, userId: Id)
    requires AdminsUnique(admins)
    requires IsAdmin(admins, groupId, userId) && |GroupAdmins(admins, groupId)| > 1
    ensures |GroupAdmins(RemoveAdminRows(admins, groupId, userId), groupId)| >= 1
  {
    var r := GroupAdmins(admins, groupId);
    FilterUnique(admins, (a: AdminBinding) => a.groupId == groupId);
    assert NoRepeats(r);
    assert r[0] != r[1];
    var b := if r[0] != AdminBinding(groupId, userId) then r[0] else r[1];
    assert b in admins && b.groupId == groupId && b != AdminBinding(groupId, userId);
    var rest := RemoveAdminRows(admins, groupId, userId);
    var i :| 0 <= i < |admins| && admins[i] == b;
    assert b in rest;
    var j :| 0 <= j < |rest| && rest[j] == b;
    assert rest[j] in GroupAdmins(rest, groupId);
  }

  // ---------------------------------------------------------------
  // Today-store commands

  datatype StoreReply =
    | StoreNotFound(name: string)
    | AlreadyToday(storeName: string)
    | StoreAdded(storeName: string)
    | NoTodayStores
    | NotInToday(name: string)
    | StoreRemoved(storeName: string)
    | StoresCleared
    | StoreSet(storeName: string)

  predicate StoreIdIn(rows: seq<TodayStore>, storeId: Id) {
    exists i :: 0 <= i < |rows| && rows[i].storeId == storeId
  }

  /** The add command's look at today's rows decides the same as the
      key lookup of `set_today_store`. */
  lemma TodayCheckIsKeyLookup(rows: seq<TodayStore>, groupId: Id, storeId: Id, date: Date)
    ensures StoreIdIn(TodayStoresOf(rows, groupId, date), storeId) <==> FindTodayStore(rows, groupId, storeId, date).Some?
  {
    var today := TodayStoresOf(rows, groupId, date);
    if FindTodayStore(rows, groupId, storeId, date).Some? {
      var t := FindTodayStore(rows, groupId, storeId, date).value;
      var k :| 0 <= k < |rows| && rows[k] == t && HasKey(rows[k], groupId, storeId, date);
      assert rows[k] in today;
    }
    if StoreIdIn(today, storeId) {
      var i :| 0 <= i < |today| && today[i].storeId == storeId;
      assert today[i] in rows;
      var k :| 0 <= k < |rows| && rows[k] == today[i];
      assert HasKey(rows[k], groupId, storeId, date);
    }
  }

  /** Adding a store that is not yet today's puts it last in the group's
      list for the day and keeps the others. */
  lemma AddedStoreIsLast(rows: seq<TodayStore>, groupId: Id, storeId: Id, date: Date, setBy: Option<Id>)
    requires FindTodayStore(rows, groupId, storeId, date).None?
    ensures TodayStoresOf(SetTodayStoreRows(rows, groupId, storeId, date, setBy), groupId, date)
            == TodayStoresOf(rows, groupId, date) + [TodayStore(groupId, storeId, date, setBy)]
  {
    var row := TodayStore(groupId, storeId, date, setBy);
    var p := (t: TodayStore) => t.groupId == groupId && t.date == date;
    FilterAppend(rows, [row], p);
    assert Filter([row], p) == [row] by {
      assert [row][..0] == [];
    }
  }

  /** Setting by keyword clears the day first, so the group is left with
      exactly the one store. */
  lemma SetLeavesOnlyStore(rows: seq<TodayStore>, groupId: Id, storeId: Id, date: Date, setBy: Option<Id>)
    ensures TodayStoresOf(SetTodayStoreRows(ClearTodayStoreRows(rows, groupId, date), groupId, storeId, date, setBy), groupId, date)
            == [TodayStore(groupId, storeId, date, setBy)]
  {
    var cleared := ClearTodayStoreRows(rows, groupId, date);
    ClearedGroupHasNoStores(rows, groupId, date);
    assert FindTodayStore(cleared, groupId, storeId, date).None?;
    AddedStoreIsLast(cleared, groupId, storeId, date, setBy);
  }

  /** `_add_today_store`: the name must resolve among the group's stores
      and the store must not be today's yet; then it is added, the cache
      entry dropped, the database committed and the change broadcast. */
  method AddTodayStoreCmd<M, S>(db: Database, bus: Broadcast.EventBus, cache: Cache.CacheService<M, S>,
                                group: Group, userId: Id, name: string, today: Date, failing: set<Broadcast.Event>)
    returns (reply: StoreReply)
    requires bus.Valid()
    modifies db`todayStores, bus`hasQueue, bus`queue, bus`effects, cache`todayStores
    ensures bus.Valid()
    ensures var store := FindStoreByName(StoresForGroup(db.stores, db.applications, group), name);
      (store.None? ==> reply == StoreNotFound(name))
      && (store.Some? && StoreIdIn(TodayStoresOf(old(db.todayStores), group.id, today), store.value.id) ==>
            reply == AlreadyToday(store.value.name))
      && (reply.StoreAdded? <==> store.Some? && !StoreIdIn(TodayStoresOf(old(db.todayStores), group.id, today), store.value.id))
      && (reply.StoreAdded? ==>
            reply.storeName == store.value.name
            && db.todayStores == SetTodayStoreRows(old(db.todayStores), group.id, store.value.id, today, Some(userId))
            && cache.todayStores == old(cache.todayStores) - {group.id}
            && bus.queue == []
            && bus.effects == old(bus.effects) + [Broadcast.Effect.Commit]
                              + Broadcast.Dispatches(old(bus.queue) + [StoreChangeEvent(group.id, "add", store.value.name)],
                                                     bus.broadcasters, failing))
      && (!reply.StoreAdded? ==>
            db.todayStores == old(db.todayStores) && cache.todayStores == old(cache.todayStores)
            && bus.queue == old(bus.queue) && bus.effects == old(bus.effects))
  {
    var found := FindStoreByName(StoresForGroup(db.stores, db.applications, group), name);
    if found.None? {
      return StoreNotFound(name);
    }
    var store := found.value;
    var rows := TodayStoresOf(db.todayStores, group.id, today);
    var i := 0;
    while i < |rows|
      invariant 0 <= i <= |rows|
      invariant forall j :: 0 <= j < i ==> rows[j].storeId != store.id
    {
      if rows[i].storeId == store.id {
        return AlreadyToday(store.name);
      }
      i := i + 1;
    }
    var _ := SetTodayStore(db, group.id, store.id, today, Some(userId));
    cache.ClearTodayStores(group.id);
    bus.Commit();
    bus.EmitStoreChange(IdText(group.id), Broadcast.Payload("add", store.name));
    bus.FlushEvents(failing);
    reply := StoreAdded(store.name);
  }

  /** The store a today row refers to, when it still exists. */
  function StoreOfRow(stores: seq<Store>, t: TodayStore): Option<Store> {
    First(stores, (s: Store) => s.id == t.storeId)
  }

  predicate RowNamed(stores: seq<Store>, t: TodayStore, name: string) {
    var s := StoreOfRow(stores, t);
    s.Some? && (s.value.name == name || Contains(s.value.name, name))
  }

  /** The first of today's stores whose name is or contains `name`. */
  function MatchedTodayStore(stores: seq<Store>, rows: seq<TodayStore>, name: string): Option<Store> {
    var hit := First(rows, (t: TodayStore) => RowNamed(stores, t, name));
    if hit.None? then None else StoreOfRow(stores, hit.value)
  }

  /** The remove command finds a store exactly when one of today's rows
      names it, and what it finds is one of today's stores whose name
      contains the text. */
  lemma MatchedTodayStoreFacts(stores: seq<Store>, rows: seq<TodayStore>, name: string)
    ensures var r := MatchedTodayStore(stores, rows, name);
      (r.None? <==> forall i :: 0 <= i < |rows| ==> !RowNamed(stores, rows[i], name))
      && (r.Some? ==> r.value in stores && Contains(r.value.name, name) && StoreIdIn(rows, r.value.id))
  {
    var hit := First(rows, (t: TodayStore) => RowNamed(stores, t, name));
    if hit.Some? {
      var k :| 0 <= k < |rows| && rows[k] == hit.value && RowNamed(stores, rows[k], name);
      var s := StoreOfRow(stores, rows[k]).value;
      if s.name == name {
        ContainsSelf(name);
      }
      var m :| 0 <= m < |stores| && stores[m] == s && s.id == rows[k].storeId;
      assert StoreIdIn(rows, s.id);
    }
  }

  /** The scan of today's rows for the first named store. */
  method FindTodayStoreNamed(stores: seq<Store>, rows: seq<TodayStore>, name: string) returns (r: Option<Store>)
    ensures r == MatchedTodayStore(stores, rows, name)
  {
    var i := 0;
    while i < |rows|
      invariant 0 <= i <= |rows|
      invariant forall j :: 0 <= j < i ==> !RowNamed(stores, rows[j], name)
    {
      var s := StoreOfRow(stores, rows[i]);
      if s.Some? && (s.value.name == name || Contains(s.value.name, name)) {
        FirstAt(rows, (t: TodayStore) => RowNamed(stores, t, name), i);
        return s;
      }
      i := i + 1;
    }
    return None;
  }

  /** `_remove_today_store`: refused with no store today or when no
      today store is named; otherwise that store's row goes. */
  method RemoveTodayStoreCmd<M, S>(db: Database, bus: Broadcast.EventBus, cache: Cache.CacheService<M, S>,
                                   group: Group, name: string, today: Date, failing: set<Broadcast.Event>)
    returns (reply: StoreReply)
    requires bus.Valid()
    modifies db`todayStores, bus`hasQueue, bus`queue, bus`effects, cache`todayStores
    ensures bus.Valid()
    ensures var rows := TodayStoresOf(old(db.todayStores), group.id, today);
      var matched := MatchedTodayStore(db.stores, rows, name);
      (rows == [] ==> reply == NoTodayStores)
      && (rows != [] && matched.None? ==> reply == NotInToday(name))
      && (reply.StoreRemoved? <==> rows != [] && matched.Some?)
      && (reply.StoreRemoved? ==>
            reply.storeName == matched.value.name
            && db.todayStores == RemoveTodayStoreRows(old(db.todayStores), group.id, matched.value.id, today)
            && cache.todayStores == old(cache.todayStores) - {group.id}
            && bus.queue == []
            && bus.effects == old(bus.effects) + [Broadcast.Effect.Commit]
                              + Broadcast.Dispatches(old(bus.queue) + [StoreChangeEvent(group.id, "remove", matched.value.name)],
                                                     bus.broadcasters, failing))
      && (!reply.StoreRemoved? ==>
            db.todayStores == old(db.todayStores) && cache.todayStores == old(cache.todayStores)
            && bus.queue == old(bus.queue) && bus.effects == old(bus.effects))
  {
    var rows := TodayStoresOf(db.todayStores, group.id, today);
    if rows == [] {
      return NoTodayStores;
    }
    var matched := FindTodayStoreNamed(db.stores, rows, name);
    if matched.None? {
      return NotInToday(name);
    }
    MatchedTodayStoreFacts(db.stores, rows, name);
    TodayCheckIsKeyLookup(db.todayStores, group.id, matched.value.id, today);
    DropTodayStore(db, bus, cache, group, matched.value, today, failing);
    reply := StoreRemoved(matched.value.name);
  }

  /** The removal half of `_remove_today_store`, for a store that is one
      of today's. */
  method DropTodayStore<M, S>(db: Database, bus: Broadcast.EventBus, cache: Cache.CacheService<M, S>,
                              group: Group, store: Store, today: Date, failing: set<Broadcast.Event>)
    requires bus.Valid()
    requires FindTodayStore(db.todayStores, group.id, store.id, today).Some?
    modifies db`todayStores, bus`hasQueue, bus`queue, bus`effects, cache`todayStores
    ensures bus.Valid()
    ensures db.todayStores == RemoveTodayStoreRows(old(db.todayStores), group.id, store.id, today)
    ensures cache.todayStores == old(cache.todayStores) - {group.id}
    ensures bus.queue == []
    ensures bus.effects == old(bus.effects) + [Broadcast.Effect.Commit]
                           + Broadcast.Dispatches(old(bus.queue) + [StoreChangeEvent(group.id, "remove", store.name)],
                                                  bus.broadcasters, failing)
  {
    var _ := RemoveTodayStore(db, group.id, store.id, today);
    cache.ClearTodayStores(group.id);
    bus.Commit();
    bus.EmitStoreChange(IdText(group.id), Broadcast.Payload("remove", store.name));
    bus.FlushEvents(failing);
  }

  /** `_clear_today_stores`: refused with no store today; otherwise every
      row of the group for the day goes. */
  method ClearTodayStoresCmd<M, S>(db: Database, bus: Broadcast.EventBus, cache: Cache.CacheService<M, S>,
                                   group: Group, today: Date, failing: set<Broadcast.Event>)
    returns (reply: StoreReply)
    requires bus.Valid()
    modifies db`todayStores, bus`hasQueue, bus`queue, bus`effects, cache`todayStores
    ensures bus.Valid()
    ensures reply == NoTodayStores <==> TodayStoresOf(old(db.todayStores), group.id, today) == []
    ensures reply == NoTodayStores ==>
              db.todayStores == old(db.todayStores) && cache.todayStores == old(cache.todayStores)
              && bus.queue == old(bus.queue) && bus.effects == old(bus.effects)
    ensures reply != NoTodayStores ==>
              reply == StoresCleared
              && db.todayStores == ClearTodayStoreRows(old(db.todayStores), group.id, today)
              && cache.todayStores == old(cache.todayStores) - {group.id}
              && bus.queue == []
              && bus.effects == old(bus.effects) + [Broadcast.Effect.Commit]
                                + Broadcast.Dispatches(old(bus.queue) + [StoreChangeEvent(group.id, "clear", "")],
                                                       bus.broadcasters, failing)
  {
    if TodayStoresOf(db.todayStores, group.id, today) == [] {
      return NoTodayStores;
    }
    ClearTodayStores(db, group.id, today);
    cache.ClearTodayStores(group.id);
    bus.Commit();
    bus.EmitStoreChange(IdText(group.id), Broadcast.Payload("clear", ""));
    bus.FlushEvents(failing);
    reply := StoresCleared;
  }

  /** The single-match branch of `_try_set_store_by_keyword`: the day is
      cleared and the store set. */
  method SetStoreByKeyword<M, S>(db: Database, bus: Broadcast.EventBus, cache: Cache.CacheService<M, S>,
                                 group: Group, userId: Id, store: Store, today: Date, failing: set<Broadcast.Event>)
    returns (reply: StoreReply)
    requires bus.Valid()
    modifies db`todayStores, bus`hasQueue, bus`queue, bus`effects, cache`todayStores
    ensures bus.Valid()
    ensures reply == StoreSet(store.name)
    ensures db.todayStores == SetTodayStoreRows(ClearTodayStoreRows(old(db.todayStores), group.id, today),
                                                group.id, store.id, today, Some(userId))
    ensures cache.todayStores == old(cache.todayStores) - {group.id}
    ensures bus.queue == []
    ensures bus.effects == old(bus.effects) + [Broadcast.Effect.Commit]
                           + Broadcast.Dispatches(old(bus.queue) + [StoreChangeEvent(group.id, "set", store.name)],
                                                  bus.broadcasters, failing)
  {
    ClearTodayStores(db, group.id, today);
    var _ := SetTodayStore(db, group.id, store.id, today, Some(userId));
    cache.ClearTodayStores(group.id);
    bus.Commit();
    bus.EmitStoreChange(IdText(group.id), Broadcast.Payload("set", store.name));
    bus.FlushEvents(failing);
    reply := StoreSet(store.name);
  }

  // ---------------------------------------------------------------
  // _start_ordering / _end_ordering

  /** The session_status event opening or closing announces. */
  function SessionStatusEvent(groupId: Id, status: string, sessionId: Id): Broadcast.Event {
    Broadcast.Event(Broadcast.SessionStatus, IdText(groupId), Broadcast.Payload(status, IdText(sessionId)))
  }

  datatype OpenReply = AlreadyOrdering | NoStoreToday | Opened(sessionId: Id)

  /** `_start_ordering`: refused while the group has an ordering session
      and when no store is set for today; otherwise a session is opened, a
      system message marks its start, and the change is committed and
      broadcast. `notice` is the marker's text. */
  method StartOrderingCmd(db: Database, bus: Broadcast.EventBus, group: Group, userId: Id, notice: string,
                          today: Date, now: Time, failing: set<Broadcast.Event>)
    returns (reply: OpenReply)
    requires bus.Valid()
    modifies db`sessions, db`chatMessages, db`nextId, bus`hasQueue, bus`queue, bus`effects
    ensures bus.Valid()
    ensures reply == AlreadyOrdering <==> ActiveSession(old(db.sessions), group.id).Some?
    ensures reply == NoStoreToday <==>
              ActiveSession(old(db.sessions), group.id).None? && TodayStoresOf(db.todayStores, group.id, today) == []
    ensures !reply.Opened? ==>
              db.sessions == old(db.sessions) && db.chatMessages == old(db.chatMessages) && db.nextId == old(db.nextId)
              && bus.queue == old(bus.queue) && bus.effects == old(bus.effects)
    ensures reply.Opened? ==>
              reply.sessionId == old(db.nextId)
              && db.sessions == StartSessionRows(old(db.sessions), reply.sessionId, group.id, Some(userId), now)
              && db.chatMessages == old(db.chatMessages)
                 + [ChatMessage(reply.sessionId + 1, Some(group.id), None, Some(reply.sessionId), SystemRole, notice, now, today)]
              && ActiveSession(db.sessions, group.id).Some?
              && (AtMostOneOrdering(old(db.sessions)) ==> AtMostOneOrdering(db.sessions))
              && bus.queue == []
              && bus.effects == old(bus.effects) + [Broadcast.Effect.Commit]
                                + Broadcast.Dispatches(old(bus.queue) + [SessionStatusEvent(group.id, "ordering", reply.sessionId)],
                                                       bus.broadcasters, failing)
  {
    if ActiveSession(db.sessions, group.id).Some? {
      return AlreadyOrdering;
    }
    if TodayStoresOf(db.todayStores, group.id, today) == [] {
      return NoStoreToday;
    }
    var id := OpenSession(db, bus, group.id, userId, notice, today, now, failing);
    reply := Opened(id);
  }

  /** The opening itself, once both checks have passed. */
  method OpenSession(db: Database, bus: Broadcast.EventBus, groupId: Id, userId: Id, notice: string,
                     today: Date, now: Time, failing: set<Broadcast.Event>)
    returns (id: Id)
    requires bus.Valid()
    modifies db`sessions, db`chatMessages, db`nextId, bus`hasQueue, bus`queue, bus`effects
    ensures bus.Valid()
    ensures id == old(db.nextId)
    ensures db.sessions == StartSessionRows(old(db.sessions), id, groupId, Some(userId), now)
    ensures db.chatMessages == old(db.chatMessages)
              + [ChatMessage(id + 1, Some(groupId), None, Some(id), SystemRole, notice, now, today)]
    ensures ActiveSession(db.sessions, groupId).Some?
    ensures ActiveSession(old(db.sessions), groupId).None? && AtMostOneOrdering(old(db.sessions)) ==>
              AtMostOneOrdering(db.sessions)
    ensures bus.queue == []
    ensures bus.effects == old(bus.effects) + [Broadcast.Effect.Commit]
              + Broadcast.Dispatches(old(bus.queue) + [SessionStatusEvent(groupId, "ordering", id)], bus.broadcasters, failing)
  {
    var session := StartSession(db, groupId, Some(userId), now);
    if ActiveSession(old(db.sessions), groupId).None? && AtMostOneOrdering(old(db.sessions)) {
      StartSessionKeepsInvariant(old(db.sessions), session.id, groupId, Some(userId), now);
    }
    assert IsOrderingIn(db.sessions[|db.sessions| - 1], groupId);
    var _ := ChatRepo.AddMessage(db, SystemRole, notice, Some(groupId), None, Some(session.id), now, today);
    bus.Commit();
    bus.EmitSessionStatus(IdText(groupId), Broadcast.Payload("ordering", IdText(session.id)));
    bus.FlushEvents(failing);
    id := session.id;
  }

  /** The primary key of sessions. */
  predicate SessionKeysUnique(sessions: seq<Session>) {
    forall i, j :: 0 <= i < j < |sessions| ==> sessions[i].id != sessions[j].id
  }

  datatype CloseReply = NotOrdering | Closed(sessionId: Id, summary: Summary)

  /** `_end_ordering`: refused when nothing is ordering; otherwise the
      session is ended, summarised, committed and broadcast. */
  method EndOrderingCmd(db: Database, bus: Broadcast.EventBus, group: Group, userId: Id, now: Time,
                        failing: set<Broadcast.Event>)
    returns (reply: CloseReply)
    requires bus.Valid()
    modifies db`sessions, bus`hasQueue, bus`queue, bus`effects
    ensures bus.Valid()
    ensures reply == NotOrdering <==> ActiveSession(old(db.sessions), group.id).None?
    ensures reply == NotOrdering ==>
              db.sessions == old(db.sessions) && bus.queue == old(bus.queue) && bus.effects == old(bus.effects)
    ensures reply.Closed? ==>
              reply.sessionId == ActiveSession(old(db.sessions), group.id).value.id
              && db.sessions == EndSessionRows(old(db.sessions), reply.sessionId, Some(userId), now)
              && reply.summary == SummaryOf(db.orders, db.orderItems, reply.sessionId)
              && (AtMostOneOrdering(old(db.sessions)) && SessionKeysUnique(old(db.sessions)) ==>
                    AtMostOneOrdering(db.sessions) && ActiveSession(db.sessions, group.id).None?)
              && bus.queue == []
              && bus.effects == old(bus.effects) + [Broadcast.Effect.Commit]
                                + Broadcast.Dispatches(old(bus.queue) + [SessionStatusEvent(group.id, "ended", reply.sessionId)],
                                                       bus.broadcasters, failing)
  {
    var active := ActiveSession(db.sessions, group.id);
    if active.None? {
      return NotOrdering;
    }
    var session := active.value;
    if AtMostOneOrdering(db.sessions) && SessionKeysUnique(db.sessions) {
      var k :| 0 <= k < |db.sessions| && db.sessions[k] == session && IsOrderingIn(db.sessions[k], group.id);
      EndSessionKeepsInvariant(db.sessions, session, Some(userId), now);
    }
    EndSession(db, session.id, Some(userId), now);
    var summary := SessionSummary(db, session.id);
    bus.Commit();
    bus.EmitSessionStatus(IdText(group.id), Broadcast.Payload("ended", IdText(session.id)));
    bus.FlushEvents(failing);
    reply := Closed(session.id, summary);
  }

  // ---------------------------------------------------------------
  // _get_session_summary_by_id

  /** The numbers of the summary: each order's user and total, the
      quantity ordered per item name in first-seen order, the same counts
      ranked by quantity, the grand total and the number of orders. */
  datatype Summary =
    | NoOrders
    | Summary(people: seq<(Id, int)>, counts: seq<(string, int)>, ranking: seq<(string, int)>,
              grandTotal: int, headcount: nat)

  function SessionOrders(orders: seq<Order>, sessionId: Id): seq<Order> {
    Filter(orders, (o: Order) => o.sessionId == sessionId)
  }

  /** The lines of the given orders, order by order. */
  function LinesOf(os: seq<Order>, items: seq<OrderItem>): seq<OrderItem>
    decreases |os|
  {
    if os == [] then [] else LinesOf(os[..|os| - 1], items) + ItemsOf(items, os[|os| - 1].id)
  }

  /** `item_counts[name] = item_counts.get(name, 0) + quantity` on a
      dictionary kept in insertion order. */
  function Bump(counts: seq<(string, int)>, name: string, quantity: int): seq<(string, int)>
    decreases |counts|
  {
    if counts == [] then [(name, quantity)]
    else if counts[0].0 == name then [(name, counts[0].1 + quantity)] + counts[1..]
    else [counts[0]] + Bump(counts[1..], name, quantity)
  }

  function Tallied(lines: seq<OrderItem>): seq<(string, int)>
    decreases |lines|
  {
    if lines == [] then []
    else Bump(Tallied(lines[..|lines| - 1]), lines[|lines| - 1].name, lines[|lines| - 1].quantity)
  }

  function Count(p: (string, int)): int { p.1 }

  function Totals(os: seq<Order>): (r: seq<int>)
    ensures |r| == |os|
  {
    seq(|os|, i requires 0 <= i < |os| => os[i].totalAmount)
  }

  function People(os: seq<Order>): seq<(Id, int)> {
    seq(|os|, i requires 0 <= i < |os| => (os[i].userId, os[i].totalAmount))
  }

  /** The summary of a session, as the handler computes it. */
  function SummaryOf(orders: seq<Order>, items: seq<OrderItem>, sessionId: Id): Summary {
    var os := SessionOrders(orders, sessionId);
    if os == [] then NoOrders
    else
      var counts := Tallied(LinesOf(os, items));
      Summary(People(os), counts, Sorting.SortDesc(counts, Count), Sum(Totals(os)), |os|)
  }

  /** The quantity recorded under `name`, or 0. */
  function CountFor(counts: seq<(string, int)>, name: string): int
    decreases |counts|
  {
    if counts == [] then 0 else if counts[0].0 == name then counts[0].1 else CountFor(counts[1..], name)
  }

  /** The total quantity of the lines called `name`. */
  function QuantityOf(lines: seq<OrderItem>, name: string): int
    decreases |lines|
  {
    if lines == [] then 0
    else QuantityOf(lines[..|lines| - 1], name)
         + (if lines[|lines| - 1].name == name then lines[|lines| - 1].quantity else 0)
  }

  predicate NamesDistinct(counts: seq<(string, int)>) {
    forall i, j :: 0 <= i < j < |counts| ==> counts[i].0 != counts[j].0
  }

  predicate Named(counts: seq<(string, int)>, name: string) {
    exists i :: 0 <= i < |counts| && counts[i].0 == name
  }

  function NamesOf(counts: seq<(string, int)>): (r: seq<string>)
    ensures |r| == |counts| && forall i :: 0 <= i < |r| ==> r[i] == counts[i].0
  {
    seq(|counts|, i requires 0 <= i < |counts| => counts[i].0)
  }

  /** A bump either keeps the list of names or adds the new name last. */
  lemma {:induction false} BumpNames(counts: seq<(string, int)>, name: string, quantity: int)
    ensures name in NamesOf(counts) ==> NamesOf(Bump(counts, name, quantity)) == NamesOf(counts)
    ensures name !in NamesOf(counts) ==> NamesOf(Bump(counts, name, quantity)) == NamesOf(counts) + [name]
    decreases |counts|
  {
    var b := Bump(counts, name, quantity);
    if counts == [] {
      assert NamesOf(b) == [name];
    } else if counts[0].0 == name {
      assert name in NamesOf(counts) by {
        assert NamesOf(counts)[0] == name;
      }
      NamesCons((name, counts[0].1 + quantity), counts[1..]);
      NamesCons(counts[0], counts[1..]);
      assert counts == [counts[0]] + counts[1..];
    } else {
      var rest := counts[1..];
      BumpNames(rest, name, quantity);
      assert counts == [counts[0]] + rest;
      NamesCons(counts[0], rest);
      NamesCons(counts[0], Bump(rest, name, quantity));
      assert name in NamesOf(counts) <==> name in NamesOf(rest);
    }
  }

  lemma NamesCons(c: (string, int), rest: seq<(string, int)>)
    ensures NamesOf([c] + rest) == [c.0] + NamesOf(rest)
  {
    assert NamesOf([c] + rest)[0] == c.0;
  }

  /** One bump keeps the names distinct. */
  lemma BumpDistinct(counts: seq<(string, int)>, name: string, quantity: int)
    requires NamesDistinct(counts)
    ensures NamesDistinct(Bump(counts, name, quantity))
    ensures forall other :: Named(Bump(counts, name, quantity), other) <==> Named(counts, other) || other == name
  {
    var b := Bump(counts, name, quantity);
    BumpNames(counts, name, quantity);
    var before := NamesOf(counts);
    var after := NamesOf(b);
    assert forall other :: Named(counts, other) <==> other in before by {
      forall other | other in before ensures Named(counts, other) {
        var i :| 0 <= i < |before| && before[i] == other;
      }
    }
    assert forall other :: Named(b, other) <==> other in after by {
      forall other | other in after ensures Named(b, other) {
        var i :| 0 <= i < |after| && after[i] == other;
      }
    }
    if name !in before {
      assert after[|counts|] == name;
    }
  }

  /** One bump adds the quantity to its name's count and keeps every
      other count. */
  lemma {:induction false} BumpCount(counts: seq<(string, int)>, name: string, quantity: int, other: string)
    requires NamesDistinct(counts)
    ensures CountFor(Bump(counts, name, quantity), other)
            == CountFor(counts, other) + (if other == name then quantity else 0)
    decreases |counts|
  {
    if counts != [] && counts[0].0 != name {
      BumpCount(counts[1..], name, quantity, other);
    } else if counts != [] && other != name {
      NotNamedCountsZero(counts[1..], name);
    }
  }

  lemma {:induction false} NotNamedCountsZero(counts: seq<(string, int)>, name: string)
    requires !Named(counts, name)
    ensures CountFor(counts, name) == 0
    decreases |counts|
  {
    if counts != [] {
      assert counts[0].0 != name;
      assert forall i :: 0 <= i < |counts| - 1 ==> counts[1..][i] == counts[i + 1];
      NotNamedCountsZero(counts[1..], name);
    }
  }

  /** The tally records each name once, exactly the names of the lines,
      with the total quantity ordered under that name. */
  lemma {:induction false} TalliedCounts(lines: seq<OrderItem>, name: string)
    ensures NamesDistinct(Tallied(lines))
    ensures CountFor(Tallied(lines), name) == QuantityOf(lines, name)
    ensures Named(Tallied(lines), name) <==> exists i :: 0 <= i < |lines| && lines[i].name == name
    decreases |lines|
  {
    if lines != [] {
      var init := lines[..|lines| - 1];
      var last := lines[|lines| - 1];
      TalliedCounts(init, name);
      BumpDistinct(Tallied(init), last.name, last.quantity);
      BumpCount(Tallied(init), last.name, last.quantity, name);
      if exists i :: 0 <= i < |init| && init[i].name == name {
        var i :| 0 <= i < |init| && init[i].name == name;
        assert lines[i].name == name;
      }
      if exists i :: 0 <= i < |lines| && lines[i].name == name {
        var i :| 0 <= i < |lines| && lines[i].name == name;
        if i < |init| {
          assert init[i].name == name;
        }
      }
    }
  }

  /** When every order's total is its lines' sum, the grand total is the
      sum of all the session's line subtotals. */
  lemma {:induction false} GrandTotalIsLineSum(os: seq<Order>, items: seq<OrderItem>)
    requires forall i :: 0 <= i < |os| ==> os[i].totalAmount == ItemsTotal(items, os[i].id)
    ensures Sum(Totals(os)) == Sum(Subtotals(LinesOf(os, items)))
    decreases |os|
  {
    if os != [] {
      var init := os[..|os| - 1];
      var last := os[|os| - 1];
      GrandTotalIsLineSum(init, items);
      TotalsSnoc(os);
      SumAppend(Totals(init), [last.totalAmount]);
      assert LinesOf(os, items) == LinesOf(init, items) + ItemsOf(items, last.id);
      SubtotalsAppend(LinesOf(init, items), ItemsOf(items, last.id));
      SumAppend(Subtotals(LinesOf(init, items)), Subtotals(ItemsOf(items, last.id)));
    }
  }

  lemma TotalsSnoc(os: seq<Order>)
    requires os != []
    ensures Totals(os) == Totals(os[..|os| - 1]) + [os[|os| - 1].totalAmount]
  {
  }

  lemma SubtotalsAppend(a: seq<OrderItem>, b: seq<OrderItem>)
    ensures Subtotals(a + b) == Subtotals(a) + Subtotals(b)
  {
  }

  /** The inner loop of the summary: one order's lines into the tally. */
  method TallyLines(ghost before: seq<OrderItem>, counts: seq<(string, int)>, lines: seq<OrderItem>)
    returns (r: seq<(string, int)>)
    requires counts == Tallied(before)
    ensures r == Tallied(before + lines)
  {
    r := counts;
    assert before + lines[..0] == before;
    var j := 0;
    while j < |lines|
      invariant 0 <= j <= |lines|
      invariant r == Tallied(before + lines[..j])
    {
      TallyStep(before, lines, j);
      r := Bump(r, lines[j].name, lines[j].quantity);
      j := j + 1;
    }
    assert lines[..j] == lines;
  }

  /** One more line of an order is one more bump of the tally. */
  lemma TallyStep(before: seq<OrderItem>, lines: seq<OrderItem>, j: int)
    requires 0 <= j < |lines|
    ensures Tallied(before + lines[..j + 1]) == Bump(Tallied(before + lines[..j]), lines[j].name, lines[j].quantity)
  {
    var seen := before + lines[..j + 1];
    assert seen[..|seen| - 1] == before + lines[..j];
    assert seen[|seen| - 1] == lines[j];
  }

  /** What one more order adds to each running part of the summary. */
  lemma SummaryStep(os: seq<Order>, i: int, items: seq<OrderItem>)
    requires 0 <= i < |os|
    ensures LinesOf(os[..i + 1], items) == LinesOf(os[..i], items) + ItemsOf(items, os[i].id)
    ensures People(os[..i + 1]) == People(os[..i]) + [(os[i].userId, os[i].totalAmount)]
    ensures Sum(Totals(os[..i + 1])) == Sum(Totals(os[..i])) + os[i].totalAmount
  {
    assert os[..i + 1][..i] == os[..i];
    TotalsSnoc(os[..i + 1]);
    SumAppend(Totals(os[..i]), [os[i].totalAmount]);
  }

  /** `_get_session_summary_by_id`: one pass over the session's orders
      and their lines. */
  method SessionSummary(db: Database, sessionId: Id) returns (r: Summary)
    ensures r == SummaryOf(db.orders, db.orderItems, sessionId)
  {
    var os := SessionOrders(db.orders, sessionId);
    if os == [] {
      return NoOrders;
    }
    var people: seq<(Id, int)> := [];
    var counts: seq<(string, int)> := [];
    var grandTotal := 0;
    var i := 0;
    while i < |os|
      invariant 0 <= i <= |os|
      invariant people == People(os[..i])
      invariant counts == Tallied(LinesOf(os[..i], db.orderItems))
      invariant grandTotal == Sum(Totals(os[..i]))
    {
      SummaryStep(os, i, db.orderItems);
      var lines := ItemsOf(db.orderItems, os[i].id);
      counts := TallyLines(LinesOf(os[..i], db.orderItems), counts, lines);
      people := people + [(os[i].userId, os[i].totalAmount)];
      grandTotal := grandTotal + os[i].totalAmount;
      i := i + 1;
    }
    assert os[..i] == os;
    r := Summary(people, counts, Sorting.SortDesc(counts, Count), grandTotal, |os|);
  }

  /** The item ranking holds the same entries as the tally, largest
      quantity first. */
  lemma SummaryRanking(orders: seq<Order>, items: seq<OrderItem>, sessionId: Id)
    requires SummaryOf(orders, items, sessionId).Summary?
    ensures var r := SummaryOf(orders, items, sessionId);
      Sorting.SortedDesc(r.ranking, Count) && multiset(r.ranking) == multiset(r.counts)
      && r.headcount == |r.people| && r.grandTotal == Sum(Totals(SessionOrders(orders, sessionId)))
  {
    var r := SummaryOf(orders, items, sessionId);
    Sorting.SortDescCorrect(r.counts, Count);
  }

  // ---------------------------------------------------------------
  // _log_security_event

  /** The user table after the ban check: a user whose violation count
      has reached the threshold is banned, unless already banned. */
  function AfterViolation(users: seq<User>, lineUserId: string, count: int, threshold: int, now: Time): seq<User> {
    if count < threshold then users
    else
      var u := UserRepo.UserByLineId(users, lineUserId);
      if u.Some? && !u.value.isBanned then UserRepo.ReplaceUser(users, u.value.id, UserRepo.Banned(u.value, now))
      else users
  }

  /** The ban check only ever bans: below the threshold nothing changes;
      at or above it the user is banned, and an already banned user is
      left exactly as they were. */
  lemma AfterViolationFacts(users: seq<User>, lineUserId: string, count: int, threshold: int, now: Time)
    ensures var r := AfterViolation(users, lineUserId, count, threshold, now);
      |r| == |users|
      && (forall i :: 0 <= i < |users| && users[i].isBanned ==> r[i].isBanned)
      && (count < threshold ==> r == users)
      && (var u := UserRepo.UserByLineId(users, lineUserId);
          (u.Some? && u.value.isBanned ==> r == users)
          && (u.None? ==> r == users)
          && (count >= threshold && u.Some? ==> forall i :: 0 <= i < |users| && users[i] == u.value ==> r[i].isBanned)
          && (u.Some? ==> forall i :: 0 <= i < |users| && users[i].id != u.value.id ==> r[i] == users[i]))
  {
  }

  /** `_log_security_event`: the log row is stored, the user's violations
      are counted, and the ban check applied. */
  method LogSecurityEvent(db: Database, lineUserId: string, lineGroupId: Option<string>, reasons: seq<Sanitizer.Reason>,
                          now: Time, threshold: int)
    modifies db`securityLogs, db`users, db`nextId
    ensures db.securityLogs == old(db.securityLogs) + [SecurityLog(old(db.nextId), lineUserId, lineGroupId, reasons, now)]
    ensures db.nextId == old(db.nextId) + 1
    ensures db.users == AfterViolation(old(db.users), lineUserId,
                                       SystemRepo.TotalCount(db.securityLogs, Some(lineUserId), None), threshold, now)
  {
    var id := db.FreshId();
    db.securityLogs := db.securityLogs + [SecurityLog(id, lineUserId, lineGroupId, reasons, now)];
    var count := SystemRepo.TotalCount(db.securityLogs, Some(lineUserId), None);
    if count >= threshold {
      var u := UserRepo.UserByLineId(db.users, lineUserId);
      if u.Some? && !u.value.isBanned {
        db.users := UserRepo.ReplaceUser(db.users, u.value.id, UserRepo.Banned(u.value, now));
      }
    }
  }

  /** The log just stored counts towards its user: the count after
      logging is one more than before. */
  lemma LoggedEventCounts(logs: seq<SecurityLog>, log: SecurityLog)
    requires log.lineUserId != ""
    ensures SystemRepo.TotalCount(logs + [log], Some(log.lineUserId), None)
            == SystemRepo.TotalCount(logs, Some(log.lineUserId), None) + 1
  {
    var p := (l: SecurityLog) => SystemRepo.LogMatches(l, Some(log.lineUserId), None);
    FilterAppend(logs, [log], p);
    assert Filter([log], p) == [log] by {
      assert [log][..0] == [];
    }
  }

  // ---------------------------------------------------------------
  // _handle_pending_group_chat

  /** Every row of that application key archived. */
  function ArchiveRows(apps: seq<Application>, id: Id): (r: seq<Application>)
    ensures |r| == |apps|
    ensures forall i :: 0 <= i < |r| ==> r[i] == (if apps[i].id == id then apps[i].(status := AppArchived) else apps[i])
  {
    seq(|apps|, i requires 0 <= i < |apps| => if apps[i].id == id then apps[i].(status := AppArchived) else apps[i])
  }

  /** Once the rejected application is archived it is no longer the
      group's latest, so the next message starts a new application. */
  lemma ArchivedIsNotLatest(apps: seq<Application>, lineGroupId: string, id: Id)
    ensures var r := LatestApplication(ArchiveRows(apps, id), lineGroupId); r.Some? ==> r.value.id != id
  {
    var archived := ArchiveRows(apps, id);
    LatestApplicationIsNewest(archived, lineGroupId);
    var r := LatestApplication(archived, lineGroupId);
    if r.Some? {
      var k :| 0 <= k < |archived| && archived[k] == r.value;
    }
  }

  datatype PendingReply = AwaitingReview | Quiet | RejectedNotice | ReapplyWithAi | ApplyWithAi

  predicate IsHelpRequest(text: string) {
    Lower(Strip(text)) in HelpKeywords
  }

  /** The group_update event a group's new member causes. */
  function MemberAddedEvent(groupId: Id): Broadcast.Event {
    Broadcast.Event(Broadcast.GroupUpdate, Broadcast.AdminRoom, Broadcast.Payload("member_added", IdText(groupId)))
  }

  /** The membership write every message of an active or pending group
      makes: the sender becomes a member, and a new member is announced. */
  method RecordMember(db: Database, bus: Broadcast.EventBus, groupId: Id, userId: Id)
    requires bus.Valid()
    modifies db`members, bus`hasQueue, bus`queue
    ensures bus.Valid()
    ensures db.members == AddMemberRows(old(db.members), groupId, userId)
    ensures MembershipOf(old(db.members), groupId, userId).None? ==> bus.queue == old(bus.queue) + [MemberAddedEvent(groupId)]
    ensures MembershipOf(old(db.members), groupId, userId).Some? ==> bus.queue == old(bus.queue)
  {
    var _, isNew := AddMember(db, groupId, userId);
    if isNew {
      bus.EmitGroupUpdate(Broadcast.Payload("member_added", IdText(groupId)));
    }
  }

  /** A message in an active group opens personal chat to its sender:
      afterwards the sender is a member of some active group. */
  lemma PostingMakesMember(members: seq<Membership>, groups: seq<Group>, k: int, userId: Id)
    requires 0 <= k < |groups| && groups[k].status == GroupActive
    ensures IsMemberOfAnyActiveGroup(AddMemberRows(members, groups[k].id, userId), groups, userId)
  {
    var once := AddMemberRows(members, groups[k].id, userId);
    AddMemberIdempotent(members, groups[k].id, userId);
    var i :| 0 <= i < |once| && once[i] == Membership(groups[k].id, userId)
             && forall j :: 0 <= j < i ==> !(once[j].groupId == groups[k].id && once[j].userId == userId);
    assert once[i].userId == userId && groups[k].id == once[i].groupId;
  }

  /** `_handle_pending_group_chat`: the member is recorded (a new one is
      announced); then the group's latest application decides. A pending
      one answers a help request only; a rejected one answers a help
      request by archiving it with a note for the assistant, and hands
      anything else to the re-application flow; with none, the new
      application flow takes the message. `note` is the note's text. */
  method HandlePendingGroupChat(db: Database, bus: Broadcast.EventBus, group: Group, userId: Id, text: string,
                                note: string, now: Time, today: Date)
    returns (reply: PendingReply)
    requires bus.Valid()
    modifies db`members, db`applications, db`chatMessages, db`nextId, bus`hasQueue, bus`queue
    ensures bus.Valid()
    ensures db.members == AddMemberRows(old(db.members), group.id, userId)
    ensures MembershipOf(old(db.members), group.id, userId).None? ==> bus.queue == old(bus.queue) + [MemberAddedEvent(group.id)]
    ensures MembershipOf(old(db.members), group.id, userId).Some? ==> bus.queue == old(bus.queue)
    ensures var latest := LatestApplication(old(db.applications), group.lineGroupId);
      (latest.Some? && latest.value.status == AppPending ==> reply == (if IsHelpRequest(text) then AwaitingReview else Quiet))
      && (latest.Some? && latest.value.status == AppRejected ==>
            reply == (if IsHelpRequest(text) then RejectedNotice else ReapplyWithAi))
      && (latest.None? || latest.value.status !in {AppPending, AppRejected} ==> reply == ApplyWithAi)
      && (reply == RejectedNotice ==>
            db.applications == ArchiveRows(old(db.applications), latest.value.id)
            && db.chatMessages == old(db.chatMessages)
               + [ChatMessage(old(db.nextId), Some(group.id), None, None, AssistantRole, note, now, today)]
            && db.nextId == old(db.nextId) + 1)
      && (reply != RejectedNotice ==>
            db.applications == old(db.applications) && db.chatMessages == old(db.chatMessages) && db.nextId == old(db.nextId))
  {
    RecordMember(db, bus, group.id, userId);
    var isHelp := Lower(Strip(text)) in HelpKeywords;
    var latest := LatestApplication(db.applications, group.lineGroupId);
    if latest.Some? {
      if latest.value.status == AppPending {
        return if isHelp then AwaitingReview else Quiet;
      } else if latest.value.status == AppRejected {
        if isHelp {
          var _ := ChatRepo.AddMessage(db, AssistantRole, note, Some(group.id), None, None, now, today);
          db.applications := ArchiveRows(db.applications, latest.value.id);
          return RejectedNotice;
        }
        return ReapplyWithAi;
      }
    }
    reply := ApplyWithAi;
  }

  // ---------------------------------------------------------------
  // handle_leave / _handle_rejoin_restore / _handle_rejoin_reapply

  /** `handle_leave`: a known group becomes inactive. */
  method HandleLeave(db: Database, lineGroupId: string)
    modifies db`groups
    ensures var g := GroupByLineId(old(db.groups), lineGroupId);
      (g.None? ==> db.groups == old(db.groups))
      && (g.Some? ==> db.groups == ReplaceGroup(old(db.groups), g.value.id, g.value.(status := GroupInactive)))
  {
    var g := GroupByLineId(db.groups, lineGroupId);
    if g.Some? {
      db.groups := ReplaceGroup(db.groups, g.value.id, g.value.(status := GroupInactive));
    }
  }

  datatype RejoinReply = NoGroupRecord | StatusChanged | Rejoined

  /** The two rejoin handlers: only an inactive group moves, to `target`. */
  method Rejoin(db: Database, lineGroupId: string, target: GroupStatus) returns (reply: RejoinReply)
    modifies db`groups
    ensures var g := GroupByLineId(old(db.groups), lineGroupId);
      (reply == NoGroupRecord <==> g.None?)
      && (reply == StatusChanged <==> g.Some? && g.value.status != GroupInactive)
      && (reply == Rejoined ==> db.groups == ReplaceGroup(old(db.groups), g.value.id, g.value.(status := target)))
      && (reply != Rejoined ==> db.groups == old(db.groups))
  {
    var g := GroupByLineId(db.groups, lineGroupId);
    if g.None? {
      return NoGroupRecord;
    }
    if g.value.status != GroupInactive {
      return StatusChanged;
    }
    db.groups := ReplaceGroup(db.groups, g.value.id, g.value.(status := target));
    reply := Rejoined;
  }

  /** `_handle_rejoin_restore`: back to active with the old settings. */
  method RejoinRestore(db: Database, lineGroupId: string) returns (reply: RejoinReply)
    modifies db`groups
    ensures var g := GroupByLineId(old(db.groups), lineGroupId);
      (reply == Rejoined <==> g.Some? && g.value.status == GroupInactive)
      && (reply == Rejoined ==> db.groups == ReplaceGroup(old(db.groups), g.value.id, g.value.(status := GroupActive)))
      && (reply != Rejoined ==> db.groups == old(db.groups))
  {
    reply := Rejoin(db, lineGroupId, GroupActive);
  }

  /** `_handle_rejoin_reapply`: back to pending, to be reviewed again. */
  method RejoinReapply(db: Database, lineGroupId: string) returns (reply: RejoinReply)
    modifies db`groups
    ensures var g := GroupByLineId(old(db.groups), lineGroupId);
      (reply == Rejoined <==> g.Some? && g.value.status == GroupInactive)
      && (reply == Rejoined ==> db.groups == ReplaceGroup(old(db.groups), g.value.id, g.value.(status := GroupPending)))
      && (reply != Rejoined ==> db.groups == old(db.groups))
  {
    reply := Rejoin(db, lineGroupId, GroupPending);
  }

  /** Leaving and then restoring gives the group its active status back,
      and nothing else in the table changes. */
  lemma LeaveThenRestore(groups: seq<Group>, g: Group)
    ensures var left := ReplaceGroup(groups, g.id, g.(status := GroupInactive));
      ReplaceGroup(left, g.id, g.(status := GroupActive)) == ReplaceGroup(groups, g.id, g.(status := GroupActive))
  {
    var left := ReplaceGroup(groups, g.id, g.(status := GroupInactive));
    assert forall i :: 0 <= i < |groups| ==> left[i].id == groups[i].id;
  }

  // ---------------------------------------------------------------
  // _handle_ai_chat

  /** What the assistant says: nothing, or the AI's own message followed by
      the error of every failed action and, when an order action was
      asked for and something succeeded, the session summary. */
  datatype AiChatReply =
    | Silent
    | Answered(message: string, failures: seq<LineActions.Failure>, summary: Option<Summary>)

  /** The errors of a batch, in action order. */
  function Failures(results: seq<LineActions.Outcome>): seq<LineActions.Failure>
    decreases |results|
  {
    if results == [] then []
    else
      var rest := Failures(results[..|results| - 1]);
      var r := results[|results| - 1];
      if r.Failed? then rest + [r.failure] else rest
  }

  /** The errors are exactly those of the failed actions: none when
      every action succeeded, and at least one otherwise. */
  lemma {:induction false} FailuresOfBatch(results: seq<LineActions.Outcome>)
    ensures |Failures(results)| <= |results|
    ensures Failures(results) == [] <==> forall i :: 0 <= i < |results| ==> results[i].Succeeded?
  {
    if results != [] {
      var init := results[..|results| - 1];
      FailuresOfBatch(init);
      assert forall i :: 0 <= i < |init| ==> init[i] == results[i];
    }
  }

  /** An action whose "type" names one of the four order actions. */
  predicate OrderTyped(a: AiService.AiAction) {
    a.CreateOrder? || a.RemoveItem? || a.CancelOrder? || a.UpdateOrder?
    || (a.MalformedData? && LineActions.IsOrderType(a.actionType))
  }

  predicate HasOrderAction(actions: seq<AiService.AiAction>) {
    exists i :: 0 <= i < |actions| && OrderTyped(actions[i])
  }

  predicate AnySucceeded(results: seq<LineActions.Outcome>) {
    exists i :: 0 <= i < |results| && results[i].Succeeded?
  }

  /** The reply built from the AI's stripped message and the batch. The
      summary is appended when an order action was asked for and any
      action succeeded, even when the success was not an order action. */
  function AiAnswer(message: string, actions: seq<AiService.AiAction>, results: seq<LineActions.Outcome>, summary: Summary)
    : AiChatReply
  {
    var failures := Failures(results);
    var appended := if HasOrderAction(actions) && AnySucceeded(results) then Some(summary) else None;
    if message == "" && failures == [] && appended.None? then Silent
    else Answered(message, failures, appended)
  }

  /** The assistant stays silent exactly when its message is empty, no
      action failed and no summary is due; a failure is always reported. */
  lemma AiAnswerSilent(message: string, actions: seq<AiService.AiAction>, results: seq<LineActions.Outcome>, summary: Summary)
    ensures AiAnswer(message, actions, results, summary) == Silent <==>
              message == "" && (forall i :: 0 <= i < |results| ==> results[i].Succeeded?)
              && !(HasOrderAction(actions) && AnySucceeded(results))
    ensures (exists i :: 0 <= i < |results| && results[i].Failed?) ==>
              AiAnswer(message, actions, results, summary).Answered?
              && AiAnswer(message, actions, results, summary).failures != []
  {
    FailuresOfBatch(results);
  }

  /** The ids of the day's stores, in row order. */
  function StoreIdsOf(rows: seq<TodayStore>): (r: seq<Id>)
    ensures |r| == |rows|
    ensures forall i :: 0 <= i < |r| ==> r[i] == rows[i].storeId
  {
    seq(|rows|, i requires 0 <= i < |rows| => rows[i].storeId)
  }

  function SessionIdOf(active: Option<Session>): Option<Id> {
    if active.Some? then Some(active.value.id) else None
  }

  function UserSaid(groupId: Id, userId: Id): Broadcast.Event {
    Broadcast.Event(Broadcast.ChatMessage, IdText(groupId), Broadcast.Payload("user", IdText(userId)))
  }

  function AssistantSaid(groupId: Id): Broadcast.Event {
    Broadcast.Event(Broadcast.ChatMessage, IdText(groupId), Broadcast.Payload("assistant", ""))
  }

  /** The assistant's own message, when it has one, is stored without the
      appended errors and summary, and broadcast. */
  method RecordAnswer(db: Database, bus: Broadcast.EventBus, groupId: Id, sessionId: Option<Id>, reply: AiChatReply,
                      now: Time, today: Date)
    requires bus.Valid()
    modifies db`chatMessages, db`nextId, bus`hasQueue, bus`queue
    ensures bus.Valid()
    ensures reply.Answered? && reply.message != "" ==>
              db.chatMessages == old(db.chatMessages)
                 + [ChatMessage(old(db.nextId), Some(groupId), None, sessionId, AssistantRole, reply.message, now, today)]
              && db.nextId == old(db.nextId) + 1
              && bus.queue == old(bus.queue) + [AssistantSaid(groupId)]
    ensures !(reply.Answered? && reply.message != "") ==>
              db.chatMessages == old(db.chatMessages) && db.nextId == old(db.nextId) && bus.queue == old(bus.queue)
    ensures reply.Answered? && reply.message != "" ==>
              |db.chatMessages| > 0 && db.nextId > 0
              && db.chatMessages[|db.chatMessages| - 1]
                 == ChatMessage(db.nextId - 1, Some(groupId), None, sessionId, AssistantRole, reply.message, now, today)
              && |bus.queue| > 0 && bus.queue[|bus.queue| - 1] == AssistantSaid(groupId)
    ensures |db.chatMessages| >= |old(db.chatMessages)| && db.chatMessages[..|old(db.chatMessages)|] == old(db.chatMessages)
  {
    if reply.Answered? && reply.message != "" {
      var _ := ChatRepo.AddMessage(db, AssistantRole, reply.message, Some(groupId), None, sessionId, now, today);
      bus.EmitChatMessage(IdText(groupId), Broadcast.Payload("assistant", ""));
    }
  }

  /** The answering half of `_handle_ai_chat`, once the message has
      passed the sanitizer: `message` is the AI's stripped message and
      `actions` its actions. The actions run only while a session is
      ordering (`active`), and the answer is built as `AiAnswer`
      describes; the AI's own message is stored and broadcast. */
  method AnswerAi(db: Database, bus: Broadcast.EventBus, groupId: Id, userId: Id, active: Option<Session>,
                  storeIds: seq<Id>, message: string, actions: seq<AiService.AiAction>, now: Time, today: Date,
                  failing: set<Broadcast.Event>)
    returns (reply: AiChatReply)
    requires bus.Valid()
    modifies db`chatMessages, db`nextId, db`orders, db`orderItems, bus`hasQueue, bus`queue, bus`effects
    ensures bus.Valid()
    ensures !(actions != [] && active.Some?) ==>
              reply == (if message == "" then Silent else Answered(message, [], None))
              && db.orders == old(db.orders) && db.orderItems == old(db.orderItems)
              && bus.effects == old(bus.effects)
    ensures actions != [] && active.Some? ==>
      var priced := LineActions.Pricing(LineActions.MenuRows(db.menus, db.categories, db.menuItems, storeIds));
      var b := LineActions.Run(LineActions.OrderState(old(db.orders), old(db.orderItems), old(db.nextId)),
                               LineActions.Actor(active.value.id, userId), storeIds, priced, actions);
      db.orders == b.state.orders && db.orderItems == b.state.items
      && reply == AiAnswer(message, actions, b.results, SummaryOf(db.orders, db.orderItems, active.value.id))
      && (b.last.None? ==> bus.effects == old(bus.effects))
      && (b.last.Some? ==>
            bus.effects == old(bus.effects) + [Broadcast.Effect.Commit]
                           + Broadcast.Dispatches(old(bus.queue) + [LineActions.OrderUpdateEvent(groupId, b.last.value, userId)],
                                                  bus.broadcasters, failing))
    ensures (reply.Answered? && reply.message != "") <==> message != ""
    ensures message != "" ==>
              |db.chatMessages| > 0 && db.nextId > 0
              && db.chatMessages[|db.chatMessages| - 1]
                 == ChatMessage(db.nextId - 1, Some(groupId), None, SessionIdOf(active), AssistantRole, message, now, today)
              && |bus.queue| > 0 && bus.queue[|bus.queue| - 1] == AssistantSaid(groupId)
    ensures message == "" ==> db.chatMessages == old(db.chatMessages)
    ensures |db.chatMessages| >= |old(db.chatMessages)| && db.chatMessages[..|old(db.chatMessages)|] == old(db.chatMessages)
  {
    if actions != [] && active.Some? {
      reply := RunForAnswer(db, bus, groupId, LineActions.Actor(active.value.id, userId), storeIds, message, actions, failing);
    } else {
      reply := if message == "" then Silent else Answered(message, [], None);
    }
    AnswerMessageFacts(message, reply);
    RecordAnswer(db, bus, groupId, SessionIdOf(active), reply, now, today);
  }

  /** The AI's own message is what the reply leads with. */
  lemma AnswerMessageFacts(message: string, reply: AiChatReply)
    requires reply == Silent || reply.message == message
    requires message != "" ==> reply.Answered?
    ensures (reply.Answered? && reply.message != "") <==> message != ""
  {
  }

  /** The batch of `AnswerAi`, and the reply built from it. */
  method RunForAnswer(db: Database, bus: Broadcast.EventBus, groupId: Id, who: LineActions.Actor,
                      storeIds: seq<Id>, message: string, actions: seq<AiService.AiAction>, failing: set<Broadcast.Event>)
    returns (reply: AiChatReply)
    requires bus.Valid()
    modifies db`orders, db`orderItems, db`nextId, bus`hasQueue, bus`queue, bus`effects
    ensures bus.Valid()
    ensures var priced := LineActions.Pricing(LineActions.MenuRows(db.menus, db.categories, db.menuItems, storeIds));
      var b := LineActions.Run(old(LineActions.StateOf(db)), who, storeIds, priced, actions);
      LineActions.StateOf(db) == b.state
      && reply == AiAnswer(message, actions, b.results, SummaryOf(db.orders, db.orderItems, who.sessionId))
      && (b.last.None? ==> bus.effects == old(bus.effects))
      && (b.last.Some? ==>
            bus.effects == old(bus.effects) + [Broadcast.Effect.Commit]
                           + Broadcast.Dispatches(old(bus.queue) + [LineActions.OrderUpdateEvent(groupId, b.last.value, who.userId)],
                                                  bus.broadcasters, failing))
  {
    var results := LineActions.ExecuteGroupActions(db, bus, groupId, who, storeIds, actions, failing);
    var summary := SessionSummary(db, who.sessionId);
    reply := AiAnswer(message, actions, results, summary);
  }

  /** The user's message is stored and broadcast. */
  method RecordUserMessage(db: Database, bus: Broadcast.EventBus, userId: Id, groupId: Id, sessionId: Option<Id>,
                           text: string, now: Time, today: Date)
    requires bus.Valid()
    modifies db`chatMessages, db`nextId, bus`hasQueue, bus`queue
    ensures bus.Valid()
    ensures db.chatMessages == old(db.chatMessages)
              + [ChatMessage(old(db.nextId), Some(groupId), Some(userId), sessionId, UserRole, text, now, today)]
    ensures db.nextId == old(db.nextId) + 1
    ensures bus.queue == old(bus.queue) + [UserSaid(groupId, userId)]
  {
    var _ := ChatRepo.AddMessage(db, UserRole, text, Some(groupId), Some(userId), sessionId, now, today);
    bus.EmitChatMessage(IdText(groupId), Broadcast.Payload("user", IdText(userId)));
  }

  /** `_handle_ai_chat` once the sanitizer's verdict `clean` on `text`
      is known: the user's message is stored and broadcast; a flagged
      message is logged as a security event (which may ban the user) and
      gets no answer; anything else is answered as `AnswerAi` describes,
      with the AI's stripped message `message` and its `actions` (produced
      from the sanitized text) and the day's stores. `threshold` is the
      configured ban threshold. */
  method HandleCheckedChat(db: Database, bus: Broadcast.EventBus, user: User, group: Group, text: string,
                           clean: Sanitizer.Sanitized, message: string, actions: seq<AiService.AiAction>,
                           threshold: int, now: Time, today: Date, failing: set<Broadcast.Event>)
    returns (reply: AiChatReply)
    requires bus.Valid()
    modifies db`chatMessages, db`nextId, db`securityLogs, db`users, db`orders, db`orderItems,
             bus`hasQueue, bus`queue, bus`effects
    ensures bus.Valid()
    ensures var sid := SessionIdOf(ActiveSession(old(db.sessions), group.id));
      |db.chatMessages| > |old(db.chatMessages)|
      && db.chatMessages[..|old(db.chatMessages)| + 1]
         == old(db.chatMessages) + [ChatMessage(old(db.nextId), Some(group.id), Some(user.id), sid, UserRole, text, now, today)]
    ensures clean.reasons != [] ==>
        reply == Silent
        && |db.chatMessages| == |old(db.chatMessages)| + 1
        && db.securityLogs == old(db.securityLogs)
           + [SecurityLog(old(db.nextId) + 1, user.lineUserId, Some(group.lineGroupId), clean.reasons, now)]
        && db.users == AfterViolation(old(db.users), user.lineUserId,
                                      SystemRepo.TotalCount(db.securityLogs, Some(user.lineUserId), None), threshold, now)
        && db.orders == old(db.orders) && db.orderItems == old(db.orderItems)
        && bus.queue == old(bus.queue) + [UserSaid(group.id, user.id)] && bus.effects == old(bus.effects)
    ensures var active := ActiveSession(old(db.sessions), group.id);
      clean.reasons == [] ==>
        db.securityLogs == old(db.securityLogs) && db.users == old(db.users)
        && (!(actions != [] && active.Some?) ==>
              reply == (if message == "" then Silent else Answered(message, [], None))
              && db.orders == old(db.orders) && db.orderItems == old(db.orderItems)
              && bus.effects == old(bus.effects))
        && ((reply.Answered? && reply.message != "") <==> message != "")
    ensures var active := ActiveSession(old(db.sessions), group.id);
      clean.reasons == [] && actions != [] && active.Some? ==>
        var storeIds := StoreIdsOf(TodayStoresOf(db.todayStores, group.id, today));
        var priced := LineActions.Pricing(LineActions.MenuRows(db.menus, db.categories, db.menuItems, storeIds));
        var b := LineActions.Run(LineActions.OrderState(old(db.orders), old(db.orderItems), old(db.nextId) + 1),
                                 LineActions.Actor(active.value.id, user.id), storeIds, priced, actions);
        db.orders == b.state.orders && db.orderItems == b.state.items
        && reply == AiAnswer(message, actions, b.results, SummaryOf(db.orders, db.orderItems, active.value.id))
  {
    var active := ActiveSession(db.sessions, group.id);
    var sid := SessionIdOf(active);
    RecordUserMessage(db, bus, user.id, group.id, sid, text, now, today);
    ghost var asked := db.chatMessages;
    if clean.reasons != [] {
      LogSecurityEvent(db, user.lineUserId, Some(group.lineGroupId), clean.reasons, now, threshold);
      return Silent;
    }
    var storeIds := StoreIdsOf(TodayStoresOf(db.todayStores, group.id, today));
    ghost var queued := bus.queue;
    assert queued == old(bus.queue) + [UserSaid(group.id, user.id)];
    ghost var s0 := LineActions.OrderState(db.orders, db.orderItems, db.nextId);
    assert s0 == LineActions.OrderState(old(db.orders), old(db.orderItems), old(db.nextId) + 1);
    reply := AnswerAi(db, bus, group.id, user.id, active, storeIds, message, actions, now, today, failing);
    assert db.chatMessages[..|asked|] == asked;
  }

  /** `_handle_ai_chat`: the sanitizer runs on the user's text with the
      configured bound `maxLength`; a message it flags is stored, logged
      with the sanitizer's reasons and left unanswered, and nothing is
      logged for any other message. */
  method HandleAiChat(db: Database, bus: Broadcast.EventBus, user: User, group: Group, text: string,
                      maxLength: nat, ai: AiService.AiReply, threshold: int, now: Time, today: Date,
                      failing: set<Broadcast.Event>)
    returns (reply: AiChatReply)
    requires bus.Valid()
    modifies db`chatMessages, db`nextId, db`securityLogs, db`users, db`orders, db`orderItems,
             bus`hasQueue, bus`queue, bus`effects
    ensures bus.Valid()
    ensures var reasons := Sanitizer.SanitizeInput(text, maxLength).reasons;
      (reasons != [] ==>
         reply == Silent
         && db.securityLogs == old(db.securityLogs)
            + [SecurityLog(old(db.nextId) + 1, user.lineUserId, Some(group.lineGroupId), reasons, now)]
         && db.orders == old(db.orders) && db.orderItems == old(db.orderItems))
      && (reasons == [] ==> db.securityLogs == old(db.securityLogs) && db.users == old(db.users))
  {
    var clean := Sanitizer.SanitizeInput(text, maxLength);
    reply := HandleCheckedChat(db, bus, user, group, text, clean, Strip(ai.message), ai.actions, threshold, now, today, failing);
  }
}
