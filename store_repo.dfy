// app/repositories/store_repo.py: which stores a group may see and edit,
// the store listings ordered by name, a store's single menu, and the
// item search inside a menu.

module StoreRepo {
  import opened Common
  import opened Tables
  import Sorting

  function StoreName(s: Store): string { s.name }

  /** A selection ordered by name holds exactly the selected rows, each as
      often as in the table, in ascending name order. */
  lemma {:induction false} SortedSelection(stores: seq<Store>, p: Store -> bool)
    ensures var r := Sorting.SortAsc(Filter(stores, p), StoreName);
      Sorting.SortedAsc(r, StoreName)
      && multiset(r) == multiset(Filter(stores, p))
      && (forall x :: x in r <==> x in stores && p(x))
  {
    var f := Filter(stores, p);
    var r := Sorting.SortAsc(f, StoreName);
    Sorting.SortAscCorrect(f, StoreName);
    forall x ensures x in r <==> x in stores && p(x) {
      assert x in r <==> x in multiset(r);
      assert x in f <==> x in multiset(f);
      if x in stores && p(x) {
        var k :| 0 <= k < |stores| && stores[k] == x;
      }
      if x in f {
        var k :| 0 <= k < |f| && f[k] == x;
      }
    }
  }

  // ---------------------------------------------------------------
  // StoreRepository

  /** `can_edit_store`: only a group-scoped store whose code equals the
      caller's code; never a global store nor any other scope. */
  function CanEditStore(store: Store, groupCode: Option<string>): (r: bool)
    ensures store.scope == GlobalScope ==> !r
    ensures store.scope == GroupScope ==> (r <==> store.groupCode == groupCode)
    ensures store.scope.OtherScope? ==> !r
  {
    match store.scope
    case GlobalScope => false
    case GroupScope => store.groupCode == groupCode
    case OtherScope(_) => false
  }

  predicate IsActive(s: Store) { s.isActive }

  /** `get_active_stores`. */
  function ActiveStores(stores: seq<Store>): seq<Store> {
    Sorting.SortAsc(Filter(stores, IsActive), StoreName)
  }

  lemma ActiveStoresFacts(stores: seq<Store>)
    ensures var r := ActiveStores(stores);
      Sorting.SortedAsc(r, StoreName) && forall x :: x in r <==> x in stores && x.isActive
  {
    SortedSelection(stores, IsActive);
  }

  /** The condition of `get_stores_for_group_code`. */
  predicate VisibleTo(s: Store, groupCode: string, includeInactive: bool) {
    (s.scope == GlobalScope || (s.scope == GroupScope && s.groupCode == Some(groupCode)))
    && (includeInactive || s.isActive)
  }

  /** `get_stores_for_group_code`. */
  function StoresForGroupCode(stores: seq<Store>, groupCode: string, includeInactive: bool): seq<Store> {
    Sorting.SortAsc(Filter(stores, (s: Store) => VisibleTo(s, groupCode, includeInactive)), StoreName)
  }

  /** A group sees every global store and its own code's group stores,
      only active ones unless asked otherwise, ordered by name; never
      another code's group store. */
  lemma StoresForGroupCodeFacts(stores: seq<Store>, groupCode: string, includeInactive: bool)
    ensures var r := StoresForGroupCode(stores, groupCode, includeInactive);
      Sorting.SortedAsc(r, StoreName)
      && (forall x :: x in r <==> x in stores && VisibleTo(x, groupCode, includeInactive))
      && (forall x :: x in r && x.scope == GroupScope ==> x.groupCode == Some(groupCode))
      && (!includeInactive ==> forall x :: x in r ==> x.isActive)
  {
    SortedSelection(stores, (s: Store) => VisibleTo(s, groupCode, includeInactive));
  }

  /** The condition of `get_stores_by_scope`: the code narrows only group
      scope, and only when a non-empty code is given. */
  predicate InScope(s: Store, scope: Scope, groupCode: Option<string>) {
    s.scope == scope
    && (scope == GroupScope && groupCode.Some? && groupCode.value != "" ==> s.groupCode == groupCode)
  }

  /** `get_stores_by_scope`. */
  function StoresByScope(stores: seq<Store>, scope: Scope, groupCode: Option<string>): seq<Store> {
    Sorting.SortAsc(Filter(stores, (s: Store) => InScope(s, scope, groupCode)), StoreName)
  }

  lemma StoresByScopeFacts(stores: seq<Store>, scope: Scope, groupCode: Option<string>)
    ensures var r := StoresByScope(stores, scope, groupCode);
      Sorting.SortedAsc(r, StoreName)
      && (forall x :: x in r ==> x in stores && x.scope == scope)
      && (scope != GroupScope || groupCode.None? || groupCode == Some("") ==>
            forall x :: x in stores && x.scope == scope ==> x in r)
      && (scope == GroupScope && groupCode.Some? && groupCode.value != "" ==>
            forall x :: x in r <==> x in stores && x.scope == GroupScope && x.groupCode == groupCode)
  {
    SortedSelection(stores, (s: Store) => InScope(s, scope, groupCode));
  }

  // ---------------------------------------------------------------
  // MenuRepository

  /** `get_by_store_id`. */
  function MenuOfStore(menus: seq<Menu>, storeId: Id): Option<Menu> {
    First(menus, (m: Menu) => m.storeId == storeId)
  }

  /** One menu per store. */
  predicate OneMenuPerStore(menus: seq<Menu>) {
    forall i, j :: 0 <= i < j < |menus| ==> menus[i].storeId != menus[j].storeId
  }

  function MenuGetOrCreateRows(menus: seq<Menu>, storeId: Id, freshId: Id): seq<Menu> {
    if MenuOfStore(menus, storeId).Some? then menus else menus + [Menu(freshId, storeId)]
  }

  /** `get_or_create` never makes a second menu for a store. */
  lemma MenuGetOrCreateKeepsOne(menus: seq<Menu>, storeId: Id, id1: Id, id2: Id)
    ensures var once := MenuGetOrCreateRows(menus, storeId, id1);
      MenuGetOrCreateRows(once, storeId, id2) == once
      && MenuOfStore(once, storeId).Some?
      && (OneMenuPerStore(menus) ==> OneMenuPerStore(once))
  {
    var once := MenuGetOrCreateRows(menus, storeId, id1);
    if MenuOfStore(menus, storeId).None? {
      assert once[|once| - 1].storeId == storeId;
    }
  }

  /** `MenuRepository.get_or_create`. */
  method MenuGetOrCreate(db: Database, storeId: Id) returns (m: Menu)
    modifies db`menus, db`nextId
    ensures db.menus == MenuGetOrCreateRows(old(db.menus), storeId, old(db.nextId))
    ensures MenuOfStore(old(db.menus), storeId).Some? ==>
              m == MenuOfStore(old(db.menus), storeId).value && db.nextId == old(db.nextId)
    ensures MenuOfStore(old(db.menus), storeId).None? ==>
              m == Menu(old(db.nextId), storeId) && db.nextId == old(db.nextId) + 1
    ensures MenuOfStore(db.menus, storeId) == Some(m)
  {
    var found := MenuOfStore(db.menus, storeId);
    if found.Some? {
      return found.value;
    }
    var id := db.FreshId();
    m := Menu(id, storeId);
    db.menus := db.menus + [m];
    assert db.menus[|db.menus| - 1] == m;
  }

  // ---------------------------------------------------------------
  // MenuItemRepository

  predicate InMenu(categories: seq<Category>, it: MenuItem, menuId: Id) {
    exists j :: 0 <= j < |categories| && categories[j].id == it.categoryId && categories[j].menuId == menuId
  }

  /** `ilike '%text%'`: case-insensitive substring. */
  predicate ILike(s: string, text: string) {
    Contains(Lower(s), Lower(text))
  }

  /** `search_by_name`. */
  function SearchByName(items: seq<MenuItem>, categories: seq<Category>, menuId: Id, text: string): (r: seq<MenuItem>)
    ensures forall i :: 0 <= i < |r| ==>
      r[i] in items && r[i].isAvailable && InMenu(categories, r[i], menuId) && ILike(r[i].name, text)
    ensures forall i ::
      (0 <= i < |items| && items[i].isAvailable && InMenu(categories, items[i], menuId) && ILike(items[i].name, text))
      ==> items[i] in r
  {
    Filter(items, (it: MenuItem) => InMenu(categories, it, menuId) && ILike(it.name, text) && it.isAvailable)
  }

  /** An item whose name contains the text in any letter case is found. */
  lemma SearchFindsCaseInsensitive(items: seq<MenuItem>, categories: seq<Category>, menuId: Id, i: int)
    requires 0 <= i < |items| && items[i].isAvailable && InMenu(categories, items[i], menuId)
    ensures items[i] in SearchByName(items, categories, menuId, items[i].name)
  {
    ContainsSelf(Lower(items[i].name));
  }
}
