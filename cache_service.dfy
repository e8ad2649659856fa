// CacheService of app/services/cache_service.py: three independent
// in-process dictionaries (menus by store, today's stores by group,
// prompts by name) with get/set/clear/clear-all.

module Cache {
  import opened Common

  /** The three module dictionaries; `M` and `S` are whatever the callers
      store as a cached menu and a cached today-store list. */
  class CacheService<M, S> {
    var menus: map<Id, M>
    var todayStores: map<Id, S>
    var prompts: map<string, string>

    constructor ()
      ensures menus == map[] && todayStores == map[] && prompts == map[]
    {
      menus := map[];
      todayStores := map[];
      prompts := map[];
    }

    function GetMenu(storeId: Id): (r: Option<M>)
      reads this
      ensures r.Some? <==> storeId in menus
      ensures r.Some? ==> r.value == menus[storeId]
    {
      if storeId in menus then Some(menus[storeId]) else None
    }

    method SetMenu(storeId: Id, menu: M)
      modifies this`menus
      ensures menus == old(menus)[storeId := menu]
      ensures GetMenu(storeId) == Some(menu)
    {
      menus := menus[storeId := menu];
    }

    /** `pop(key, None)`: removes only that key; a missing key is a no-op. */
    method ClearMenu(storeId: Id)
      modifies this`menus
      ensures menus == old(menus) - {storeId}
      ensures GetMenu(storeId) == None
      ensures storeId !in old(menus) ==> menus == old(menus)
    {
      menus := menus - {storeId};
    }

    method ClearAllMenus()
      modifies this`menus
      ensures menus == map[]
    {
      menus := map[];
    }

    function GetTodayStores(groupId: Id): (r: Option<S>)
      reads this
      ensures r.Some? <==> groupId in todayStores
      ensures r.Some? ==> r.value == todayStores[groupId]
    {
      if groupId in todayStores then Some(todayStores[groupId]) else None
    }

    method SetTodayStores(groupId: Id, stores: S)
      modifies this`todayStores
      ensures todayStores == old(todayStores)[groupId := stores]
      ensures GetTodayStores(groupId) == Some(stores)
    {
      todayStores := todayStores[groupId := stores];
    }

    method ClearTodayStores(groupId: Id)
      modifies this`todayStores
      ensures todayStores == old(todayStores) - {groupId}
      ensures GetTodayStores(groupId) == None
      ensures groupId !in old(todayStores) ==> todayStores == old(todayStores)
    {
      todayStores := todayStores - {groupId};
    }

    method ClearAllTodayStores()
      modifies this`todayStores
      ensures todayStores == map[]
    {
      todayStores := map[];
    }

    function GetPrompt(name: string): (r: Option<string>)
      reads this
      ensures r.Some? <==> name in prompts
      ensures r.Some? ==> r.value == prompts[name]
    {
      if name in prompts then Some(prompts[name]) else None
    }

    method SetPrompt(name: string, content: string)
      modifies this`prompts
      ensures prompts == old(prompts)[name := content]
      ensures GetPrompt(name) == Some(content)
    {
      prompts := prompts[name := content];
    }

    method ClearPrompt(name: string)
      modifies this`prompts
      ensures prompts == old(prompts) - {name}
      ensures GetPrompt(name) == None
      ensures name !in old(prompts) ==> prompts == old(prompts)
    {
      prompts := prompts - {name};
    }

    method ClearAllPrompts()
      modifies this`prompts
      ensures prompts == map[]
    {
      prompts := map[];
    }

    /** Empties all three caches: every lookup then misses. */
    method ClearAll()
      modifies this
      ensures menus == map[] && todayStores == map[] && prompts == map[]
      ensures forall k :: GetMenu(k) == None && GetTodayStores(k) == None
      ensures forall n :: GetPrompt(n) == None
    {
      menus := map[];
      todayStores := map[];
      prompts := map[];
    }
  }
}
