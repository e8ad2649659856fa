// The web chat endpoint (app/routers/chat.py): the system prompt is
// chosen by mode and read through the prompt cache, and the today-store
// actions in the AI's answer are applied, their caches dropped and their
// events committed and broadcast. The AI's answer is a parameter.

module ChatRouter {
  import opened Common
  import opened Tables
  import opened OrderRepo
  import SystemRepo
  import Broadcast
  import Cache

  // ---------------------------------------------------------------
  // prompt selection

  const ManagerPrompt: string := "manager_prompt"
  const GroupOrdering: string := "group_ordering"

  /** The prompt name `chat` asks for. */
  function PromptName(isManager: bool): string {
    if isManager then ManagerPrompt else GroupOrdering
  }

  /** The two built-in prompt texts of `_get_default_prompt`. */
  datatype DefaultText = ManagerDefault | GroupOrderingDefault

  /** `_get_default_prompt`: the manager text for "manager_prompt", the
      group-ordering text for every other name. */
  function DefaultPrompt(name: string): (r: DefaultText)
    ensures r == ManagerDefault <==> name == ManagerPrompt
  {
    if name == ManagerPrompt then ManagerDefault else GroupOrderingDefault
  }

  /** Each mode falls back to its own built-in text. */
  lemma ModeSelectsDefault(isManager: bool)
    ensures DefaultPrompt(PromptName(isManager)) == (if isManager then ManagerDefault else GroupOrderingDefault)
  {
  }

  /** The system prompt handed to the AI. */
  datatype SystemPrompt = Text(content: string) | Builtin(text: DefaultText)

  /** A cache entry counts only when it is non-empty. */
  function CachedPrompt(cached: map<string, string>, name: string): Option<string> {
    if name in cached && cached[name] != "" then Some(cached[name]) else None
  }

  /** The prompt `chat` resolves: a non-empty cached text, else the stored
      prompt, else the built-in default. */
  function ResolvedPrompt(cached: map<string, string>, prompts: seq<Prompt>, name: string): SystemPrompt {
    var c := CachedPrompt(cached, name);
    if c.Some? then Text(c.value)
    else
      var row := SystemRepo.PromptByName(prompts, name);
      if row.Some? then Text(row.value.content) else Builtin(DefaultPrompt(name))
  }

  /** The prompt cache after resolution: a stored prompt read from the
      database is cached. */
  function CacheAfterResolve(cached: map<string, string>, prompts: seq<Prompt>, name: string): map<string, string> {
    var row := SystemRepo.PromptByName(prompts, name);
    if CachedPrompt(cached, name).None? && row.Some? then cached[name := row.value.content] else cached
  }

  /** Reading through the cache does not change the answer: resolving
      again with the updated cache gives the same prompt and leaves the
      cache as it is. */
  lemma PromptResolutionStable(cached: map<string, string>, prompts: seq<Prompt>, name: string)
    ensures var c2 := CacheAfterResolve(cached, prompts, name);
      ResolvedPrompt(c2, prompts, name) == ResolvedPrompt(cached, prompts, name)
      && CacheAfterResolve(c2, prompts, name) == c2
  {
    var row := SystemRepo.PromptByName(prompts, name);
    var c2 := CacheAfterResolve(cached, prompts, name);
    if CachedPrompt(cached, name).None? && row.Some? {
      assert c2[name] == row.value.content;
      if row.value.content == "" {
        assert CachedPrompt(c2, name).None?;
        assert c2[name := row.value.content] == c2;
      }
    }
  }

  /** The prompt lookup at the head of `chat`. */
  method ResolvePrompt<M, S>(db: Database, cache: Cache.CacheService<M, S>, isManager: bool) returns (p: SystemPrompt)
    modifies cache`prompts
    ensures p == ResolvedPrompt(old(cache.prompts), db.prompts, PromptName(isManager))
    ensures cache.prompts == CacheAfterResolve(old(cache.prompts), db.prompts, PromptName(isManager))
  {
    var name := PromptName(isManager);
    var cached := cache.GetPrompt(name);
    if cached.Some? && cached.value != "" {
      return Text(cached.value);
    }
    var row := SystemRepo.PromptByName(db.prompts, name);
    if row.Some? {
      cache.SetPrompt(name, row.value.content);
      p := Text(row.value.content);
    } else {
      p := Builtin(DefaultPrompt(name));
    }
  }

  // ---------------------------------------------------------------
  // _execute_actions

  /** An action of the AI's answer: its type and the two ids of its data,
      `None` when missing or empty. */
  datatype StoreAction = StoreAction(actionType: string, storeId: Option<Id>, groupId: Option<Id>)

  const SetToday: string := "set_today_store"
  const AddToday: string := "add_today_store"
  const RemoveToday: string := "remove_today_store"

  /** An action `_execute_actions` acts on: a known type with both ids. */
  predicate Effective(a: StoreAction) {
    (a.actionType == SetToday || a.actionType == AddToday || a.actionType == RemoveToday)
    && a.storeId.Some? && a.groupId.Some?
  }

  /** The today-store table after one action on date `today`. */
  function Apply(rows: seq<TodayStore>, a: StoreAction, today: Date): seq<TodayStore> {
    if !Effective(a) then rows
    else
      var g := a.groupId.value;
      var s := a.storeId.value;
      if a.actionType == SetToday then SetTodayStoreRows(ClearTodayStoreRows(rows, g, today), g, s, today, None)
      else if a.actionType == AddToday then SetTodayStoreRows(rows, g, s, today, None)
      else if FindTodayStore(rows, g, s, today).Some? then RemoveTodayStoreRows(rows, g, s, today)
      else rows
  }

  /** The table after the actions in order. */
  function ApplyAll(rows: seq<TodayStore>, actions: seq<StoreAction>, today: Date): seq<TodayStore>
    decreases |actions|
  {
    if actions == [] then rows
    else Apply(ApplyAll(rows, actions[..|actions| - 1], today), actions[|actions| - 1], today)
  }

  function ActionKind(t: string): string {
    if t == SetToday then "set" else if t == AddToday then "add" else "remove"
  }

  /** The store_change events of the actions, in order. */
  function StoreEvents(actions: seq<StoreAction>): seq<Broadcast.Event>
    decreases |actions|
  {
    if actions == [] then []
    else
      var a := actions[|actions| - 1];
      StoreEvents(actions[..|actions| - 1])
      + (if Effective(a)
         then [Broadcast.Event(Broadcast.StoreChange, IdText(a.groupId.value), Broadcast.Payload(ActionKind(a.actionType), IdText(a.groupId.value)))]
         else [])
  }

  /** The groups whose cached today-store list is dropped. */
  function TouchedGroups(actions: seq<StoreAction>): set<Id>
    decreases |actions|
  {
    if actions == [] then {}
    else
      var a := actions[|actions| - 1];
      TouchedGroups(actions[..|actions| - 1]) + (if Effective(a) then {a.groupId.value} else {})
  }

  /** One action, as one turn of the loop of `_execute_actions`. */
  method ExecuteAction<M, S>(db: Database, bus: Broadcast.EventBus, cache: Cache.CacheService<M, S>,
                             a: StoreAction, today: Date)
    requires bus.Valid()
    modifies db`todayStores, bus`hasQueue, bus`queue, cache`todayStores
    ensures bus.Valid()
    ensures db.todayStores == Apply(old(db.todayStores), a, today)
    ensures bus.queue == old(bus.queue) + StoreEvents([a])
    ensures cache.todayStores == old(cache.todayStores) - TouchedGroups([a])
  {
    assert [a][..0] == [];
    if !Effective(a) {
      return;
    }
    var g := a.groupId.value;
    var s := a.storeId.value;
    if a.actionType == SetToday {
      ClearTodayStores(db, g, today);
      var _ := SetTodayStore(db, g, s, today, None);
    } else if a.actionType == AddToday {
      var _ := SetTodayStore(db, g, s, today, None);
    } else {
      var _ := RemoveTodayStore(db, g, s, today);
    }
    cache.ClearTodayStores(g);
    bus.EmitStoreChange(IdText(g), Broadcast.Payload(ActionKind(a.actionType), IdText(g)));
  }

  /** `_execute_actions`: the actions are applied in order, each effective
      one dropping its group's cached list and queueing a store_change. */
  method ExecuteActions<M, S>(db: Database, bus: Broadcast.EventBus, cache: Cache.CacheService<M, S>,
                              actions: seq<StoreAction>, today: Date)
    requires bus.Valid()
    modifies db`todayStores, bus`hasQueue, bus`queue, cache`todayStores
    ensures bus.Valid()
    ensures db.todayStores == ApplyAll(old(db.todayStores), actions, today)
    ensures bus.queue == old(bus.queue) + StoreEvents(actions)
    ensures cache.todayStores == old(cache.todayStores) - TouchedGroups(actions)
  {
    var i := 0;
    while i < |actions|
      invariant 0 <= i <= |actions|
      invariant bus.Valid()
      invariant db.todayStores == ApplyAll(old(db.todayStores), actions[..i], today)
      invariant bus.queue == old(bus.queue) + StoreEvents(actions[..i])
      invariant cache.todayStores == old(cache.todayStores) - TouchedGroups(actions[..i])
    {
      assert actions[..i + 1][..i] == actions[..i];
      ExecuteAction(db, bus, cache, actions[i], today);
      i := i + 1;
    }
    assert actions[..i] == actions;
  }

  /** After an effective set action the group's stores for the day are
      exactly the one set. */
  lemma SetLeavesOnlyThatStore(rows: seq<TodayStore>, a: StoreAction, today: Date)
    requires Effective(a) && a.actionType == SetToday
    ensures TodayStoresOf(Apply(rows, a, today), a.groupId.value, today)
            == [TodayStore(a.groupId.value, a.storeId.value, today, None)]
  {
    var g := a.groupId.value;
    var cleared := ClearTodayStoreRows(rows, g, today);
    ClearedGroupHasNoStores(rows, g, today);
    var row := TodayStore(g, a.storeId.value, today, None);
    assert FindTodayStore(cleared, g, a.storeId.value, today).None?;
    FilterAppend(cleared, [row], (t: TodayStore) => t.groupId == g && t.date == today);
    assert Filter([row], (t: TodayStore) => t.groupId == g && t.date == today) == [row] by {
      assert [row][..0] == [];
    }
  }

  /** An add action keeps every store the group had and adds the new one;
      a remove action leaves the store gone. */
  lemma AddKeepsRemoveDrops(rows: seq<TodayStore>, a: StoreAction, today: Date)
    requires Effective(a)
    ensures var r := Apply(rows, a, today);
      (a.actionType == AddToday ==>
         (forall t :: t in TodayStoresOf(rows, a.groupId.value, today) ==> t in TodayStoresOf(r, a.groupId.value, today))
         && FindTodayStore(r, a.groupId.value, a.storeId.value, today).Some?)
      && (a.actionType == RemoveToday ==> FindTodayStore(r, a.groupId.value, a.storeId.value, today).None?)
  {
    var g := a.groupId.value;
    var s := a.storeId.value;
    if a.actionType == AddToday {
      SetTodayStoreIdempotent(rows, g, s, today, None, None);
      var r := Apply(rows, a, today);
      forall t | t in TodayStoresOf(rows, g, today)
        ensures t in TodayStoresOf(r, g, today)
      {
        var k :| 0 <= k < |r| && r[k] == t by {
          var j :| 0 <= j < |rows| && rows[j] == t;
          assert r[j] == rows[j];
        }
      }
    }
  }

  /** Actions that are all ignored (unknown type or a missing id) change
      no row, queue no event and drop no cache entry. */
  lemma {:induction false} IgnoredActionsChangeNothing(rows: seq<TodayStore>, actions: seq<StoreAction>, today: Date)
    requires forall i :: 0 <= i < |actions| ==> !Effective(actions[i])
    ensures ApplyAll(rows, actions, today) == rows
    ensures StoreEvents(actions) == [] && TouchedGroups(actions) == {}
    decreases |actions|
  {
    if actions != [] {
      IgnoredActionsChangeNothing(rows, actions[..|actions| - 1], today);
    }
  }

  // ---------------------------------------------------------------
  // chat

  /** The AI's answer: its message and its actions. */
  datatype AiResult = AiResult(message: string, actions: seq<StoreAction>)

  /** `chat`: the prompt is resolved for the mode; when the AI's answer
      (`ai`, produced with that prompt) carries actions they are executed,
      then committed and broadcast; without actions nothing is written and
      nothing is committed. The answer is returned as the AI gave it. */
  method Chat<M, S>(db: Database, bus: Broadcast.EventBus, cache: Cache.CacheService<M, S>, isManager: bool,
                    ai: AiResult, today: Date, failing: set<Broadcast.Event>)
    returns (prompt: SystemPrompt, reply: AiResult)
    requires bus.Valid()
    modifies db`todayStores, bus`hasQueue, bus`queue, bus`effects, cache`todayStores, cache`prompts
    ensures bus.Valid()
    ensures reply == ai
    ensures prompt == ResolvedPrompt(old(cache.prompts), db.prompts, PromptName(isManager))
    ensures cache.prompts == CacheAfterResolve(old(cache.prompts), db.prompts, PromptName(isManager))
    ensures ai.actions == [] ==>
              db.todayStores == old(db.todayStores) && cache.todayStores == old(cache.todayStores)
              && bus.queue == old(bus.queue) && bus.effects == old(bus.effects)
    ensures ai.actions != [] ==>
              db.todayStores == ApplyAll(old(db.todayStores), ai.actions, today)
              && cache.todayStores == old(cache.todayStores) - TouchedGroups(ai.actions)
              && bus.queue == []
              && bus.effects == old(bus.effects) + [Broadcast.Effect.Commit]
                 + Broadcast.Dispatches(old(bus.queue) + StoreEvents(ai.actions), bus.broadcasters, failing)
  {
    prompt := ResolvePrompt(db, cache, isManager);
    if ai.actions != [] {
      ExecuteActions(db, bus, cache, ai.actions, today);
      bus.CommitAndNotify(failing);
    }
    reply := ai;
  }
}
