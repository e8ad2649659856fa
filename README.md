# jaba-ai ordering core, modelled in Dafny

jaba-ai (呷爸) is a LINE bot that takes lunch orders for a LINE group.
A group applies for access, and a super admin reviews the application.
Once the group is active, its admins choose "today's stores" and open an
ordering session. Members then order in chat: an AI reads each message
and answers with a reply and a list of actions (create, remove, cancel,
update an order), which the service applies to the database. When the
session closes, a summary is posted with per-item counts and the grand
total. A web back office (super admin and LINE group admins) reviews
applications, edits menus, places proxy orders and reads the security
log. Every change is announced to the dashboards over Socket.IO, after
the database commit.

This project models that core:

- the database is an in-memory `Tables.Database` with one sequence per
  table;
- each repository (`GroupRepo`, `OrderRepo`, `StoreRepo`, `UserRepo`,
  `SystemRepo`, `ChatRepo`) is a set of methods over those tables, each
  tied to a pure function of the old tables;
- the services are `OrderService`, `MenuService`, `Cache` (the three
  in-process dictionaries), `AiService` with `Sanitizer` (the
  prompt-injection filter), and LINE message handling (`LineRouting`
  for the pure decisions, `LineService` for the handlers, `LineActions`
  for the AI's order actions);
- the three HTTP routers are `AdminRouter`, `LineAdminRouter` and
  `ChatRouter`;
- `Broadcast.EventBus` is the request-scoped event queue of
  app/broadcast.py. It records commits and dispatches in one effect
  trace, so "every event reaches the dashboards after the commit" can
  be stated and proved.

Time, the Taipei date, the AI's answer, the LINE profile lookups and
the password digest are parameters. Prices are integer cents. Replies
are modelled by their kind, not their Chinese text.

`sanitize_user_input` (app/services/ai_service.py:52-54) truncates the
text to its length limit before it collapses whitespace, and the model
does the same.

## Model

| member | source | states |
|---|---|---|
| Broadcast.DispatchesPointwise | app/broadcast.py:109-126 | a flush yields exactly one effect per queued event, the i-th effect being the i-th event's own dispatch |
| Broadcast.DeliveredIff | app/broadcast.py:115-124 | an event reaches its broadcaster iff its type is registered and that broadcaster does not raise; earlier failures never stop later events |
| Broadcast.DispatchesNeverCommit | app/broadcast.py:109-126 | flushing produces no commit: the commit comes only from the caller |
| Broadcast.Registry | app/broadcast.py:93-101 | the broadcaster table has exactly the seven event types, each mapped to its own handler |
| Broadcast.EventBus.constructor | app/broadcast.py:34-66 | no queue exists yet and no broadcaster is registered |
| Broadcast.EventBus.GetQueue | app/broadcast.py:37-44 | returns the current queue, creating an empty one on first use |
| Broadcast.EventBus.QueueEvent | app/broadcast.py:47-51 | appends exactly one event to the queue and dispatches nothing |
| Broadcast.EventBus.EmitOrderUpdate | app/broadcast.py:154-156 | queues one order_update event for the group's room |
| Broadcast.EventBus.EmitChatMessage | app/broadcast.py:159-161 | queues one chat_message event for the group's room |
| Broadcast.EventBus.EmitSessionStatus | app/broadcast.py:164-166 | queues one session_status event for the group's room |
| Broadcast.EventBus.EmitPaymentUpdate | app/broadcast.py:169-171 | queues one payment_update event for the group's room |
| Broadcast.EventBus.EmitStoreChange | app/broadcast.py:174-176 | queues one store_change event for the group's room |
| Broadcast.EventBus.EmitApplicationUpdate | app/broadcast.py:179-181 | queues one application_update event for the admin room |
| Broadcast.EventBus.EmitGroupUpdate | app/broadcast.py:184-186 | queues one group_update event for the admin room |
| Broadcast.EventBus.RegisterBroadcasters | app/broadcast.py:69-103 | installs exactly the table Registry describes |
| Broadcast.EventBus.FlushEvents | app/broadcast.py:109-126 | appends the dispatch of every queued event in queue order, then leaves the queue empty |
| Broadcast.EventBus.ClearEvents | app/broadcast.py:129-136 | empties the queue without dispatching anything |
| Broadcast.EventBus.CommitAndNotify | app/broadcast.py:139-148 | the commit is recorded before every dispatch of the queued events, and the queue ends empty |
| Cache.CacheService.constructor | app/services/cache_service.py:4-7 | all three caches start empty |
| Cache.CacheService.GetMenu | app/services/cache_service.py:14-17 | a hit iff the store id is cached, returning the cached menu |
| Cache.CacheService.SetMenu | app/services/cache_service.py:19-22 | only that store's entry changes, and a following get returns the new menu |
| Cache.CacheService.ClearMenu | app/services/cache_service.py:24-27 | removes only that store's entry; a missing key changes nothing |
| Cache.CacheService.ClearAllMenus | app/services/cache_service.py:29-32 | the menu cache becomes empty |
| Cache.CacheService.GetTodayStores | app/services/cache_service.py:35-38 | a hit iff the group id is cached, returning the cached list |
| Cache.CacheService.SetTodayStores | app/services/cache_service.py:40-43 | only that group's entry changes, and a following get returns the new list |
| Cache.CacheService.ClearTodayStores | app/services/cache_service.py:45-48 | removes only that group's entry; a missing key changes nothing |
| Cache.CacheService.ClearAllTodayStores | app/services/cache_service.py:50-53 | the today-store cache becomes empty |
| Cache.CacheService.GetPrompt | app/services/cache_service.py:56-59 | a hit iff the prompt name is cached, returning its content |
| Cache.CacheService.SetPrompt | app/services/cache_service.py:61-64 | only that prompt changes, and a following get returns the new content |
| Cache.CacheService.ClearPrompt | app/services/cache_service.py:66-69 | removes only that prompt; a missing key changes nothing |
| Cache.CacheService.ClearAllPrompts | app/services/cache_service.py:71-74 | the prompt cache becomes empty |
| Cache.CacheService.ClearAll | app/services/cache_service.py:77-82 | all three caches become empty, so every lookup misses |
| Sorting.SortDescCorrect | app/repositories/chat_repo.py:55 | `ORDER BY created_at DESC` yields the same rows (as a multiset), newest first |
| Sorting.SortedDescPairwise | app/repositories/chat_repo.py:55 | in a newest-first list every earlier row is at least as new as every later one |
| Sorting.SortAscCorrect | app/repositories/store_repo.py:25 | `ORDER BY name` yields the same rows (as a multiset), in ascending name order |
| Sorting.StrLeTotal | app/repositories/store_repo.py:25 | the name order compares any two names |
| Sorting.StrLeAntisymmetric | app/repositories/store_repo.py:25 | two names ordered both ways are equal |
| ChatRepo.MostRecentFacts | app/repositories/chat_repo.py:55-59 | the history holds `limit` messages, or all matching ones if fewer, each a matching message, in ascending time order |
| ChatRepo.MostRecentMembers | app/repositories/chat_repo.py:55-59 | every returned message is one of the matching messages |
| ChatRepo.MostRecentAscending | app/repositories/chat_repo.py:55-59 | the returned messages are in ascending time order |
| ChatRepo.MostRecentKeepsNewest | app/repositories/chat_repo.py:55-59 | no matching message newer than a returned one is left out |
| ChatRepo.GroupMessagesFacts | app/repositories/chat_repo.py:29-59 | at most `limit` messages of the group, restricted to the session when one is given and to today when asked, the most recent ones, oldest first |
| ChatRepo.UserMessagesFacts | app/repositories/chat_repo.py:74-100 | only the user's own messages that carry no group, at most `limit`, the most recent ones, oldest first |
| ChatRepo.AddMessage | app/repositories/chat_repo.py:102-118 | appends exactly one message row with the given fields and a fresh id |
| ChatRepo.AddedMessageIsLatest | app/repositories/chat_repo.py:102-118 | a message just added to a group is the last entry of that group's history for the day |
| ChatRepo.DeleteGroupMessages | app/repositories/chat_repo.py:61-72 | drops exactly the group's messages and returns how many there were |
| ChatRepo.ClearSessionMessages | app/repositories/chat_repo.py:147-154 | keeps exactly the messages of other sessions, in order |
| ChatRepo.ClearSessionKeepsOthers | app/repositories/chat_repo.py:147-154 | afterwards no message of the session remains, and every other session's group history is unchanged |
| ChatRepo.PurgeSplits | app/repositories/chat_repo.py:156-180 | the old and the recent messages partition the table, and no old message is left among the recent ones |
| ChatRepo.CleanupOldMessages | app/repositories/chat_repo.py:156-180 | deletes exactly the messages older than now minus the retention days, returns their number, and deletes nothing when that number is 0 |
| GroupRepo.GetOrCreateIdempotent | app/repositories/group_repo.py:54-62 | a second get-or-create for the same LINE group adds nothing, and the LINE group id stays unique |
| GroupRepo.GetOrCreateGroup | app/repositories/group_repo.py:54-62 | returns the existing group of that LINE id unchanged, or appends a new "pending" group with the given name |
| GroupRepo.ReplaceGroup | app/repositories/group_repo.py:141-159 | rewriting a group in place changes only the rows with that key |
| GroupRepo.ReplaceKeepsLineLookup | app/repositories/group_repo.py:20-25 | after rewriting the group a LINE id finds, keeping that LINE id, the lookup finds the rewritten group |
| GroupRepo.ReplaceGroupFound | app/repositories/group_repo.py:141-159 | after a rewrite the lookup by key finds the new row, and every other key finds what it found before |
| GroupRepo.SetGroupStatus | app/repositories/group_repo.py:141-159 | None iff the id is unknown, with the table unchanged; otherwise the group with only its status replaced |
| GroupRepo.SuspendGroup | app/repositories/group_repo.py:141-149 | None iff the id is unknown, with the table unchanged; otherwise the group, now "suspended" |
| GroupRepo.ActivateGroup | app/repositories/group_repo.py:151-159 | None iff the id is unknown, with the table unchanged; otherwise the group, now "active" |
| GroupRepo.WithInfo | app/repositories/group_repo.py:183-188 | each of name, description and code is overwritten only when passed; id, LINE id and status are kept |
| GroupRepo.WithInfoLaws | app/repositories/group_repo.py:183-188 | passing nothing changes nothing, and writing the same fields twice equals writing them once |
| GroupRepo.UpdateGroupInfo | app/repositories/group_repo.py:171-191 | None iff the id is unknown, with the table unchanged; otherwise the group with only the passed fields overwritten |
| GroupRepo.LatestApplicationIsNewest | app/repositories/group_repo.py:239-252 | the result is a non-archived application of that LINE group and none is newer; None iff every one of them is archived |
| GroupRepo.AddMemberIdempotent | app/repositories/group_repo.py:309-326 | joining twice equals joining once, the membership then exists, and memberships stay unique |
| GroupRepo.AddMember | app/repositories/group_repo.py:309-326 | is_new iff the (group, user) membership did not exist; the row is added only then |
| GroupRepo.IsMemberOfAnyActiveGroup | app/repositories/group_repo.py:296-307 | true iff some membership of the user is in a group whose status is "active" |
| GroupRepo.IsAdmin | app/repositories/group_repo.py:344-351 | true iff the (group, user) binding exists |
| GroupRepo.GroupAdmins | app/repositories/group_repo.py:383-390 | exactly the bindings of that group |
| GroupRepo.AddAdmin | app/repositories/group_repo.py:353-358 | inserts the binding when absent; an existing binding makes the insert fail on the unique constraint and leaves the table as it was |
| GroupRepo.RemoveAdminRows | app/repositories/group_repo.py:360-372 | the binding is gone and every other binding is kept |
| GroupRepo.AddThenRemoveAdmin | app/repositories/group_repo.py:353-372 | binding a new admin and removing the binding again gives back the original table |
| GroupRepo.RemoveAdmin | app/repositories/group_repo.py:360-372 | true iff the binding existed; afterwards it does not exist, and nothing changes when it did not |
| OrderRepo.TodayStoresOf | app/repositories/order_repo.py:29-44 | exactly the group's rows for that date |
| OrderRepo.SetTodayStoreIdempotent | app/repositories/order_repo.py:46-76 | setting the same (group, store, date) again adds no row, whoever sets it, and the row then exists |
| OrderRepo.SetTodayStoreKeepsUnique | app/repositories/order_repo.py:46-76 | the (group, store, date) key stays unique |
| OrderRepo.SetTodayStore | app/repositories/order_repo.py:46-76 | returns the existing row for the key when there is one, unchanged; otherwise appends and returns a new row |
| OrderRepo.ClearTodayStoreRows | app/repositories/order_repo.py:78-93 | keeps exactly the rows of other groups or other dates |
| OrderRepo.ClearedGroupHasNoStores | app/repositories/order_repo.py:78-93 | afterwards the group has no store for that date, and other groups' today stores are unchanged |
| OrderRepo.ClearTodayStores | app/repositories/order_repo.py:78-93 | deletes the group's rows for the date, one by one, and nothing else |
| OrderRepo.RemoveTodayStoreRows | app/repositories/order_repo.py:95-114 | the key is gone and every row with another key is kept |
| OrderRepo.RemoveTodayStore | app/repositories/order_repo.py:95-114 | true iff the (group, store, date) row existed; afterwards it does not exist, and nothing changes when it did not |
| OrderRepo.ActiveSessionUnique | app/repositories/order_repo.py:123-133 | with at most one ordering session per group, the active session is that one |
| OrderRepo.StartSessionKeepsInvariant | app/repositories/order_repo.py:150-155 | opening a session in a group without one keeps at most one ordering session per group, and makes the new one the group's active session |
| OrderRepo.StartSession | app/repositories/order_repo.py:150-155 | appends a new session with status "ordering", no end time and no ender |
| OrderRepo.EndSessionRows | app/repositories/order_repo.py:157-164 | only that session changes: status "ended", ended_at now, ended_by the ender |
| OrderRepo.EndSessionKeepsInvariant | app/repositories/order_repo.py:157-164 | ending the active session keeps the invariant and leaves the group with no active session |
| OrderRepo.EndSession | app/repositories/order_repo.py:157-164 | the session table becomes EndSessionRows of the old table |
| OrderRepo.GroupSessionsNewestFirst | app/repositories/order_repo.py:166-192 | exactly the group's sessions created in the window, each once, newest first |
| OrderRepo.ItemsOf | app/repositories/order_repo.py:224-234 | exactly the item rows of that order |
| OrderRepo.NoItemsZeroTotal | app/repositories/order_repo.py:228-232 | an order without item rows sums to 0 |
| OrderRepo.ItemsTotalAppend | app/repositories/order_repo.py:224-234 | adding one item row adds its subtotal to its own order's sum and leaves every other order's sum unchanged |
| OrderRepo.SetTotalRows | app/repositories/order_repo.py:224-234 | only that order's total changes |
| OrderRepo.CalculateTotal | app/repositories/order_repo.py:224-234 | the order's total becomes the sum of its item subtotals, and no other order changes |
| StoreRepo.SortedSelection | app/repositories/store_repo.py:20-27 | a selection ordered by name holds exactly the selected stores, in name order |
| StoreRepo.CanEditStore | app/repositories/store_repo.py:103-121 | false for a global store; for a group store, true iff its code equals the caller's; false for any other scope |
| StoreRepo.ActiveStoresFacts | app/repositories/store_repo.py:20-27 | exactly the active stores, in name order |
| StoreRepo.StoresForGroupCodeFacts | app/repositories/store_repo.py:58-86 | every global store plus the group stores of the same code, only active ones unless inactive ones are asked for, in name order; never another code's group store |
| StoreRepo.StoresByScopeFacts | app/repositories/store_repo.py:88-101 | the stores of that scope, in name order; the code narrows the result only for the "group" scope and a non-empty code |
| StoreRepo.MenuGetOrCreateKeepsOne | app/repositories/store_repo.py:141-149 | a second get-or-create adds nothing, the store then has a menu, and there stays at most one menu per store |
| StoreRepo.MenuGetOrCreate | app/repositories/store_repo.py:141-149 | returns the store's existing menu unchanged, or appends and returns a new one |
| StoreRepo.SearchByName | app/repositories/store_repo.py:165-178 | exactly the available items of that menu whose name contains the text, ignoring letter case |
| StoreRepo.SearchFindsCaseInsensitive | app/repositories/store_repo.py:165-178 | an available item of the menu is found by its own name |
| UserRepo.ReplaceUser | app/repositories/user_repo.py:163-182 | rewriting a user in place changes only that user's row |
| UserRepo.Renamed | app/repositories/user_repo.py:37-39 | an existing user's name is replaced only by a non-empty name; id, LINE id and ban state are kept |
| UserRepo.RenamedIdempotent | app/repositories/user_repo.py:37-39 | renaming twice to the same name equals renaming once |
| UserRepo.GetOrCreateUser | app/repositories/user_repo.py:29-40 | a missing user is appended, not banned; an existing user is returned, renamed as Renamed says |
| UserRepo.UnbanUndoesBan | app/repositories/user_repo.py:163-182 | unbanning undoes the ban of a user who was not banned |
| UserRepo.BanUser | app/repositories/user_repo.py:163-172 | None iff the id is unknown, with the table unchanged; otherwise the user is banned with banned_at now |
| UserRepo.UnbanUser | app/repositories/user_repo.py:174-182 | None iff the id is unknown, with the table unchanged; otherwise the ban and banned_at are cleared |
| UserRepo.PaginatedUsersFacts | app/repositories/user_repo.py:42-87 | at most `limit` matching users, newest first; "banned" lists only banned users and "active" only unbanned ones; the total counts every match, whatever the page |
| SystemRepo.HashedPasswordVerifies | app/repositories/system_repo.py:12-19 | a password verifies against its own hash |
| SystemRepo.VerifyCredentials | app/repositories/system_repo.py:45-50 | over any admin table: the result is the admin of that name exactly when the name exists and the password hashes to its stored hash; an unknown name or a wrong password gives None |
| SystemRepo.CreateSuperAdmin | app/repositories/system_repo.py:35-43 | appends the admin with the hashed password; a taken name fails on the unique constraint and adds nothing |
| SystemRepo.CreatedAdminLogsIn | app/repositories/system_repo.py:35-50 | after creating an admin the same name and password log in, a password with a different hash does not, and names stay unique |
| SystemRepo.DeleteRemovesAdmin | app/repositories/system_repo.py:75-82 | afterwards the name is unknown, every other admin is still there, and the table shrank iff the name existed |
| SystemRepo.DeleteSuperAdmin | app/repositories/system_repo.py:75-82 | true iff the username existed; the table loses that admin |
| SystemRepo.WithPassword | app/repositories/system_repo.py:67-73 | only the rows of that name change, and they carry the new hash |
| SystemRepo.UpdatePassword | app/repositories/system_repo.py:67-73 | None iff the name is unknown, with the table unchanged; otherwise the admin with the new hash |
| SystemRepo.PasswordChangeTakesEffect | app/repositories/system_repo.py:45-73 | after a password change the new password logs in, and a previous one with a different hash no longer does |
| SystemRepo.ChangedAdminFound | app/repositories/system_repo.py:67-73 | the lookup by name after a password change finds the admin with the new hash |
| SystemRepo.SetPromptUpserts | app/repositories/system_repo.py:105-114 | afterwards the name yields the new content and prompt names stay unique |
| SystemRepo.SetPromptKeepsOthers | app/repositories/system_repo.py:105-114 | every other prompt name yields what it yielded before |
| SystemRepo.SetPrompt | app/repositories/system_repo.py:105-114 | returns the prompt with the new content; the table is the upserted one |
| SystemRepo.TotalCountFacts | app/repositories/system_repo.py:142-158 | with no filter every log counts, and each filter can only lower the count |
| SystemRepo.RecentLogsFacts | app/repositories/system_repo.py:123-140 | at most `limit` logs, each matching the filters, newest first |
| SystemRepo.ReasonCounts | app/repositories/system_repo.py:188-191 | each reason maps to its number of occurrences across the logs, and exactly the reasons that occur are keys |
| SystemRepo.GetStats | app/repositories/system_repo.py:160-213 | total is every log; today and week count the logs since the start of the day and since seven days ago; by_reason counts the reasons over the 1000 most recent logs |
| SystemRepo.CountSinceMonotone | app/repositories/system_repo.py:169-183 | a later start counts no more logs |
| OrderService.StartOrdering | app/services/order_service.py:31-41 | returns the group's open session unchanged when there is one, otherwise opens a new "ordering" session; with at most one ordering session per group before, the same holds after and the result is the group's active session |
| OrderService.EndOrdering | app/services/order_service.py:43-51 | None and no change when the group is not ordering; otherwise the active session is ended with time and ender, and the group is left with no ordering session |
| OrderService.Quantity | app/services/order_service.py:97 | a missing quantity counts as 1 |
| OrderService.ItemRow | app/services/order_service.py:96-111 | the stored line keeps name, note, quantity and unit price, and its subtotal is unit price times quantity |
| OrderService.ItemRows | app/services/order_service.py:96-111 | one stored line per requested line, in order |
| OrderService.AddedItemsTotal | app/services/order_service.py:96-115 | inserting an order's lines adds exactly their cost to its sum |
| OrderService.DropItemsOf | app/services/order_service.py:129-131 | exactly the item rows of other orders are kept |
| OrderService.ReplacedItems | app/services/order_service.py:129-153 | after a replacement the order's lines are exactly the new ones and its sum is exactly their cost |
| OrderService.InsertItems | app/services/order_service.py:96-111 | appends the requested lines, in order, with fresh keys |
| OrderService.DeleteItemsOf | app/services/order_service.py:129-131 | deletes the order's lines one by one and nothing else |
| OrderService.WithOrderFacts | app/services/order_service.py:78-93 | the user's order in the session is reused, or exactly one is added; it is the target, and one order per (session, user) is kept |
| OrderService.SetTotalById | app/repositories/order_repo.py:224-234 | writing a total changes only that order's amount: the lookup by key finds the order with the new total |
| OrderService.SetTotalKeepsOwners | app/repositories/order_repo.py:224-234 | writing a total keeps which order each (session, user) finds, and keeps them unique |
| OrderService.EnsureOrder | app/services/order_service.py:78-93 | the key of the user's existing order in the session, or of one new order appended with that session, user and store |
| OrderService.CreateOrder | app/services/order_service.py:57-117 | the lines are appended to the user's order in the session (created when missing), and that order's total becomes its previous sum plus the cost of the new lines; one order per (session, user) is kept |
| OrderService.UpdateOrder | app/services/order_service.py:119-155 | None for an unknown order with nothing changed; otherwise every previous line of the order is deleted, the new ones are inserted, and the total becomes exactly their cost |
| OrderService.CancelOrder | app/services/order_service.py:157-161 | a missing order changes nothing; otherwise the order and, by cascade, its lines are gone |
| OrderService.SettledAmount | app/services/order_service.py:211 | the given amount, or the order's total when none or zero is given |
| OrderService.ReplaceOrder | app/services/order_service.py:210-215 | rewriting an order in place changes only that order's row |
| OrderService.MarkPaid | app/services/order_service.py:198-228 | None for an unknown order with nothing changed or queued; otherwise status "paid", the settled amount and the time are written, and one payment update is queued when the session exists |
| OrderService.Refund | app/services/order_service.py:230-251 | None for an unknown order with nothing changed or queued; otherwise status "refunded" with the paid amount left alone, and one payment update is queued when the session exists |
| OrderService.OrdersOfSession | app/services/order_service.py:257-261 | exactly the session's orders |
| OrderService.ClearedSessionOrders | app/services/order_service.py:253-275 | afterwards the session has no orders and every other session keeps its orders |
| OrderService.ClearSessionOrders | app/services/order_service.py:253-275 | None for an unknown session with nothing changed; otherwise the number of its orders, all deleted with their lines, and one "cleared" order update queued for the group |
| Sanitizer.StripTags | app/services/ai_service.py:39 | removing tags never lengthens the text |
| Sanitizer.StripTagsChars | app/services/ai_service.py:39 | removing tags introduces no character that was not in the text |
| Sanitizer.StripTagsLeavesNoTag | app/services/ai_service.py:37-39 | after the tag step no `<…>` tag is left |
| Sanitizer.NoOpenerNoTag | app/services/ai_service.py:37 | text without '<' holds no tag |
| Sanitizer.RemoveFencesKeepsHead | app/services/ai_service.py:45 | removing the leftover fences keeps a first character that is not a backtick |
| Sanitizer.RemoveFencesLeavesNoFence | app/services/ai_service.py:45 | after the fence step no "```" is left, although removing a fence could bring backticks together |
| Sanitizer.NoTagInSuffix | app/services/ai_service.py:37 | a suffix of tag-free text is tag-free |
| Sanitizer.FencedBlocksKeepNoTag | app/services/ai_service.py:44 | removing fenced blocks from tag-free text leaves it tag-free and adds no character |
| Sanitizer.RemoveFencesKeepsNoTag | app/services/ai_service.py:45 | removing leftover fences from tag-free text leaves it tag-free and adds no character |
| Sanitizer.NoBacktickNoFence | app/services/ai_service.py:42 | text without a backtick holds no fence |
| Sanitizer.RunLength | app/services/ai_service.py:48-50 | the separator run at the front is maximal: all separators, followed by a non-separator or the end |
| Sanitizer.StripSeparators | app/services/ai_service.py:50 | removing separator runs never lengthens the text |
| Sanitizer.NoDashNoSeparator | app/services/ai_service.py:48 | text without '-' and '=' holds no separator run |
| Sanitizer.Truncate | app/services/ai_service.py:53-54 | a prefix of at most n characters, the whole text when it already fits |
| Sanitizer.Word | app/services/ai_service.py:60 | the longest whitespace-free prefix |
| Sanitizer.SplitWords | app/services/ai_service.py:60 | every piece of `split()` is non-empty and whitespace-free |
| Sanitizer.CollapseShortens | app/services/ai_service.py:60 | collapsing whitespace never lengthens the text |
| Sanitizer.JoinNormalized | app/services/ai_service.py:60 | joining whitespace-free words with single spaces gives normalized text |
| Sanitizer.CollapseNormalized | app/services/ai_service.py:60 | the whitespace pass leaves no leading or trailing whitespace and no two consecutive spaces |
| Sanitizer.SplitNonEmpty | app/services/ai_service.py:60 | text with a non-whitespace character splits into at least one word |
| Sanitizer.CollapseFixesNormalized | app/services/ai_service.py:60 | normalized text comes through the whitespace pass unchanged |
| Sanitizer.CollapseIdempotent | app/services/ai_service.py:60 | the whitespace pass is idempotent |
| Sanitizer.SanitizeBounded | app/services/ai_service.py:53-60 | the returned text is never longer than max_length |
| Sanitizer.SanitizeNormalized | app/services/ai_service.py:60 | the returned text is whitespace-normalized |
| Sanitizer.SanitizeReasons | app/services/ai_service.py:30-57 | each reason at most once, in the order xml_tags, code_blocks, separator_lines, length_exceeded, each reported exactly when its check fires |
| Sanitizer.ReasonListFacts | app/services/ai_service.py:36-57 | the reason list holds each raised flag's reason, and only those, in rank order |
| Sanitizer.ReasonListOrdered | app/services/ai_service.py:36-57 | the reasons' ranks strictly increase along the list |
| Sanitizer.RankedPair | app/services/ai_service.py:36-57 | any earlier reason in the list ranks below any later one |
| Sanitizer.LengthReasonIgnoresCleaning | app/services/ai_service.py:34-57 | "length_exceeded" is reported for an over-long original even when cleaning alone brings it under the limit |
| Sanitizer.CleanedOfTagsAndFences | app/services/ai_service.py:36-45 | after the tag and code-block steps the working text holds no tag and no fence |
| Sanitizer.CleanInputOnlyCollapsed | app/services/ai_service.py:30-62 | input with no tag, no fence, no separator run and an acceptable length gets no reasons and only has its whitespace collapsed |
| Sanitizer.HelloWorld | app/services/ai_service.py:16-62 | "hello world" comes back unchanged with no reasons |
| AiService.HistoryLines | app/services/ai_service.py:183-191 | one line per message, in order: a user line carries the sender's name (default "使用者"), any other role is labelled "助手" |
| AiService.JoinSplitRoundTrip | app/services/ai_service.py:193 | joining lines without line breaks and splitting the result again gives back exactly those lines |
| AiService.FormatChatHistory | app/services/ai_service.py:178-193 | an empty history renders as "(無先前對話)"; otherwise the lines the loop accumulates, joined by line breaks |
| AiService.FormattedHistoryLines | app/services/ai_service.py:178-193 | with no line breaks inside names or contents, the rendered history splits back into one line per message, in order, each formatted by its role |
| AiService.JsonSpan | app/services/ai_service.py:217 | the span from the first '{' to the last later '}', starting with '{' and ending with '}' and bounded by no earlier '{' and no later '}'; none iff no '}' follows the first '{' |
| AiService.EmptyOutputHasNoActions | app/services/ai_service.py:197-209 | empty output always gives no actions: "AI 沒有回應" on success, otherwise the CLI failure message carrying stderr or "未知錯誤" |
| AiService.ParsedOrRaw | app/services/ai_service.py:211-231 | non-empty output is the decoded object found in the fence-stripped text, or the raw stripped text with no actions when there is no such span or it does not decode |
| LineRouting.TriggerHit | app/services/line_service.py:449-453 | the trigger loop hits exactly for jaba, 呷爸 and 點餐, each with or without a leading "@" |
| LineRouting.IdleGate | app/services/line_service.py:431-455 | while ordering every message passes unchanged; when idle exactly "開單" and "菜單" pass, the trigger words (any case, optional "@") pass as "help", and nothing else passes |
| LineRouting.AdminCommandFacts | app/services/line_service.py:797-873 | anyone may bind ("管理員 …") or unbind; a non-admin gets an answer only for those two; an admin always gets an answer; a keyword match sets a store from the table whose name contains the text |
| LineRouting.RouteFacts | app/services/line_service.py:349-429 | a banned user is dropped and only a banned user; a suspended group answers only the ID keywords or its own notice; a pending or inactive group only the ID keywords or the application chat; admin commands only in an active group with no session; the AI only in an active group, with the unstripped text; while ordering every message gets a special, quick or AI reply |
| LineRouting.SpecialOutsideActive | app/services/line_service.py:470-478 | outside an active group the only special reply is the ID information |
| LineRouting.RoutedFacts | app/services/line_service.py:380-429 | the group handler order: with specials outside active groups limited to ID and no admin command or gate drop while ordering, the route satisfies every RouteFacts clause |
| LineRouting.IdleAiOnlyOnTrigger | app/services/line_service.py:417-429 | with no session open, the AI is reached only by a non-admin writing 點餐 or @點餐 (any case): the other trigger words are help keywords and "開單"/"菜單" are quick commands |
| LineRouting.RoutedAi | app/services/line_service.py:380-429 | the AI is reached only when no special, quick or admin reply applied, the group is active and the gate let the text through |
| LineRouting.ActiveSpecialNone | app/services/line_service.py:470-474 | in an active group every help keyword is answered |
| LineRouting.PersonalRoutedFacts | app/services/line_service.py:256-282 | the personal handler order never drops; a help reply comes first; the AI is reached only by a member |
| LineRouting.PersonalRouteFacts | app/services/line_service.py:217-282 | a personal message is dropped iff the user is banned; a help keyword is always answered; a non-member never reaches the AI |
| LineRouting.FindStoreByNameFacts | app/services/line_service.py:1017-1042 | no result iff no available store's name contains the text; an exact name wins; otherwise the first containing store in list order |
| LineRouting.FindItemPriceFacts | app/services/line_service.py:1854-1907 | a non-zero price belongs to an item whose name contains the requested one; no such item gives 0; the first exact name in the hinted category wins; without a hint the first exact name anywhere wins |
| LineService.BindAdmin | app/services/line_service.py:932-957 | an existing admin is told so and nothing changes; otherwise the binding is added iff the code equals the group's non-empty code; afterwards the user is an admin iff the code was not refused |
| LineService.UnbindAdmin | app/services/line_service.py:959-974 | refused for a non-admin and for the group's only admin, with nothing changed; otherwise exactly that binding is deleted |
| LineService.UnbindKeepsAnAdmin | app/services/line_service.py:966-972 | when unbinding goes ahead, the group still has at least one admin afterwards |
| LineService.TodayCheckIsKeyLookup | app/services/line_service.py:1104-1108 | the add command's scan of today's rows finds the store iff the key lookup of set_today_store does |
| LineService.AddedStoreIsLast | app/services/line_service.py:1110-1111 | adding a store that is not yet today's appends it to the group's list for the day and keeps the others |
| LineService.SetLeavesOnlyStore | app/services/line_service.py:889-891 | setting a store by keyword leaves the group with exactly that one store for the day |
| LineService.AddTodayStoreCmd | app/services/line_service.py:1095-1130 | an unknown name is refused and a store already today's is refused, with nothing changed; otherwise the store is added, the cache entry dropped, the database committed and the store_change "add" event flushed |
| LineService.MatchedTodayStoreFacts | app/services/line_service.py:1144-1151 | the remove command finds a store iff one of today's rows names it, and what it finds is one of today's stores whose name contains the text |
| LineService.FindTodayStoreNamed | app/services/line_service.py:1144-1151 | the scan returns the first of today's stores whose name equals or contains the text |
| LineService.RemoveTodayStoreCmd | app/services/line_service.py:1132-1177 | refused with no store today or no matching one, with nothing changed; otherwise that store's row is removed, the cache dropped, the change committed and the "remove" event flushed |
| LineService.DropTodayStore | app/services/line_service.py:1160-1175 | the removal of a store that is today's: its row goes, the cache entry goes, a commit and the "remove" event follow |
| LineService.ClearTodayStoresCmd | app/services/line_service.py:1179-1207 | refused iff the group has no store today; otherwise every row of the day goes, the cache entry goes, a commit and the "clear" event follow |
| LineService.SetStoreByKeyword | app/services/line_service.py:887-904 | a single keyword match clears the day, sets that store, drops the cache entry, commits and flushes the "set" event |
| LineService.StartOrderingCmd | app/services/line_service.py:1239-1283 | refused iff a session is ordering or no store is set today, with nothing changed; otherwise a new session is opened and ordering, a system message marks its start, and the "ordering" status is committed and flushed; at most one ordering session per group is kept |
| LineService.OpenSession | app/services/line_service.py:1256-1277 | the opening: a fresh session, the start marker in the chat, a commit and the "ordering" event; the one-ordering-session invariant is kept |
| LineService.EndOrderingCmd | app/services/line_service.py:1285-1316 | refused iff nothing is ordering; otherwise the ordering session is ended by the user, its summary computed, and the "ended" status committed and flushed; afterwards the group has no ordering session |
| LineService.BumpNames | app/services/line_service.py:1391-1392 | one insertion-ordered dictionary update keeps the list of names, or appends the new name last |
| LineService.BumpDistinct | app/services/line_service.py:1391-1392 | one dictionary update keeps the names distinct and adds exactly the new name |
| LineService.BumpCount | app/services/line_service.py:1391-1392 | one dictionary update adds the quantity to that name's count and keeps every other count |
| LineService.TalliedCounts | app/services/line_service.py:1373-1392 | the item tally holds each name once, exactly the names of the session's lines, each with its total quantity |
| LineService.GrandTotalIsLineSum | app/services/line_service.py:1373-1395 | when each order's total is the sum of its lines, the grand total is the sum of all the session's line subtotals |
| LineService.TallyLines | app/services/line_service.py:1381-1392 | the inner loop over one order's lines extends the tally by exactly those lines |
| LineService.SessionSummary | app/services/line_service.py:1364-1412 | the loop over the session's orders yields each order's user and total, the item tally, its ranking, the grand total and the headcount, or no orders |
| LineService.SummaryRanking | app/services/line_service.py:1397-1403 | the item ranking is the tally in descending quantity, a permutation of it; the headcount is the number of orders and the grand total their total |
| LineService.AfterViolationFacts | app/services/line_service.py:1967-1977 | the ban check only bans: below the threshold, for an unknown user or an already banned one nothing changes; at the threshold the user becomes banned; no other user changes |
| LineService.LogSecurityEvent | app/services/line_service.py:1937-1977 | the log row is appended and the user table becomes the ban check applied to the user's violation count, which includes the new row |
| LineService.LoggedEventCounts | app/services/line_service.py:1958-1968 | the row just logged counts towards its user: the count goes up by one |
| LineService.ArchiveRows | app/services/line_service.py:2029-2031 | that application's rows become archived and every other row is unchanged |
| LineService.ArchivedIsNotLatest | app/services/line_service.py:2029-2031 | once the rejected application is archived it is no longer the group's latest |
| LineService.HandlePendingGroupChat | app/services/line_service.py:1982-2049 | the member is recorded (a new one is announced); a pending latest application answers only help requests; a rejected one archives itself with a note on a help request and starts re-application otherwise; none starts a new application |
| LineService.HandleLeave | app/services/line_service.py:2351-2356 | a known group becomes inactive; nothing else changes |
| LineService.Rejoin | app/services/line_service.py:2385-2399 | no record and a changed status are refused with nothing changed; only an inactive group moves, to the target status |
| LineService.RejoinRestore | app/services/line_service.py:2385-2410 | an inactive group goes back to active, and only an inactive one |
| LineService.RejoinReapply | app/services/line_service.py:2412-2437 | an inactive group goes back to pending, and only an inactive one |
| LineService.LeaveThenRestore | app/services/line_service.py:2351-2399 | leaving and then restoring gives the group its active status back with the rest of the table as before |
| LineService.FailuresOfBatch | app/services/line_service.py:1534-1536 | the appended errors are exactly those of failed actions: none iff every action succeeded |
| LineService.AiAnswerSilent | app/services/line_service.py:1506-1551 | the assistant stays silent iff its message is empty, no action failed and no summary is due; any failure is always reported |
| LineService.RecordAnswer | app/services/line_service.py:1557-1574 | only a non-empty AI message is stored, without errors or summary, and broadcast |
| LineService.AnswerAi | app/services/line_service.py:1504-1576 | the actions run only when there are actions and an open session; the reply follows AiAnswer over the batch's results and the session summary after the batch; the AI's own message is stored iff it is non-empty |
| LineService.RunForAnswer | app/services/line_service.py:1521-1546 | the order state becomes the batch's result and the reply is built from its outcomes and the post-batch summary |
| LineService.RecordUserMessage | app/services/line_service.py:1425-1442 | the user's message is stored with the group, user and session, and broadcast |
| LineService.HandleCheckedChat | app/services/line_service.py:1414-1578 | the user's message is always stored first; a flagged message is logged, may ban, and gets no reply or order change; a clean one is answered as AnswerAi describes and logs nothing |
| LineService.HandleAiChat | app/services/line_service.py:1478-1491 | the sanitizer's reasons decide: a flagged message is logged with them and left unanswered, with no order change; otherwise no log and no ban |
| LineService.RecordMember | app/services/line_service.py:395-399 | the sender of a message in an active group becomes a member, once; a new member, and only a new one, queues one member_added group_update for the admin room |
| LineService.PostingMakesMember | app/services/line_service.py:395-399 | after the membership write for an active group, the sender passes `is_member_of_any_active_group`, the gate on personal AI chat |
| LineActions.StoreRowsFromItems | app/services/line_service.py:1870-1880 | every joined row gathered for a store is one of the menu items, with that item's own name and price |
| LineActions.MenuRowsFromItems | app/services/line_service.py:1868-1880 | every row gathered for the today stores is one of the menu items |
| LineActions.PriceFromMenu | app/services/line_service.py:1854-1907 | a non-zero price found for a request is that of a menu item whose name contains the requested name |
| LineActions.GatherMenuRows | app/services/line_service.py:1868-1880 | the outer loop gathers the join rows of every today store, store by store |
| LineActions.GatherStoreRows | app/services/line_service.py:1870-1880 | the inner loop gathers the join rows of one store in item table order |
| LineActions.LineRow | app/services/line_service.py:1729-1736 | the stored line carries the request's name, note and quantity at the menu price, with subtotal = price × quantity |
| LineActions.AddLinesShape | app/services/line_service.py:1716-1737 | the item loop only appends lines with fresh keys, at most one per request, all of them iff it did not stop early, and touches no order |
| LineActions.AddLinesContent | app/services/line_service.py:1716-1737 | the i-th appended line is the i-th request at its non-zero menu price; an early stop is at a malformed or unpriced request |
| LineActions.CreateStepLines | app/services/line_service.py:1699-1737 | past its guards, create-order keeps the existing lines and appends lines of the user's order only, each at a non-zero price with subtotal = price × quantity |
| LineActions.AddedLinesPriced | app/services/line_service.py:1723-1737 | every line the item loop appends belongs to the order, with a non-zero price and subtotal = price × quantity |
| LineActions.CreateStepOwner | app/services/line_service.py:1699-1713 | past its guards the user has an order in the session, the one the lines went to (the existing one, else a new one on the first today store) |
| LineActions.CreateStepSuccess | app/services/line_service.py:1687-1745 | a successful create inserted a line for every request, and the order's total is the sum of its lines, grown by the cost of the new ones |
| LineActions.AddedLinesTotal | app/services/line_service.py:1716-1740 | the appended lines all belong to the target order, so its line sum grows by exactly their cost |
| LineActions.CreateStepFailure | app/services/line_service.py:1716-1727 | a create that fails past its guards stopped at a malformed or unpriced request, keeps the lines before it and the new order, and recomputes no total |
| LineActions.RemoveStepFailures | app/services/line_service.py:1747-1781 | remove-item fails with no order iff the user has none, fails with no line iff no line of the order contains the name, changes nothing when it fails, and hands out no key |
| LineActions.RemoveStepSuccess | app/services/line_service.py:1762-1779 | after a successful remove the order survives iff it keeps a line, and then its total is its lines' sum |
| LineActions.SettledFacts | app/services/line_service.py:1771-1776 | settling keeps the lines, keeps the order iff it has a line left, and then sets its total to their sum |
| LineActions.RemoveKeepsKeysBelow | app/services/line_service.py:1762-1779 | remove-item keeps every line's order key among those already handed out |
| LineActions.CancelStepFacts | app/services/line_service.py:1783-1795 | cancel fails iff the user has no order, then changing nothing; otherwise neither the order nor any of its lines is left |
| LineActions.UpdateToUnknownItem | app/services/line_service.py:1797-1814 | when the old line was the order's last and the new item is not on the menu, the update fails yet leaves the user with an empty order of total 0 |
| LineActions.ActionStepFacts | app/services/line_service.py:1639-1672 | one action announces iff it succeeded and is an order action, with its own event; any other action leaves the orders alone and fails only when order data is unreadable |
| LineActions.RunFacts | app/services/line_service.py:1636-1685 | one outcome per action; only order actions fail; the batch announces iff some order action succeeded, with the event of the last such |
| LineActions.RunResults | app/services/line_service.py:1639-1672 | one outcome per action, and a failure only from an order action |
| LineActions.RunAnnounces | app/services/line_service.py:1637-1665 | the recorded event is that of the last successful order action, and there is one iff such an action exists |
| LineActions.RunWithoutOrderActions | app/services/line_service.py:1666-1667 | with no order action in the batch, no order changes, nothing is announced and every action succeeds |
| LineActions.PrepareOrder | app/services/line_service.py:1699-1713 | the user's order in the session, or a new one on the first today store, is the target of the lines |
| LineActions.LookUpPrice | app/services/line_service.py:1723 | the price of a well-formed request is the tiered menu lookup with its name and category |
| LineActions.InsertLines | app/services/line_service.py:1716-1737 | the item loop on the database does exactly what AddLines describes |
| LineActions.CreateAction | app/services/line_service.py:1687-1745 | create-order on the database: no items and no store fail first; otherwise the order is prepared, the lines inserted, and the total recomputed only when all were inserted |
| LineActions.FindLine | app/services/line_service.py:1762-1763 | the scan returns the first of the order's lines whose name equals or contains the text |
| LineActions.ShrinkLine | app/services/line_service.py:1764-1769 | the matched line goes when the quantity covers it, else loses that many units with its subtotal recomputed |
| LineActions.SettleOrder | app/services/line_service.py:1771-1776 | the total is recomputed and the order deleted when it has no line left |
| LineActions.RemoveAction | app/services/line_service.py:1747-1781 | remove-item on the database does what RemoveStep describes |
| LineActions.CancelAction | app/services/line_service.py:1783-1795 | cancel on the database deletes the user's order and its lines |
| LineActions.UpdateAction | app/services/line_service.py:1797-1814 | update removes up to 999 units of the old item and then creates the new one; a failed create does not undo the removal |
| LineActions.RunAction | app/services/line_service.py:1640-1672 | one action is dispatched on its type, with its event on success; a non-order type succeeds untouched |
| LineActions.ExecuteGroupActions | app/services/line_service.py:1625-1685 | the orders become the batch's result; when an order action succeeded, one commit and one order_update event for the last of them are flushed; otherwise the bus is untouched |
| LineActions.RunActions | app/services/line_service.py:1639-1672 | the loop over the actions gives the batch's state, outcomes and last event |
| LineActions.AnnounceBatch | app/services/line_service.py:1675-1683 | a commit, then the single order_update event, flushed |
| AdminRouter.Live | app/routers/admin.py:39-44 | a token survives the purge iff it is stored and its expiry is not before now, with its expiry unchanged |
| AdminRouter.BearerTokenRecovered | app/routers/admin.py:61 | a token without spaces is read back unchanged from "Bearer <token>" and from the bare token |
| AdminRouter.BearerRemovedEverywhere | app/routers/admin.py:61 | the header is cleaned with a replace-all: a later "Bearer " inside it is removed as well |
| AdminRouter.CreatedTokenLifetime | app/routers/admin.py:47-68 | a token just created is accepted until 24 hours after its creation and refused after that |
| AdminRouter.AdminSessions.constructor | app/routers/admin.py:35 | the token store starts empty |
| AdminRouter.AdminSessions.CleanupExpired | app/routers/admin.py:39-44 | every token whose expiry lies before now is deleted, and nothing else |
| AdminRouter.AdminSessions.CreateSession | app/routers/admin.py:47-52 | expired tokens are purged and the new token expires 24 hours from now |
| AdminRouter.AdminSessions.VerifyToken | app/routers/admin.py:55-69 | a missing header, an unknown token and an expired token all give 401; only the expired token is deleted; a live token is accepted with the store unchanged |
| AdminRouter.RemoveGroupAdmin | app/routers/admin.py:620-641 | 400 with nothing changed while the group has at most one admin, whoever is named; otherwise 404 iff the user is not an admin, else exactly that binding is deleted |
| AdminRouter.ReplaceApplication | app/routers/admin.py:697-700 | the row with that key is replaced and every other row is kept, in place |
| AdminRouter.ApprovalActivatesGroup | app/routers/admin.py:700-717 | after approval the LINE group is found active, with the application's name and code, whether or not it existed before |
| AdminRouter.ReviewApplication | app/routers/admin.py:678-722 | 404 iff the application is unknown, changing nothing; otherwise its status, review time and note are recorded, and on approval the group is created or updated as active; other statuses leave the groups alone |
| AdminRouter.ProxyPriceFacts | app/routers/admin.py:983-987 | the price is that of the first menu row whose name equals or contains the requested one; no matching row gives 0 |
| AdminRouter.ProxyPriceNoMatch | app/routers/admin.py:983-987 | with no matching menu row the price stays 0 |
| AdminRouter.ProxyPriceFirstMatch | app/routers/admin.py:983-987 | the first matching row's price is taken, and the scan stops there |
| AdminRouter.PriceItemsFacts | app/routers/admin.py:973-1003 | either every requested item becomes a line at its non-zero menu price, in order, or the first item priced 0 is named and the request is refused |
| AdminRouter.CreateProxyOrder | app/routers/admin.py:923-1021 | 400 without an ordering session, 404 for an unknown user, 400 without a today store or for an unpriced item, all changing nothing; otherwise the priced lines are appended with fresh keys to the user's order in the session (created when missing), no other order row changes except that order's total, which grows by their cost, and the update is committed and broadcast |
| AdminRouter.PlaceProxyOrder | app/routers/admin.py:958-1019 | the user's order (existing or new) receives the priced lines, appended to the item table with fresh keys; the order table changes only by that order's insertion and its total, which becomes the old lines' sum plus theirs; a commit with the "created" event follows |
| AdminRouter.AnnounceProxy | app/routers/admin.py:1010-1019 | the order_update event is queued, then committed and dispatched |
| AdminRouter.UpdateProxyOrder | app/routers/admin.py:1025-1112 | 404 for an unknown order, 400 without a today store or for an unpriced item, all changing nothing; otherwise every line of the order is replaced by the new ones, the order's total becomes their sum while every other order row stays as it was, and the "updated" event is committed and broadcast |
| AdminRouter.ReplaceProxyLines | app/routers/admin.py:1057-1110 | the order's old lines are deleted, the new ones appended with fresh keys, only that order's total is rewritten (to their sum) in the order table, and a commit with the "updated" event follows |
| AdminRouter.CleanupChat | app/routers/admin.py:1168-1187 | a retention below 30 days gives 400 and deletes nothing; otherwise exactly the messages older than the cutoff are deleted and counted |
| AdminRouter.SecurityLogPage | app/routers/admin.py:1192-1210 | at most 100 logs whatever the limit, each stored and matching the filters, newest first |
| LineAdminRouter.MaskCode | app/routers/line_admin.py:202-208 | an empty code masks to empty; a one- or two-character code shows its first character and one asterisk; a longer one keeps its length, first and last characters, and hides every other character |
| LineAdminRouter.MaskHidesMiddle | app/routers/line_admin.py:202-208 | codes that agree on their first character and, past two characters, on their length and last character are masked alike |
| LineAdminRouter.CreateApplication | app/routers/line_admin.py:140-172 | 400 while the group has a pending application, then 400 for a code outside 4 to 20 characters, with nothing stored; otherwise a pending application with that code is stored |
| LineAdminRouter.SecondApplicationRefused | app/routers/line_admin.py:148-153 | once an application is stored the group has a pending one, so a second is refused until review |
| LineAdminRouter.LineAdminLogin | app/routers/line_admin.py:101-133 | 401 exactly when no active group is reached through the approved applications with that code; otherwise each such group is listed once, and only those |
| LineAdminRouter.CollectGroups | app/routers/line_admin.py:116-125 | the loop lists every active group an approved application reaches, each id once, and nothing else |
| LineAdminRouter.RecodeApplicationRows | app/routers/line_admin.py:415-418 | the approved applications with the current code now carry the new one; every other row is unchanged |
| LineAdminRouter.RecodeGroupRows | app/routers/line_admin.py:420-424 | the active groups with the current code now carry the new one; every other row is unchanged |
| LineAdminRouter.RecodeStoreRows | app/routers/line_admin.py:426-430 | the group-scoped stores with the current code now carry the new one; every other row is unchanged |
| LineAdminRouter.ChangeGroupCode | app/routers/line_admin.py:394-433 | 401 when no approved application has the current code, 400 for a new code outside 4 to 20 characters, both changing nothing; otherwise the code is rewritten on those applications, active groups and group stores |
| LineAdminRouter.OldCodeRetired | app/routers/line_admin.py:394-433 | after a change to a different code no approved application, active group or group store keeps the old one, and each recoded application is found under the new code |
| LineAdminRouter.CanEditFlagAgrees | app/routers/line_admin.py:466 | the listing's can_edit flag agrees with the repository's can_edit_store |
| LineAdminRouter.ViewStatus | app/routers/line_admin.py:615-636 | 404 iff the store is unknown; 403 iff it is a group store of another code; a global store is open to every code |
| LineAdminRouter.EditStatus | app/routers/line_admin.py:518-541 | 404 iff the store is unknown; allowed iff it is a group store of this code; a global store is always refused |
| LineAdminRouter.EditImpliesView | app/routers/line_admin.py:518-636 | whatever a code may edit it may view, and for a group store viewing and editing are allowed alike |
| LineAdminRouter.LoginEntryName | app/routers/line_admin.py:118-125 | an approved application contributes an entry iff its LINE group exists and is active; the entry is named by the group when that name is non-empty, and by the application when the group's name is missing or "" (Python's `or`) |
| ChatRouter.DefaultPrompt | app/routers/chat.py:182-275 | the manager text is chosen exactly for "manager_prompt"; every other name falls back to the group-ordering text |
| ChatRouter.ModeSelectsDefault | app/routers/chat.py:49-52 | each mode falls back to its own built-in prompt |
| ChatRouter.PromptResolutionStable | app/routers/chat.py:55-64 | reading through the cache does not change the answer: resolving again with the updated cache gives the same prompt and leaves the cache as it is |
| ChatRouter.ResolvePrompt | app/routers/chat.py:49-64 | a non-empty cached text wins, else the stored prompt (which is then cached), else the built-in default |
| ChatRouter.ExecuteAction | app/routers/chat.py:133-178 | one action with a known type and both ids changes the day's stores as set, add or remove, drops that group's cached list and queues one store_change; any other action changes nothing |
| ChatRouter.ExecuteActions | app/routers/chat.py:129-178 | the actions are applied in order, each effective one dropping its group's cache and queueing its event |
| ChatRouter.SetLeavesOnlyThatStore | app/routers/chat.py:139-146 | after an effective set the group's stores for the day are exactly the one set |
| ChatRouter.AddKeepsRemoveDrops | app/routers/chat.py:154-176 | an add keeps every store the group had and adds the new one; a remove leaves that store gone |
| ChatRouter.IgnoredActionsChangeNothing | app/routers/chat.py:133-178 | actions of unknown type or with a missing id change no row, queue no event and drop no cache entry |
| ChatRouter.Chat | app/routers/chat.py:40-85 | the prompt is resolved for the mode; actions in the answer are executed, then committed and broadcast; without actions nothing is written or committed; the answer is returned as given |
| MenuService.Normalize | app/services/menu_service.py:344-347 | the normalised name is no longer than the input, and every character in it is a lower-case word character that is not whitespace |
| MenuService.NormalizeFixes | app/services/menu_service.py:344-347 | a name made only of lower-case word characters is its own normal form |
| MenuService.NormalizeIdempotent | app/services/menu_service.py:344-347 | normalising twice gives the same result as normalising once |
| MenuService.NormalizeIgnoresCase | app/services/menu_service.py:344-347 | two names that differ only in ASCII letter case normalise to the same string |
| MenuService.VariantOrderIgnored | app/services/menu_service.py:349-371 | variants are compared after sorting by name, so listing two variants with different names in either order does not make an item differ |
| MenuService.ItemChangesFacts | app/services/menu_service.py:373-393 | an item has no changes against itself; at most three changes are listed; a price change (old, new) is listed iff the prices differ; a promotion change is listed iff the promotions differ; either kind of difference also makes the items differ |
| MenuService.ModifiedWithoutChanges | app/services/menu_service.py:349-393 | on a concrete item with a repeated variant name, the two comparisons disagree: the item counts as differing, yet no change is listed |
| MenuService.Put | app/services/menu_service.py:259-261 | assigning a key to a dictionary keeps it well formed; the key now maps to the new value and every other key is unchanged |
| MenuService.Remove | app/services/menu_service.py:253-256 | deleting a key keeps the dictionary well formed; the key is now absent and every other key is unchanged |
| MenuService.Values | app/services/menu_service.py:264 | the values list has one entry per key, in key insertion order, each being the value stored under that key |
| MenuService.TagAll | app/services/menu_service.py:244-250 | each item gets its category's name unless it already has a category key of its own; length and order are kept |
| MenuService.LastWithKey | app/services/menu_service.py:295-301 | the result is an entry whose normalised name is the key; the result is None iff no entry normalises to that key |
| MenuService.Index | app/services/menu_service.py:295-301 | the index is a well-formed dictionary, and each key looks up the last entry whose name normalises to that key |
| MenuService.IndexCategory | app/services/menu_service.py:296-301 | the inner indexing loop gives the same index as the entries seen so far plus this category's tagged items |
| MenuService.IndexStep | app/services/menu_service.py:296-301 | indexing one more item of a category is one more dictionary assignment |
| MenuService.BuildIndex | app/services/menu_service.py:295-310 | the indexing loops build the index of every item of every category, in menu order |
| MenuService.IndexKeyed | app/services/menu_service.py:295-301 | every key of the index is the normalised name of the item stored under it |
| MenuService.ClassifyMembers | app/services/menu_service.py:319-331 | each key of the pass over the new index goes to exactly one list. Added: the key is unknown in the old index. Modified: the key is known and the items differ, with the old item and the listed changes. Unchanged: the key is known and the items do not differ |
| MenuService.RemovedMembers | app/services/menu_service.py:333-335 | the pass over the old index holds exactly the old items whose key the new index lacks |
| MenuService.CompareFacts | app/services/menu_service.py:281-342 | `compare_menus` files every new item under exactly one of added, modified and unchanged, under the conditions listed for ClassifyMembers; removed is exactly the old items whose normalised name the new menu lacks |
| MenuService.ClassifySelf | app/services/menu_service.py:319-335 | against an identical index, nothing is added, modified or removed, and every item is unchanged, in key order |
| MenuService.CompareSelf | app/services/menu_service.py:281-342 | comparing a menu with itself gives empty added, modified and removed lists, and unchanged is every indexed item |
| MenuService.CompareMenus | app/services/menu_service.py:281-342 | the loops of `compare_menus` compute the comparison whose properties CompareFacts states |
| MenuService.ClassifyLoop | app/services/menu_service.py:319-331 | the loop over the new index builds the added, modified and unchanged lists |
| MenuService.RemovedLoop | app/services/menu_service.py:333-335 | the loop over the old index builds the removed list |
| MenuService.CategoryNamesMembers | app/services/menu_service.py:268-279 | the group names are exactly the categories the items carry, with "未分類" for an item without one |
| MenuService.CategoryNamesDistinct | app/services/menu_service.py:268-279 | no category appears twice among the groups |
| MenuService.CategoryNamesOrder | app/services/menu_service.py:268-279 | categories appear in the order the items first name them |
| MenuService.ItemsOfUnnamedCategory | app/services/menu_service.py:268-279 | a category that no item names holds no items |
| MenuService.ItemsOfCategoryFacts | app/services/menu_service.py:268-279 | each group's items have no category key; every input item of that category appears in the group, stripped; a group holds no more items than the input |
| MenuService.GroupedFacts | app/services/menu_service.py:268-279 | `_group_items_by_category` gives distinct groups in first-seen order. An item without a category lands in "未分類"; every item lands, stripped of its category key, in the group of its category |
| MenuService.GroupStep | app/services/menu_service.py:271-277 | one item of the grouping loop adds its category as a new name only if unseen, and appends the item to that category's list |
| MenuService.GroupItemsByCategory | app/services/menu_service.py:268-279 | the grouping loop over a dictionary of lists returns the grouping whose properties GroupedFacts states |
| MenuService.RemoveAll | app/services/menu_service.py:253-256 | removing a list of names keeps the dictionary well formed |
| MenuService.PutAll | app/services/menu_service.py:259-261 | storing a list of items keeps the dictionary well formed |
| MenuService.RemoveAllLookup | app/services/menu_service.py:253-256 | after the removal loop a key is absent iff some name normalises to it; otherwise it keeps its old value |
| MenuService.PutAllLookup | app/services/menu_service.py:259-261 | after the apply loop a key holds the last applied item whose name normalises to it; keys no item names keep their old value |
| MenuService.MergedLookup | app/services/menu_service.py:242-261 | the merged index looks a name up in three steps. An applied item wins; a name that was only removed is absent; any other name keeps the stored menu's item |
| MenuService.MergeItems | app/services/menu_service.py:242-261 | the indexing, removal and apply loops of `save_menu_diff` compute the merged index |
| MenuService.RemoveNames | app/services/menu_service.py:253-256 | the removal loop deletes each listed name after normalising it, and keeps the dictionary well formed |
| MenuService.PutItems | app/services/menu_service.py:259-261 | the apply loop stores each item under its normalised name |
| MenuService.NewItems | app/services/menu_service.py:188-198 | one created row per item of the category |
| MenuService.LayoutFacts | app/services/menu_service.py:180-198 | the created categories keep the input's names, order and count. Each belongs to the menu and has its list index as sort order. Every created item is available. All keys are fresh and category keys increase |
| MenuService.LayoutCategories | app/services/menu_service.py:180-186 | the category loop creates one category per input entry, in the menu, named as the input, with its index as sort order and fresh, increasing keys |
| MenuService.LayoutItems | app/services/menu_service.py:188-198 | every created item row is available and uses only fresh keys |
| MenuService.StrippedAll | app/services/menu_service.py:276 | each item loses its category key; length and order are kept |
| MenuService.ReadBackAppend | app/services/menu_service.py:188-198 | reading back the rows of one category distributes over concatenation |
| MenuService.ReadBackOther | app/services/menu_service.py:188-198 | rows of other categories read back as nothing |
| MenuService.ReadBackNew | app/services/menu_service.py:188-198 | the rows created for a category read back as its items without the category key, in order, with sort order equal to the list index |
| MenuService.LayoutReadBack | app/services/menu_service.py:180-198 | `save_menu` round-trips: the items stored under the i-th created category read back as that category's input items, in order |
| MenuService.LayoutSize | app/services/menu_service.py:180-186 | one category row is created per input category |
| MenuService.LayoutBelow | app/services/menu_service.py:180-198 | every key the created rows use is below the next free key |
| MenuService.ReadBackAt | app/services/menu_service.py:180-198 | the round trip holds for the i-th category, given that it holds for the earlier ones |
| MenuService.ReadBackEarlier | app/services/menu_service.py:180-198 | rows created later, with newer keys, do not change what an earlier category reads back |
| MenuService.ReadBackLatest | app/services/menu_service.py:180-198 | the newest category reads back exactly its own items |
| MenuService.SaveReplacesCategories | app/services/menu_service.py:175-186 | after `save_menu` the menu's categories are exactly the created ones; every other menu's categories are unchanged |
| MenuService.CreateItems | app/services/menu_service.py:188-198 | the item loop appends one row per item, with fresh keys and the item's index as sort order |
| MenuService.CreateCategories | app/services/menu_service.py:180-198 | the category loop appends exactly the rows described by LayoutFacts and advances the key counter past them |
| MenuService.SaveMenu | app/services/menu_service.py:151-205 | gets or creates the store's single menu. Deletes that menu's categories and their items, leaving other menus' rows alone. Appends the layout rows and drops the store's cached menu |
| MenuService.SaveMenuDiff | app/services/menu_service.py:221-266 | with no stored menu, saves the applied items grouped by category; otherwise saves the grouped values of the merged index |
| MenuService.DiffKeepsApplied | app/services/menu_service.py:237-261 | an applied item is always kept, even when its name is also listed for removal; with no stored menu, only the applied items are saved |

## Left out

- The LINE Messaging API is not modelled: reply, push, the profile and group-name lookups, the HMAC-SHA256 webhook signature, and webhook and postback parsing. These are network I/O and foreign cryptography. A looked-up name is a parameter.
- The AI CLI subprocess, its timeouts and temporary files are not modelled; they are I/O. The AI's answer (message and actions) is a parameter, and `json.loads` is a partial function passed in.
- Image compression with PIL (`_compress_image`) and `recognize_menu_image` are not modelled; they are image I/O.
- The Socket.IO server and the `broadcast_*` emitters are not modelled. They are I/O; a dispatch is recorded in the event bus's effect trace.
- SQLAlchemy session mechanics are not modelled: flush, refresh, the identity map, and relationship collections read before a flush. Every read sees the current tables.
- The SHA-256 digest behind `hash_password` is not modelled. It is a parameter `hash`, and only its use is modelled.
- Wall-clock time and the Taipei calendar date are parameters. `activated_at`, `banned_at`, `ended_at` and similar timestamps take the value passed in.
- Floating point is not modelled. `Numeric(10,2)` amounts that the code turns into `float` are integer cents.
- Concurrency is not modelled. Every request runs alone, so no property is claimed for two requests that interleave.
- Reply and help texts are not modelled, including the today-store listing `_get_today_stores_summary`, the ID text, the guide to applying and the rejected-application message. Replies are modelled by their kind and their numbers.
- The LINE-side application flow is not modelled: `_handle_application_with_ai` and `_execute_application_actions`. It is driven entirely by the AI's free-form reply. Applications are modelled through `create_application` and `review_application`.
- The personal-chat AI flow after routing is not modelled: `_execute_personal_actions`, the personal quick-command summaries and `handle_join`'s welcome text. They update free-form preferences or only produce text. Routing of a personal message is modelled (`LineRouting.PersonalRouteFacts`).
- Building the AI's context is not modelled: the menus context `_build_menus_context`, today's chat history and the user's preferences. The model only states how the history lines are rendered (`AiService.FormatChatHistory`).
- The exception path of `_handle_ai_chat` (an AI call that raises) is not modelled; it only sends an apology text.
- The security-log statistics' per-day breakdown is not modelled; it groups by a timezone-dependent date. The total and the per-reason counts are modelled.
- `_get_group_code` asks `scalar_one_or_none` for the approved applications of the group, which raises when there are several. The model takes the newest approved one instead of the exception.
- A search with `ilike` is modelled as a substring test after ASCII lower-casing. Python's full Unicode case folding is not modelled.
- `str.lower()` is modelled on ASCII letters only. The regular expression class `\W` is approximated by ASCII rules plus the CJK and full-width punctuation this system's text contains.
- Negative indices: `mask_code` takes a code's last character with `code[-1]` (app/routers/line_admin.py:208), which `LineAdminRouter.MaskCode` writes as the element at index |code| - 1. The other negative slices are outside the model: `history[-history_limit:]` (app/services/line_service.py:325, 1517, 2145) cuts the AI's context window, which is not modelled, and `line_group_id[-8:]` (app/routers/chat.py:122) only names a group in the manager's AI context.
- Rows returned by a join come in item-table order. The SQL query gives no order, and the code takes the first match.
- Menu prices for the AI's order actions are gathered from the today stores' menus once per batch. The code queries them for each action; the batch writes no menu rows, so the results are the same.
- Review status, group status and order status are enumerations. The code stores them as strings, and only the listed values ever occur.
- `scalar_one_or_none` raises when two rows match. The model states the invariant the code relies on (one active session per group, one order per session and user) instead of the exception.
- A key that is not a valid UUID fails to parse in the routers before any lookup. Keys are opaque numbers here, so that error path is not modelled.
- `OrderService.ClearSessionOrders` deletes the session's orders in one step, together with their lines (the cascade). The code deletes them one at a time; the end state is the same.
- A failing proxy-order request (`create_proxy_order`, `update_proxy_order`) is checked before anything is written. The code writes rows and rolls the session back when it raises. Both leave the tables as they were.
- The ban threshold, the sanitizer's length limit and the notice texts are parameters, not the deployed configuration values.
- LineService.LogSecurityEvent: the model does not record the two commits the code makes (after the log row and after a ban) in the event-bus trace, because no event is queued around them.
- `delete_menu`, `get_store_menu` and `_serialize_menu` are not modelled. They are a cascade delete and a cached read; `save_menu_diff` takes the stored menu as a parameter.
- Sorting.StrLe: `ORDER BY name` is modelled as code-point order. The database collation may order names differently, for example by locale.
- StoreRepo.SearchByName: the `%` and `_` wildcards of `ilike` are not modelled. A `%` or `_` inside the search text is matched as a literal character.
- LineRouting.KeywordStores: `Store.name.contains(keyword)` runs as a SQL `LIKE`, where `%` and `_` in the keyword are wildcards. The model matches them as literal characters.
