// The pure decisions of LineService (app/services/line_service.py): which
// handler a LINE message reaches, the idle gate, the command parsers, and
// the store and price lookups over lists the service has already read.
// Replies are modelled by their kind, not their text.

module LineRouting {
  import opened Common
  import opened Tables

  const HelpKeywords: seq<string> := ["help", "jaba", "呷爸", "@jaba", "@呷爸"]
  const IdKeywords: seq<string> := ["id", "群組id", "groupid", "userid"]
  const TriggerKeywords: seq<string> := ["jaba", "呷爸", "點餐"]
  const EndKeywords: seq<string> := ["收單", "結單"]
  const SummaryKeywords: seq<string> := ["目前訂單", "訂單", "查看訂單", "訂單狀況", "點了什麼"]

  // ---------------------------------------------------------------
  // _should_respond_in_group

  /** `(should_respond, cleaned_message)`. */
  datatype Gate = Gate(respond: bool, message: string)

  /** The keyword loop: the lowered text is a keyword, lowered, with or
      without a leading "@". */
  predicate KeywordHit(lowered: string, keywords: seq<string>) {
    keywords != []
    && (lowered == Lower(keywords[0]) || lowered == "@" + Lower(keywords[0]) || KeywordHit(lowered, keywords[1..]))
  }

  function ShouldRespondInGroup(text: string, ordering: bool): Gate {
    if ordering then Gate(true, text)
    else if text == "開單" || text == "菜單" then Gate(true, text)
    else if KeywordHit(Lower(text), TriggerKeywords) then Gate(true, "help")
    else Gate(false, text)
  }

  /** The trigger keyword loop, written out. */
  lemma TriggerHit(t: string)
    ensures KeywordHit(t, TriggerKeywords) <==> t in ["jaba", "@jaba", "呷爸", "@呷爸", "點餐", "@點餐"]
  {
    assert Lower("jaba") == "jaba";
    assert Lower("呷爸") == "呷爸";
    assert Lower("點餐") == "點餐";
    assert "@" + "jaba" == "@jaba";
    assert "@" + "呷爸" == "@呷爸";
    assert "@" + "點餐" == "@點餐";
    var k1: seq<string> := ["呷爸", "點餐"];
    var k2: seq<string> := ["點餐"];
    assert TriggerKeywords[1..] == k1 && k1[1..] == k2 && k2[1..] == [];
    assert !KeywordHit(t, []);
    assert KeywordHit(t, k2) <==> t == "點餐" || t == "@點餐";
    assert KeywordHit(t, k1) <==> t == "呷爸" || t == "@呷爸" || KeywordHit(t, k2);
    assert KeywordHit(t, TriggerKeywords) <==> t == "jaba" || t == "@jaba" || KeywordHit(t, k1);
  }

  /** The idle gate: while ordering every message passes unchanged; when
      idle only exactly "開單" or "菜單" pass as they are, and
      jaba/呷爸/點餐 (optionally after "@", in any letter case) pass as
      "help"; everything else is dropped. */
  lemma IdleGate(text: string, ordering: bool)
    ensures ordering ==> ShouldRespondInGroup(text, ordering) == Gate(true, text)
    ensures !ordering ==>
      var g := ShouldRespondInGroup(text, ordering);
      (g.respond <==> text == "開單" || text == "菜單"
                      || Lower(text) in ["jaba", "@jaba", "呷爸", "@呷爸", "點餐", "@點餐"])
      && (g.respond && text != "開單" && text != "菜單" ==> g.message == "help")
      && (!g.respond ==> g.message == text)
  {
    TriggerHit(Lower(text));
  }

  // ---------------------------------------------------------------
  // _handle_special_command

  datatype Special = HelpReply | IdInfo

  /** Help keywords are answered only outside a non-active group (a
      pending group goes on to the application flow); the ID keywords
      are answered everywhere. `group` is None for a personal chat. */
  function SpecialCommand(text: string, group: Option<GroupStatus>): Option<Special> {
    var t := Lower(text);
    if t in HelpKeywords then
      if group.Some? && group.value != GroupActive then None else Some(HelpReply)
    else if t in IdKeywords then Some(IdInfo)
    else None
  }

  // ---------------------------------------------------------------
  // _handle_quick_command

  datatype Quick = StartCmd | EndCmd | MenuCmd | SummaryCmd

  /** The order summary keywords answer only while ordering; otherwise
      the text falls through to the next handler. */
  function QuickCommand(text: string, ordering: bool): Option<Quick> {
    var t := Lower(text);
    if text == "開單" then Some(StartCmd)
    else if t in EndKeywords then Some(EndCmd)
    else if text == "菜單" then Some(MenuCmd)
    else if t in SummaryKeywords then (if ordering then Some(SummaryCmd) else None)
    else None
  }

  // ---------------------------------------------------------------
  // _handle_admin_command

  datatype AdminCmd =
    | AskCode                        // "管理員" with no code
    | Bind(code: string)             // _bind_admin
    | Unbind                         // _unbind_admin
    | KeywordSet(store: Store)       // _try_set_store_by_keyword, one match
    | KeywordChoices(stores: seq<Store>)  // several matches listed
    | AdminHelp                      // an admin's text matched nothing
    | ShowToday                      // "今日"
    | ClearToday                     // "清除"
    | AskAddName                     // "加" with no name
    | AddToday(name: string)         // "加 X"
    | AskRemoveName                  // "移除" with no name
    | RemoveToday(name: string)      // "移除 X"

  predicate IsAdminCommand(text: string) {
    text == "今日" || text == "清除" || StartsWith(text, "加") || StartsWith(text, "移除")
  }

  /** `select(Store).where(Store.name.contains(keyword))`: every store in
      the table, whatever its scope or state. */
  function KeywordStores(stores: seq<Store>, keyword: string): seq<Store> {
    Filter(stores, (s: Store) => Contains(s.name, keyword))
  }

  function AdminCommand(text: string, isAdmin: bool, stores: seq<Store>): Option<AdminCmd> {
    if StartsWith(text, "管理員") then
      var code := Strip(text[3..]);
      if code == "" then Some(AskCode) else Some(Bind(code))
    else if text == "解除管理員" then Some(Unbind)
    else if !IsAdminCommand(text) then
      if !isAdmin then None
      else
        var matched := KeywordStores(stores, text);
        if matched == [] then Some(AdminHelp)
        else if |matched| == 1 then Some(KeywordSet(matched[0]))
        else Some(KeywordChoices(matched))
    else if !isAdmin then None
    else if text == "今日" then Some(ShowToday)
    else if text == "清除" then Some(ClearToday)
    else if StartsWith(text, "加") then
      var name := Strip(text[1..]);
      if name == "" then Some(AskAddName) else Some(AddToday(name))
    else
      var name := Strip(text[2..]);
      if name == "" then Some(AskRemoveName) else Some(RemoveToday(name))
  }

  /** Anyone may try to bind or unbind; every other admin command, and
      the store keyword search, answers only an admin; an admin always
      gets an answer. */
  lemma AdminCommandFacts(text: string, isAdmin: bool, stores: seq<Store>)
    ensures var r := AdminCommand(text, isAdmin, stores);
      (StartsWith(text, "管理員") ==> r.Some? && (r.value.AskCode? || r.value.Bind?))
      && (text == "解除管理員" ==> r == Some(Unbind))
      && (!isAdmin ==> (r.Some? <==> StartsWith(text, "管理員") || text == "解除管理員"))
      && (isAdmin ==> r.Some?)
      && (r.Some? && r.value.KeywordSet? ==> r.value.store in stores && Contains(r.value.store.name, text))
  {
    assert "解除管理員"[..3][0] != "管理員"[0];
    var matched := KeywordStores(stores, text);
    if |matched| == 1 {
      assert matched[0] in stores;
    }
  }

  // ---------------------------------------------------------------
  // handle_message / _handle_group_message

  datatype Route =
    | Dropped                     // banned user: no processing, no reply
    | SpecialReply(special: Special)
    | SuspendedNotice             // suspended group, help keyword
    | SuspendedSilent             // suspended group, anything else
    | PendingChat                 // _handle_pending_group_chat
    | QuickReply(quick: Quick)
    | AdminReply(admin: AdminCmd)
    | AiChat(text: string)        // _handle_ai_chat, with the unstripped text
    | Ignored                     // the idle gate dropped it

  /** The order in which a group message is tried: banned user, help and
      ID keywords, suspended group, not-active group, quick commands,
      admin commands (only while no session is open), the idle gate, AI.
      The gate's cleaned message is not used: the AI gets the original
      text. */
  function RouteGroupMessage(banned: bool, text: string, status: GroupStatus, ordering: bool,
                             isAdmin: bool, stores: seq<Store>): Route
  {
    if banned then Dropped
    else
      var t := Strip(text);
      Routed(text, status, ordering, SpecialCommand(t, Some(status)), Lower(t) in HelpKeywords,
             QuickCommand(t, ordering), if ordering then None else AdminCommand(t, isAdmin, stores),
             ShouldRespondInGroup(t, ordering).respond)
  }

  /** The order in which a group message's handlers are tried, given
      what each of them would make of the stripped text. */
  function Routed(text: string, status: GroupStatus, ordering: bool, special: Option<Special>, help: bool,
                  quick: Option<Quick>, admin: Option<AdminCmd>, respond: bool): Route
  {
    if special.Some? then SpecialReply(special.value)
    else if status == GroupSuspended then
      if help then SuspendedNotice else SuspendedSilent
    else if status != GroupActive then PendingChat
    else if quick.Some? then QuickReply(quick.value)
    else if admin.Some? then AdminReply(admin.value)
    else if respond then AiChat(text)
    else Ignored
  }

  /** Routing: a banned user is dropped before anything else; a
      suspended or not-active group answers only the ID keywords besides
      its own replies; admin commands are never reached while ordering;
      while ordering every other message reaches the AI, unstripped. */
  lemma RouteFacts(banned: bool, text: string, status: GroupStatus, ordering: bool,
                   isAdmin: bool, stores: seq<Store>)
    ensures var r := RouteGroupMessage(banned, text, status, ordering, isAdmin, stores);
      (r == Dropped <==> banned)
      && (!banned && status == GroupSuspended ==> r in {SpecialReply(IdInfo), SuspendedNotice, SuspendedSilent})
      && (!banned && (status == GroupPending || status == GroupInactive) ==> r in {SpecialReply(IdInfo), PendingChat})
      && (r.AdminReply? ==> !ordering && status == GroupActive)
      && (r.AiChat? ==> status == GroupActive && r.text == text)
      && (!banned && status == GroupActive && ordering ==> r.SpecialReply? || r.QuickReply? || r.AiChat?)
  {
    if !banned {
      var t := Strip(text);
      var special := SpecialCommand(t, Some(status));
      var help := Lower(t) in HelpKeywords;
      var quick := QuickCommand(t, ordering);
      var admin := if ordering then None else AdminCommand(t, isAdmin, stores);
      var respond := ShouldRespondInGroup(t, ordering).respond;
      assert RouteGroupMessage(banned, text, status, ordering, isAdmin, stores)
          == Routed(text, status, ordering, special, help, quick, admin, respond);
      SpecialOutsideActive(t, status);
      RoutedFacts(text, status, ordering, special, help, quick, admin, respond);
    }
  }

  /** Outside an active group the help keywords fall through; only the
      ID keywords are answered. */
  lemma SpecialOutsideActive(t: string, status: GroupStatus)
    ensures status != GroupActive && SpecialCommand(t, Some(status)).Some? ==>
      SpecialCommand(t, Some(status)).value == IdInfo
  {
  }

  lemma RoutedFacts(text: string, status: GroupStatus, ordering: bool, special: Option<Special>, help: bool,
                    quick: Option<Quick>, admin: Option<AdminCmd>, respond: bool)
    requires status != GroupActive && special.Some? ==> special.value == IdInfo
    requires ordering ==> admin.None? && respond
    ensures var r := Routed(text, status, ordering, special, help, quick, admin, respond);
      r != Dropped
      && (status == GroupSuspended ==> r in {SpecialReply(IdInfo), SuspendedNotice, SuspendedSilent})
      && (status == GroupPending || status == GroupInactive ==> r in {SpecialReply(IdInfo), PendingChat})
      && (r.AdminReply? ==> !ordering && status == GroupActive)
      && (r.AiChat? ==> status == GroupActive && r.text == text)
      && (status == GroupActive && ordering ==> r.SpecialReply? || r.QuickReply? || r.AiChat?)
  {
  }

  /** When no session is open the AI is reached only by "點餐" or
      "@點餐" (any letter case) from a non-admin: the other trigger words
      are help keywords, "開單" and "菜單" are quick commands, and an
      admin's text always gets an admin reply. */
  lemma IdleAiOnlyOnTrigger(banned: bool, text: string, status: GroupStatus,
                            isAdmin: bool, stores: seq<Store>)
    requires RouteGroupMessage(banned, text, status, false, isAdmin, stores).AiChat?
    ensures !isAdmin
    ensures Lower(Strip(text)) in ["點餐", "@點餐"]
  {
    var t := Strip(text);
    var l := Lower(t);
    var special := SpecialCommand(t, Some(status));
    var quick := QuickCommand(t, false);
    var admin := AdminCommand(t, isAdmin, stores);
    var respond := ShouldRespondInGroup(t, false).respond;
    assert !banned;
    assert RouteGroupMessage(banned, text, status, false, isAdmin, stores)
        == Routed(text, status, false, special, l in HelpKeywords, quick, admin, respond);
    RoutedAi(text, status, false, special, l in HelpKeywords, quick, admin, respond);
    ActiveSpecialNone(t);
    assert l !in HelpKeywords;
    assert t != "開單" && t != "菜單";
    AdminCommandFacts(t, isAdmin, stores);
    IdleGate(t, false);
    assert l in ["jaba", "@jaba", "呷爸", "@呷爸", "點餐", "@點餐"];
    assert l != "jaba" && l != "@jaba" && l != "呷爸" && l != "@呷爸";
  }

  /** The AI is reached only when every earlier handler passed. */
  lemma RoutedAi(text: string, status: GroupStatus, ordering: bool, special: Option<Special>, help: bool,
                 quick: Option<Quick>, admin: Option<AdminCmd>, respond: bool)
    requires Routed(text, status, ordering, special, help, quick, admin, respond).AiChat?
    ensures special.None? && status == GroupActive && quick.None? && admin.None? && respond
  {
  }

  /** In an active group every help keyword is answered. */
  lemma ActiveSpecialNone(t: string)
    ensures SpecialCommand(t, Some(GroupActive)).None? ==> Lower(t) !in HelpKeywords
  {
  }

  // ---------------------------------------------------------------
  // _handle_personal_message

  datatype PersonalQuick = ShowPreferences | ShowGroups | ShowOrders | ClearPreferences

  function PersonalQuickCommand(text: string): Option<PersonalQuick> {
    if text in ["我的設定", "設定", "偏好", "偏好設定", "我的偏好"] then Some(ShowPreferences)
    else if text in ["我的群組", "群組", "群組列表", "所屬群組"] then Some(ShowGroups)
    else if text in ["歷史訂單", "訂單紀錄", "訂單歷史", "我的訂單", "點過什麼"] then Some(ShowOrders)
    else if text in ["清除設定", "刪除設定", "重設設定", "清除偏好"] then Some(ClearPreferences)
    else None
  }

  datatype PersonalRoute =
    | PersonalDropped
    | PersonalSpecial(special: Special)
    | GuideToApply                  // not a member of any active group
    | PersonalQuickReply(quick: PersonalQuick)
    | PersonalAi(text: string)

  /** A one-to-one chat always gets an answer, except from a banned user. */
  function RoutePersonalMessage(banned: bool, text: string, isMember: bool): PersonalRoute {
    if banned then PersonalDropped
    else
      var t := Strip(text);
      PersonalRouted(text, isMember, SpecialCommand(t, None), PersonalQuickCommand(t))
  }

  /** The decision taken for an unbanned sender, given what each
      recogniser made of the stripped text. */
  function PersonalRouted(text: string, isMember: bool, special: Option<Special>,
                          quick: Option<PersonalQuick>): PersonalRoute {
    if special.Some? then PersonalSpecial(special.value)
    else if !isMember then GuideToApply
    else if quick.Some? then PersonalQuickReply(quick.value) else PersonalAi(text)
  }

  lemma PersonalRoutedFacts(text: string, isMember: bool, special: Option<Special>,
                            quick: Option<PersonalQuick>)
    ensures var r := PersonalRouted(text, isMember, special, quick);
      r != PersonalDropped
      && (special == Some(HelpReply) ==> r == PersonalSpecial(HelpReply))
      && (r.PersonalAi? ==> isMember)
  {
  }

  /** Help is always answered in a personal chat, before the membership
      check; a non-member never reaches the AI. */
  lemma PersonalRouteFacts(banned: bool, text: string, isMember: bool)
    ensures var r := RoutePersonalMessage(banned, text, isMember);
      (r == PersonalDropped <==> banned)
      && (!banned && Lower(Strip(text)) in HelpKeywords ==> r == PersonalSpecial(HelpReply))
      && (r.PersonalAi? ==> isMember && !banned)
  {
    if !banned {
      var t := Strip(text);
      var special := SpecialCommand(t, None);
      var quick := PersonalQuickCommand(t);
      assert RoutePersonalMessage(banned, text, isMember) == PersonalRouted(text, isMember, special, quick);
      if Lower(t) in HelpKeywords {
        assert special == Some(HelpReply);
      }
      PersonalRoutedFacts(text, isMember, special, quick);
    }
  }

  // ---------------------------------------------------------------
  // _find_store_by_name

  /** An exact name first; otherwise the first store whose name contains
      the text, even when several do. */
  function FindStoreByName(available: seq<Store>, name: string): Option<Store> {
    var exact := First(available, (s: Store) => s.name == name);
    if exact.Some? then exact else First(available, (s: Store) => Contains(s.name, name))
  }

  lemma FindStoreByNameFacts(available: seq<Store>, name: string)
    ensures var r := FindStoreByName(available, name);
      (r.None? <==> forall i :: 0 <= i < |available| ==> !Contains(available[i].name, name))
      && (r.Some? ==> r.value in available && Contains(r.value.name, name))
      && ((exists i :: 0 <= i < |available| && available[i].name == name) ==> r.Some? && r.value.name == name)
      && (r.Some? && r.value.name != name ==>
            exists k :: 0 <= k < |available| && available[k] == r.value
                        && forall i :: 0 <= i < k ==> !Contains(available[i].name, name))
  {
    var r := FindStoreByName(available, name);
    forall i | 0 <= i < |available| && available[i].name == name ensures Contains(available[i].name, name) {
      ContainsSelf(name);
    }
    if r.Some? && r.value.name == name {
      ContainsSelf(name);
    }
  }

  // ---------------------------------------------------------------
  // _find_item_price

  /** One row of the join of the today stores' menus: an item with its
      category's name. */
  datatype PricedItem = PricedItem(name: string, price: int, category: string)

  function PriceOf(r: Option<PricedItem>): int {
    if r.Some? then r.value.price else 0
  }

  /** The four tiers: exact name in the hinted category, a containing
      name in that category, exact name anywhere, a containing name
      anywhere; 0 when nothing matches. An empty hint skips the first
      two. */
  function FindItemPrice(all: seq<PricedItem>, name: string, category: string): int {
    var inCategory := if category != "" then
                        var exact := First(all, (x: PricedItem) => x.category == category && x.name == name);
                        if exact.Some? then exact
                        else First(all, (x: PricedItem) => x.category == category && Contains(x.name, name))
                      else None;
    if inCategory.Some? then inCategory.value.price
    else
      var exact := First(all, (x: PricedItem) => x.name == name);
      if exact.Some? then exact.value.price
      else PriceOf(First(all, (x: PricedItem) => Contains(x.name, name)))
  }

  /** A non-zero price is that of an item whose name contains the
      requested one; with no such item the price is 0; an exact match in
      the hinted category wins, and without a hint an exact match
      anywhere wins. A matching item priced 0 reads as "not found". */
  lemma FindItemPriceFacts(all: seq<PricedItem>, name: string, category: string)
    ensures var p := FindItemPrice(all, name, category);
      (p != 0 ==> exists i :: 0 <= i < |all| && Contains(all[i].name, name) && all[i].price == p)
      && ((forall i :: 0 <= i < |all| ==> !Contains(all[i].name, name)) ==> p == 0)
      && (category != "" && (exists i :: 0 <= i < |all| && all[i].category == category && all[i].name == name) ==>
            exists k :: 0 <= k < |all| && all[k].category == category && all[k].name == name && p == all[k].price
                        && forall i :: 0 <= i < k ==> !(all[i].category == category && all[i].name == name))
      && (category == "" && (exists i :: 0 <= i < |all| && all[i].name == name) ==>
            exists k :: 0 <= k < |all| && all[k].name == name && p == all[k].price
                        && forall i :: 0 <= i < k ==> all[i].name != name)
  {
    forall i | 0 <= i < |all| && all[i].name == name ensures Contains(all[i].name, name) {
      ContainsSelf(name);
    }
  }
}
