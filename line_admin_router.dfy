// The group-code side of the LINE-admin HTTP API
// (app/routers/line_admin.py): applying for a group, logging in with a
// group code, changing that code everywhere it is stored, masking codes
// in listings, and the permission checks on group stores. A failing
// request raises before writing anything, so its tables stay as they were.

module LineAdminRouter {
  import opened Common
  import opened Tables
  import opened GroupRepo
  import opened StoreRepo

  // ---------------------------------------------------------------
  // mask_code

  function Stars(n: nat): (r: string)
    ensures |r| == n && forall i :: 0 <= i < n ==> r[i] == '*'
  {
    seq(n, _ => '*')
  }

  /** `mask_code`: only the first and last characters of a code are
      shown, every other character becomes an asterisk; a code of one or
      two characters shows its first character and one asterisk. */
  function MaskCode(code: string): (m: string)
    ensures code == [] <==> m == []
    ensures code != [] ==> m[0] == code[0]
    ensures 0 < |code| <= 2 ==> m == [code[0], '*']
    ensures |code| > 2 ==>
              |m| == |code| && m[|m| - 1] == code[|code| - 1]
              && forall i :: 0 < i < |m| - 1 ==> m[i] == '*'
  {
    if code == [] then []
    else if |code| <= 2 then [code[0], '*']
    else [code[0]] + Stars(|code| - 2) + [code[|code| - 1]]
  }

  /** The masked code reveals only the ends (and, past two characters,
      the length): codes that agree on those are masked alike. */
  lemma MaskHidesMiddle(a: string, b: string)
    requires a != [] && b != [] && a[0] == b[0]
    requires (|a| <= 2 && |b| <= 2) || (|a| == |b| && a[|a| - 1] == b[|b| - 1])
    ensures MaskCode(a) == MaskCode(b)
  {
  }

  // ---------------------------------------------------------------
  // create_application

  const MinCodeLength: int := 4
  const MaxCodeLength: int := 20

  predicate ValidCodeLength(code: string) {
    MinCodeLength <= |code| <= MaxCodeLength
  }

  predicate PendingFor(a: Application, lineGroupId: string) {
    a.lineGroupId == lineGroupId && a.status == AppPending
  }

  /** `get_pending_by_line_group_id`. */
  function PendingApplication(apps: seq<Application>, lineGroupId: string): Option<Application> {
    First(apps, (a: Application) => PendingFor(a, lineGroupId))
  }

  function NewApplication(id: Id, lineGroupId: string, groupName: Option<string>, contactInfo: Option<string>,
                          groupCode: string, now: Time): Application {
    Application(id, lineGroupId, groupName, contactInfo, Some(groupCode), AppPending, now, None, None)
  }

  /** `create_application`: refused with 400 while the group has a
      pending application, then with 400 for a code outside 4 to 20
      characters; otherwise a pending application is stored. */
  method CreateApplication(db: Database, lineGroupId: string, groupName: Option<string>, contactInfo: Option<string>,
                           groupCode: string, now: Time)
    returns (status: Status, id: Option<Id>)
    modifies db`applications, db`nextId
    ensures PendingApplication(old(db.applications), lineGroupId).Some? ==>
              status == BadRequest && id.None?
    ensures PendingApplication(old(db.applications), lineGroupId).None? && !ValidCodeLength(groupCode) ==>
              status == BadRequest && id.None?
    ensures status == BadRequest ==> db.applications == old(db.applications) && db.nextId == old(db.nextId)
    ensures PendingApplication(old(db.applications), lineGroupId).None? && ValidCodeLength(groupCode) ==>
              status == Ok && id == Some(old(db.nextId))
              && db.applications == old(db.applications)
                 + [NewApplication(old(db.nextId), lineGroupId, groupName, contactInfo, groupCode, now)]
  {
    if PendingApplication(db.applications, lineGroupId).Some? {
      return BadRequest, None;
    }
    if !ValidCodeLength(groupCode) {
      return BadRequest, None;
    }
    var newId := db.FreshId();
    db.applications := db.applications
      + [NewApplication(newId, lineGroupId, groupName, contactInfo, groupCode, now)];
    status, id := Ok, Some(newId);
  }

  /** Once an application is stored, the group has a pending one, so a
      second application is refused until the first is reviewed. */
  lemma SecondApplicationRefused(apps: seq<Application>, a: Application)
    requires PendingApplication(apps, a.lineGroupId).None? && a.status == AppPending
    ensures PendingApplication(apps + [a], a.lineGroupId) == Some(a)
  {
    var r := apps + [a];
    assert PendingFor(r[|apps|], a.lineGroupId);
    var found := PendingApplication(r, a.lineGroupId);
    var m :| 0 <= m < |r| && r[m] == found.value && PendingFor(r[m], a.lineGroupId);
    if m < |apps| {
      assert false;
    }
  }

  // ---------------------------------------------------------------
  // line_admin_login

  predicate ApprovedWith(a: Application, code: string) {
    a.groupCode == Some(code) && a.status == AppApproved
  }

  /** `get_approved_by_password`. */
  function ApprovedByCode(apps: seq<Application>, code: string): seq<Application> {
    Filter(apps, (a: Application) => ApprovedWith(a, code))
  }

  /** One group of the login answer. */
  datatype LoginGroup = LoginGroup(groupId: Id, groupName: Option<string>)

  /** The entry an approved application contributes: its LINE group when
      that group is active, named by the group or else by the application. */
  function LoginEntry(groups: seq<Group>, a: Application): Option<LoginGroup> {
    var g := GroupByLineId(groups, a.lineGroupId);
    if g.Some? && g.value.status == GroupActive then
      Some(LoginGroup(g.value.id, NameOr(g.value.name, a.groupName)))
    else None
  }

  /** Python's `name or fallback` on an optional name: None and "" are
      both falsy, so either gives way to the fallback. */
  function NameOr(name: Option<string>, fallback: Option<string>): Option<string> {
    if name.Some? && name.value != "" then name else fallback
  }

  /** An active group is listed under its own name only when that name is
      non-empty; a missing or empty name gives the application's name. */
  lemma LoginEntryName(groups: seq<Group>, a: Application)
    ensures var g := GroupByLineId(groups, a.lineGroupId);
      (LoginEntry(groups, a).Some? <==> g.Some? && g.value.status == GroupActive)
      && (LoginEntry(groups, a).Some? ==>
            LoginEntry(groups, a).value.groupId == g.value.id
            && (g.value.name.Some? && g.value.name.value != "" ==> LoginEntry(groups, a).value.groupName == g.value.name)
            && (g.value.name.None? || g.value.name == Some("") ==> LoginEntry(groups, a).value.groupName == a.groupName))
  {
  }

  predicate IdsDistinct(listed: seq<LoginGroup>) {
    forall j, k :: 0 <= j < k < |listed| ==> listed[j].groupId != listed[k].groupId
  }

  /** Some of the first `n` approved applications contributes `e`. */
  predicate ContributedBy(groups: seq<Group>, approved: seq<Application>, n: int, e: LoginGroup) {
    exists k :: 0 <= k < n && k < |approved| && LoginEntry(groups, approved[k]) == Some(e)
  }

  predicate Listed(listed: seq<LoginGroup>, id: Id) {
    exists j :: 0 <= j < |listed| && listed[j].groupId == id
  }

  lemma ListedAppend(listed: seq<LoginGroup>, e: LoginGroup)
    ensures forall id :: Listed(listed + [e], id) <==> Listed(listed, id) || id == e.groupId
  {
    var r := listed + [e];
    assert r[|listed|] == e;
    forall id | Listed(listed, id) ensures Listed(r, id) {
      var j :| 0 <= j < |listed| && listed[j].groupId == id;
      assert r[j] == listed[j];
    }
  }

  /** `line_admin_login`: the active groups reached through the approved
      applications with that code, each group once, in application order;
      401 when no application has the code or no group qualifies. */
  method LineAdminLogin(db: Database, password: string) returns (status: Status, listed: seq<LoginGroup>)
    ensures status == Ok || status == Unauthorized
    ensures status == Unauthorized <==> listed == []
    ensures var approved := ApprovedByCode(db.applications, password);
      IdsDistinct(listed)
      && (forall j :: 0 <= j < |listed| ==> ContributedBy(db.groups, approved, |approved|, listed[j]))
      && (forall k :: 0 <= k < |approved| && LoginEntry(db.groups, approved[k]).Some? ==>
            Listed(listed, LoginEntry(db.groups, approved[k]).value.groupId))
    ensures listed == [] <==>
              forall k :: 0 <= k < |ApprovedByCode(db.applications, password)| ==>
                LoginEntry(db.groups, ApprovedByCode(db.applications, password)[k]).None?
  {
    var approved := ApprovedByCode(db.applications, password);
    if approved == [] {
      return Unauthorized, [];
    }
    listed := CollectGroups(db.groups, approved);
    if listed == [] {
      return Unauthorized, [];
    }
    status := Ok;
  }

  /** The loop of `line_admin_login`: each approved application's active
      group, skipping ids already listed. */
  method CollectGroups(groups: seq<Group>, approved: seq<Application>) returns (listed: seq<LoginGroup>)
    ensures IdsDistinct(listed)
    ensures forall j :: 0 <= j < |listed| ==> ContributedBy(groups, approved, |approved|, listed[j])
    ensures forall k :: 0 <= k < |approved| && LoginEntry(groups, approved[k]).Some? ==>
              Listed(listed, LoginEntry(groups, approved[k]).value.groupId)
    ensures listed == [] <==> forall k :: 0 <= k < |approved| ==> LoginEntry(groups, approved[k]).None?
  {
    listed := [];
    var seen: set<Id> := {};
    var i := 0;
    while i < |approved|
      invariant 0 <= i <= |approved|
      invariant forall id :: id in seen <==> Listed(listed, id)
      invariant IdsDistinct(listed)
      invariant forall j :: 0 <= j < |listed| ==> ContributedBy(groups, approved, i, listed[j])
      invariant forall k :: 0 <= k < i && LoginEntry(groups, approved[k]).Some? ==>
                  LoginEntry(groups, approved[k]).value.groupId in seen
    {
      var e := LoginEntry(groups, approved[i]);
      if e.Some? && e.value.groupId !in seen {
        ListedAppend(listed, e.value);
        seen := seen + {e.value.groupId};
        listed := listed + [e.value];
      }
      i := i + 1;
    }
    if listed == [] {
      assert forall id :: !Listed(listed, id);
    } else {
      assert ContributedBy(groups, approved, |approved|, listed[0]);
    }
  }

  // ---------------------------------------------------------------
  // change_group_code

  /** The rows `change_group_code` rewrites. */
  function RecodedApplication(a: Application, current: string, newCode: string): Application {
    if ApprovedWith(a, current) then a.(groupCode := Some(newCode)) else a
  }

  predicate ActiveWithCode(g: Group, code: string) {
    g.groupCode == Some(code) && g.status == GroupActive
  }

  function RecodedGroup(g: Group, current: string, newCode: string): Group {
    if ActiveWithCode(g, current) then g.(groupCode := Some(newCode)) else g
  }

  function RecodedStore(s: Store, current: string, newCode: string): Store {
    if InScope(s, GroupScope, Some(current)) then s.(groupCode := Some(newCode)) else s
  }

  function RecodeApplications(apps: seq<Application>, current: string, newCode: string): (r: seq<Application>)
    ensures |r| == |apps| && forall i :: 0 <= i < |r| ==> r[i] == RecodedApplication(apps[i], current, newCode)
  {
    seq(|apps|, i requires 0 <= i < |apps| => RecodedApplication(apps[i], current, newCode))
  }

  function RecodeGroups(groups: seq<Group>, current: string, newCode: string): (r: seq<Group>)
    ensures |r| == |groups| && forall i :: 0 <= i < |r| ==> r[i] == RecodedGroup(groups[i], current, newCode)
  {
    seq(|groups|, i requires 0 <= i < |groups| => RecodedGroup(groups[i], current, newCode))
  }

  function RecodeStores(stores: seq<Store>, current: string, newCode: string): (r: seq<Store>)
    ensures |r| == |stores| && forall i :: 0 <= i < |r| ==> r[i] == RecodedStore(stores[i], current, newCode)
  {
    seq(|stores|, i requires 0 <= i < |stores| => RecodedStore(stores[i], current, newCode))
  }

  /** The approved applications with the old code now carry the new one. */
  method RecodeApplicationRows(db: Database, current: string, newCode: string)
    modifies db`applications
    ensures db.applications == RecodeApplications(old(db.applications), current, newCode)
  {
    var i := 0;
    while i < |db.applications|
      invariant 0 <= i <= |db.applications| == |old(db.applications)|
      invariant forall j :: 0 <= j < i ==> db.applications[j] == RecodedApplication(old(db.applications)[j], current, newCode)
      invariant forall j :: i <= j < |db.applications| ==> db.applications[j] == old(db.applications)[j]
    {
      db.applications := db.applications[i := RecodedApplication(db.applications[i], current, newCode)];
      i := i + 1;
    }
  }

  /** The active groups with the old code now carry the new one. */
  method RecodeGroupRows(db: Database, current: string, newCode: string)
    modifies db`groups
    ensures db.groups == RecodeGroups(old(db.groups), current, newCode)
  {
    var i := 0;
    while i < |db.groups|
      invariant 0 <= i <= |db.groups| == |old(db.groups)|
      invariant forall j :: 0 <= j < i ==> db.groups[j] == RecodedGroup(old(db.groups)[j], current, newCode)
      invariant forall j :: i <= j < |db.groups| ==> db.groups[j] == old(db.groups)[j]
    {
      db.groups := db.groups[i := RecodedGroup(db.groups[i], current, newCode)];
      i := i + 1;
    }
  }

  /** The group-scoped stores with the old code now carry the new one. */
  method RecodeStoreRows(db: Database, current: string, newCode: string)
    modifies db`stores
    ensures db.stores == RecodeStores(old(db.stores), current, newCode)
  {
    var i := 0;
    while i < |db.stores|
      invariant 0 <= i <= |db.stores| == |old(db.stores)|
      invariant forall j :: 0 <= j < i ==> db.stores[j] == RecodedStore(old(db.stores)[j], current, newCode)
      invariant forall j :: i <= j < |db.stores| ==> db.stores[j] == old(db.stores)[j]
    {
      db.stores := db.stores[i := RecodedStore(db.stores[i], current, newCode)];
      i := i + 1;
    }
  }

  /** `change_group_code`: 401 when no approved application has the
      current code, 400 for a new code outside 4 to 20 characters;
      otherwise the code is rewritten on those applications, on the active
      groups and on the group-scoped stores that carry it. */
  method ChangeGroupCode(db: Database, current: string, newCode: string) returns (status: Status)
    modifies db`applications, db`groups, db`stores
    ensures ApprovedByCode(old(db.applications), current) == [] ==> status == Unauthorized
    ensures ApprovedByCode(old(db.applications), current) != [] && !ValidCodeLength(newCode) ==> status == BadRequest
    ensures status != Ok ==>
              db.applications == old(db.applications) && db.groups == old(db.groups) && db.stores == old(db.stores)
    ensures ApprovedByCode(old(db.applications), current) != [] && ValidCodeLength(newCode) ==>
              status == Ok
              && db.applications == RecodeApplications(old(db.applications), current, newCode)
              && db.groups == RecodeGroups(old(db.groups), current, newCode)
              && db.stores == RecodeStores(old(db.stores), current, newCode)
  {
    if ApprovedByCode(db.applications, current) == [] {
      return Unauthorized;
    }
    if !ValidCodeLength(newCode) {
      return BadRequest;
    }
    RecodeApplicationRows(db, current, newCode);
    RecodeGroupRows(db, current, newCode);
    RecodeStoreRows(db, current, newCode);
    status := Ok;
  }

  /** After a change to a different code, the old code no longer opens
      anything: no approved application, no active group and (for a
      non-empty code) no group store keeps it, and each application that
      had it is found under the new code. */
  lemma OldCodeRetired(apps: seq<Application>, groups: seq<Group>, stores: seq<Store>, current: string, newCode: string)
    requires current != newCode
    ensures ApprovedByCode(RecodeApplications(apps, current, newCode), current) == []
    ensures forall a :: a in ApprovedByCode(apps, current) ==>
              a.(groupCode := Some(newCode)) in ApprovedByCode(RecodeApplications(apps, current, newCode), newCode)
    ensures forall g :: g in RecodeGroups(groups, current, newCode) ==> !ActiveWithCode(g, current)
    ensures current != [] ==>
              forall s :: s in RecodeStores(stores, current, newCode) && s.scope == GroupScope ==> s.groupCode != Some(current)
  {
    var recoded := RecodeApplications(apps, current, newCode);
    FilterKeepsNone(recoded, (a: Application) => ApprovedWith(a, current));
    forall a | a in ApprovedByCode(apps, current)
      ensures a.(groupCode := Some(newCode)) in ApprovedByCode(recoded, newCode)
    {
      var k :| 0 <= k < |apps| && apps[k] == a;
      assert recoded[k] == a.(groupCode := Some(newCode));
    }
  }

  // ---------------------------------------------------------------
  // store permissions

  /** The `can_edit` flag of the store listing. */
  predicate CanEditFlag(s: Store, code: string) {
    s.scope == GroupScope && s.groupCode == Some(code)
  }

  /** The listing's flag and the repository's `can_edit_store` agree. */
  lemma CanEditFlagAgrees(s: Store, code: string)
    ensures CanEditFlag(s, code) <==> CanEditStore(s, Some(code))
  {
  }

  function StoreById(stores: seq<Store>, id: Id): Option<Store> {
    First(stores, (s: Store) => s.id == id)
  }

  /** Viewing a store's menu: 404 for an unknown store, 403 for a group
      store of another code; global stores are open to every code. */
  function ViewStatus(store: Option<Store>, code: string): (r: Status)
    ensures r == NotFound <==> store.None?
    ensures r == Forbidden <==> store.Some? && store.value.scope == GroupScope && store.value.groupCode != Some(code)
    ensures store.Some? && store.value.scope == GlobalScope ==> r == Ok
  {
    if store.None? then NotFound
    else if store.value.scope == GroupScope && store.value.groupCode != Some(code) then Forbidden
    else Ok
  }

  /** Updating or deleting a store: 404 for an unknown store, 403 unless
      the repository lets this code edit it. */
  function EditStatus(store: Option<Store>, code: string): (r: Status)
    ensures r == NotFound <==> store.None?
    ensures r == Ok <==> store.Some? && CanEditFlag(store.value, code)
    ensures store.Some? && store.value.scope == GlobalScope ==> r == Forbidden
  {
    if store.None? then NotFound
    else if !CanEditStore(store.value, Some(code)) then Forbidden
    else Ok
  }

  /** Whatever a code may edit it may also view, and a code may view a
      group store exactly when it may edit it. */
  lemma EditImpliesView(store: Option<Store>, code: string)
    ensures EditStatus(store, code) == Ok ==> ViewStatus(store, code) == Ok
    ensures store.Some? && store.value.scope == GroupScope ==>
              (ViewStatus(store, code) == Ok <==> EditStatus(store, code) == Ok)
  {
  }
}
