// app/repositories/group_repo.py: groups and their status, applications,
// memberships and admin bindings.

module GroupRepo {
  import opened Common
  import opened Tables
  import Sorting

  // ---------------------------------------------------------------
  // GroupRepository

  /** `get_by_line_group_id`. */
  function GroupByLineId(groups: seq<Group>, lineGroupId: string): Option<Group> {
    First(groups, (g: Group) => g.lineGroupId == lineGroupId)
  }

  /** `get_by_id`. */
  function GroupById(groups: seq<Group>, id: Id): Option<Group> {
    First(groups, (g: Group) => g.id == id)
  }

  /** The unique constraint on the LINE group id. */
  predicate LineIdsUnique(groups: seq<Group>) {
    forall i, j :: 0 <= i < j < |groups| ==> groups[i].lineGroupId != groups[j].lineGroupId
  }

  /** The table after `get_or_create`: unchanged when the LINE group is
      known, otherwise one pending group at the end. */
  function GetOrCreateRows(groups: seq<Group>, lineGroupId: string, name: Option<string>, freshId: Id): seq<Group> {
    if GroupByLineId(groups, lineGroupId).Some? then groups
    else groups + [Group(freshId, lineGroupId, name, None, None, GroupPending)]
  }

  /** A second `get_or_create` for the same LINE group adds nothing, and
      the LINE id stays unique. */
  lemma GetOrCreateIdempotent(groups: seq<Group>, lineGroupId: string, name1: Option<string>, name2: Option<string>, id1: Id, id2: Id)
    ensures var once := GetOrCreateRows(groups, lineGroupId, name1, id1);
      GetOrCreateRows(once, lineGroupId, name2, id2) == once
      && (LineIdsUnique(groups) ==> LineIdsUnique(once))
  {
    var once := GetOrCreateRows(groups, lineGroupId, name1, id1);
    if GroupByLineId(groups, lineGroupId).None? {
      assert once[|once| - 1].lineGroupId == lineGroupId;
    }
  }

  /** `get_or_create`: the group of that LINE id, created "pending" when
      there is none. */
  method GetOrCreateGroup(db: Database, lineGroupId: string, name: Option<string>) returns (g: Group)
    modifies db`groups, db`nextId
    ensures db.groups == GetOrCreateRows(old(db.groups), lineGroupId, name, old(db.nextId))
    ensures GroupByLineId(old(db.groups), lineGroupId).Some? ==>
              g == GroupByLineId(old(db.groups), lineGroupId).value && db.nextId == old(db.nextId)
    ensures GroupByLineId(old(db.groups), lineGroupId).None? ==>
              g == Group(old(db.nextId), lineGroupId, name, None, None, GroupPending)
              && db.nextId == old(db.nextId) + 1
    ensures g.lineGroupId == lineGroupId && g in db.groups
  {
    var found := GroupByLineId(db.groups, lineGroupId);
    if found.Some? {
      return found.value;
    }
    var id := db.FreshId();
    g := Group(id, lineGroupId, name, None, None, GroupPending);
    db.groups := db.groups + [g];
  }

  /** The group table with the row of that key replaced. */
  function ReplaceGroup(groups: seq<Group>, id: Id, g: Group): (r: seq<Group>)
    ensures |r| == |groups|
    ensures forall i :: 0 <= i < |r| ==> r[i] == (if groups[i].id == id then g else groups[i])
  {
    seq(|groups|, i requires 0 <= i < |groups| => if groups[i].id == id then g else groups[i])
  }

  /** Rewriting the group a LINE id finds, keeping that LINE id, leaves the
      lookup by LINE id finding the rewritten row. */
  lemma ReplaceKeepsLineLookup(groups: seq<Group>, lineGroupId: string, g2: Group)
    requires GroupByLineId(groups, lineGroupId).Some?
    requires g2.lineGroupId == lineGroupId
    ensures GroupByLineId(ReplaceGroup(groups, GroupByLineId(groups, lineGroupId).value.id, g2), lineGroupId) == Some(g2)
  {
    var g := GroupByLineId(groups, lineGroupId).value;
    var r := ReplaceGroup(groups, g.id, g2);
    var k :| 0 <= k < |groups| && groups[k] == g && groups[k].lineGroupId == lineGroupId
             && forall i :: 0 <= i < k ==> groups[i].lineGroupId != lineGroupId;
    assert r[k].lineGroupId == lineGroupId;
    var found := GroupByLineId(r, lineGroupId);
    assert found.Some?;
    var m :| 0 <= m < |r| && r[m] == found.value && r[m].lineGroupId == lineGroupId
             && forall i :: 0 <= i < m ==> r[i].lineGroupId != lineGroupId;
    assert m <= k;
    assert groups[m].id == g.id by {
      if m < k {
        assert groups[m].lineGroupId != lineGroupId;
      }
    }
  }

  /** Replacing a row keeps the other groups and makes the lookup by key
      return the new row. */
  lemma ReplaceGroupFound(groups: seq<Group>, id: Id, g: Group)
    requires g.id == id && GroupById(groups, id).Some?
    ensures GroupById(ReplaceGroup(groups, id, g), id) == Some(g)
    ensures forall other :: other != id ==> GroupById(ReplaceGroup(groups, id, g), other) == GroupById(groups, other)
  {
    ReplacedGroupFound(groups, id, g);
    forall other | other != id
      ensures GroupById(ReplaceGroup(groups, id, g), other) == GroupById(groups, other)
    {
      ReplaceKeepsOther(groups, id, g, other);
    }
  }

  lemma ReplacedGroupFound(groups: seq<Group>, id: Id, g: Group)
    requires g.id == id && GroupById(groups, id).Some?
    ensures GroupById(ReplaceGroup(groups, id, g), id) == Some(g)
  {
    var r := ReplaceGroup(groups, id, g);
    var k :| 0 <= k < |groups| && groups[k].id == id && forall i :: 0 <= i < k ==> groups[i].id != id;
    assert r[k] == g;
    var a := GroupById(r, id).value;
    var k2 :| 0 <= k2 < |r| && r[k2] == a && r[k2].id == id && forall i :: 0 <= i < k2 ==> r[i].id != id;
    assert k2 <= k;
  }

  lemma ReplaceKeepsOther(groups: seq<Group>, id: Id, g: Group, other: Id)
    requires g.id == id && other != id
    ensures GroupById(ReplaceGroup(groups, id, g), other) == GroupById(groups, other)
  {
    var r := ReplaceGroup(groups, id, g);
    assert forall i :: 0 <= i < |r| ==> (r[i].id == other <==> groups[i].id == other);
    assert forall i :: 0 <= i < |r| && groups[i].id == other ==> r[i] == groups[i];
    FirstAgrees(groups, r, other);
  }

  /** Two tables whose rows of key `other` coincide position by position
      agree on the lookup of `other`. */
  lemma {:induction false} FirstAgrees(a: seq<Group>, b: seq<Group>, other: Id)
    requires |a| == |b|
    requires forall i :: 0 <= i < |a| ==> (a[i].id == other <==> b[i].id == other)
    requires forall i :: 0 <= i < |a| && a[i].id == other ==> a[i] == b[i]
    ensures GroupById(a, other) == GroupById(b, other)
    decreases |a|
  {
    if a != [] && a[0].id != other {
      FirstAgrees(a[1..], b[1..], other);
    }
  }

  /** Shared by `suspend_group` and `activate_group`: None for an unknown
      key, otherwise the group with the new status. */
  method SetGroupStatus(db: Database, groupId: Id, status: GroupStatus) returns (r: Option<Group>)
    modifies db`groups
    ensures r.None? <==> GroupById(old(db.groups), groupId).None?
    ensures r.None? ==> db.groups == old(db.groups)
    ensures r.Some? ==> r.value == GroupById(old(db.groups), groupId).value.(status := status)
                        && db.groups == ReplaceGroup(old(db.groups), groupId, r.value)
                        && GroupById(db.groups, groupId) == r
  {
    var found := GroupById(db.groups, groupId);
    if found.None? {
      return None;
    }
    var g := found.value.(status := status);
    assert g.id == groupId;
    ReplaceGroupFound(db.groups, groupId, g);
    db.groups := ReplaceGroup(db.groups, groupId, g);
    r := Some(g);
  }

  /** `suspend_group`. */
  method SuspendGroup(db: Database, groupId: Id) returns (r: Option<Group>)
    modifies db`groups
    ensures r.None? <==> GroupById(old(db.groups), groupId).None?
    ensures r.None? ==> db.groups == old(db.groups)
    ensures r.Some? ==> r.value == GroupById(old(db.groups), groupId).value.(status := GroupSuspended)
                        && db.groups == ReplaceGroup(old(db.groups), groupId, r.value)
  {
    r := SetGroupStatus(db, groupId, GroupSuspended);
  }

  /** `activate_group`. */
  method ActivateGroup(db: Database, groupId: Id) returns (r: Option<Group>)
    modifies db`groups
    ensures r.None? <==> GroupById(old(db.groups), groupId).None?
    ensures r.None? ==> db.groups == old(db.groups)
    ensures r.Some? ==> r.value == GroupById(old(db.groups), groupId).value.(status := GroupActive)
                        && db.groups == ReplaceGroup(old(db.groups), groupId, r.value)
  {
    r := SetGroupStatus(db, groupId, GroupActive);
  }

  /** The fields `update_group_info` writes: only those passed. */
  function WithInfo(g: Group, name: Option<string>, description: Option<string>, groupCode: Option<string>): (r: Group)
    ensures r.id == g.id && r.lineGroupId == g.lineGroupId && r.status == g.status
    ensures r.name == (if name.Some? then name else g.name)
    ensures r.description == (if description.Some? then description else g.description)
    ensures r.groupCode == (if groupCode.Some? then groupCode else g.groupCode)
  {
    g.(name := if name.Some? then name else g.name,
       description := if description.Some? then description else g.description,
       groupCode := if groupCode.Some? then groupCode else g.groupCode)
  }

  /** Passing nothing changes nothing, and writing the same fields twice
      is writing them once. */
  lemma WithInfoLaws(g: Group, name: Option<string>, description: Option<string>, groupCode: Option<string>)
    ensures WithInfo(g, None, None, None) == g
    ensures WithInfo(WithInfo(g, name, description, groupCode), name, description, groupCode)
            == WithInfo(g, name, description, groupCode)
  {
  }

  /** `update_group_info`. */
  method UpdateGroupInfo(db: Database, groupId: Id, name: Option<string>, description: Option<string>,
                         groupCode: Option<string>) returns (r: Option<Group>)
    modifies db`groups
    ensures r.None? <==> GroupById(old(db.groups), groupId).None?
    ensures r.None? ==> db.groups == old(db.groups)
    ensures r.Some? ==> r.value == WithInfo(GroupById(old(db.groups), groupId).value, name, description, groupCode)
                        && db.groups == ReplaceGroup(old(db.groups), groupId, r.value)
  {
    var found := GroupById(db.groups, groupId);
    if found.None? {
      return None;
    }
    var g := WithInfo(found.value, name, description, groupCode);
    db.groups := ReplaceGroup(db.groups, groupId, g);
    r := Some(g);
  }

  // ---------------------------------------------------------------
  // GroupApplicationRepository

  predicate LiveApplicationOf(a: Application, lineGroupId: string) {
    a.lineGroupId == lineGroupId && a.status != AppArchived
  }

  function AppCreatedAt(a: Application): int { a.createdAt }

  /** `get_latest_by_line_group_id`: newest first, take one. */
  function LatestApplication(apps: seq<Application>, lineGroupId: string): Option<Application> {
    var live := Sorting.SortDesc(Filter(apps, (a: Application) => LiveApplicationOf(a, lineGroupId)), AppCreatedAt);
    if live == [] then None else Some(live[0])
  }

  /** The latest application is a non-archived one of that LINE group and
      no such application is newer; there is none only when every one of
      the group's applications is archived. */
  lemma LatestApplicationIsNewest(apps: seq<Application>, lineGroupId: string)
    ensures var r := LatestApplication(apps, lineGroupId);
      (r.None? <==> forall i :: 0 <= i < |apps| ==> !LiveApplicationOf(apps[i], lineGroupId))
      && (r.Some? ==> r.value in apps && LiveApplicationOf(r.value, lineGroupId)
                      && forall i :: 0 <= i < |apps| && LiveApplicationOf(apps[i], lineGroupId) ==>
                           apps[i].createdAt <= r.value.createdAt)
  {
    var f := Filter(apps, (a: Application) => LiveApplicationOf(a, lineGroupId));
    var live := Sorting.SortDesc(f, AppCreatedAt);
    Sorting.SortDescCorrect(f, AppCreatedAt);
    assert forall x :: x in live <==> x in f by {
      forall x ensures x in live <==> x in f {
        assert x in live <==> x in multiset(live);
        assert x in f <==> x in multiset(f);
      }
    }
    if live != [] {
      assert live[0] in multiset(live);
      assert live[0] in f;
      forall i | 0 <= i < |apps| && LiveApplicationOf(apps[i], lineGroupId)
        ensures apps[i].createdAt <= live[0].createdAt
      {
        assert apps[i] in live;
        var j :| 0 <= j < |live| && live[j] == apps[i];
        Sorting.SortedDescPairwise(live, AppCreatedAt, 0, j);
      }
    }
  }

  // ---------------------------------------------------------------
  // GroupMemberRepository

  function MembershipOf(members: seq<Membership>, groupId: Id, userId: Id): Option<Membership> {
    First(members, (m: Membership) => m.groupId == groupId && m.userId == userId)
  }

  /** The unique constraint on (group, user). */
  predicate MembersUnique(members: seq<Membership>) {
    forall i, j :: 0 <= i < j < |members| ==> members[i] != members[j]
  }

  function AddMemberRows(members: seq<Membership>, groupId: Id, userId: Id): seq<Membership> {
    if MembershipOf(members, groupId, userId).Some? then members
    else members + [Membership(groupId, userId)]
  }

  /** Joining is idempotent and keeps memberships unique. */
  lemma AddMemberIdempotent(members: seq<Membership>, groupId: Id, userId: Id)
    ensures var once := AddMemberRows(members, groupId, userId);
      AddMemberRows(once, groupId, userId) == once
      && MembershipOf(once, groupId, userId) == Some(Membership(groupId, userId))
      && (MembersUnique(members) ==> MembersUnique(once))
  {
    var once := AddMemberRows(members, groupId, userId);
    if MembershipOf(members, groupId, userId).None? {
      assert once[|once| - 1] == Membership(groupId, userId);
    }
  }

  /** `add_member`: is_new exactly when the membership did not exist. */
  method AddMember(db: Database, groupId: Id, userId: Id) returns (m: Membership, isNew: bool)
    modifies db`members
    ensures isNew <==> MembershipOf(old(db.members), groupId, userId).None?
    ensures db.members == AddMemberRows(old(db.members), groupId, userId)
    ensures m == Membership(groupId, userId)
  {
    var found := MembershipOf(db.members, groupId, userId);
    isNew := found.None?;
    if isNew {
      db.members := db.members + [Membership(groupId, userId)];
      m := Membership(groupId, userId);
    } else {
      m := found.value;
    }
  }

  predicate InActiveGroup(groups: seq<Group>, groupId: Id) {
    exists j :: 0 <= j < |groups| && groups[j].id == groupId && groups[j].status == GroupActive
  }

  /** `is_member_of_any_active_group`: the join of the user's memberships
      with active groups, stopping at the first hit. */
  function IsMemberOfAnyActiveGroup(members: seq<Membership>, groups: seq<Group>, userId: Id): (r: bool)
    ensures r <==> exists i, j :: 0 <= i < |members| && 0 <= j < |groups| && members[i].userId == userId
                                  && groups[j].id == members[i].groupId && groups[j].status == GroupActive
  {
    First(members, (m: Membership) => m.userId == userId && InActiveGroup(groups, m.groupId)).Some?
  }

  // ---------------------------------------------------------------
  // GroupAdminRepository

  /** `is_admin`. */
  function IsAdmin(admins: seq<AdminBinding>, groupId: Id, userId: Id): (r: bool)
    ensures r <==> AdminBinding(groupId, userId) in admins
  {
    First(admins, (a: AdminBinding) => a.groupId == groupId && a.userId == userId).Some?
  }

  /** `get_group_admins`. */
  function GroupAdmins(admins: seq<AdminBinding>, groupId: Id): (r: seq<AdminBinding>)
    ensures forall i :: 0 <= i < |r| ==> r[i] in admins && r[i].groupId == groupId
    ensures forall i :: 0 <= i < |admins| && admins[i].groupId == groupId ==> admins[i] in r
  {
    Filter(admins, (a: AdminBinding) => a.groupId == groupId)
  }

  /** The unique constraint on (group, user). */
  predicate AdminsUnique(admins: seq<AdminBinding>) {
    forall i, j :: 0 <= i < j < |admins| ==> admins[i] != admins[j]
  }

  /** `add_admin` inserts without looking; a duplicate binding violates
      the unique constraint, the insert fails and nothing is written. */
  method AddAdmin(db: Database, groupId: Id, userId: Id) returns (ok: bool)
    modifies db`admins
    ensures ok <==> !IsAdmin(old(db.admins), groupId, userId)
    ensures ok ==> db.admins == old(db.admins) + [AdminBinding(groupId, userId)]
    ensures !ok ==> db.admins == old(db.admins)
    ensures IsAdmin(db.admins, groupId, userId)
    ensures AdminsUnique(old(db.admins)) ==> AdminsUnique(db.admins)
  {
    ok := !IsAdmin(db.admins, groupId, userId);
    if ok {
      db.admins := db.admins + [AdminBinding(groupId, userId)];
    }
  }

  function RemoveAdminRows(admins: seq<AdminBinding>, groupId: Id, userId: Id): (r: seq<AdminBinding>)
    ensures !IsAdmin(r, groupId, userId)
    ensures forall i :: 0 <= i < |admins| && admins[i] != AdminBinding(groupId, userId) ==> admins[i] in r
  {
    Filter(admins, (a: AdminBinding) => a != AdminBinding(groupId, userId))
  }

  /** Binding a new admin and removing the binding again gives back the
      table it started from. */
  lemma AddThenRemoveAdmin(admins: seq<AdminBinding>, groupId: Id, userId: Id)
    requires !IsAdmin(admins, groupId, userId)
    ensures RemoveAdminRows(admins + [AdminBinding(groupId, userId)], groupId, userId) == admins
  {
    var p := (a: AdminBinding) => a != AdminBinding(groupId, userId);
    var b := AdminBinding(groupId, userId);
    FilterAppend(admins, [b], p);
    FilterKeepsAll(admins, p);
    assert Filter([b], p) == [] by {
      assert [b][..0] == [];
    }
  }

  /** `remove_admin`: true exactly when the binding existed; afterwards
      it is gone and every other binding is kept. */
  method RemoveAdmin(db: Database, groupId: Id, userId: Id) returns (removed: bool)
    modifies db`admins
    ensures removed <==> IsAdmin(old(db.admins), groupId, userId)
    ensures removed ==> db.admins == RemoveAdminRows(old(db.admins), groupId, userId)
    ensures !removed ==> db.admins == old(db.admins)
    ensures !IsAdmin(db.admins, groupId, userId)
  {
    removed := IsAdmin(db.admins, groupId, userId);
    if removed {
      db.admins := RemoveAdminRows(db.admins, groupId, userId);
    }
  }
}
