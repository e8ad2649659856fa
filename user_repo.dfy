// app/repositories/user_repo.py: users by LINE id, their display names,
// the ban flag, and the admin listing's filter and page.

module UserRepo {
  import opened Common
  import opened Tables
  import Sorting

  /** `get_by_line_user_id`. */
  function UserByLineId(users: seq<User>, lineUserId: string): Option<User> {
    First(users, (u: User) => u.lineUserId == lineUserId)
  }

  /** `get_by_id`. */
  function UserById(users: seq<User>, id: Id): Option<User> {
    First(users, (u: User) => u.id == id)
  }

  /** The user table with the row of that key replaced. */
  function ReplaceUser(users: seq<User>, id: Id, u: User): (r: seq<User>)
    ensures |r| == |users|
    ensures forall i :: 0 <= i < |r| ==> r[i] == (if users[i].id == id then u else users[i])
  {
    seq(|users|, i requires 0 <= i < |users| => if users[i].id == id then u else users[i])
  }

  // ---------------------------------------------------------------
  // get_or_create

  /** An existing user's name after `get_or_create`: replaced only by a
      different, non-empty name. */
  function Renamed(u: User, displayName: Option<string>): (r: User)
    ensures r.id == u.id && r.lineUserId == u.lineUserId && r.isBanned == u.isBanned && r.bannedAt == u.bannedAt
    ensures displayName.None? || displayName == Some("") ==> r == u
    ensures displayName.Some? && displayName.value != "" ==> r.displayName == displayName
  {
    if displayName.Some? && displayName.value != "" && u.displayName != displayName then
      u.(displayName := displayName)
    else u
  }

  /** Renaming to the same name twice is renaming once. */
  lemma RenamedIdempotent(u: User, displayName: Option<string>)
    ensures Renamed(Renamed(u, displayName), displayName) == Renamed(u, displayName)
  {
  }

  /** `get_or_create`: creates a missing user (not banned); otherwise the
      existing user with its name refreshed. */
  method GetOrCreateUser(db: Database, lineUserId: string, displayName: Option<string>, now: Time) returns (u: User)
    modifies db`users, db`nextId
    ensures UserByLineId(old(db.users), lineUserId).None? ==>
              u == User(old(db.nextId), lineUserId, displayName, false, None, now)
              && db.users == old(db.users) + [u] && db.nextId == old(db.nextId) + 1
    ensures UserByLineId(old(db.users), lineUserId).Some? ==>
              var existing := UserByLineId(old(db.users), lineUserId).value;
              u == Renamed(existing, displayName)
              && db.users == ReplaceUser(old(db.users), existing.id, u) && db.nextId == old(db.nextId)
    ensures u.lineUserId == lineUserId
  {
    var found := UserByLineId(db.users, lineUserId);
    if found.None? {
      var id := db.FreshId();
      u := User(id, lineUserId, displayName, false, None, now);
      db.users := db.users + [u];
    } else {
      u := Renamed(found.value, displayName);
      db.users := ReplaceUser(db.users, found.value.id, u);
    }
  }

  // ---------------------------------------------------------------
  // ban_user / unban_user

  function Banned(u: User, now: Time): User { u.(isBanned := true, bannedAt := Some(now)) }
  function Unbanned(u: User): User { u.(isBanned := false, bannedAt := None) }

  /** Unbanning undoes a ban of a user who was not banned. */
  lemma UnbanUndoesBan(u: User, now: Time)
    requires !u.isBanned && u.bannedAt.None?
    ensures Unbanned(Banned(u, now)) == u
    ensures Banned(u, now).isBanned && !Unbanned(u).isBanned
  {
  }

  /** `ban_user`: None and no change for an unknown key. */
  method BanUser(db: Database, userId: Id, now: Time) returns (r: Option<User>)
    modifies db`users
    ensures r.None? <==> UserById(old(db.users), userId).None?
    ensures r.None? ==> db.users == old(db.users)
    ensures r.Some? ==> r.value == Banned(UserById(old(db.users), userId).value, now)
                        && r.value.isBanned && r.value.bannedAt == Some(now)
                        && db.users == ReplaceUser(old(db.users), userId, r.value)
  {
    var found := UserById(db.users, userId);
    if found.None? {
      return None;
    }
    var u := Banned(found.value, now);
    db.users := ReplaceUser(db.users, userId, u);
    r := Some(u);
  }

  /** `unban_user`: None and no change for an unknown key. */
  method UnbanUser(db: Database, userId: Id) returns (r: Option<User>)
    modifies db`users
    ensures r.None? <==> UserById(old(db.users), userId).None?
    ensures r.None? ==> db.users == old(db.users)
    ensures r.Some? ==> r.value == Unbanned(UserById(old(db.users), userId).value)
                        && !r.value.isBanned && r.value.bannedAt.None?
                        && db.users == ReplaceUser(old(db.users), userId, r.value)
  {
    var found := UserById(db.users, userId);
    if found.None? {
      return None;
    }
    var u := Unbanned(found.value);
    db.users := ReplaceUser(db.users, userId, u);
    r := Some(u);
  }

  // ---------------------------------------------------------------
  // get_all_paginated

  /** The status filter: "banned", "active", or no filter at all. */
  predicate StatusMatches(u: User, status: string) {
    if status == "banned" then u.isBanned
    else if status == "active" then !u.isBanned
    else true
  }

  /** The search filter (case-insensitive substring of the name or the
      LINE id; a missing name never matches); an empty search matches all. */
  predicate SearchMatches(u: User, search: string) {
    search == []
    || (u.displayName.Some? && Contains(Lower(u.displayName.value), Lower(search)))
    || Contains(Lower(u.lineUserId), Lower(search))
  }

  predicate Listed(u: User, search: string, status: string) {
    SearchMatches(u, search) && StatusMatches(u, status)
  }

  function UserCreatedAt(u: User): int { u.createdAt }

  /** `get_all_paginated`: the page (newest first, skip `offset`, at most
      `limit`) and the number of all matching users. */
  function PaginatedUsers(users: seq<User>, search: string, status: string, limit: nat, offset: nat): (seq<User>, nat) {
    var matching := Filter(users, (u: User) => Listed(u, search, status));
    (Take(Skip(Sorting.SortDesc(matching, UserCreatedAt), offset), limit), |matching|)
  }

  /** The page is at most `limit` users, all matching, newest first; the
      total counts every match regardless of the page; "banned" lists only
      banned users and "active" only unbanned ones. */
  lemma PaginatedUsersFacts(users: seq<User>, search: string, status: string, limit: nat, offset: nat)
    ensures var (page, total) := PaginatedUsers(users, search, status, limit, offset);
      |page| <= limit
      && total == |Filter(users, (u: User) => Listed(u, search, status))|
      && (forall i :: 0 <= i < |page| ==> page[i] in users && Listed(page[i], search, status))
      && (status == "banned" ==> forall i :: 0 <= i < |page| ==> page[i].isBanned)
      && (status == "active" ==> forall i :: 0 <= i < |page| ==> !page[i].isBanned)
      && (forall i :: 0 <= i < |page| - 1 ==> page[i].createdAt >= page[i + 1].createdAt)
      && (offset == 0 && total <= limit ==> |page| == total)
  {
    var matching := Filter(users, (u: User) => Listed(u, search, status));
    var sorted := Sorting.SortDesc(matching, UserCreatedAt);
    Sorting.SortDescCorrect(matching, UserCreatedAt);
    var skipped := Skip(sorted, offset);
    var page := Take(skipped, limit);
    assert |sorted| == |matching| by {
      assert |multiset(sorted)| == |multiset(matching)|;
    }
    forall i | 0 <= i < |page| ensures page[i] in users && Listed(page[i], search, status) {
      assert page[i] == sorted[offset + i];
      assert sorted[offset + i] in multiset(matching);
    }
    forall i | 0 <= i < |page| - 1 ensures page[i].createdAt >= page[i + 1].createdAt {
      assert page[i] == sorted[offset + i] && page[i + 1] == sorted[offset + i + 1];
      assert Sorting.NotOlder(sorted[offset + i], sorted[offset + i + 1], UserCreatedAt);
    }
  }
}
