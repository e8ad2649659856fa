// app/repositories/system_repo.py: super-admin credentials, the AI prompt
// table, and the security-log listing, count and statistics. The digest
// behind `hash_password` is a parameter `hash`.

module SystemRepo {
  import opened Common
  import opened Tables
  import Sanitizer
  import Sorting

  // ---------------------------------------------------------------
  // hash_password / verify_password

  function HashPassword(hash: string -> string, password: string): string {
    hash(password)
  }

  predicate VerifyPassword(hash: string -> string, password: string, passwordHash: string) {
    HashPassword(hash, password) == passwordHash
  }

  /** A password verifies against its own hash. */
  lemma HashedPasswordVerifies(hash: string -> string, password: string)
    ensures VerifyPassword(hash, password, HashPassword(hash, password))
  {
  }

  // ---------------------------------------------------------------
  // SuperAdminRepository

  /** `get_by_username`. */
  function AdminByUsername(admins: seq<SuperAdmin>, username: string): Option<SuperAdmin> {
    First(admins, (a: SuperAdmin) => a.username == username)
  }

  /** The unique constraint on `super_admins.username`. */
  predicate UsernamesUnique(admins: seq<SuperAdmin>) {
    forall i, j :: 0 <= i < j < |admins| ==> admins[i].username != admins[j].username
  }

  /** `verify_credentials`: the admin, only when the name exists and the
      password hashes to the stored hash. */
  function VerifyCredentials(admins: seq<SuperAdmin>, hash: string -> string, username: string, password: string)
    : (r: Option<SuperAdmin>)
    ensures r.Some? ==> r.value in admins && r.value.username == username
    ensures AdminByUsername(admins, username).None? ==> r.None?
    ensures r.Some? <==> AdminByUsername(admins, username).Some?
                         && VerifyPassword(hash, password, AdminByUsername(admins, username).value.passwordHash)
    ensures r.Some? ==> r == AdminByUsername(admins, username)
  {
    var found := AdminByUsername(admins, username);
    if found.Some? && VerifyPassword(hash, password, found.value.passwordHash) then found else None
  }

  /** `create`: the new row, or None (and no row) when the username is
      taken, which the unique constraint refuses. */
  method CreateSuperAdmin(db: Database, hash: string -> string, username: string, password: string)
    returns (r: Option<SuperAdmin>)
    modifies db`superAdmins
    ensures AdminByUsername(old(db.superAdmins), username).Some? ==> r.None? && db.superAdmins == old(db.superAdmins)
    ensures AdminByUsername(old(db.superAdmins), username).None? ==>
              r == Some(SuperAdmin(username, HashPassword(hash, password)))
              && db.superAdmins == old(db.superAdmins) + [r.value]
  {
    if AdminByUsername(db.superAdmins, username).Some? {
      return None;
    }
    var a := SuperAdmin(username, HashPassword(hash, password));
    db.superAdmins := db.superAdmins + [a];
    r := Some(a);
  }

  /** After creating an admin, the same name and password log in, a
      password with a different hash does not, and uniqueness holds. */
  lemma CreatedAdminLogsIn(admins: seq<SuperAdmin>, hash: string -> string, username: string, password: string, other: string)
    requires AdminByUsername(admins, username).None?
    ensures var a := SuperAdmin(username, HashPassword(hash, password));
      VerifyCredentials(admins + [a], hash, username, password) == Some(a)
      && (hash(other) != hash(password) ==> VerifyCredentials(admins + [a], hash, username, other).None?)
      && (UsernamesUnique(admins) ==> UsernamesUnique(admins + [a]))
  {
    var a := SuperAdmin(username, HashPassword(hash, password));
    var s := admins + [a];
    var found := AdminByUsername(s, username);
    assert s[|admins|] == a;
    assert found.Some?;
    var k :| 0 <= k < |s| && s[k] == found.value && s[k].username == username;
    assert k == |admins|;
  }

  /** The rows after `delete`. The session deletes the one row found by
      name; the name column is unique, so that is every row of that name. */
  function DeleteAdminRows(admins: seq<SuperAdmin>, username: string): seq<SuperAdmin> {
    Filter(admins, (a: SuperAdmin) => a.username != username)
  }

  /** After `delete` the name is unknown, every other admin is still
      there, and the table shrank iff the name existed. */
  lemma DeleteRemovesAdmin(admins: seq<SuperAdmin>, username: string)
    ensures var r := DeleteAdminRows(admins, username);
      AdminByUsername(r, username).None?
      && (forall a :: a in admins && a.username != username ==> a in r)
      && (|r| < |admins| <==> AdminByUsername(admins, username).Some?)
  {
    var r := DeleteAdminRows(admins, username);
    var named := Filter(admins, (a: SuperAdmin) => a.username == username);
    FilterSplit(admins, (a: SuperAdmin) => a.username == username, (a: SuperAdmin) => a.username != username);
    if AdminByUsername(admins, username).Some? {
      var k :| 0 <= k < |admins| && admins[k].username == username;
      assert admins[k] in named;
    } else {
      FilterKeepsAll(admins, (a: SuperAdmin) => a.username != username);
    }
  }

  /** `delete`: true iff the username existed. */
  method DeleteSuperAdmin(db: Database, username: string) returns (deleted: bool)
    modifies db`superAdmins
    ensures deleted <==> AdminByUsername(old(db.superAdmins), username).Some?
    ensures db.superAdmins == DeleteAdminRows(old(db.superAdmins), username)
  {
    deleted := AdminByUsername(db.superAdmins, username).Some?;
    db.superAdmins := DeleteAdminRows(db.superAdmins, username);
  }

  /** The rows after `update_password`: the admin of that name carries
      the hash of the new password. */
  function WithPassword(admins: seq<SuperAdmin>, hash: string -> string, username: string, password: string)
    : (r: seq<SuperAdmin>)
    ensures |r| == |admins|
    ensures forall i :: 0 <= i < |r| ==>
              r[i] == (if admins[i].username == username then SuperAdmin(username, HashPassword(hash, password)) else admins[i])
  {
    seq(|admins|, i requires 0 <= i < |admins| =>
      if admins[i].username == username then SuperAdmin(username, HashPassword(hash, password)) else admins[i])
  }

  /** `update_password`: None for an unknown name, otherwise the admin
      with the new password's hash. */
  method UpdatePassword(db: Database, hash: string -> string, username: string, password: string)
    returns (r: Option<SuperAdmin>)
    modifies db`superAdmins
    ensures r.None? <==> AdminByUsername(old(db.superAdmins), username).None?
    ensures r.None? ==> db.superAdmins == old(db.superAdmins)
    ensures r.Some? ==>
              r.value == SuperAdmin(username, HashPassword(hash, password))
              && db.superAdmins == WithPassword(old(db.superAdmins), hash, username, password)
  {
    var found := AdminByUsername(db.superAdmins, username);
    if found.None? {
      return None;
    }
    db.superAdmins := WithPassword(db.superAdmins, hash, username, password);
    r := Some(SuperAdmin(username, HashPassword(hash, password)));
  }

  /** After a password change the new password logs in, and an old one
      with a different hash no longer does. */
  lemma PasswordChangeTakesEffect(admins: seq<SuperAdmin>, hash: string -> string, username: string,
                                  password: string, previous: string)
    requires AdminByUsername(admins, username).Some?
    ensures var r := WithPassword(admins, hash, username, password);
      VerifyCredentials(r, hash, username, password) == Some(SuperAdmin(username, HashPassword(hash, password)))
      && (hash(previous) != hash(password) ==> VerifyCredentials(r, hash, username, previous).None?)
  {
    ChangedAdminFound(admins, hash, username, password);
  }

  /** The lookup after a password change finds the admin with the new hash. */
  lemma ChangedAdminFound(admins: seq<SuperAdmin>, hash: string -> string, username: string, password: string)
    requires AdminByUsername(admins, username).Some?
    ensures AdminByUsername(WithPassword(admins, hash, username, password), username)
            == Some(SuperAdmin(username, HashPassword(hash, password)))
  {
    var r := WithPassword(admins, hash, username, password);
    var k :| 0 <= k < |admins| && admins[k].username == username;
    assert r[k].username == username;
    var found := AdminByUsername(r, username);
    var m :| 0 <= m < |r| && r[m] == found.value && r[m].username == username;
    assert r[m] == SuperAdmin(username, HashPassword(hash, password));
  }

  // ---------------------------------------------------------------
  // AiPromptRepository

  /** `get_by_name`. */
  function PromptByName(prompts: seq<Prompt>, name: string): Option<Prompt> {
    First(prompts, (p: Prompt) => p.name == name)
  }

  /** The unique constraint on `ai_prompts.name`. */
  predicate PromptNamesUnique(prompts: seq<Prompt>) {
    forall i, j :: 0 <= i < j < |prompts| ==> prompts[i].name != prompts[j].name
  }

  /** The rows after `set_prompt`: a new row, or the content of the row
      with that name replaced (the name column is unique, so the row found
      is the only one with that name). */
  function SetPromptRows(prompts: seq<Prompt>, name: string, content: string): seq<Prompt> {
    if PromptByName(prompts, name).None? then prompts + [Prompt(name, content)]
    else seq(|prompts|, i requires 0 <= i < |prompts| =>
               if prompts[i].name == name then Prompt(name, content) else prompts[i])
  }

  /** `set_prompt` is an upsert: afterwards the name yields the new
      content and exactly one prompt has that name. */
  lemma SetPromptUpserts(prompts: seq<Prompt>, name: string, content: string)
    requires PromptNamesUnique(prompts)
    ensures var r := SetPromptRows(prompts, name, content);
      PromptByName(r, name) == Some(Prompt(name, content)) && PromptNamesUnique(r)
  {
    var r := SetPromptRows(prompts, name, content);
    var found := PromptByName(r, name);
    if PromptByName(prompts, name).None? {
      assert r[|prompts|] == Prompt(name, content);
      var k :| 0 <= k < |r| && r[k] == found.value && r[k].name == name;
      assert k == |prompts|;
    } else {
      var k0 :| 0 <= k0 < |prompts| && prompts[k0].name == name;
      assert r[k0].name == name;
    }
  }

  /** A table that agrees with a longer one on the rows of `other`
      position by position, the longer one having no further such rows,
      agrees with it on the lookup of `other`. */
  lemma {:induction false} PromptFirstAgrees(a: seq<Prompt>, b: seq<Prompt>, other: string)
    requires |a| <= |b|
    requires forall i :: 0 <= i < |a| ==> (a[i].name == other <==> b[i].name == other)
    requires forall i :: 0 <= i < |a| && a[i].name == other ==> a[i] == b[i]
    requires forall i :: |a| <= i < |b| ==> b[i].name != other
    ensures PromptByName(a, other) == PromptByName(b, other)
    decreases |a|
  {
    if a != [] && a[0].name != other {
      PromptFirstAgrees(a[1..], b[1..], other);
    }
  }

  /** `set_prompt` leaves what every other name yields unchanged. */
  lemma SetPromptKeepsOthers(prompts: seq<Prompt>, name: string, content: string, other: string)
    requires other != name
    ensures PromptByName(SetPromptRows(prompts, name, content), other) == PromptByName(prompts, other)
  {
    var r := SetPromptRows(prompts, name, content);
    assert forall i :: 0 <= i < |prompts| ==> (r[i].name == other <==> prompts[i].name == other);
    assert forall i :: 0 <= i < |prompts| && prompts[i].name == other ==> prompts[i] == r[i];
    PromptFirstAgrees(prompts, r, other);
  }

  /** `set_prompt`. */
  method SetPrompt(db: Database, name: string, content: string) returns (p: Prompt)
    modifies db`prompts
    ensures p == Prompt(name, content)
    ensures db.prompts == SetPromptRows(old(db.prompts), name, content)
  {
    p := Prompt(name, content);
    db.prompts := SetPromptRows(db.prompts, name, content);
  }

  // ---------------------------------------------------------------
  // SecurityLogRepository

  /** `if line_user_id:`: a filter applies only when given and non-empty. */
  predicate Given(f: Option<string>) {
    f.Some? && f.value != ""
  }

  predicate LogMatches(l: SecurityLog, lineUserId: Option<string>, lineGroupId: Option<string>) {
    (Given(lineUserId) ==> l.lineUserId == lineUserId.value)
    && (Given(lineGroupId) ==> l.lineGroupId == lineGroupId)
  }

  function MatchingLogs(logs: seq<SecurityLog>, lineUserId: Option<string>, lineGroupId: Option<string>): seq<SecurityLog> {
    Filter(logs, (l: SecurityLog) => LogMatches(l, lineUserId, lineGroupId))
  }

  /** `get_total_count`. */
  function TotalCount(logs: seq<SecurityLog>, lineUserId: Option<string>, lineGroupId: Option<string>): nat {
    |MatchingLogs(logs, lineUserId, lineGroupId)|
  }

  /** With no filter every log counts; each filter can only lower the
      count; a count never exceeds the table. */
  lemma TotalCountFacts(logs: seq<SecurityLog>, lineUserId: Option<string>, lineGroupId: Option<string>)
    ensures TotalCount(logs, None, None) == |logs|
    ensures TotalCount(logs, lineUserId, lineGroupId) <= TotalCount(logs, lineUserId, None) <= |logs|
    ensures TotalCount(logs, lineUserId, lineGroupId) <= TotalCount(logs, None, lineGroupId)
  {
    FilterKeepsAll(logs, (l: SecurityLog) => LogMatches(l, None, None));
    FilterNarrow(logs, (l: SecurityLog) => LogMatches(l, lineUserId, None),
                 (l: SecurityLog) => LogMatches(l, lineUserId, lineGroupId));
    FilterNarrow(logs, (l: SecurityLog) => LogMatches(l, None, lineGroupId),
                 (l: SecurityLog) => LogMatches(l, lineUserId, lineGroupId));
  }

  function LogCreatedAt(l: SecurityLog): int { l.createdAt }

  /** `get_recent`: matching logs, newest first, skip `offset`, at most `limit`. */
  function RecentLogs(logs: seq<SecurityLog>, limit: nat, offset: nat, lineUserId: Option<string>, lineGroupId: Option<string>)
    : seq<SecurityLog>
  {
    Take(Skip(Sorting.SortDesc(MatchingLogs(logs, lineUserId, lineGroupId), LogCreatedAt), offset), limit)
  }

  lemma RecentLogsFacts(logs: seq<SecurityLog>, limit: nat, offset: nat, lineUserId: Option<string>, lineGroupId: Option<string>)
    ensures var r := RecentLogs(logs, limit, offset, lineUserId, lineGroupId);
      |r| <= limit
      && (forall i :: 0 <= i < |r| ==> r[i] in logs && LogMatches(r[i], lineUserId, lineGroupId))
      && (forall i :: 0 <= i < |r| - 1 ==> r[i].createdAt >= r[i + 1].createdAt)
  {
    var m := MatchingLogs(logs, lineUserId, lineGroupId);
    var sorted := Sorting.SortDesc(m, LogCreatedAt);
    Sorting.SortDescCorrect(m, LogCreatedAt);
    var r := RecentLogs(logs, limit, offset, lineUserId, lineGroupId);
    forall i | 0 <= i < |r| ensures r[i] in logs && LogMatches(r[i], lineUserId, lineGroupId) {
      assert r[i] == sorted[offset + i];
      assert sorted[offset + i] in multiset(m);
    }
    forall i | 0 <= i < |r| - 1 ensures r[i].createdAt >= r[i + 1].createdAt {
      assert r[i] == sorted[offset + i] && r[i + 1] == sorted[offset + i + 1];
      assert Sorting.NotOlder(sorted[offset + i], sorted[offset + i + 1], LogCreatedAt);
    }
  }

  /** How often a reason occurs across the logs. */
  function Occurrences(logs: seq<SecurityLog>, reason: Sanitizer.Reason): nat {
    if logs == [] then 0
    else Occurrences(logs[..|logs| - 1], reason) + multiset(logs[|logs| - 1].reasons)[reason]
  }

  function CountOf(counts: map<Sanitizer.Reason, nat>, reason: Sanitizer.Reason): nat {
    if reason in counts then counts[reason] else 0
  }

  /** The `reason_counts` loop of `get_stats`: each reason seen maps to
      its number of occurrences, and no other reason has an entry. */
  method ReasonCounts(logs: seq<SecurityLog>) returns (counts: map<Sanitizer.Reason, nat>)
    ensures forall r :: CountOf(counts, r) == Occurrences(logs, r)
    ensures forall r :: r in counts <==> Occurrences(logs, r) > 0
  {
    counts := map[];
    var i := 0;
    while i < |logs|
      invariant 0 <= i <= |logs|
      invariant forall r :: CountOf(counts, r) == Occurrences(logs[..i], r)
      invariant forall r :: r in counts ==> counts[r] > 0
    {
      var reasons := logs[i].reasons;
      var j := 0;
      while j < |reasons|
        invariant 0 <= j <= |reasons|
        invariant forall r :: CountOf(counts, r) == Occurrences(logs[..i], r) + multiset(reasons[..j])[r]
        invariant forall r :: r in counts ==> counts[r] > 0
      {
        var r := reasons[j];
        counts := counts[r := CountOf(counts, r) + 1];
        assert reasons[..j + 1] == reasons[..j] + [r];
        j := j + 1;
      }
      assert reasons[..j] == reasons;
      assert logs[..i + 1][..i] == logs[..i];
      i := i + 1;
    }
    assert logs[..i] == logs;
  }

  /** The figures `get_stats` computes (the per-day breakdown is not
      part of this model). */
  datatype Stats = Stats(total: nat, todayCount: nat, weekCount: nat, byReason: map<Sanitizer.Reason, nat>)

  /** The logs from `since` on. */
  function CountSince(logs: seq<SecurityLog>, since: Time): nat {
    |Filter(logs, (l: SecurityLog) => l.createdAt >= since)|
  }

  /** `get_stats`: the total, the logs since the start of the day and in
      the last seven days, and the reasons counted over the 1000 most
      recent logs. */
  method GetStats(logs: seq<SecurityLog>, now: Time, todayStart: Time) returns (s: Stats)
    ensures s.total == |logs|
    ensures s.todayCount == CountSince(logs, todayStart)
    ensures s.weekCount == CountSince(logs, now - 7 * Day)
    ensures forall r :: CountOf(s.byReason, r) == Occurrences(RecentLogs(logs, 1000, 0, None, None), r)
    ensures forall r :: r in s.byReason <==> Occurrences(RecentLogs(logs, 1000, 0, None, None), r) > 0
  {
    TotalCountFacts(logs, None, None);
    var total := TotalCount(logs, None, None);
    var byReason := ReasonCounts(RecentLogs(logs, 1000, 0, None, None));
    s := Stats(total, CountSince(logs, todayStart), CountSince(logs, now - 7 * Day), byReason);
  }

  /** A later start counts no more logs. */
  lemma {:induction false} CountSinceMonotone(logs: seq<SecurityLog>, a: Time, b: Time)
    requires a <= b
    ensures CountSince(logs, b) <= CountSince(logs, a)
  {
    FilterNarrow(logs, (l: SecurityLog) => l.createdAt >= a, (l: SecurityLog) => l.createdAt >= b);
  }
}
