// app/repositories/chat_repo.py: the conversation history. A history
// query is a filter, newest first, cut to a limit, then put back into
// time order; the mutators add, clear per session or group, and purge
// by age.

module ChatRepo {
  import opened Common
  import opened Tables
  import Sorting

  function MsgCreatedAt(m: ChatMessage): int { m.createdAt }

  /** `order_by(created_at.desc()).limit(limit)` followed by `reversed`. */
  function MostRecent(matching: seq<ChatMessage>, limit: nat): seq<ChatMessage> {
    Reverse(Take(Sorting.SortDesc(matching, MsgCreatedAt), limit))
  }

  /** The history holds `limit` messages or all of them if fewer, each a
      matching one, in ascending time order. */
  lemma MostRecentFacts(matching: seq<ChatMessage>, limit: nat)
    ensures var r := MostRecent(matching, limit);
      |r| == (if |matching| <= limit then |matching| else limit)
      && (forall i :: 0 <= i < |r| ==> r[i] in matching)
      && (forall i :: 0 <= i < |r| - 1 ==> r[i].createdAt <= r[i + 1].createdAt)
  {
    var sorted := Sorting.SortDesc(matching, MsgCreatedAt);
    Sorting.SortDescCorrect(matching, MsgCreatedAt);
    assert |sorted| == |matching| by {
      assert |multiset(sorted)| == |multiset(matching)|;
    }
    MostRecentMembers(matching, limit);
    MostRecentAscending(matching, limit);
  }

  lemma MostRecentMembers(matching: seq<ChatMessage>, limit: nat)
    ensures var r := MostRecent(matching, limit);
      forall i :: 0 <= i < |r| ==> r[i] in matching
  {
    var sorted := Sorting.SortDesc(matching, MsgCreatedAt);
    Sorting.SortDescCorrect(matching, MsgCreatedAt);
    var page := Take(sorted, limit);
    var n := |page|;
    var r := Reverse(page);
    forall i | 0 <= i < |r| ensures r[i] in matching {
      assert r[i] == sorted[n - 1 - i];
      assert sorted[n - 1 - i] in multiset(matching);
    }
  }

  lemma MostRecentAscending(matching: seq<ChatMessage>, limit: nat)
    ensures var r := MostRecent(matching, limit);
      forall i :: 0 <= i < |r| - 1 ==> r[i].createdAt <= r[i + 1].createdAt
  {
    var sorted := Sorting.SortDesc(matching, MsgCreatedAt);
    Sorting.SortDescCorrect(matching, MsgCreatedAt);
    var page := Take(sorted, limit);
    var n := |page|;
    var r := Reverse(page);
    forall i | 0 <= i < |r| - 1 ensures r[i].createdAt <= r[i + 1].createdAt {
      assert r[i] == sorted[n - 1 - i] && r[i + 1] == sorted[n - 2 - i];
      assert Sorting.NotOlder(sorted[n - 2 - i], sorted[n - 1 - i], MsgCreatedAt);
    }
  }

  /** No matching message newer than a returned one is left out. */
  lemma MostRecentKeepsNewest(matching: seq<ChatMessage>, limit: nat, x: ChatMessage, y: ChatMessage)
    requires x in MostRecent(matching, limit) && y in matching && y.createdAt > x.createdAt
    ensures y in MostRecent(matching, limit)
  {
    var sorted := Sorting.SortDesc(matching, MsgCreatedAt);
    Sorting.SortDescCorrect(matching, MsgCreatedAt);
    var page := Take(sorted, limit);
    var n := |page|;
    var r := Reverse(page);
    var i :| 0 <= i < |r| && r[i] == x;
    var a := n - 1 - i;
    assert sorted[a] == x;
    assert y in multiset(sorted);
    var b :| 0 <= b < |sorted| && sorted[b] == y;
    if b >= n {
      Sorting.SortedDescPairwise(sorted, MsgCreatedAt, a, b);
      assert false;
    }
    assert r[n - 1 - b] == y;
  }

  // ---------------------------------------------------------------
  // get_group_messages

  /** The conditions of `get_group_messages`. */
  predicate InGroupHistory(m: ChatMessage, groupId: Id, sessionId: Option<Id>, todayOnly: bool, today: Date) {
    m.groupId == Some(groupId)
    && (sessionId.Some? ==> m.sessionId == sessionId)
    && (todayOnly ==> m.createdDate == today)
  }

  function GroupHistory(msgs: seq<ChatMessage>, groupId: Id, sessionId: Option<Id>, todayOnly: bool, today: Date): seq<ChatMessage> {
    Filter(msgs, (m: ChatMessage) => InGroupHistory(m, groupId, sessionId, todayOnly, today))
  }

  /** `get_group_messages`. */
  function GroupMessages(msgs: seq<ChatMessage>, groupId: Id, limit: nat, sessionId: Option<Id>, todayOnly: bool, today: Date)
    : seq<ChatMessage>
  {
    MostRecent(GroupHistory(msgs, groupId, sessionId, todayOnly, today), limit)
  }

  /** At most `limit` messages of the group (of the session when one is
      given, of today when asked), the most recent ones, oldest first. */
  lemma GroupMessagesFacts(msgs: seq<ChatMessage>, groupId: Id, limit: nat, sessionId: Option<Id>, todayOnly: bool, today: Date)
    ensures var r := GroupMessages(msgs, groupId, limit, sessionId, todayOnly, today);
      |r| <= limit
      && (forall i :: 0 <= i < |r| ==> r[i] in msgs && r[i].groupId == Some(groupId))
      && (sessionId.Some? ==> forall i :: 0 <= i < |r| ==> r[i].sessionId == sessionId)
      && (todayOnly ==> forall i :: 0 <= i < |r| ==> r[i].createdDate == today)
      && (forall i :: 0 <= i < |r| - 1 ==> r[i].createdAt <= r[i + 1].createdAt)
      && (forall x, y :: (x in r && y in msgs && InGroupHistory(y, groupId, sessionId, todayOnly, today)
                           && y.createdAt > x.createdAt) ==> y in r)
  {
    var h := GroupHistory(msgs, groupId, sessionId, todayOnly, today);
    MostRecentFacts(h, limit);
    var r := MostRecent(h, limit);
    forall x, y | x in r && y in msgs && InGroupHistory(y, groupId, sessionId, todayOnly, today)
                  && y.createdAt > x.createdAt
      ensures y in r
    {
      MostRecentKeepsNewest(h, limit, x, y);
    }
  }

  // ---------------------------------------------------------------
  // get_user_messages

  /** The conditions of `get_user_messages`: the user's own one-to-one
      messages, which carry no group. */
  predicate InUserHistory(m: ChatMessage, userId: Id, todayOnly: bool, today: Date) {
    m.userId == Some(userId) && m.groupId.None? && (todayOnly ==> m.createdDate == today)
  }

  /** `get_user_messages`. */
  function UserMessages(msgs: seq<ChatMessage>, userId: Id, limit: nat, todayOnly: bool, today: Date): seq<ChatMessage> {
    MostRecent(Filter(msgs, (m: ChatMessage) => InUserHistory(m, userId, todayOnly, today)), limit)
  }

  /** Only the user's messages without a group, at most `limit`, the most
      recent ones, oldest first; a group message never appears. */
  lemma UserMessagesFacts(msgs: seq<ChatMessage>, userId: Id, limit: nat, todayOnly: bool, today: Date)
    ensures var r := UserMessages(msgs, userId, limit, todayOnly, today);
      |r| <= limit
      && (forall i :: 0 <= i < |r| ==> r[i] in msgs && r[i].userId == Some(userId) && r[i].groupId.None?)
      && (todayOnly ==> forall i :: 0 <= i < |r| ==> r[i].createdDate == today)
      && (forall i :: 0 <= i < |r| - 1 ==> r[i].createdAt <= r[i + 1].createdAt)
      && (forall x, y :: (x in r && y in msgs && InUserHistory(y, userId, todayOnly, today)
                           && y.createdAt > x.createdAt) ==> y in r)
  {
    var h := Filter(msgs, (m: ChatMessage) => InUserHistory(m, userId, todayOnly, today));
    MostRecentFacts(h, limit);
    var r := MostRecent(h, limit);
    forall x, y | x in r && y in msgs && InUserHistory(y, userId, todayOnly, today) && y.createdAt > x.createdAt
      ensures y in r
    {
      MostRecentKeepsNewest(h, limit, x, y);
    }
  }

  // ---------------------------------------------------------------
  // add_message

  /** `add_message`: a new row stamped with the current instant and day. */
  method AddMessage(db: Database, role: Role, content: string, groupId: Option<Id>, userId: Option<Id>,
                    sessionId: Option<Id>, now: Time, today: Date) returns (m: ChatMessage)
    modifies db`chatMessages, db`nextId
    ensures m == ChatMessage(old(db.nextId), groupId, userId, sessionId, role, content, now, today)
    ensures db.chatMessages == old(db.chatMessages) + [m]
    ensures db.nextId == old(db.nextId) + 1
  {
    var id := db.FreshId();
    m := ChatMessage(id, groupId, userId, sessionId, role, content, now, today);
    db.chatMessages := db.chatMessages + [m];
  }

  /** A message just added to a group is in that group's history for the
      day, as its last entry. */
  lemma AddedMessageIsLatest(msgs: seq<ChatMessage>, m: ChatMessage, groupId: Id, limit: nat, today: Date)
    requires limit > 0 && m.groupId == Some(groupId) && m.createdDate == today
    requires forall i :: 0 <= i < |msgs| ==> msgs[i].createdAt < m.createdAt
    ensures var r := GroupMessages(msgs + [m], groupId, limit, None, true, today);
      r != [] && r[|r| - 1] == m
  {
    var all := msgs + [m];
    var h := GroupHistory(all, groupId, None, true, today);
    assert all[|msgs|] == m;
    assert m in h;
    MostRecentFacts(h, limit);
    var r := GroupMessages(all, groupId, limit, None, true, today);
    assert |r| > 0;
    var last := r[|r| - 1];
    assert last in all;
    if last != m {
      assert last in msgs;
      MostRecentKeepsNewest(h, limit, last, m);
      var j :| 0 <= j < |r| && r[j] == m;
      AscendingPairwise(r, j, |r| - 1);
      assert false;
    }
  }

  lemma {:induction false} AscendingPairwise(r: seq<ChatMessage>, i: int, k: int)
    requires forall j :: 0 <= j < |r| - 1 ==> r[j].createdAt <= r[j + 1].createdAt
    requires 0 <= i <= k < |r|
    ensures r[i].createdAt <= r[k].createdAt
    decreases k - i
  {
    if i < k {
      AscendingPairwise(r, i + 1, k);
    }
  }

  // ---------------------------------------------------------------
  // delete_group_messages / clear_session_messages

  /** `delete_group_messages`: drops every message of the group and
      returns how many there were. */
  method DeleteGroupMessages(db: Database, groupId: Id) returns (count: nat)
    modifies db`chatMessages
    ensures db.chatMessages == Filter(old(db.chatMessages), (m: ChatMessage) => m.groupId != Some(groupId))
    ensures count + |db.chatMessages| == |old(db.chatMessages)|
  {
    FilterSplit(db.chatMessages, (m: ChatMessage) => m.groupId == Some(groupId),
                (m: ChatMessage) => m.groupId != Some(groupId));
    count := |Filter(db.chatMessages, (m: ChatMessage) => m.groupId == Some(groupId))|;
    db.chatMessages := Filter(db.chatMessages, (m: ChatMessage) => m.groupId != Some(groupId));
  }

  /** The rows `clear_session_messages` keeps. */
  function OutsideSession(msgs: seq<ChatMessage>, sessionId: Id): seq<ChatMessage> {
    Filter(msgs, (m: ChatMessage) => m.sessionId != Some(sessionId))
  }

  /** `clear_session_messages`: deletes the session's messages one by one. */
  method ClearSessionMessages(db: Database, sessionId: Id)
    modifies db`chatMessages
    ensures db.chatMessages == OutsideSession(old(db.chatMessages), sessionId)
  {
    var rows := db.chatMessages;
    var kept: seq<ChatMessage> := [];
    var i := 0;
    while i < |rows|
      invariant 0 <= i <= |rows|
      invariant kept == Filter(rows[..i], (m: ChatMessage) => m.sessionId != Some(sessionId))
    {
      assert rows[..i + 1][..i] == rows[..i];
      if rows[i].sessionId != Some(sessionId) {
        kept := kept + [rows[i]];
      }
      i := i + 1;
    }
    assert rows[..i] == rows;
    db.chatMessages := kept;
  }

  /** Clearing a session removes all its messages and leaves the group
      history of any other session exactly as it was. */
  lemma ClearSessionKeepsOthers(msgs: seq<ChatMessage>, sessionId: Id, groupId: Id, other: Id,
                                todayOnly: bool, today: Date)
    requires other != sessionId
    ensures forall i :: 0 <= i < |OutsideSession(msgs, sessionId)| ==>
              OutsideSession(msgs, sessionId)[i].sessionId != Some(sessionId)
    ensures GroupHistory(OutsideSession(msgs, sessionId), groupId, Some(other), todayOnly, today)
            == GroupHistory(msgs, groupId, Some(other), todayOnly, today)
  {
    FilterNarrow(msgs, (m: ChatMessage) => m.sessionId != Some(sessionId),
                 (m: ChatMessage) => InGroupHistory(m, groupId, Some(other), todayOnly, today));
  }

  // ---------------------------------------------------------------
  // count_old_messages / cleanup_old_messages

  /** `datetime.now() - timedelta(days=retention_days)`. */
  function Cutoff(now: Time, retentionDays: int): Time {
    now - retentionDays * Day
  }

  function OldMessages(msgs: seq<ChatMessage>, cutoff: Time): seq<ChatMessage> {
    Filter(msgs, (m: ChatMessage) => m.createdAt < cutoff)
  }

  function RecentMessages(msgs: seq<ChatMessage>, cutoff: Time): seq<ChatMessage> {
    Filter(msgs, (m: ChatMessage) => !(m.createdAt < cutoff))
  }

  /** `count_old_messages`. */
  function CountOld(msgs: seq<ChatMessage>, now: Time, retentionDays: int): nat {
    |OldMessages(msgs, Cutoff(now, retentionDays))|
  }

  /** The purge splits the table: the old messages go, the rest stay, and
      nothing old is left. */
  lemma PurgeSplits(msgs: seq<ChatMessage>, cutoff: Time)
    ensures |OldMessages(msgs, cutoff)| + |RecentMessages(msgs, cutoff)| == |msgs|
    ensures OldMessages(RecentMessages(msgs, cutoff), cutoff) == []
    ensures |OldMessages(msgs, cutoff)| == 0 ==> RecentMessages(msgs, cutoff) == msgs
  {
    FilterSplit(msgs, (m: ChatMessage) => m.createdAt < cutoff, (m: ChatMessage) => !(m.createdAt < cutoff));
    FilterKeepsNone(RecentMessages(msgs, cutoff), (m: ChatMessage) => m.createdAt < cutoff);
    if |OldMessages(msgs, cutoff)| == 0 {
      FilterKeepsAll(msgs, (m: ChatMessage) => !(m.createdAt < cutoff));
    }
  }

  /** `cleanup_old_messages`: deletes exactly the messages older than the
      cutoff, only when there are any, and returns their number. */
  method CleanupOldMessages(db: Database, now: Time, retentionDays: int) returns (count: nat)
    modifies db`chatMessages
    ensures count == CountOld(old(db.chatMessages), now, retentionDays)
    ensures db.chatMessages == RecentMessages(old(db.chatMessages), Cutoff(now, retentionDays))
    ensures count == 0 ==> db.chatMessages == old(db.chatMessages)
    ensures count + |db.chatMessages| == |old(db.chatMessages)|
    ensures CountOld(db.chatMessages, now, retentionDays) == 0
  {
    var cutoff := Cutoff(now, retentionDays);
    PurgeSplits(db.chatMessages, cutoff);
    count := CountOld(db.chatMessages, now, retentionDays);
    if count > 0 {
      db.chatMessages := RecentMessages(db.chatMessages, cutoff);
    }
  }
}
