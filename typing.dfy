/** `convex/typing.ts`: who is typing in a conversation, kept as one row per
    (user, conversation) and read through a 3000 ms freshness window. */
module Typing {
  import opened Wrappers
  import opened Seqs
  import opened Schema
  import opened Database

  /** How long, in milliseconds, an indicator stays visible after its last refresh. */
  const TypingTtl := 3000

  // Changing the caller's indicator.

  /** Refreshing an indicator moves only its time and keeps one row per key. */
  lemma IndicatorAfterPatch(typing: seq<TypingIndicator>, i: nat, now: int)
    requires i < |typing| && UniqueBy(typing, TypingKey)
    ensures var after := typing[i := typing[i].(updatedAt := now)];
      && UniqueBy(after, TypingKey)
      && IndicatorOf(after, typing[i].userId, typing[i].conversationId) == Some(typing[i].(updatedAt := now))
      && forall u, c: Id :: (u, c) != TypingKey(typing[i]) ==> IndicatorOf(after, u, c) == IndicatorOf(typing, u, c)
  {
    var patched := typing[i].(updatedAt := now);
    UpdateKeepsUnique(typing, i, patched, TypingKey);
    LookupUnique(typing, TypingKey, typing[i]);
    forall u, c: Id ensures Lookup(typing[i := patched], TypingKey, (u, c))
                     == if LookupIndex(typing, TypingKey, (u, c)) == Some(i) then Some(patched)
                        else Lookup(typing, TypingKey, (u, c)) {
      LookupUpdate(typing, i, patched, TypingKey, (u, c));
    }
  }

  /** Inserting an indicator for a key that has none makes it that key's indicator. */
  lemma IndicatorAfterInsert(typing: seq<TypingIndicator>, row: TypingIndicator)
    requires UniqueBy(typing, TypingKey) && Lookup(typing, TypingKey, TypingKey(row)).None?
    ensures UniqueBy(typing + [row], TypingKey)
    ensures IndicatorOf(typing + [row], row.userId, row.conversationId) == Some(row)
    ensures forall u, c: Id :: (u, c) != TypingKey(row) ==> IndicatorOf(typing + [row], u, c) == IndicatorOf(typing, u, c)
  {
    AppendKeepsUnique(typing, row, TypingKey);
    forall u, c: Id ensures Lookup(typing + [row], TypingKey, (u, c))
                     == if Lookup(typing, TypingKey, (u, c)).Some? then Lookup(typing, TypingKey, (u, c))
                        else if TypingKey(row) == (u, c) then Some(row) else None {
      LookupAppend(typing, row, TypingKey, (u, c));
    }
  }

  /** Deleting an indicator leaves its key with none and every other key as it was. */
  lemma IndicatorAfterDelete(typing: seq<TypingIndicator>, i: nat)
    requires i < |typing| && UniqueBy(typing, TypingKey)
    ensures var after := typing[..i] + typing[i + 1..];
      && UniqueBy(after, TypingKey)
      && IndicatorOf(after, typing[i].userId, typing[i].conversationId).None?
      && forall u, c: Id :: (u, c) != TypingKey(typing[i]) ==> IndicatorOf(after, u, c) == IndicatorOf(typing, u, c)
  {
    RemoveKeepsUnique(typing, i, TypingKey);
    forall u, c: Id ensures Lookup(typing[..i] + typing[i + 1..], TypingKey, (u, c))
                     == if TypingKey(typing[i]) == (u, c) then None else Lookup(typing, TypingKey, (u, c)) {
      LookupRemove(typing, i, TypingKey, (u, c));
    }
  }

  /** `setTyping`: with `isTyping`, refreshes the caller's indicator on the conversation
      to `now` (keeping the name stored when it was created) or inserts one with
      `userName`; without it, deletes the caller's indicator if there is one. */
  method SetTyping(db: Store, identity: Option<string>, now: int, conversationId: Id, isTyping: bool, userName: string)
    returns (r: Result<()>)
    requires db.Valid()
    modifies db
    ensures db.Valid()
    ensures identity.None? ==> r == Err(Unauthorized) && unchanged(db)
    ensures identity.Some? ==>
      && r == Ok(())
      && db.users == old(db.users) && db.conversations == old(db.conversations)
      && db.messages == old(db.messages) && db.members == old(db.members)
      && match LookupIndex(old(db.typing), TypingKey, (identity.value, conversationId))
         case Some(i) =>
           && db.nextId == old(db.nextId)
           && if isTyping then db.typing == old(db.typing)[i := old(db.typing)[i].(updatedAt := now)]
              else db.typing == old(db.typing)[..i] + old(db.typing)[i + 1..]
         case None =>
           if isTyping then
             && db.typing == old(db.typing) + [TypingIndicator(old(db.nextId), identity.value, conversationId, userName, now)]
             && db.nextId == old(db.nextId) + 1
           else db.typing == old(db.typing) && db.nextId == old(db.nextId)
    ensures identity.Some? ==>
      var mine := IndicatorOf(db.typing, identity.value, conversationId);
      var before := IndicatorOf(old(db.typing), identity.value, conversationId);
      if isTyping then
        && mine.Some? && mine.value.updatedAt == now
        && mine.value.userName == (if before.Some? then before.value.userName else userName)
      else mine.None?
    ensures identity.Some? ==>
      forall u, c: Id :: (u, c) != (identity.value, conversationId) ==> IndicatorOf(db.typing, u, c) == IndicatorOf(old(db.typing), u, c)
  {
    if identity.None? {
      return Err(Unauthorized);
    }
    var me := identity.value;
    var existing := LookupIndex(db.typing, TypingKey, (me, conversationId));
    if isTyping {
      if existing.Some? {
        var i := existing.value;
        var patched := db.typing[i].(updatedAt := now);
        IndicatorAfterPatch(db.typing, i, now);
        IdsBelowUpdate(db.typing, i, patched, TypingId, db.nextId);
        db.typing := db.typing[i := patched];
      } else {
        var row := TypingIndicator(db.nextId, me, conversationId, userName, now);
        IndicatorAfterInsert(db.typing, row);
        IdsBelowAppend(db.typing, row, TypingId, db.nextId);
        IdsBelowRaise(db.users, UserId, db.nextId);
        IdsBelowRaise(db.conversations, ConversationIdOf, db.nextId);
        IdsBelowRaise(db.messages, MessageId, db.nextId);
        IdsBelowRaise(db.members, MembershipId, db.nextId);
        db.typing := db.typing + [row];
        db.nextId := db.nextId + 1;
      }
      return Ok(());
    }
    if existing.Some? {
      var i := existing.value;
      IndicatorAfterDelete(db.typing, i);
      IdsBelowRemove(db.typing, i, TypingId, db.nextId);
      db.typing := db.typing[..i] + db.typing[i + 1..];
    }
    r := Ok(());
  }

  // Reading who is typing.

  datatype TypingUser = TypingUser(userId: string, userName: string)

  /** An indicator of conversation `c` refreshed at most `TypingTtl` ms before `now`. */
  predicate IsLive(t: TypingIndicator, c: Id, now: int) {
    t.conversationId == c && now - t.updatedAt <= TypingTtl
  }

  function LiveIn(c: Id, now: int): TypingIndicator -> bool {
    t => IsLive(t, c, now)
  }

  function AsTypingUser(t: TypingIndicator): TypingUser { TypingUser(t.userId, t.userName) }

  /** `getTypingUsers`: the indicators of conversation `c` that are live at `now`, in
      table order, as (userId, userName). */
  function GetTypingUsers(typing: seq<TypingIndicator>, c: Id, now: int): (r: seq<TypingUser>)
    ensures |r| <= |typing|
    ensures forall u :: u in r <==> exists t :: t in typing && IsLive(t, c, now) && u == AsTypingUser(t)
  {
    var live := Filter(typing, LiveIn(c, now));
    var r := Map(live, AsTypingUser);
    assert forall u :: u in r ==> exists t :: t in typing && IsLive(t, c, now) && u == AsTypingUser(t) by {
      forall u | u in r ensures exists t :: t in typing && IsLive(t, c, now) && u == AsTypingUser(t) {
        var k :| 0 <= k < |r| && r[k] == u;
        assert live[k] in live;
      }
    }
    assert forall t :: t in typing && IsLive(t, c, now) ==> AsTypingUser(t) in r by {
      forall t | t in typing && IsLive(t, c, now) ensures AsTypingUser(t) in r {
        var k :| 0 <= k < |live| && live[k] == t;
        assert r[k] == AsTypingUser(t);
      }
    }
    r
  }

  /** With one indicator per key, the listing names each user at most once. */
  lemma GetTypingUsersDistinct(typing: seq<TypingIndicator>, c: Id, now: int)
    requires UniqueBy(typing, TypingKey)
    ensures var r := GetTypingUsers(typing, c, now);
      forall i, j :: 0 <= i < j < |r| ==> r[i].userId != r[j].userId
  {
    var live := Filter(typing, LiveIn(c, now));
    FilterKeepsUnique(typing, LiveIn(c, now), TypingKey);
    var r := Map(live, AsTypingUser);
    forall i, j | 0 <= i < j < |r| ensures r[i].userId != r[j].userId {
      assert live[i] in live && live[j] in live;
      assert TypingKey(live[i]) != TypingKey(live[j]);
    }
  }

  /** The window is inclusive and computed at read time: a user's indicator is listed
      exactly when it was refreshed at most `TypingTtl` ms before the read. */
  lemma TypingWindow(typing: seq<TypingIndicator>, u: string, c: Id, now: int)
    requires UniqueBy(typing, TypingKey) && IndicatorOf(typing, u, c).Some?
    ensures var t := IndicatorOf(typing, u, c).value;
      TypingUser(u, t.userName) in GetTypingUsers(typing, c, now) <==> now - t.updatedAt <= TypingTtl
  {
    var t := IndicatorOf(typing, u, c).value;
    assert t in typing by {
      var i := LookupIndex(typing, TypingKey, (u, c)).value;
      assert typing[i] == t;
    }
    if TypingUser(u, t.userName) in GetTypingUsers(typing, c, now) {
      var t' :| t' in typing && IsLive(t', c, now) && TypingUser(u, t.userName) == AsTypingUser(t');
      LookupUnique(typing, TypingKey, t');
    }
  }

  /** An indicator set at time 0 is listed by a read at 3000 and not by one at 3001. */
  lemma TypingExpiry(typing: seq<TypingIndicator>, u: string, c: Id)
    requires UniqueBy(typing, TypingKey) && IndicatorOf(typing, u, c).Some?
    requires IndicatorOf(typing, u, c).value.updatedAt == 0
    ensures TypingUser(u, IndicatorOf(typing, u, c).value.userName) in GetTypingUsers(typing, c, 3000)
    ensures TypingUser(u, IndicatorOf(typing, u, c).value.userName) !in GetTypingUsers(typing, c, 3001)
  {
    TypingWindow(typing, u, c, 3000);
    TypingWindow(typing, u, c, 3001);
  }
}
