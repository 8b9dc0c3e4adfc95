/** `convex/conversations.ts`: the conversation directory, read cursors and unread counts. */
module Conversations {
  import opened Wrappers
  import opened Seqs
  import opened Schema
  import opened Database

  // Finding or creating the conversation of a pair.

  /** The stored orientation of a conversation's pair. */
  function Orientation(c: Conversation): (string, string) { (c.participantOne, c.participantTwo) }

  /** The lookup of `getOrCreate`: the first conversation stored as (me, other), else the
      first stored as (other, me). It finds one exactly when the pair has a conversation. */
  function FindExisting(cs: seq<Conversation>, me: string, other: string): (r: Option<Conversation>)
    ensures r.Some? ==> r.value in cs && SamePair(r.value, me, other)
    ensures r.None? <==> forall c :: c in cs ==> !SamePair(c, me, other)
  {
    match Lookup(cs, Orientation, (me, other))
    case Some(c) =>
      assert c in cs by { var i := LookupIndex(cs, Orientation, (me, other)).value; assert cs[i] == c; }
      Some(c)
    case None =>
      match Lookup(cs, Orientation, (other, me))
      case Some(c) =>
        assert c in cs by { var i := LookupIndex(cs, Orientation, (other, me)).value; assert cs[i] == c; }
        Some(c)
      case None => None
  }

  /** With one conversation per pair, the lookup does not depend on who asks. */
  lemma FindExistingSymmetric(cs: seq<Conversation>, a: string, b: string)
    requires UniquePairs(cs)
    ensures FindExisting(cs, a, b) == FindExisting(cs, b, a)
  {
    var r1, r2 := FindExisting(cs, a, b), FindExisting(cs, b, a);
    if r1.Some? {
      assert r2.Some?;
      PairDeterminesConversation(cs, r1.value, r2.value, a, b);
    } else {
      assert forall c :: c in cs ==> !SamePair(c, b, a);
    }
  }

  /** A conversation inserted for a pair that had none is what both orientations find. */
  lemma {:induction false} FoundAfterInsert(cs: seq<Conversation>, c: Conversation)
    requires FindExisting(cs, c.participantOne, c.participantTwo).None?
    ensures FindExisting(cs + [c], c.participantOne, c.participantTwo) == Some(c)
    ensures FindExisting(cs + [c], c.participantTwo, c.participantOne) == Some(c)
  {
    var a, b := c.participantOne, c.participantTwo;
    LookupAppend(cs, c, Orientation, (a, b));
    LookupAppend(cs, c, Orientation, (b, a));
  }

  /** Inserting a conversation for a pair that had none keeps one conversation per pair. */
  lemma InsertKeepsPairsUnique(cs: seq<Conversation>, c: Conversation)
    requires UniquePairs(cs)
    requires FindExisting(cs, c.participantOne, c.participantTwo).None?
    ensures UniquePairs(cs + [c])
  {
    var t := cs + [c];
    forall i, j | 0 <= i < j < |t| ensures !SamePair(t[j], t[i].participantOne, t[i].participantTwo) {
      if j == |cs| {
        assert t[i] in cs;
        assert !SamePair(t[i], c.participantOne, c.participantTwo);
      } else {
        assert t[i] == cs[i] && t[j] == cs[j];
      }
    }
  }

  /** `getOrCreate`: returns the id of the conversation between the caller and
      `otherUserClerkId` in either orientation, or inserts one with the caller as
      participantOne, created at `now` and with no preview or time yet. */
  method GetOrCreate(db: Store, identity: Option<string>, now: int, otherUserClerkId: string)
    returns (r: Result<Id>)
    requires db.Valid()
    modifies db
    ensures db.Valid()
    ensures identity.None? ==> r == Err(Unauthorized) && unchanged(db)
    ensures identity.Some? ==>
      match FindExisting(old(db.conversations), identity.value, otherUserClerkId)
      case Some(c) => r == Ok(c.id) && unchanged(db)
      case None =>
        && r == Ok(old(db.nextId)) && db.nextId == old(db.nextId) + 1
        && db.conversations
           == old(db.conversations) + [Conversation(old(db.nextId), identity.value, otherUserClerkId, None, None, now)]
        && db.users == old(db.users) && db.messages == old(db.messages)
        && db.members == old(db.members) && db.typing == old(db.typing)
    ensures identity.Some? ==>
      && r.Ok?
      && FindExisting(db.conversations, identity.value, otherUserClerkId).Some?
      && FindExisting(db.conversations, identity.value, otherUserClerkId).value.id == r.value
  {
    if identity.None? {
      return Err(Unauthorized);
    }
    var me := identity.value;
    var existing := FindExisting(db.conversations, me, otherUserClerkId);
    if existing.Some? {
      return Ok(existing.value.id);
    }
    var c := Conversation(db.nextId, me, otherUserClerkId, None, None, now);
    InsertKeepsPairsUnique(db.conversations, c);
    FoundAfterInsert(db.conversations, c);
    AppendKeepsUnique(db.conversations, c, ConversationIdOf);
    db.conversations := db.conversations + [c];
    db.nextId := db.nextId + 1;
    r := Ok(c.id);
  }

  /** Two users asking for each other, one after the other, reach the same conversation. */
  method GetOrCreateBothWays(db: Store, a: string, b: string, now1: int, now2: int)
    returns (r1: Result<Id>, r2: Result<Id>)
    requires db.Valid()
    modifies db
    ensures db.Valid()
    ensures r1.Ok? && r2.Ok? && r1.value == r2.value
  {
    r1 := GetOrCreate(db, Some(a), now1, b);
    FindExistingSymmetric(db.conversations, a, b);
    r2 := GetOrCreate(db, Some(b), now2, a);
  }

  // Read cursors and unread counts.

  /** A message counts as unread for `me` in conversation `c`: it belongs to `c`, someone
      else sent it, and it is newer than the cursor if there is one. */
  predicate IsUnread(m: Message, c: Id, me: string, cursor: Option<int>) {
    m.conversationId == c && m.senderId != me && (cursor.None? || m.createdAt > cursor.value)
  }

  function Unread(c: Id, me: string, cursor: Option<int>): Message -> bool {
    m => IsUnread(m, c, me, cursor)
  }

  /** The length of the unread query: the number of positions in the message log
      that hold an unread message. */
  function UnreadCount(messages: seq<Message>, c: Id, me: string, cursor: Option<int>): (n: nat)
    ensures n == |set i | 0 <= i < |messages| && IsUnread(messages[i], c, me, cursor)|
  {
    FilterCount(messages, Unread(c, me, cursor));
    assert Positions(messages, Unread(c, me, cursor))
        == set i | 0 <= i < |messages| && IsUnread(messages[i], c, me, cursor);
    |Filter(messages, Unread(c, me, cursor))|
  }

  /** `getUnreadCount`: zero without an identity, else the unread count under the
      caller's cursor on the conversation (no cursor: every message from someone else). */
  function GetUnreadCount(identity: Option<string>, members: seq<Membership>, messages: seq<Message>, c: Id): (n: nat)
    ensures identity.None? ==> n == 0
    ensures identity.Some? ==>
      n == |set i | 0 <= i < |messages| && IsUnread(messages[i], c, identity.value, Cursor(members, identity.value, c))|
  {
    match identity
    case None => 0
    case Some(me) => UnreadCount(messages, c, me, Cursor(members, me, c))
  }

  /** A new message adds one to the count exactly when it is unread: one's own
      messages, messages of other conversations and messages older than the cursor
      leave it unchanged. */
  lemma UnreadAfterAppend(messages: seq<Message>, m: Message, c: Id, me: string, cursor: Option<int>)
    ensures UnreadCount(messages + [m], c, me, cursor)
         == UnreadCount(messages, c, me, cursor) + if IsUnread(m, c, me, cursor) then 1 else 0
  {
    FilterAppend(messages, [m], Unread(c, me, cursor));
    FilterCons(m, [], Unread(c, me, cursor));
  }

  /** A later cursor never counts more, and any cursor counts at most what no cursor counts. */
  lemma UnreadCursorAntitone(messages: seq<Message>, c: Id, me: string, t1: int, t2: int)
    requires t1 <= t2
    ensures UnreadCount(messages, c, me, Some(t2)) <= UnreadCount(messages, c, me, Some(t1))
    ensures UnreadCount(messages, c, me, Some(t1)) <= UnreadCount(messages, c, me, None)
  {
    FilterWeaker(messages, Unread(c, me, Some(t2)), Unread(c, me, Some(t1)));
    FilterWeaker(messages, Unread(c, me, Some(t1)), Unread(c, me, None));
  }

  /** `markAsRead`: sets the caller's cursor on the conversation to `now`, patching the
      existing row or inserting one. `now` may be earlier than the old cursor. */
  method MarkAsRead(db: Store, identity: Option<string>, now: int, conversationId: Id)
    returns (r: Result<()>)
    requires db.Valid()
    modifies db
    ensures db.Valid()
    ensures identity.None? ==> r == Err(Unauthorized) && unchanged(db)
    ensures identity.Some? ==>
      && r == Ok(())
      && db.users == old(db.users) && db.conversations == old(db.conversations)
      && db.messages == old(db.messages) && db.typing == old(db.typing)
      && match LookupIndex(old(db.members), MemberKey, (identity.value, conversationId))
         case Some(i) =>
           && db.members == old(db.members)[i := old(db.members)[i].(lastReadTime := now)]
           && db.nextId == old(db.nextId)
         case None =>
           && db.members == old(db.members) + [Membership(old(db.nextId), identity.value, conversationId, now)]
           && db.nextId == old(db.nextId) + 1
    ensures identity.Some? ==> Cursor(db.members, identity.value, conversationId) == Some(now)
    ensures identity.Some? ==>
      forall u, c: Id :: (u, c) != (identity.value, conversationId) ==> Cursor(db.members, u, c) == Cursor(old(db.members), u, c)
  {
    if identity.None? {
      return Err(Unauthorized);
    }
    var me := identity.value;
    var existing := LookupIndex(db.members, MemberKey, (me, conversationId));
    if existing.Some? {
      var i := existing.value;
      var patched := db.members[i].(lastReadTime := now);
      CursorAfterPatch(db.members, i, now);
      IdsBelowUpdate(db.members, i, patched, MembershipId, db.nextId);
      db.members := db.members[i := patched];
    } else {
      var row := Membership(db.nextId, me, conversationId, now);
      CursorAfterInsert(db.members, row);
      IdsBelowAppend(db.members, row, MembershipId, db.nextId);
      IdsBelowRaise(db.users, UserId, db.nextId);
      IdsBelowRaise(db.conversations, ConversationIdOf, db.nextId);
      IdsBelowRaise(db.messages, MessageId, db.nextId);
      IdsBelowRaise(db.typing, TypingId, db.nextId);
      db.members := db.members + [row];
      db.nextId := db.nextId + 1;
    }
    r := Ok(());
  }

  /** Patching a membership row moves that one cursor and keeps one row per key. */
  lemma CursorAfterPatch(members: seq<Membership>, i: nat, now: int)
    requires i < |members| && UniqueBy(members, MemberKey)
    ensures var after := members[i := members[i].(lastReadTime := now)];
      && UniqueBy(after, MemberKey)
      && Cursor(after, members[i].userId, members[i].conversationId) == Some(now)
      && forall u, c: Id :: (u, c) != MemberKey(members[i]) ==> Cursor(after, u, c) == Cursor(members, u, c)
  {
    var patched := members[i].(lastReadTime := now);
    UpdateKeepsUnique(members, i, patched, MemberKey);
    LookupUnique(members, MemberKey, members[i]);
    forall u, c: Id ensures Lookup(members[i := patched], MemberKey, (u, c))
                     == if LookupIndex(members, MemberKey, (u, c)) == Some(i) then Some(patched)
                        else Lookup(members, MemberKey, (u, c)) {
      LookupUpdate(members, i, patched, MemberKey, (u, c));
    }
  }

  /** Inserting a membership row for a key that has none sets that cursor and keeps one
      row per key. */
  lemma CursorAfterInsert(members: seq<Membership>, row: Membership)
    requires UniqueBy(members, MemberKey) && Lookup(members, MemberKey, MemberKey(row)).None?
    ensures UniqueBy(members + [row], MemberKey)
    ensures Cursor(members + [row], row.userId, row.conversationId) == Some(row.lastReadTime)
    ensures forall u, c: Id :: (u, c) != MemberKey(row) ==> Cursor(members + [row], u, c) == Cursor(members, u, c)
  {
    AppendKeepsUnique(members, row, MemberKey);
    forall u, c: Id ensures Lookup(members + [row], MemberKey, (u, c))
                     == if Lookup(members, MemberKey, (u, c)).Some? then Lookup(members, MemberKey, (u, c))
                        else if MemberKey(row) == (u, c) then Some(row) else None {
      LookupAppend(members, row, MemberKey, (u, c));
    }
  }

  // The "my conversations" summary.

  datatype OtherUser = OtherUser(clerkId: string, name: string, imageUrl: string, isOnline: Option<bool>)

  datatype Summary = Summary(
    id: Id, otherUser: OtherUser,
    lastMessagePreview: Option<string>, lastMessageTime: Option<int>, unreadCount: nat)

  /** The conversations `me` takes part in: those where `me` is participantOne, then
      those where `me` is participantTwo, each in table order. A conversation of `me`
      with `me` is listed twice. */
  function Participating(cs: seq<Conversation>, me: string): (r: seq<Conversation>)
    ensures forall c ::
              multiset(r)[c]
              == (if c.participantOne == me then multiset(cs)[c] else 0)
               + (if c.participantTwo == me then multiset(cs)[c] else 0)
    ensures FirstSlotCount(cs, me) <= |r|
    ensures forall i :: 0 <= i < FirstSlotCount(cs, me) ==> r[i].participantOne == me
    ensures forall i :: FirstSlotCount(cs, me) <= i < |r| ==> r[i].participantTwo == me
  {
    FilterMultiset(cs, AsParticipantOne(me));
    FilterMultiset(cs, AsParticipantTwo(me));
    FilterHolds(cs, AsParticipantOne(me));
    FilterHolds(cs, AsParticipantTwo(me));
    Filter(cs, AsParticipantOne(me)) + Filter(cs, AsParticipantTwo(me))
  }

  /** How many of `cs` have `me` as participantOne: the length of the first index result,
      which `Participating` lists before every conversation found through participantTwo. */
  function FirstSlotCount(cs: seq<Conversation>, me: string): nat {
    |Filter(cs, AsParticipantOne(me))|
  }

  /** The `by_participant_one` index query for `me`. */
  function AsParticipantOne(me: string): Conversation -> bool {
    (c: Conversation) => c.participantOne == me
  }

  /** The `by_participant_two` index query for `me`. */
  function AsParticipantTwo(me: string): Conversation -> bool {
    (c: Conversation) => c.participantTwo == me
  }

  /** The sort key of `getMyConversations`: newest `lastMessageTime` first, absent as 0. */
  function RecencyKey(c: Conversation): int { -c.lastMessageTime.GetOr(0) }

  function SummaryRecencyKey(s: Summary): int { -s.lastMessageTime.GetOr(0) }

  /** The summary of conversation `c` for `me`: the other participant joined with their
      profile (defaults when they have no user row), the preview and time as stored,
      and the same unread count that `getUnreadCount` gives. */
  function Summarize(c: Conversation, me: string, users: seq<User>, members: seq<Membership>, messages: seq<Message>)
    : (s: Summary)
    ensures s.id == c.id
    ensures s.lastMessagePreview == c.lastMessagePreview && s.lastMessageTime == c.lastMessageTime
    ensures (c.participantOne == me || c.participantTwo == me) ==> SamePair(c, me, s.otherUser.clerkId)
    ensures match UserByClerkId(users, s.otherUser.clerkId)
      case Some(u) => s.otherUser.name == u.name && s.otherUser.imageUrl == u.imageUrl && s.otherUser.isOnline == u.isOnline
      case None => s.otherUser.name == "Unknown" && s.otherUser.imageUrl == "" && s.otherUser.isOnline.None?
    ensures s.unreadCount == GetUnreadCount(Some(me), members, messages, c.id)
  {
    var other := if c.participantOne == me then c.participantTwo else c.participantOne;
    var profile := UserByClerkId(users, other);
    Summary(
      c.id,
      OtherUser(
        other,
        if profile.Some? then profile.value.name else "Unknown",
        if profile.Some? then profile.value.imageUrl else "",
        if profile.Some? then profile.value.isOnline else None),
      c.lastMessagePreview,
      c.lastMessageTime,
      UnreadCount(messages, c.id, me, Cursor(members, me, c.id)))
  }

  function SummaryFor(me: string, users: seq<User>, members: seq<Membership>, messages: seq<Message>)
    : Conversation -> Summary
  {
    c => Summarize(c, me, users, members, messages)
  }

  /** `getMyConversations`: no identity gives no summaries; otherwise one summary per
      conversation of the caller (see `Participating`), newest `lastMessageTime` first. */
  function MyConversations(
    identity: Option<string>, cs: seq<Conversation>, users: seq<User>,
    members: seq<Membership>, messages: seq<Message>)
    : (r: seq<Summary>)
    ensures identity.None? ==> r == []
    ensures identity.Some? ==> |r| == |Participating(cs, identity.value)|
    ensures identity.Some? ==>
      multiset(r) == multiset(Map(Participating(cs, identity.value), SummaryFor(identity.value, users, members, messages)))
    ensures forall i, j :: 0 <= i < j < |r| ==> r[i].lastMessageTime.GetOr(0) >= r[j].lastMessageTime.GetOr(0)
  {
    match identity
    case None => []
    case Some(me) =>
      var all := Participating(cs, me);
      var summarize := SummaryFor(me, users, members, messages);
      SortMap(all, summarize, RecencyKey, SummaryRecencyKey);
      SortSorted(Map(all, summarize), SummaryRecencyKey);
      Map(SortByKey(all, RecencyKey), summarize)
  }

  /** The sort is stable: summaries with equal sort keys keep the order in which the
      two index queries were concatenated. */
  lemma MyConversationsStable(
    me: string, cs: seq<Conversation>, users: seq<User>,
    members: seq<Membership>, messages: seq<Message>, k: int)
    ensures Filter(MyConversations(Some(me), cs, users, members, messages), HasKey(SummaryRecencyKey, k))
         == Filter(Map(Participating(cs, me), SummaryFor(me, users, members, messages)), HasKey(SummaryRecencyKey, k))
  {
    var all := Participating(cs, me);
    var summarize := SummaryFor(me, users, members, messages);
    SortMap(all, summarize, RecencyKey, SummaryRecencyKey);
    SortStable(Map(all, summarize), SummaryRecencyKey, k);
  }
}
