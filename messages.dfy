/** `convex/messages.ts`: the message log of a conversation and the preview that a send
    denormalizes onto the conversation. */
module Messages {
  import opened Wrappers
  import opened Seqs
  import opened Schema
  import opened Database

  /** The preview length. */
  const PreviewLength := 50

  /** `content.slice(0, 50)`: the longest prefix of `content` of at most 50 characters. */
  function Preview(content: string): (r: string)
    ensures |r| == if |content| < PreviewLength then |content| else PreviewLength
    ensures r <= content
  {
    if |content| < PreviewLength then content else content[..PreviewLength]
  }

  /** Patching a conversation without touching its participants keeps one conversation
      per pair. */
  lemma PatchKeepsPairsUnique(cs: seq<Conversation>, i: nat, y: Conversation)
    requires i < |cs| && UniquePairs(cs)
    requires y.participantOne == cs[i].participantOne && y.participantTwo == cs[i].participantTwo
    ensures UniquePairs(cs[i := y])
  {
    var t := cs[i := y];
    forall a, b | 0 <= a < b < |t| ensures !SamePair(t[b], t[a].participantOne, t[a].participantTwo) {
      assert !SamePair(cs[b], cs[a].participantOne, cs[a].participantTwo);
    }
  }

  /** The conversation `c` after a send of `content` at `now`: only its preview and time change. */
  function AfterSend(c: Conversation, content: string, now: int): Conversation {
    c.(lastMessagePreview := Some(Preview(content)), lastMessageTime := Some(now))
  }

  /** `send`: appends a message from the caller, stamped `now`, to the conversation and
      sets that conversation's preview and time. The caller need not be a participant.
      A conversation id with no row makes the patch fail, which undoes the insert. */
  method Send(db: Store, identity: Option<string>, now: int, conversationId: Id, content: string)
    returns (r: Result<()>)
    requires db.Valid()
    modifies db
    ensures db.Valid()
    ensures identity.None? ==> r == Err(Unauthorized) && unchanged(db)
    ensures identity.Some? ==>
      match LookupIndex(old(db.conversations), ConversationIdOf, conversationId)
      case None => r == Err(NotFound) && unchanged(db)
      case Some(i) =>
        && r == Ok(())
        && db.messages == old(db.messages) + [Message(old(db.nextId), conversationId, identity.value, content, now)]
        && db.conversations == old(db.conversations)[i := AfterSend(old(db.conversations)[i], content, now)]
        && db.nextId == old(db.nextId) + 1
        && db.users == old(db.users) && db.members == old(db.members) && db.typing == old(db.typing)
    ensures r.Ok? ==>
      && Lookup(db.conversations, ConversationIdOf, conversationId).Some?
      && Lookup(db.conversations, ConversationIdOf, conversationId).value.lastMessagePreview == Some(Preview(content))
      && Lookup(db.conversations, ConversationIdOf, conversationId).value.lastMessageTime == Some(now)
    ensures r.Ok? ==> forall k: Id :: k != conversationId ==>
      Lookup(db.conversations, ConversationIdOf, k) == Lookup(old(db.conversations), ConversationIdOf, k)
  {
    if identity.None? {
      return Err(Unauthorized);
    }
    var target := LookupIndex(db.conversations, ConversationIdOf, conversationId);
    if target.None? {
      return Err(NotFound);
    }
    var i := target.value;
    var m := Message(db.nextId, conversationId, identity.value, content, now);
    var patched := AfterSend(db.conversations[i], content, now);
    PatchKeepsPairsUnique(db.conversations, i, patched);
    UpdateKeepsUnique(db.conversations, i, patched, ConversationIdOf);
    forall k: Id ensures Lookup(db.conversations[i := patched], ConversationIdOf, k)
                   == if LookupIndex(db.conversations, ConversationIdOf, k) == Some(i) then Some(patched)
                      else Lookup(db.conversations, ConversationIdOf, k) {
      LookupUpdate(db.conversations, i, patched, ConversationIdOf, k);
    }
    IdsBelowUpdate(db.conversations, i, patched, ConversationIdOf, db.nextId);
    IdsBelowAppend(db.messages, m, MessageId, db.nextId);
    IdsBelowRaise(db.users, UserId, db.nextId);
    IdsBelowRaise(db.conversations[i := patched], ConversationIdOf, db.nextId);
    IdsBelowRaise(db.members, MembershipId, db.nextId);
    IdsBelowRaise(db.typing, TypingId, db.nextId);
    db.messages := db.messages + [m];
    db.conversations := db.conversations[i := patched];
    db.nextId := db.nextId + 1;
    r := Ok(());
  }

  // Listing a conversation's messages.

  datatype MessageWithSender = MessageWithSender(
    id: Id, content: string, senderId: string, createdAt: int,
    senderName: string, senderImageUrl: string)

  /** A message joined with its sender's profile, or with "Unknown" and no image when
      the sender has no user row. */
  function WithSender(m: Message, users: seq<User>): (e: MessageWithSender)
    ensures e.id == m.id && e.content == m.content && e.senderId == m.senderId && e.createdAt == m.createdAt
    ensures match UserByClerkId(users, m.senderId)
      case Some(u) => e.senderName == u.name && e.senderImageUrl == u.imageUrl
      case None => e.senderName == "Unknown" && e.senderImageUrl == ""
  {
    var sender := UserByClerkId(users, m.senderId);
    MessageWithSender(
      m.id, m.content, m.senderId, m.createdAt,
      if sender.Some? then sender.value.name else "Unknown",
      if sender.Some? then sender.value.imageUrl else "")
  }

  function Enrich(users: seq<User>): Message -> MessageWithSender {
    m => WithSender(m, users)
  }

  /** The `by_conversation` index query for `c`. */
  function InConversation(c: Id): Message -> bool {
    (m: Message) => m.conversationId == c
  }

  /** The `by_conversation` index order after the conversation id: `createdAt`, then
      insertion order. */
  function CreatedAt(m: Message): int { m.createdAt }

  function EnrichedCreatedAt(e: MessageWithSender): int { e.createdAt }

  /** `getMessages`: the messages of conversation `c` in ascending `createdAt` order,
      each joined with its sender. */
  function GetMessages(users: seq<User>, messages: seq<Message>, c: Id): (r: seq<MessageWithSender>)
    ensures multiset(r) == multiset(Map(Filter(messages, InConversation(c)), Enrich(users)))
    ensures forall i, j :: 0 <= i < j < |r| ==> r[i].createdAt <= r[j].createdAt
  {
    var mine := Filter(messages, InConversation(c));
    SortMap(mine, Enrich(users), CreatedAt, EnrichedCreatedAt);
    SortSorted(Map(mine, Enrich(users)), EnrichedCreatedAt);
    Map(SortByKey(mine, CreatedAt), Enrich(users))
  }

  /** The listing holds every message of `c` and nothing else, each once per stored copy. */
  lemma GetMessagesExact(users: seq<User>, messages: seq<Message>, c: Id)
    ensures |GetMessages(users, messages, c)| == |Filter(messages, InConversation(c))|
    ensures forall m :: m in messages && m.conversationId == c ==> WithSender(m, users) in GetMessages(users, messages, c)
    ensures forall e :: e in GetMessages(users, messages, c) ==>
              exists m :: m in messages && m.conversationId == c && e == WithSender(m, users)
  {
    var r := GetMessages(users, messages, c);
    var mine := Filter(messages, InConversation(c));
    var enriched := Map(mine, Enrich(users));
    assert |r| == |multiset(r)| == |multiset(enriched)| == |enriched|;
    forall m | m in messages && m.conversationId == c ensures WithSender(m, users) in r {
      var k :| 0 <= k < |mine| && mine[k] == m;
      assert enriched[k] == WithSender(m, users);
      assert WithSender(m, users) in multiset(enriched);
    }
    forall e | e in r ensures exists m :: m in messages && m.conversationId == c && e == WithSender(m, users) {
      assert e in multiset(enriched);
      var k :| 0 <= k < |enriched| && enriched[k] == e;
      assert mine[k] in mine;
    }
  }

  /** Ties keep insertion order: the messages sharing a `createdAt` are listed as the
      log holds them. */
  lemma GetMessagesStable(users: seq<User>, messages: seq<Message>, c: Id, t: int)
    ensures Filter(GetMessages(users, messages, c), HasKey(EnrichedCreatedAt, t))
         == Filter(Map(Filter(messages, InConversation(c)), Enrich(users)), HasKey(EnrichedCreatedAt, t))
  {
    var mine := Filter(messages, InConversation(c));
    SortMap(mine, Enrich(users), CreatedAt, EnrichedCreatedAt);
    SortStable(Map(mine, Enrich(users)), EnrichedCreatedAt, t);
  }

  /** Messages appended to other conversations do not change a listing. */
  lemma GetMessagesOtherConversation(users: seq<User>, messages: seq<Message>, m: Message, c: Id)
    requires m.conversationId != c
    ensures GetMessages(users, messages + [m], c) == GetMessages(users, messages, c)
  {
    FilterAppend(messages, [m], InConversation(c));
    FilterCons(m, [], InConversation(c));
    assert Filter(messages, InConversation(c)) + [] == Filter(messages, InConversation(c));
  }

  /** A message sent to `c` no earlier than any message already there is listed last:
      the order of a conversation follows its send times regardless of other
      conversations' traffic. */
  lemma GetMessagesAppendNewest(users: seq<User>, messages: seq<Message>, m: Message)
    requires forall y :: y in messages && y.conversationId == m.conversationId ==> y.createdAt <= m.createdAt
    ensures GetMessages(users, messages + [m], m.conversationId)
         == GetMessages(users, messages, m.conversationId) + [WithSender(m, users)]
  {
    var c := m.conversationId;
    var mine := Filter(messages, InConversation(c));
    FilterAppend(messages, [m], InConversation(c));
    FilterCons(m, [], InConversation(c));
    assert Filter(messages + [m], InConversation(c)) == mine + [m];
    assert forall y :: y in mine ==> CreatedAt(y) <= CreatedAt(m);
    SortAppendLargest(mine, m, CreatedAt);
    var sorted := SortByKey(mine, CreatedAt);
    MapAppend(sorted, m, Enrich(users));
  }
}
