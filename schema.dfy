/** The documents of the five tables, their index keys and the lookups the handlers
    make on those indexes. Field names follow `convex/schema.ts`; the membership and
    typing rows, which that file does not declare, take the fields the handlers write. */
module Schema {
  import opened Wrappers
  import opened Seqs

  /** A document `_id`. All tables draw from one counter (see `Database.Store.nextId`). */
  type Id = nat

  /** A profile synced from the identity provider; `isOnline` is read but never written. */
  datatype User = User(
    id: Id, clerkId: string, name: string, email: string, imageUrl: string,
    createdAt: int, isOnline: Option<bool>)

  /** A two-party thread; the pair is stored ordered but means an unordered pair. */
  datatype Conversation = Conversation(
    id: Id, participantOne: string, participantTwo: string,
    lastMessagePreview: Option<string>, lastMessageTime: Option<int>, createdAt: int)

  datatype Message = Message(
    id: Id, conversationId: Id, senderId: string, content: string, createdAt: int)

  /** A read cursor: the time `userId` last marked `conversationId` as read. */
  datatype Membership = Membership(
    id: Id, userId: string, conversationId: Id, lastReadTime: int)

  datatype TypingIndicator = TypingIndicator(
    id: Id, userId: string, conversationId: Id, userName: string, updatedAt: int)

  // Document ids.

  function UserId(u: User): int { u.id }

  /** A conversation's `_id`, also the key `ctx.db.patch` finds it by. */
  function ConversationIdOf(c: Conversation): int { c.id }

  function MessageId(m: Message): int { m.id }
  function MembershipId(m: Membership): int { m.id }
  function TypingId(t: TypingIndicator): int { t.id }

  // The index keys.

  /** `users.by_clerkId`. */
  function ClerkIdOf(u: User): string { u.clerkId }

  /** `conversationMembers.by_user_conversation`. */
  function MemberKey(m: Membership): (string, Id) { (m.userId, m.conversationId) }

  /** `typingIndicators.by_user_conversation`. */
  function TypingKey(t: TypingIndicator): (string, Id) { (t.userId, t.conversationId) }

  // The `.unique()` lookups.

  function UserByClerkId(users: seq<User>, clerkId: string): Option<User> {
    Lookup(users, ClerkIdOf, clerkId)
  }

  /** The caller's read cursor on a conversation, `None` if they never marked it read. */
  function Cursor(members: seq<Membership>, userId: string, conversationId: Id): Option<int> {
    match Lookup(members, MemberKey, (userId, conversationId))
    case Some(m) => Some(m.lastReadTime)
    case None => None
  }

  function IndicatorOf(typing: seq<TypingIndicator>, userId: string, conversationId: Id): Option<TypingIndicator> {
    Lookup(typing, TypingKey, (userId, conversationId))
  }

  // Unordered pairs.

  /** `c` is the conversation between `a` and `b`, in either orientation. */
  predicate SamePair(c: Conversation, a: string, b: string) {
    (c.participantOne == a && c.participantTwo == b) || (c.participantOne == b && c.participantTwo == a)
  }

  /** At most one conversation per unordered pair of participants. */
  predicate UniquePairs(cs: seq<Conversation>) {
    forall i, j :: 0 <= i < j < |cs| ==> !SamePair(cs[j], cs[i].participantOne, cs[i].participantTwo)
  }

  /** Two conversations of a store with unique pairs that join the same two users are one. */
  lemma PairDeterminesConversation(cs: seq<Conversation>, c1: Conversation, c2: Conversation, a: string, b: string)
    requires UniquePairs(cs) && c1 in cs && c2 in cs
    requires SamePair(c1, a, b) && SamePair(c2, a, b)
    ensures c1 == c2
  {
    var i :| 0 <= i < |cs| && cs[i] == c1;
    var j :| 0 <= j < |cs| && cs[j] == c2;
    if i < j {
      assert SamePair(cs[j], cs[i].participantOne, cs[i].participantTwo);
    } else if j < i {
      assert SamePair(cs[i], cs[j].participantOne, cs[j].participantTwo);
    }
  }
}
