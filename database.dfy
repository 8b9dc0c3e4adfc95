/** The deployment's database, `ctx.db`: the five tables in insertion order (which is
    Convex's `_creationTime` order) and the counter that supplies fresh document ids. */
module Database {
  import opened Seqs
  import opened Schema

  class Store {
    var users: seq<User>
    var conversations: seq<Conversation>
    var messages: seq<Message>
    var members: seq<Membership>
    var typing: seq<TypingIndicator>
    var nextId: Id

    /** Every id is below `nextId`, so the next id is fresh; conversation ids are
        distinct; and each index that the handlers read with `.unique()` has at most
        one row per key. */
    ghost predicate Valid()
      reads this
    {
      && IdsBelow(users, UserId, nextId)
      && IdsBelow(conversations, ConversationIdOf, nextId)
      && IdsBelow(messages, MessageId, nextId)
      && IdsBelow(members, MembershipId, nextId)
      && IdsBelow(typing, TypingId, nextId)
      && UniqueBy(conversations, ConversationIdOf)
      && UniqueBy(users, ClerkIdOf)
      && UniquePairs(conversations)
      && UniqueBy(members, MemberKey)
      && UniqueBy(typing, TypingKey)
    }

    /** An empty deployment. */
    constructor ()
      ensures Valid()
      ensures users == [] && conversations == [] && messages == []
      ensures members == [] && typing == [] && nextId == 0
    {
      users, conversations, messages := [], [], [];
      members, typing, nextId := [], [], 0;
    }
  }
}
