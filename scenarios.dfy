/** Whole-request scenarios: sequences of handler calls on a fresh deployment and what
    the queries then return. */
module Scenarios {
  import opened Wrappers
  import opened Seqs
  import opened Schema
  import opened Database
  import opened Conversations
  import opened Messages
  import opened Typing

  /** The unread count is empty for no messages. */
  lemma UnreadOfEmpty(c: Id, me: string, cursor: Option<int>)
    ensures UnreadCount([], c, me, cursor) == 0
  {
    assert Filter([], Unread(c, me, cursor)) == [];
  }

  /** `send` to the conversation at position `i` of the table, seen through what it
      does to the message log and the conversation ids. */
  method SendTo(db: Store, i: nat, sender: string, now: int, content: string)
    requires db.Valid() && i < |db.conversations|
    modifies db
    ensures db.Valid()
    ensures db.messages == old(db.messages) + [Message(old(db.nextId), old(db.conversations[i].id), sender, content, now)]
    ensures db.nextId == old(db.nextId) + 1 && db.users == old(db.users) && db.members == old(db.members)
    ensures |db.conversations| == |old(db.conversations)|
    ensures forall j :: 0 <= j < |db.conversations| ==> db.conversations[j].id == old(db.conversations[j].id)
  {
    var id := db.conversations[i].id;
    LookupUnique(db.conversations, ConversationIdOf, db.conversations[i]);
    var r := Send(db, Some(sender), now, id, content);
  }

  /** A opens a conversation with B, and B sends three messages at 10, 20 and 30. */
  method ThreeFromB() returns (db: Store)
    ensures fresh(db) && db.Valid()
    ensures db.messages == [Message(1, 0, "B", "one", 10), Message(2, 0, "B", "two", 20)] + [Message(3, 0, "B", "three", 30)]
    ensures db.members == [] && |db.conversations| == 1 && db.conversations[0].id == 0 && db.nextId == 4
  {
    db := new Store();
    var c := GetOrCreate(db, Some("A"), 0, "B");
    assert db.conversations == [Conversation(0, "A", "B", None, None, 0)];
    SendTo(db, 0, "B", 10, "one");
    SendTo(db, 0, "B", 20, "two");
    SendTo(db, 0, "B", 30, "three");
  }

  /** After B's three messages A has three unread; after A marks the conversation read
      at 20, one; A's own message at 40 does not count. */
  method UnreadExample() returns (before: nat, after: nat, afterOwn: nat)
    ensures before == 3 && after == 1 && afterOwn == 1
  {
    var db := ThreeFromB();
    UnreadSteps(Message(1, 0, "B", "one", 10), Message(2, 0, "B", "two", 20), Message(3, 0, "B", "three", 30));
    before := GetUnreadCount(Some("A"), db.members, db.messages, 0);

    var read := MarkAsRead(db, Some("A"), 20, 0);
    after := GetUnreadCount(Some("A"), db.members, db.messages, 0);

    ghost var log := db.messages;
    SendTo(db, 0, "A", 40, "mine");
    UnreadAfterAppend(log, Message(5, 0, "A", "mine", 40), 0, "A", Some(20));
    afterOwn := GetUnreadCount(Some("A"), db.members, db.messages, 0);
  }

  /** The counts of the unread example, one append at a time. */
  lemma UnreadSteps(m1: Message, m2: Message, m3: Message)
    requires m1 == Message(1, 0, "B", "one", 10) && m2 == Message(2, 0, "B", "two", 20)
    requires m3 == Message(3, 0, "B", "three", 30)
    ensures UnreadCount([m1, m2] + [m3], 0, "A", None) == 3
    ensures UnreadCount([m1, m2] + [m3], 0, "A", Some(20)) == 1
  {
    UnreadOfEmpty(0, "A", None);
    UnreadOfEmpty(0, "A", Some(20));
    assert [] + [m1] == [m1] && [m1] + [m2] == [m1, m2];
    UnreadAfterAppend([], m1, 0, "A", None);
    UnreadAfterAppend([m1], m2, 0, "A", None);
    UnreadAfterAppend([m1, m2], m3, 0, "A", None);
    UnreadAfterAppend([], m1, 0, "A", Some(20));
    UnreadAfterAppend([m1], m2, 0, "A", Some(20));
    UnreadAfterAppend([m1, m2], m3, 0, "A", Some(20));
  }

  /** A opens conversations with B and with C. */
  method TwoConversations() returns (db: Store)
    ensures fresh(db) && db.Valid()
    ensures db.messages == [] && db.users == [] && db.nextId == 2
    ensures |db.conversations| == 2 && db.conversations[0].id == 0 && db.conversations[1].id == 1
  {
    db := new Store();
    var c := GetOrCreate(db, Some("A"), 0, "B");
    assert db.conversations == [Conversation(0, "A", "B", None, None, 0)];
    assert FindExisting(db.conversations, "A", "C").None?;
    var d := GetOrCreate(db, Some("A"), 0, "C");
  }

  /** Messages sent at 10, 20 and 30 to one conversation, with a message to another
      conversation in between, are listed in send order. */
  method OrderingExample() returns (listed: seq<MessageWithSender>)
    ensures |listed| == 3
    ensures listed[0].content == "one" && listed[1].content == "two" && listed[2].content == "three"
  {
    var db := TwoConversations();
    var m1, o := Message(2, 0, "B", "one", 10), Message(3, 1, "C", "other", 15);
    var m2, m3 := Message(4, 0, "B", "two", 20), Message(5, 0, "B", "three", 30);
    SendTo(db, 0, "B", 10, "one");
    assert db.messages == [m1];
    SendTo(db, 1, "C", 15, "other");
    assert db.messages == [m1, o];
    SendTo(db, 0, "B", 20, "two");
    assert db.messages == [m1, o, m2];
    SendTo(db, 0, "B", 30, "three");
    assert db.messages == [m1, o, m2] + [m3];
    OrderingSteps(db.users, m1, o, m2, m3);
    listed := GetMessages(db.users, db.messages, 0);
  }

  /** Three messages of one conversation, sent in time order with a message of another
      conversation in between, are listed in that order. */
  lemma OrderingSteps(users: seq<User>, m1: Message, o: Message, m2: Message, m3: Message)
    requires m2.conversationId == m1.conversationId && m3.conversationId == m1.conversationId
    requires o.conversationId != m1.conversationId
    requires m1.createdAt <= m2.createdAt <= m3.createdAt
    ensures GetMessages(users, [m1, o, m2] + [m3], m1.conversationId)
         == [WithSender(m1, users), WithSender(m2, users), WithSender(m3, users)]
  {
    OrderingFirstTwo(users, m1, o, m2);
    GetMessagesAppendNewest(users, [m1, o, m2], m3);
  }

  lemma OrderingFirstTwo(users: seq<User>, m1: Message, o: Message, m2: Message)
    requires m2.conversationId == m1.conversationId && o.conversationId != m1.conversationId
    requires m1.createdAt <= m2.createdAt
    ensures GetMessages(users, [m1, o, m2], m1.conversationId) == [WithSender(m1, users), WithSender(m2, users)]
  {
    OrderingFirst(users, m1, o);
    GetMessagesAppendNewest(users, [m1, o], m2);
    assert [m1, o] + [m2] == [m1, o, m2];
  }

  lemma OrderingFirst(users: seq<User>, m1: Message, o: Message)
    requires o.conversationId != m1.conversationId
    ensures GetMessages(users, [m1, o], m1.conversationId) == [WithSender(m1, users)]
  {
    var c := m1.conversationId;
    assert GetMessages(users, [], c) == [] by {
      assert Filter([], InConversation(c)) == [];
    }
    GetMessagesAppendNewest(users, [], m1);
    assert [] + [m1] == [m1];
    GetMessagesOtherConversation(users, [m1], o, c);
    assert [m1] + [o] == [m1, o];
  }

  /** A's indicator, set at 0, is listed by a read at 3000 and not by one at 3001. */
  method TypingExample() returns (at3000: seq<TypingUser>, at3001: seq<TypingUser>)
    ensures TypingUser("A", "Alice") in at3000
    ensures TypingUser("A", "Alice") !in at3001
  {
    var db := new Store();
    var c := GetOrCreate(db, Some("A"), 0, "B");
    var t := SetTyping(db, Some("A"), 0, 0, true, "Alice");
    TypingExpiry(db.typing, "A", 0);
    at3000 := GetTypingUsers(db.typing, 0, 3000);
    at3001 := GetTypingUsers(db.typing, 0, 3001);
  }

  /** An 80-character message sets the preview to its first 50 characters and the time
      to the send instant. */
  method PreviewExample(content: string) returns (c: Conversation)
    requires |content| == 80
    ensures c.lastMessagePreview == Some(content[..50]) && c.lastMessageTime == Some(7)
  {
    var db := new Store();
    var started := GetOrCreate(db, Some("A"), 0, "B");
    var sent := Send(db, Some("A"), 7, 0, content);
    c := Lookup(db.conversations, ConversationIdOf, 0).value;
  }
}
