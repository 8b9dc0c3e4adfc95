# live_chat backend — a Dafny model

This project models the Convex backend of the live_chat application. Four handler files are covered:

- `convex/users.ts`: the user directory synced from the identity provider.
- `convex/conversations.ts`: one conversation per pair of users, read cursors, unread counts and the "my conversations" summary list.
- `convex/messages.ts`: sending a message, which also updates the conversation's preview, and listing a conversation's messages.
- `convex/typing.ts`: typing indicators read through a 3000 ms window.

Each handler's promises are proved.

The deployment's database (`ctx.db`) is one `Database.Store` object. It holds the five tables in insertion order, which is Convex's `_creationTime` order, and a counter that issues document ids. `Store.Valid()` is the invariant every handler keeps:

- every id is below the counter, so the next id is fresh;
- conversation ids are distinct;
- there is at most one user per `clerkId`;
- there is at most one conversation per unordered pair;
- there is at most one read cursor per (user, conversation);
- there is at most one typing indicator per (user, conversation).

Mutations (`upsertUser`, `getOrCreate`, `markAsRead`, `send`, `setTyping`) are methods that change the store. Each method has two explicit parameters:

- `identity: Option<string>`, the caller's `identity.subject`, or `None` when `ctx.auth` has no user;
- `now`, the value of `Date.now()`.

A thrown `Error("Unauthorized")` becomes `Err(Unauthorized)` with the store unchanged. This holds because a Convex mutation that throws commits nothing.

Queries (`getAll`, `getMyConversations`, `getUnreadCount`, `getMessages`, `getTypingUsers`) are functions over the tables.

`Seqs` supplies the generic pieces:

- index filters;
- `.unique()` as a first-match lookup, which is the only match wherever the matching uniqueness invariant holds;
- `Array.prototype.sort` as a stable insertion sort, with its ordering, permutation and stability lemmas.

Module `Scenarios` runs four end-to-end sequences of handler calls, each on a fresh store: unread counts of 3 and then 1, message ordering across two conversations, typing expiry at 3000/3001 ms and an 80-character preview.

Points where the code is looser than one might expect, which the model follows:

- The code does not check that the two users of `getOrCreate` differ. The model follows it: a self-conversation can be created, and `getMyConversations` lists it twice.
- The code does not refresh `userName` when a typing indicator is refreshed. The model follows it: the indicator keeps the name stored when it was created.
- The code does not require `markAsRead`'s time to be later than the current cursor. The model follows it: the cursor can move backward.
- A send to a conversation id with no row: the insert runs first and the patch then throws, so the mutation commits nothing. The model returns `Err(NotFound)` with the store unchanged.

## Model

| member | source | states |
|---|---|---|
| Users.UpsertUser | convex/users.ts:5-33 | An existing row with the `clerkId` gets only name, email and imageUrl overwritten and keeps createdAt, isOnline and its id, which is returned. With no such row, exactly one row created at `now` is inserted with a fresh id. The lookup by `clerkId` then finds the new fields, other clerkIds look up as before, and the other tables and one-user-per-clerkId are preserved. |
| Users.UpsertTwice | convex/users.ts:13-31 | Two upserts with the same clerkId return the same id and leave exactly one row for it, carrying the second call's fields. |
| Users.GetAll | convex/users.ts:38-41 | A user is in the result iff it is stored and its clerkId differs from the argument. |
| Users.GetAllExact | convex/users.ts:38-41 | The result holds every other user with its multiplicity and no row of the argument. Under one-user-per-clerkId it is one shorter than the table exactly when the argument has a row. |
| Conversations.FindExisting | convex/conversations.ts:28-40 | Finds a conversation iff one joins the two users in either orientation, and what it finds joins them. |
| Conversations.FindExistingSymmetric | convex/conversations.ts:28-43 | With one conversation per pair, who asks does not change what is found. |
| Conversations.FoundAfterInsert | convex/conversations.ts:45-49 | A conversation inserted for a pair that had none is what both orientations then find. |
| Conversations.InsertKeepsPairsUnique | convex/conversations.ts:40-49 | Inserting only when no conversation joins the pair keeps one conversation per unordered pair. |
| Conversations.GetOrCreate | convex/conversations.ts:18-51 | No identity gives Unauthorized and no change. If the pair has a conversation in either orientation, its id is returned and nothing is written. Otherwise exactly one conversation (caller, other, no preview, no time, createdAt = now) is appended with a fresh id. Either way the pair then has that conversation, and the invariants hold. |
| Conversations.GetOrCreateBothWays | convex/conversations.ts:18-51 | A calling with B and then B calling with A yields the same id. |
| Conversations.UnreadCount | convex/conversations.ts:102-109 | Counts the messages of the conversation sent by someone else and, when a cursor exists, strictly newer than it. |
| Conversations.GetUnreadCount | convex/conversations.ts:159-190 | No identity gives 0. Otherwise the count under the caller's own cursor, or under no cursor when the caller has no membership row. |
| Conversations.UnreadAfterAppend | convex/conversations.ts:179-188 | A new message raises the count by one exactly when it is unread. The caller's own messages, other conversations' messages and messages not newer than the cursor leave it unchanged. |
| Conversations.UnreadCursorAntitone | convex/conversations.ts:179-186 | A later cursor never counts more, and any cursor counts at most what no cursor counts. |
| Conversations.MarkAsRead | convex/conversations.ts:130-157 | No identity gives Unauthorized and no change. Otherwise it patches lastReadTime := now on the caller's row for the conversation, or appends one such row with a fresh id. The caller's cursor is then `now` even if that is earlier than before. Every other (user, conversation) cursor and every other table are unchanged, and one-row-per-key is preserved. |
| Conversations.CursorAfterPatch | convex/conversations.ts:146-148 | Patching a membership row sets that key's cursor, leaves every other key's cursor and keeps keys unique. |
| Conversations.CursorAfterInsert | convex/conversations.ts:151-155 | Inserting a row for a key without one sets that cursor, leaves the others and keeps keys unique. |
| Conversations.Participating | convex/conversations.ts:63-73 | Each conversation appears once for each slot the caller fills: twice for a self-conversation, once otherwise, never when the caller is not a participant. The first `FirstSlotCount` entries are the participantOne matches and every later entry is a participantTwo match, so the first index result comes before the second. |
| Conversations.Summarize | convex/conversations.ts:79-122 | The summary keeps the id, preview and time. Its other user completes the pair with the caller and takes name, imageUrl and isOnline from that user's row, or "Unknown", "" and absent without one. Its unread count equals `getUnreadCount` for the caller. |
| Conversations.MyConversations | convex/conversations.ts:53-128 | No identity gives []. Otherwise the result is a permutation of the summaries of the caller's conversations, sorted by lastMessageTime non-increasing with absent counted as 0. |
| Conversations.MyConversationsStable | convex/conversations.ts:73-75 | Summaries with the same time keep the order of the two concatenated index results. |
| Schema.PairDeterminesConversation | convex/conversations.ts:40-43 | Under one conversation per pair, two conversations joining the same two users are the same one. |
| Messages.Preview | convex/messages.ts:36 | The preview is the prefix of the content of length min(50, content length). |
| Messages.PatchKeepsPairsUnique | convex/messages.ts:35-38 | The preview patch leaves the participants alone, so one conversation per pair still holds. |
| Messages.Send | convex/messages.ts:14-40 | No identity gives Unauthorized and no change. An id with no conversation makes the patch fail and nothing changes. Otherwise exactly one message (conversation, sender = caller, content, createdAt = now) is appended. Only that conversation's preview (Preview of the content) and time (now) change. No participant check is made, and the invariants hold. |
| Messages.WithSender | convex/messages.ts:55-67 | An entry keeps the message's id, content, senderId and createdAt. It takes the sender's name and imageUrl from the sender's row, or "Unknown" and "" without one. |
| Messages.GetMessages | convex/messages.ts:42-73 | The listing is a permutation of the conversation's messages joined with their senders, in non-decreasing createdAt order. |
| Messages.GetMessagesExact | convex/messages.ts:45-51 | The listing has one entry per stored message of the conversation and contains each of them, and every entry comes from one of them. |
| Messages.GetMessagesStable | convex/schema.ts:26 | Messages with equal createdAt are listed in insertion order, which the index's `_creationTime` tiebreak gives. |
| Messages.GetMessagesOtherConversation | convex/messages.ts:45-51 | Messages sent to other conversations do not change a listing. |
| Messages.GetMessagesAppendNewest | convex/messages.ts:45-51 | A message no older than the conversation's others is listed last, after the unchanged earlier listing. |
| Typing.SetTyping | convex/typing.ts:10-49 | No identity gives Unauthorized and no change. Typing on an existing row changes only its updatedAt, to now, and keeps the stored userName; with no row it appends one with the caller, conversation, userName and now. Stopping deletes the caller's row, or does nothing when there is none. Every other (user, conversation) indicator and every other table are unchanged, and one-row-per-key holds. |
| Typing.IndicatorAfterPatch | convex/typing.ts:32-33 | Refreshing sets that key's indicator to the refreshed row, leaves the others and keeps keys unique. |
| Typing.IndicatorAfterInsert | convex/typing.ts:34-41 | Inserting for a key without a row makes it that key's indicator, leaves the others and keeps keys unique. |
| Typing.IndicatorAfterDelete | convex/typing.ts:45-47 | Deleting leaves the key with no indicator, the others as they were and keys unique. |
| Typing.GetTypingUsers | convex/typing.ts:51-69 | A (userId, userName) is listed iff some indicator of the conversation with now − updatedAt ≤ 3000 carries it. |
| Typing.GetTypingUsersDistinct | convex/typing.ts:55-67 | With one indicator per key, no user is listed twice. |
| Typing.TypingWindow | convex/typing.ts:63 | A user's indicator is listed exactly when it was refreshed at most 3000 ms before the read. |
| Typing.TypingExpiry | convex/typing.ts:63 | An indicator set at 0 is listed at 3000 and not at 3001. |
| Scenarios.UnreadExample | convex/conversations.ts:159-190 | After B's messages at 10, 20 and 30, A has 3 unread. After A marks read at 20, A has 1. A's own later message leaves it at 1. |
| Scenarios.UnreadSteps | convex/conversations.ts:179-188 | The log of those three messages counts 3 with no cursor and 1 with cursor 20. |
| Scenarios.OrderingExample | convex/messages.ts:42-51 | Messages sent at 10, 20 and 30, with another conversation's message in between, are listed as "one", "two", "three". |
| Scenarios.OrderingSteps | convex/messages.ts:45-51 | Three messages of one conversation in time order, interleaved with another conversation's, are listed in that order. |
| Scenarios.TypingExample | convex/typing.ts:10-69 | After A starts typing at 0, a read at 3000 lists (A, "Alice") and a read at 3001 does not. |
| Scenarios.PreviewExample | convex/messages.ts:35-38 | An 80-character message leaves its first 50 characters as the preview and the send time as the conversation's time. |

## Left out

- Users.GetAll: the result is in table order. The source then sorts it by `name.localeCompare`, which depends on the locale, so only membership and multiplicity are stated.
- Concurrency: every handler runs alone against the store. The duplicate conversations that two simultaneous `getOrCreate` calls can create are outside the model, and one conversation per pair is claimed only for sequential calls.
- `.unique()` throws when an index holds two rows for a key. The model looks up the first match and proves instead that each index read this way never holds two rows.
- `Promise.all` over the summaries and message entries is a map. The work is read-only, so its order does not matter.
- `v.id(...)` argument validation: ids are plain numbers drawn from one counter. `markAsRead`, `getUnreadCount` and `setTyping`, like the source, do not check that the conversation exists.
- Messages.Preview: counts characters, while `String.prototype.slice` counts UTF-16 code units.
- Conversations.MyConversations: sorts by an integer key. The source's comparator subtracts JavaScript numbers, so NaN and non-integer times are not modelled.
- `isOnline` is read (convex/conversations.ts:117) but no handler in these files writes it. The presence mutation `setOnlineStatus` is not part of this model, and inserted users start with no value.
- The Convex runtime itself is left out: reactivity, the identity provider behind `ctx.auth`, and the clock behind `Date.now()`, which are all parameters here.
- The React front end, client-side timers and formatting helpers are not part of this model.
