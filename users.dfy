/** `convex/users.ts`: the user directory synced from the identity provider. */
module Users {
  import opened Wrappers
  import opened Seqs
  import opened Schema
  import opened Database

  /** `upsertUser`: patches the profile fields of the row with `clerkId`, keeping its
      `createdAt` and `isOnline`, or inserts a row created at `now`. It does not read
      the caller's identity. Returns the row's id. */
  method UpsertUser(db: Store, now: int, clerkId: string, name: string, email: string, imageUrl: string)
    returns (id: Id)
    requires db.Valid()
    modifies db
    ensures db.Valid()
    ensures db.conversations == old(db.conversations) && db.messages == old(db.messages)
    ensures db.members == old(db.members) && db.typing == old(db.typing)
    ensures match LookupIndex(old(db.users), ClerkIdOf, clerkId)
      case Some(i) =>
        && id == old(db.users)[i].id && db.nextId == old(db.nextId)
        && db.users == old(db.users)[i := old(db.users)[i].(name := name, email := email, imageUrl := imageUrl)]
      case None =>
        && id == old(db.nextId) && db.nextId == old(db.nextId) + 1
        && db.users == old(db.users) + [User(id, clerkId, name, email, imageUrl, now, None)]
    ensures var u := UserByClerkId(db.users, clerkId);
      u.Some? && u.value.id == id && u.value.name == name && u.value.email == email && u.value.imageUrl == imageUrl
    ensures forall k :: k != clerkId ==> UserByClerkId(db.users, k) == UserByClerkId(old(db.users), k)
  {
    var existing := LookupIndex(db.users, ClerkIdOf, clerkId);
    if existing.Some? {
      var i := existing.value;
      var patched := db.users[i].(name := name, email := email, imageUrl := imageUrl);
      UpdateKeepsUnique(db.users, i, patched, ClerkIdOf);
      forall k | k != clerkId ensures UserByClerkId(db.users[i := patched], k) == UserByClerkId(db.users, k) {
        LookupUpdate(db.users, i, patched, ClerkIdOf, k);
      }
      LookupUpdate(db.users, i, patched, ClerkIdOf, clerkId);
      assert patched in db.users[i := patched];
      db.users := db.users[i := patched];
      id := patched.id;
    } else {
      id := db.nextId;
      var row := User(id, clerkId, name, email, imageUrl, now, None);
      AppendKeepsUnique(db.users, row, ClerkIdOf);
      forall k | k != clerkId ensures UserByClerkId(db.users + [row], k) == UserByClerkId(db.users, k) {
        LookupAppend(db.users, row, ClerkIdOf, k);
      }
      LookupAppend(db.users, row, ClerkIdOf, clerkId);
      db.users := db.users + [row];
      db.nextId := db.nextId + 1;
    }
  }

  /** `getAll`: every user except the one with `clerkId`, in table order. */
  function GetAll(users: seq<User>, clerkId: string): (r: seq<User>)
    ensures forall u :: u in r <==> u in users && u.clerkId != clerkId
  {
    Filter(users, Excluding(clerkId))
  }

  /** `getAll` keeps every copy of every other user, and under the one-row-per-`clerkId`
      invariant it drops exactly the caller's row when there is one. */
  lemma GetAllExact(users: seq<User>, clerkId: string)
    ensures forall u :: multiset(GetAll(users, clerkId))[u] == if u.clerkId != clerkId then multiset(users)[u] else 0
    ensures UniqueBy(users, ClerkIdOf) ==>
      |GetAll(users, clerkId)| == |users| - if UserByClerkId(users, clerkId).Some? then 1 else 0
  {
    FilterMultiset(users, Excluding(clerkId));
    FilterSplit(users, HasKey(ClerkIdOf, clerkId), Excluding(clerkId));
    if UniqueBy(users, ClerkIdOf) {
      UniqueKeyCount(users, ClerkIdOf, clerkId);
    }
  }

  /** The filter of `getAll`. */
  function Excluding(clerkId: string): User -> bool {
    (u: User) => u.clerkId != clerkId
  }

  /** Upserting the same `clerkId` twice leaves exactly one row for it, carrying the
      second call's profile fields. */
  method UpsertTwice(db: Store, now1: int, now2: int, clerkId: string,
                     name1: string, email1: string, image1: string,
                     name2: string, email2: string, image2: string)
    returns (id1: Id, id2: Id)
    requires db.Valid()
    modifies db
    ensures db.Valid()
    ensures id1 == id2
    ensures |Filter(db.users, HasKey(ClerkIdOf, clerkId))| == 1
    ensures var u := UserByClerkId(db.users, clerkId);
      u.Some? && u.value.name == name2 && u.value.email == email2 && u.value.imageUrl == image2
  {
    id1 := UpsertUser(db, now1, clerkId, name1, email1, image1);
    id2 := UpsertUser(db, now2, clerkId, name2, email2, image2);
    UniqueKeyCount(db.users, ClerkIdOf, clerkId);
  }
}
