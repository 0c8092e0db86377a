/**
 The user store: an in-memory table from integer ID to user, with a counter
 that hands out the next ID. A user's creation time is read from the clock
 when it is added; here the time is a parameter. Each method is one atomic
 step; the mutex that serialises them is not modelled.
 */
module UserServer {
  import opened Tables

  /** A point in time, as the clock reports it, in nanoseconds since the Unix epoch. */
  datatype Timestamp = Timestamp(unixNanos: int)

  /** A user as the store keeps it: the ID it was given, its name and when it was added. */
  datatype User = User(id: int, name: string, createdAt: Timestamp)

  /** Every user present both before and after is unchanged: its name and creation time included. */
  ghost predicate Unaltered(before: map<int, User>, after: map<int, User>)
  {
    forall k :: k in before && k in after ==> after[k] == before[k]
  }

  class UserStore {
    var users: map<int, User>
    var nextID: nat

    /** Every key was handed out already, and the user under a key carries that key as its ID. */
    ghost predicate Valid()
      reads this
    {
      forall k :: k in users ==> 0 <= k < nextID && users[k].id == k
    }

    /** The users as an unordered listing shows them. */
    ghost function Listing(): multiset<User>
      reads this
    {
      Bag(users)
    }

    /** A new store is empty and will hand out 0 first. */
    constructor ()
      ensures Valid()
      ensures users == map[] && nextID == 0
    {
      users := map[];
      nextID := 0;
    }

    /** Stores a user created at `now` under a fresh ID and returns that ID. */
    method Add(name: string, now: Timestamp) returns (id: int)
      requires Valid()
      modifies this
      ensures Valid()
      ensures id == old(nextID) && nextID == old(nextID) + 1
      ensures id !in old(users)
      ensures users == old(users)[id := User(id, name, now)]
      ensures Unaltered(old(users), users)
      ensures Listing() == old(Listing()) + multiset{User(id, name, now)}
    {
      var user := User(nextID, name, now);
      BagInsert(users, nextID, user);
      users := users[nextID := user];
      nextID := nextID + 1;
      id := user.id;
    }

    /** Lists every stored user once, in no particular order. */
    method GetAll() returns (all: seq<User>)
      ensures multiset(all) == Listing()
      ensures |all| == |users|
      ensures forall u :: u in all <==> u in users.Values
    {
      all := [];
      var rest := users;
      while rest.Keys != {}
        invariant Bag(users) == multiset(all) + Bag(rest)
        decreases |rest|
      {
        var k := PickKey(rest);
        BagRemove(rest, k);
        all := all + [rest[k]];
        rest := rest - {k};
      }
      assert rest == map[];
      BagSize(users);
      forall u ensures u in all <==> u in users.Values {
        BagHas(users, u);
      }
    }

    /** Removes the user under `id`; reports whether there was one. */
    method Delete(id: int) returns (ok: bool)
      requires Valid()
      modifies this
      ensures Valid()
      ensures ok <==> id in old(users)
      ensures users == old(users) - {id}
      ensures Unaltered(old(users), users)
      ensures nextID == old(nextID)
      ensures ok ==> Listing() == old(Listing()) - multiset{old(users)[id]}
    {
      if id in users {
        BagDelete(users, id);
        users := users - {id};
        return true;
      }
      assert users - {id} == users;
      return false;
    }
  }

  /**
   IDs as a client sees them: handed out from 0 upwards, and a deleted ID is
   not handed out again. The first delete of an ID succeeds, the second fails,
   and the listing shows the remaining users with the names and times they
   were added with.
   */
  method UserIds(t0: Timestamp, t1: Timestamp, t2: Timestamp)
    returns (a: int, b: int, c: int, deleted: bool, deletedAgain: bool, listed: seq<User>)
    ensures a == 0 && b == 1 && c == 2
    ensures deleted && !deletedAgain
    ensures multiset(listed) == multiset{User(1, "bob", t1), User(2, "cy", t2)}
  {
    var store := new UserStore();
    a := store.Add("ann", t0);
    b := store.Add("bob", t1);
    deleted := store.Delete(a);
    deletedAgain := store.Delete(a);
    c := store.Add("cy", t2);
    listed := store.GetAll();
  }
}
