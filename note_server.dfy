/**
 The note store: an in-memory table from integer ID to note, with a counter
 that hands out the next ID. Each method is one atomic step; the mutex that
 serialises them in the running server is not modelled.
 */
module NoteServer {
  import opened Tables

  /** A note as the store keeps it: the ID it was given and its text. */
  datatype Note = Note(id: int, content: string)

  class NoteStore {
    var notes: map<int, Note>
    var nextID: nat

    /** Every key was handed out already, and the note under a key carries that key as its ID. */
    ghost predicate Valid()
      reads this
    {
      forall k :: k in notes ==> 0 <= k < nextID && notes[k].id == k
    }

    /** The notes as an unordered listing shows them. */
    ghost function Listing(): multiset<Note>
      reads this
    {
      Bag(notes)
    }

    /** A new store is empty and will hand out 0 first. */
    constructor ()
      ensures Valid()
      ensures notes == map[] && nextID == 0
    {
      notes := map[];
      nextID := 0;
    }

    /** Stores a note under a fresh ID and returns that ID. */
    method Add(content: string) returns (id: int)
      requires Valid()
      modifies this
      ensures Valid()
      ensures id == old(nextID) && nextID == old(nextID) + 1
      ensures id !in old(notes)
      ensures notes == old(notes)[id := Note(id, content)]
      ensures Listing() == old(Listing()) + multiset{Note(id, content)}
    {
      var note := Note(nextID, content);
      BagInsert(notes, nextID, note);
      notes := notes[nextID := note];
      nextID := nextID + 1;
      id := note.id;
    }

    /** Lists every stored note once, in no particular order. */
    method GetAll() returns (all: seq<Note>)
      ensures multiset(all) == Listing()
      ensures |all| == |notes|
      ensures forall n :: n in all <==> n in notes.Values
    {
      all := [];
      var rest := notes;
      while rest.Keys != {}
        invariant Bag(notes) == multiset(all) + Bag(rest)
        decreases |rest|
      {
        var k := PickKey(rest);
        BagRemove(rest, k);
        all := all + [rest[k]];
        rest := rest - {k};
      }
      assert rest == map[];
      BagSize(notes);
      forall n ensures n in all <==> n in notes.Values {
        BagHas(notes, n);
      }
    }

    /** Replaces the text of the note under `id`; reports whether there was one. */
    method Update(id: int, content: string) returns (ok: bool)
      requires Valid()
      modifies this
      ensures Valid()
      ensures ok <==> id in old(notes)
      ensures ok ==> notes == old(notes)[id := Note(id, content)]
      ensures !ok ==> notes == old(notes)
      ensures nextID == old(nextID)
      ensures ok ==> Listing() == old(Listing()) - multiset{old(notes)[id]} + multiset{Note(id, content)}
    {
      if id in notes {
        var note := notes[id].(content := content);
        BagReplace(notes, id, note);
        notes := notes[id := note];
        return true;
      }
      return false;
    }

    /** Removes the note under `id`; reports whether there was one. */
    method Delete(id: int) returns (ok: bool)
      requires Valid()
      modifies this
      ensures Valid()
      ensures ok <==> id in old(notes)
      ensures notes == old(notes) - {id}
      ensures nextID == old(nextID)
      ensures ok ==> Listing() == old(Listing()) - multiset{old(notes)[id]}
    {
      if id in notes {
        BagDelete(notes, id);
        notes := notes - {id};
        return true;
      }
      assert notes - {id} == notes;
      return false;
    }
  }

  /**
   A note's life as a client sees it: listed after it is added, listed with its
   new text after an update, removed by the first delete and not by a second,
   and an ID never handed out is not found.
   */
  method NoteLifecycle() returns (added: int, listed: seq<Note>, updated: seq<Note>,
                                  missing: bool, deleted: bool, deletedAgain: bool, left: seq<Note>)
    ensures added == 0
    ensures listed == [Note(0, "hello")]
    ensures updated == [Note(0, "bye")]
    ensures !missing && deleted && !deletedAgain
    ensures left == []
  {
    var store := new NoteStore();
    added := store.Add("hello");
    listed := store.GetAll();
    ListingOfOne(listed, Note(0, "hello"));
    var ok := store.Update(added, "bye");
    updated := store.GetAll();
    ListingOfOne(updated, Note(0, "bye"));
    missing := store.Delete(99);
    deleted := store.Delete(added);
    deletedAgain := store.Delete(added);
    left := store.GetAll();
  }
}
