/**
 The task store: an in-memory table from integer ID to task, with a counter
 that hands out the next ID. Executing a task runs an external command named
 after it; the command's success or failure is a parameter here. Each method
 is one atomic step; the mutex that serialises them is not modelled.
 */
module TaskServer {
  import opened Tables

  const Pending := "pending"
  const Completed := "completed"

  /** A task as the store keeps it: the ID it was given, its name and its status. */
  datatype Task = Task(id: int, name: string, status: string)

  class TaskStore {
    var tasks: map<int, Task>
    var nextID: nat

    /**
     Every key was handed out already, the task under a key carries that key
     as its ID, and every status is one of the two the store ever writes.
     */
    ghost predicate Valid()
      reads this
    {
      forall k :: k in tasks ==>
        && 0 <= k < nextID
        && tasks[k].id == k
        && tasks[k].status in {Pending, Completed}
    }

    /** The tasks as an unordered listing shows them. */
    ghost function Listing(): multiset<Task>
      reads this
    {
      Bag(tasks)
    }

    /** A new store is empty and will hand out 0 first. */
    constructor ()
      ensures Valid()
      ensures tasks == map[] && nextID == 0
    {
      tasks := map[];
      nextID := 0;
    }

    /** Stores a pending task under a fresh ID and returns that ID. */
    method Add(name: string) returns (id: int)
      requires Valid()
      modifies this
      ensures Valid()
      ensures id == old(nextID) && nextID == old(nextID) + 1
      ensures id !in old(tasks)
      ensures tasks == old(tasks)[id := Task(id, name, Pending)]
      ensures Listing() == old(Listing()) + multiset{Task(id, name, Pending)}
    {
      var task := Task(nextID, name, Pending);
      BagInsert(tasks, nextID, task);
      tasks := tasks[nextID := task];
      nextID := nextID + 1;
      id := task.id;
    }

    /** Lists every stored task once, in no particular order. */
    method GetAll() returns (all: seq<Task>)
      ensures multiset(all) == Listing()
      ensures |all| == |tasks|
      ensures forall t :: t in all <==> t in tasks.Values
    {
      all := [];
      var rest := tasks;
      while rest.Keys != {}
        invariant Bag(tasks) == multiset(all) + Bag(rest)
        decreases |rest|
      {
        var k := PickKey(rest);
        BagRemove(rest, k);
        all := all + [rest[k]];
        rest := rest - {k};
      }
      assert rest == map[];
      BagSize(tasks);
      forall t ensures t in all <==> t in tasks.Values {
        BagHas(tasks, t);
      }
    }

    /**
     Runs the command for the task under `id` and, if it succeeds, marks the
     task completed. `commandOk` is whether running `echo` with the task's
     name would succeed; it is consulted only when the task exists. Reports
     whether the task was marked completed.
     */
    method Execute(id: int, commandOk: bool) returns (ok: bool)
      requires Valid()
      modifies this
      ensures Valid()
      ensures ok <==> id in old(tasks) && commandOk
      ensures ok ==> tasks == old(tasks)[id := Task(id, old(tasks)[id].name, Completed)]
      ensures !ok ==> tasks == old(tasks)
      ensures nextID == old(nextID)
      ensures ok ==> Listing() == old(Listing()) - multiset{old(tasks)[id]} + multiset{Task(id, old(tasks)[id].name, Completed)}
    {
      if id in tasks {
        if commandOk {
          var task := tasks[id].(status := Completed);
          BagReplace(tasks, id, task);
          tasks := tasks[id := task];
          return true;
        }
      }
      return false;
    }
  }

  /**
   A task as a client sees it: added as pending under ID 0, not completed by
   a failed command or by executing an ID never handed out, completed by a
   successful command and listed so.
   */
  method TaskLifecycle(name: string) returns (added: int, pending: seq<Task>, failed: bool,
                                              missing: bool, executed: bool, completed: seq<Task>)
    ensures added == 0
    ensures pending == [Task(0, name, Pending)]
    ensures !failed && !missing && executed
    ensures completed == [Task(0, name, Completed)]
  {
    var store := new TaskStore();
    added := store.Add(name);
    pending := store.GetAll();
    ListingOfOne(pending, Task(0, name, Pending));
    failed := store.Execute(added, false);
    missing := store.Execute(added + 1, true);
    executed := store.Execute(added, true);
    completed := store.GetAll();
    ListingOfOne(completed, Task(0, name, Completed));
  }
}
