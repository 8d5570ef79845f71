/**
  The task store: the provider's `tasks` and `isLoading` state, the storage
  slot it mirrors the list into, and its operations. Adding, updating,
  toggling and deleting each apply one of the transforms of TaskList and
  hand the new list to a storage write whose outcome (`writeOk`) is an
  input, and whose failure is caught and logged without touching the
  in-memory list. Loading writes only the seed, and only when no stored
  list is found; clearing removes the storage key and writes no list.
 */
module TasksContext {
  import opened Types
  import opened Text
  import opened TaskList
  import opened MockData

  class TasksProvider {
    /** The ordered task list shown to the screens. */
    var tasks: seq<Task>
    var isLoading: bool
    /** The storage slot under the key 'persisted_tasks'; None when the key
        is absent. */
    var storage: Option<seq<Task>>
    /** The list handed to the most recent storage write, if any. */
    ghost var lastWrite: Option<seq<Task>>

    /** Ids unique, newest first, and no record updated before it was
        created. */
    ghost predicate Healthy()
      reads this
    {
      UniqueIds(tasks) && NewestFirst(tasks) && WellTimed(tasks)
    }

    /** The provider mounts with the seed list and `isLoading` false, over
        whatever the storage slot already holds. */
    constructor (storage: Option<seq<Task>>)
      ensures tasks == MockTasks && !isLoading
      ensures this.storage == storage && lastWrite == None
      ensures Healthy()
    {
      tasks := MockTasks;
      isLoading := false;
      this.storage := storage;
      lastWrite := None;
      new;
      MockTasksIds();
      MockTasksNewestFirst();
      MockTasksTiming();
    }

    /** What reading the slot yields: its list, or the empty list when the
        key is absent or its text cannot be read back (`readOk` false);
        the read never fails. */
    function StoredTasks(readOk: bool): (r: seq<Task>)
      reads this
      ensures readOk && storage.Some? ==> r == storage.value
      ensures |r| > 0 ==> readOk && storage == Some(r)
    {
      if readOk && storage.Some? then storage.value else []
    }

    /** A storage write of `newTasks`: the list is handed over, and lands
        in the slot exactly when the write succeeds, which is reported. */
    method WriteTasks(newTasks: seq<Task>, writeOk: bool) returns (ok: bool)
      modifies this`storage, this`lastWrite
      ensures ok == writeOk
      ensures lastWrite == Some(newTasks)
      ensures storage == if writeOk then Some(newTasks) else old(storage)
    {
      lastWrite := Some(newTasks);
      if writeOk {
        storage := Some(newTasks);
      }
      ok := writeOk;
    }

    /** `loadTasksFromStorage`: a non-empty stored list is installed as it
        is; otherwise the seed is written and installed, and when that write
        fails the error is caught and the seed installed all the same.
        Loading always ends with `isLoading` false. */
    method LoadTasksFromStorage(readOk: bool, writeOk: bool)
      modifies this
      ensures !isLoading
      ensures |old(StoredTasks(readOk))| > 0 ==>
                tasks == old(StoredTasks(readOk)) &&
                storage == old(storage) && lastWrite == old(lastWrite)
      ensures |old(StoredTasks(readOk))| == 0 ==>
                tasks == MockTasks && Healthy() && lastWrite == Some(MockTasks) &&
                storage == (if writeOk then Some(MockTasks) else old(storage))
    {
      isLoading := true;
      var stored := StoredTasks(readOk);
      if |stored| > 0 {
        tasks := stored;
      } else {
        var ok := WriteTasks(MockTasks, writeOk);
        // Written or not (the catch branch), the seed is installed.
        tasks := MockTasks;
        MockTasksIds();
        MockTasksNewestFirst();
        MockTasksTiming();
      }
      isLoading := false;
    }

    /** `addTask`: prepends the new record and writes the new list. The
        id and the two timestamps are three separate clock readings. A
        fresh id keeps ids unique; a creation reading no earlier than any
        creation time keeps the list newest first, and an update reading
        no earlier than the creation reading keeps it well timed. */
    method AddTask(data: TaskFormData, id: string, created: Time, updated: Time, writeOk: bool)
      modifies this`tasks, this`storage, this`lastWrite
      ensures tasks == Added(old(tasks), data, id, created, updated)
      ensures lastWrite == Some(tasks)
      ensures storage == if writeOk then Some(tasks) else old(storage)
      ensures old(UniqueIds(tasks)) && !HasId(old(tasks), id) ==> UniqueIds(tasks)
      ensures old(NewestFirst(tasks)) && CreatedNotAfter(old(tasks), created) ==> NewestFirst(tasks)
      ensures old(WellTimed(tasks)) && CreatedNotAfter(old(tasks), created) && created <= updated ==>
                WellTimed(tasks)
    {
      var newTasks := Added(tasks, data, id, created, updated);
      if UniqueIds(tasks) && !HasId(tasks, id) {
        AddedKeepsUniqueIds(tasks, data, id, created, updated);
      }
      if CreatedNotAfter(tasks, created) {
        AddedKeepsOrderAndTiming(tasks, data, id, created, updated);
      }
      var _ := WriteTasks(newTasks, writeOk);
      tasks := newTasks;
    }

    /** `updateTask`: merges the supplied fields into every record with the
        id and writes the new list; an absent id changes nothing but the
        write still happens. */
    method UpdateTask(id: string, patch: TaskFormPatch, now: Time, writeOk: bool)
      modifies this`tasks, this`storage, this`lastWrite
      ensures tasks == Updated(old(tasks), id, patch, now)
      ensures lastWrite == Some(tasks)
      ensures storage == if writeOk then Some(tasks) else old(storage)
      ensures old(UniqueIds(tasks) && NewestFirst(tasks)) ==> UniqueIds(tasks) && NewestFirst(tasks)
      ensures old(Healthy()) && NotAfter(old(tasks), now) ==> Healthy()
    {
      var newTasks := Updated(tasks, id, patch, now);
      UpdatedKeepsOrder(tasks, id, patch, now);
      if NotAfter(tasks, now) {
        UpdatedKeepsTiming(tasks, id, patch, now);
      }
      var _ := WriteTasks(newTasks, writeOk);
      tasks := newTasks;
    }

    /** `deleteTask`: drops every record with the id and writes the new
        list. */
    method DeleteTask(id: string, writeOk: bool)
      modifies this`tasks, this`storage, this`lastWrite
      ensures tasks == Deleted(old(tasks), id)
      ensures lastWrite == Some(tasks)
      ensures storage == if writeOk then Some(tasks) else old(storage)
      ensures old(Healthy()) ==> Healthy()
    {
      var newTasks := Deleted(tasks, id);
      DeletedKeeps(tasks, id);
      var _ := WriteTasks(newTasks, writeOk);
      tasks := newTasks;
    }

    /** `toggleTaskStatus`: flips the status of every record with the id,
        stamps it, and writes the new list. */
    method ToggleTaskStatus(id: string, now: Time, writeOk: bool)
      modifies this`tasks, this`storage, this`lastWrite
      ensures tasks == Toggled(old(tasks), id, now)
      ensures lastWrite == Some(tasks)
      ensures storage == if writeOk then Some(tasks) else old(storage)
      ensures old(UniqueIds(tasks) && NewestFirst(tasks)) ==> UniqueIds(tasks) && NewestFirst(tasks)
      ensures old(Healthy()) && NotAfter(old(tasks), now) ==> Healthy()
    {
      var newTasks := Toggled(tasks, id, now);
      ToggledKeepsOrder(tasks, id, now);
      if NotAfter(tasks, now) {
        ToggledKeepsTiming(tasks, id, now);
      }
      var _ := WriteTasks(newTasks, writeOk);
      tasks := newTasks;
    }

    /** `searchTasks`: filters the current list and changes nothing. */
    method SearchTasks(query: string) returns (r: seq<Task>)
      ensures r == Searched(tasks, query)
      ensures IsBlank(query) ==> r == tasks
      ensures forall t :: t in r ==> t in tasks
    {
      r := Searched(tasks, query);
    }

    /** `clearTasks`: removes the storage key first; only when that
        succeeds is the list emptied, otherwise the error is rethrown
        (`thrown`) and nothing changes. */
    method ClearTasks(clearOk: bool) returns (thrown: bool)
      modifies this`tasks, this`storage
      ensures thrown == !clearOk
      ensures clearOk ==> tasks == [] && storage == None && Healthy()
      ensures !clearOk ==> tasks == old(tasks) && storage == old(storage)
    {
      if !clearOk {
        return true;
      }
      storage := None;
      tasks := [];
      thrown := false;
    }
  }
}
