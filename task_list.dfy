/**
  The list transforms behind the task store's operations: each takes the
  previous list (and the clock reading or id the store supplies) and gives
  the next one, as the store's `setTasks` updaters and its search filter
  do, up to the differences listed under "Left out" in README.md. The
  store itself, with its state and storage, is in TasksContext.
 */
module TaskList {
  import opened Types
  import opened Text
  import opened Seqs

  /* ---------------------------------------------------------------------
     Whole-list properties
     --------------------------------------------------------------------- */

  /** Some record of `tasks` carries `id`. */
  ghost predicate HasId(tasks: seq<Task>, id: string) {
    exists i :: 0 <= i < |tasks| && tasks[i].id == id
  }

  /** No two records share an id. */
  ghost predicate UniqueIds(tasks: seq<Task>) {
    Pairwise((a: Task, b: Task) => a.id != b.id, tasks)
  }

  /** Records appear newest first by creation time. */
  ghost predicate NewestFirst(tasks: seq<Task>) {
    Pairwise((a: Task, b: Task) => a.createdAt >= b.createdAt, tasks)
  }

  /** No record was updated before it was created. */
  ghost predicate WellTimed(tasks: seq<Task>) {
    forall i :: 0 <= i < |tasks| ==> tasks[i].createdAt <= tasks[i].updatedAt
  }

  /** `now` is no earlier than any creation time in the list. */
  ghost predicate CreatedNotAfter(tasks: seq<Task>, now: Time) {
    forall i :: 0 <= i < |tasks| ==> tasks[i].createdAt <= now
  }

  /** A monotone clock: `now` is no earlier than any timestamp in the list. */
  ghost predicate NotAfter(tasks: seq<Task>, now: Time) {
    forall i :: 0 <= i < |tasks| ==> tasks[i].createdAt <= now && tasks[i].updatedAt <= now
  }

  /* ---------------------------------------------------------------------
     addTask
     --------------------------------------------------------------------- */

  /** The record `addTask` builds from the form data, the id and its two
      clock readings, one for each timestamp. It is pending and carries the
      form's title and description as typed. */
  function NewTask(data: TaskFormData, id: string, created: Time, updated: Time): (t: Task)
    ensures t.id == id && t.status == Pending
    ensures t.title == data.title && t.description == data.description
    ensures t.createdAt == created && t.updatedAt == updated
  {
    Task(id, data.title, data.description, Pending, created, updated)
  }

  /** `[newTask, ...prevTasks]`: one record longer, the old list is the
      unchanged tail, and the new head is pending, carries the form's title
      and description as typed, and was created at `created` and updated at
      `updated`. */
  function Added(tasks: seq<Task>, data: TaskFormData, id: string, created: Time, updated: Time): (r: seq<Task>)
    ensures |r| == |tasks| + 1 && r[1..] == tasks
    ensures r[0].id == id && r[0].status == Pending
    ensures r[0].title == data.title && r[0].description == data.description
    ensures r[0].createdAt == created && r[0].updatedAt == updated
  {
    [NewTask(data, id, created, updated)] + tasks
  }

  /** Adding under a fresh id keeps ids unique. */
  lemma AddedKeepsUniqueIds(tasks: seq<Task>, data: TaskFormData, id: string, created: Time, updated: Time)
    requires UniqueIds(tasks) && !HasId(tasks, id)
    ensures UniqueIds(Added(tasks, data, id, created, updated))
  {
    var r := Added(tasks, data, id, created, updated);
    forall i, j | 0 <= i < j < |r| ensures r[i].id != r[j].id {
      if i == 0 {
        assert r[j] == tasks[j - 1];
      } else {
        assert r[i] == tasks[i - 1] && r[j] == tasks[j - 1];
      }
    }
  }

  /** With a creation reading no earlier than any creation time in the
      list, adding keeps the list newest first; with an update reading no
      earlier than the creation reading as well, it keeps it well timed. */
  lemma AddedKeepsOrderAndTiming(tasks: seq<Task>, data: TaskFormData, id: string, created: Time, updated: Time)
    requires CreatedNotAfter(tasks, created)
    ensures NewestFirst(tasks) ==> NewestFirst(Added(tasks, data, id, created, updated))
    ensures WellTimed(tasks) && created <= updated ==> WellTimed(Added(tasks, data, id, created, updated))
  {
    var r := Added(tasks, data, id, created, updated);
    if NewestFirst(tasks) {
      forall i, j | 0 <= i < j < |r| ensures r[i].createdAt >= r[j].createdAt {
        if i == 0 {
          assert r[j] == tasks[j - 1];
        } else {
          assert r[i] == tasks[i - 1] && r[j] == tasks[j - 1];
        }
      }
    }
    if WellTimed(tasks) && created <= updated {
      forall i | 0 <= i < |r| ensures r[i].createdAt <= r[i].updatedAt {
        if i > 0 {
          assert r[i] == tasks[i - 1];
        }
      }
    }
  }

  /** Adding A, then B, then C lists C, B, A ahead of what was there. */
  lemma AddedNewestFirst(tasks: seq<Task>, a: TaskFormData, b: TaskFormData, c: TaskFormData,
                         ia: string, ib: string, ic: string,
                         ca: Time, ua: Time, cb: Time, ub: Time, cc: Time, uc: Time)
    ensures Added(Added(Added(tasks, a, ia, ca, ua), b, ib, cb, ub), c, ic, cc, uc)
         == [NewTask(c, ic, cc, uc), NewTask(b, ib, cb, ub), NewTask(a, ia, ca, ua)] + tasks
  {
  }

  /* ---------------------------------------------------------------------
     The `map` shared by updateTask and toggleTaskStatus
     --------------------------------------------------------------------- */

  /** `tasks.map(task => task.id === id ? f(task) : task)`. */
  function MapWhereId(tasks: seq<Task>, id: string, f: Task -> Task): (r: seq<Task>)
    ensures |r| == |tasks|
    ensures forall i :: 0 <= i < |tasks| ==>
              r[i] == if tasks[i].id == id then f(tasks[i]) else tasks[i]
  {
    if tasks == [] then []
    else [if tasks[0].id == id then f(tasks[0]) else tasks[0]] + MapWhereId(tasks[1..], id, f)
  }

  /** When no record carries the id, the map changes nothing. */
  lemma {:induction false} MapWhereIdAbsent(tasks: seq<Task>, id: string, f: Task -> Task)
    requires !HasId(tasks, id)
    ensures MapWhereId(tasks, id, f) == tasks
  {
    if tasks != [] {
      assert !HasId(tasks[1..], id) by {
        forall i | 0 <= i < |tasks| - 1 ensures tasks[1..][i].id != id {
          assert tasks[1..][i] == tasks[i + 1];
        }
      }
      MapWhereIdAbsent(tasks[1..], id, f);
    }
  }

  /** A per-record change that keeps the id and the creation time keeps
      every record's id and creation time, so it keeps ids unique and the
      list newest first, whatever else it changes. */
  lemma MapWhereIdKeepsOrder(tasks: seq<Task>, id: string, f: Task -> Task)
    requires forall t :: f(t).id == t.id && f(t).createdAt == t.createdAt
    ensures var r := MapWhereId(tasks, id, f);
      (forall i :: 0 <= i < |r| ==> r[i].id == tasks[i].id && r[i].createdAt == tasks[i].createdAt) &&
      (UniqueIds(tasks) ==> UniqueIds(r)) &&
      (NewestFirst(tasks) ==> NewestFirst(r))
  {
    var r := MapWhereId(tasks, id, f);
    forall i | 0 <= i < |r|
      ensures r[i].id == tasks[i].id && r[i].createdAt == tasks[i].createdAt
    {
      if tasks[i].id == id {
        assert r[i] == f(tasks[i]);
      } else {
        assert r[i] == tasks[i];
      }
    }
    if UniqueIds(tasks) {
      forall i, j | 0 <= i < j < |r| ensures r[i].id != r[j].id {
        assert tasks[i].id != tasks[j].id;
      }
    }
    if NewestFirst(tasks) {
      forall i, j | 0 <= i < j < |r| ensures r[i].createdAt >= r[j].createdAt {
        assert tasks[i].createdAt >= tasks[j].createdAt;
      }
    }
  }

  /** A per-record change that keeps the creation time and stamps the update
      time with a clock reading no earlier than any in the list keeps
      `updatedAt >= createdAt`, keeps the reading no earlier than any
      timestamp, and moves no update time backwards. */
  lemma MapWhereIdKeepsTiming(tasks: seq<Task>, id: string, f: Task -> Task, now: Time)
    requires forall t :: f(t).createdAt == t.createdAt && f(t).updatedAt == now
    requires NotAfter(tasks, now)
    ensures var r := MapWhereId(tasks, id, f);
      (WellTimed(tasks) ==> WellTimed(r)) &&
      NotAfter(r, now) &&
      (forall i :: 0 <= i < |r| ==> tasks[i].updatedAt <= r[i].updatedAt)
  {
    var r := MapWhereId(tasks, id, f);
    forall i | 0 <= i < |r|
      ensures r[i].createdAt == tasks[i].createdAt
      ensures tasks[i].updatedAt <= r[i].updatedAt <= now
    {
      if tasks[i].id == id {
        assert r[i] == f(tasks[i]);
      } else {
        assert r[i] == tasks[i];
      }
    }
  }

  /* ---------------------------------------------------------------------
     updateTask
     --------------------------------------------------------------------- */

  /** `{...task, ...taskData, updatedAt: now}`. */
  function Merge(t: Task, patch: TaskFormPatch, now: Time): (r: Task)
    ensures r.id == t.id && r.status == t.status && r.createdAt == t.createdAt
    ensures r.updatedAt == now
    ensures r.title == (if patch.title.Some? then patch.title.value else t.title)
    ensures r.description == (if patch.description.Some? then patch.description.value else t.description)
  {
    t.(title := patch.title.GetOr(t.title),
       description := patch.description.GetOr(t.description),
       updatedAt := now)
  }

  /** Length and order kept; records with another id untouched; every
      record with the id takes each supplied field, keeps each omitted one,
      keeps its id, status and creation time, and is stamped `now`. */
  function Updated(tasks: seq<Task>, id: string, patch: TaskFormPatch, now: Time): (r: seq<Task>)
    ensures |r| == |tasks|
    ensures forall i :: 0 <= i < |tasks| && tasks[i].id != id ==> r[i] == tasks[i]
    ensures forall i :: 0 <= i < |tasks| && tasks[i].id == id ==>
              && r[i].id == id
              && r[i].status == tasks[i].status
              && r[i].createdAt == tasks[i].createdAt
              && r[i].updatedAt == now
              && r[i].title == (if patch.title.Some? then patch.title.value else tasks[i].title)
              && r[i].description == (if patch.description.Some? then patch.description.value
                                      else tasks[i].description)
  {
    MapWhereId(tasks, id, t => Merge(t, patch, now))
  }

  /** Updating an id no record carries is a silent no-op. */
  lemma UpdatedAbsent(tasks: seq<Task>, id: string, patch: TaskFormPatch, now: Time)
    requires !HasId(tasks, id)
    ensures Updated(tasks, id, patch, now) == tasks
  {
    MapWhereIdAbsent(tasks, id, t => Merge(t, patch, now));
  }

  /** Whatever the clock reads, updating keeps ids unique and the list
      newest first: no record's id or creation time changes. */
  lemma UpdatedKeepsOrder(tasks: seq<Task>, id: string, patch: TaskFormPatch, now: Time)
    ensures var r := Updated(tasks, id, patch, now);
      (UniqueIds(tasks) ==> UniqueIds(r)) &&
      (NewestFirst(tasks) ==> NewestFirst(r))
  {
    MapWhereIdKeepsOrder(tasks, id, t => Merge(t, patch, now));
  }

  /** With a monotone clock, updating keeps `updatedAt >= createdAt` and
      moves no update time backwards. */
  lemma UpdatedKeepsTiming(tasks: seq<Task>, id: string, patch: TaskFormPatch, now: Time)
    requires NotAfter(tasks, now)
    ensures var r := Updated(tasks, id, patch, now);
      (WellTimed(tasks) ==> WellTimed(r)) &&
      (forall i :: 0 <= i < |r| ==> tasks[i].updatedAt <= r[i].updatedAt)
  {
    MapWhereIdKeepsTiming(tasks, id, t => Merge(t, patch, now), now);
  }

  /* ---------------------------------------------------------------------
     toggleTaskStatus
     --------------------------------------------------------------------- */

  /** `task.status === 'pending' ? 'completed' : 'pending'`. */
  function Flip(s: TaskStatus): (r: TaskStatus)
    ensures r != s
  {
    if s == Pending then Completed else Pending
  }

  /** `{...task, status: flipped, updatedAt: now}`. */
  function Toggle(t: Task, now: Time): (r: Task)
    ensures r.status != t.status && r.updatedAt == now
    ensures r.(status := t.status, updatedAt := t.updatedAt) == t
  {
    t.(status := Flip(t.status), updatedAt := now)
  }

  /** Length and order kept; records with another id untouched; every
      record with the id has its status flipped and is stamped `now`, and
      nothing else about it changes. */
  function Toggled(tasks: seq<Task>, id: string, now: Time): (r: seq<Task>)
    ensures |r| == |tasks|
    ensures forall i :: 0 <= i < |tasks| && tasks[i].id != id ==> r[i] == tasks[i]
    ensures forall i :: 0 <= i < |tasks| && tasks[i].id == id ==>
              && (r[i].status == Completed <==> tasks[i].status == Pending)
              && r[i].updatedAt == now
              && r[i].(status := tasks[i].status, updatedAt := tasks[i].updatedAt) == tasks[i]
  {
    MapWhereId(tasks, id, t => Toggle(t, now))
  }

  /** Toggling an id no record carries is a silent no-op. */
  lemma ToggledAbsent(tasks: seq<Task>, id: string, now: Time)
    requires !HasId(tasks, id)
    ensures Toggled(tasks, id, now) == tasks
  {
    MapWhereIdAbsent(tasks, id, t => Toggle(t, now));
  }

  /** Toggling the same id twice restores every status: the only trace
      left is the second update time on the matching records. */
  lemma ToggledTwice(tasks: seq<Task>, id: string, now1: Time, now2: Time)
    ensures Toggled(Toggled(tasks, id, now1), id, now2)
         == MapWhereId(tasks, id, (t: Task) => t.(updatedAt := now2))
  {
    var once := Toggled(tasks, id, now1);
    var twice := Toggled(once, id, now2);
    var stamped := MapWhereId(tasks, id, (t: Task) => t.(updatedAt := now2));
    forall i | 0 <= i < |tasks| ensures twice[i] == stamped[i] {
      if tasks[i].id == id {
        assert once[i].id == id;
      }
    }
  }

  /** Whatever the clock reads, toggling keeps ids unique and the list
      newest first: no record's id or creation time changes. */
  lemma ToggledKeepsOrder(tasks: seq<Task>, id: string, now: Time)
    ensures var r := Toggled(tasks, id, now);
      (UniqueIds(tasks) ==> UniqueIds(r)) &&
      (NewestFirst(tasks) ==> NewestFirst(r))
  {
    MapWhereIdKeepsOrder(tasks, id, t => Toggle(t, now));
  }

  /** With a monotone clock, toggling keeps `updatedAt >= createdAt` and
      moves no update time backwards. */
  lemma ToggledKeepsTiming(tasks: seq<Task>, id: string, now: Time)
    requires NotAfter(tasks, now)
    ensures var r := Toggled(tasks, id, now);
      (WellTimed(tasks) ==> WellTimed(r)) &&
      (forall i :: 0 <= i < |r| ==> tasks[i].updatedAt <= r[i].updatedAt)
  {
    MapWhereIdKeepsTiming(tasks, id, t => Toggle(t, now), now);
  }

  /* ---------------------------------------------------------------------
     deleteTask
     --------------------------------------------------------------------- */

  /** `tasks.filter(task => task.id !== id)`: exactly the records with the
      id are gone, every other record stays as often as it was there. */
  function Deleted(tasks: seq<Task>, id: string): (r: seq<Task>)
    ensures forall t :: t in r <==> t in tasks && t.id != id
    ensures forall t :: multiset(r)[t] == if t.id == id then 0 else multiset(tasks)[t]
  {
    Filter((t: Task) => t.id != id, tasks)
  }

  /** The survivors keep their order: deleting from a concatenation
      deletes from each part. */
  lemma DeletedAppend(a: seq<Task>, b: seq<Task>, id: string)
    ensures Deleted(a + b, id) == Deleted(a, id) + Deleted(b, id)
  {
    FilterAppend((t: Task) => t.id != id, a, b);
  }

  /** Deleting an id no record carries is a silent no-op. */
  lemma DeletedAbsent(tasks: seq<Task>, id: string)
    requires !HasId(tasks, id)
    ensures Deleted(tasks, id) == tasks
  {
    forall t | t in tasks ensures t.id != id {
      var i :| 0 <= i < |tasks| && tasks[i] == t;
    }
    FilterKeepsAll((t: Task) => t.id != id, tasks);
  }

  /** Deleting twice is deleting once. */
  lemma DeletedTwice(tasks: seq<Task>, id: string)
    ensures Deleted(Deleted(tasks, id), id) == Deleted(tasks, id)
  {
    FilterIdempotent((t: Task) => t.id != id, tasks);
  }

  /** Deleting keeps ids unique, the list newest first and every record
      well timed. */
  lemma DeletedKeeps(tasks: seq<Task>, id: string)
    ensures var r := Deleted(tasks, id);
      (UniqueIds(tasks) ==> UniqueIds(r)) &&
      (NewestFirst(tasks) ==> NewestFirst(r)) &&
      (WellTimed(tasks) ==> WellTimed(r))
  {
    var p := (t: Task) => t.id != id;
    var r := Deleted(tasks, id);
    if UniqueIds(tasks) {
      FilterKeepsPairwise(p, (a: Task, b: Task) => a.id != b.id, tasks);
    }
    if NewestFirst(tasks) {
      FilterKeepsPairwise(p, (a: Task, b: Task) => a.createdAt >= b.createdAt, tasks);
    }
    if WellTimed(tasks) {
      forall i | 0 <= i < |r| ensures r[i].createdAt <= r[i].updatedAt {
        assert r[i] in tasks;
      }
    }
  }

  /* ---------------------------------------------------------------------
     searchTasks
     --------------------------------------------------------------------- */

  /** The lowercased title or the lowercased description contains `q`. */
  predicate Matches(t: Task, q: string) {
    Contains(Lower(t.title), q) || Contains(Lower(t.description), q)
  }

  /** A query that trims to nothing returns the whole list; any other
      returns, in order, exactly the records whose lowercased title or
      description contains the lowercased, untrimmed query. */
  function Searched(tasks: seq<Task>, query: string): (r: seq<Task>)
    ensures IsBlank(query) ==> r == tasks
    ensures !IsBlank(query) ==> forall t :: t in r <==> t in tasks && Matches(t, Lower(query))
    ensures !IsBlank(query) ==> forall t ::
              multiset(r)[t] == if Matches(t, Lower(query)) then multiset(tasks)[t] else 0
  {
    if IsBlank(query) then tasks
    else
      var q := Lower(query);
      Filter((t: Task) => Matches(t, q), tasks)
  }

  /** Search results keep the list's order: searching a concatenation
      searches each part. */
  lemma SearchedAppend(a: seq<Task>, b: seq<Task>, query: string)
    ensures Searched(a + b, query) == Searched(a, query) + Searched(b, query)
  {
    if !IsBlank(query) {
      var q := Lower(query);
      FilterAppend((t: Task) => Matches(t, q), a, b);
    }
  }

  /** Search ignores the case of the query. */
  lemma SearchedIgnoresCase(tasks: seq<Task>, query: string)
    ensures Searched(tasks, Lower(query)) == Searched(tasks, query)
  {
    LowerKeepsBlank(query);
    LowerIdempotent(query);
  }

  /** A non-blank query that no record matches returns nothing. */
  lemma SearchedNoMatch(tasks: seq<Task>, query: string)
    requires !IsBlank(query)
    requires forall i :: 0 <= i < |tasks| ==> !Matches(tasks[i], Lower(query))
    ensures Searched(tasks, query) == []
  {
    var q := Lower(query);
    forall t | t in tasks ensures !Matches(t, q) {
      var i :| 0 <= i < |tasks| && tasks[i] == t;
    }
    FilterDropsAll((t: Task) => Matches(t, q), tasks);
  }
}
