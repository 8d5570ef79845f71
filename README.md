# Task-list store of PersonalTaskApp, in Dafny

This project models the core of a small mobile to-do application: the
task store that the screens share (`TasksProvider` in
`mobile-app/contexts/TasksContext.tsx`), the task form's submission check
(`mobile-app/components/TaskForm.tsx`) and the seed list installed on first
start (`mobile-app/data/mockTasks.ts`).

The store holds an ordered list of tasks (id, title, description, status
pending/completed, creation and update times) and changes it by adding a
task at the front, merging edited fields into the records with a given id,
flipping their status, deleting them, or clearing the list. Adding,
updating, toggling and deleting each hand the whole new list to a storage
write. Clearing writes no list: it removes the storage key. On start it
loads the stored list, or installs and writes the seed when there is none.
A search filters the list by a case-insensitive substring of title or
description.

Layout, one module per source concern:

- `task.dfy` (`Types`): `Task`, `TaskStatus`, `TaskFormData`, and
  `TaskFormPatch` for `Partial<TaskFormData>`; a `Date` is an `int` of
  milliseconds since the Unix epoch.
- `text.dfy` (`Text`): JavaScript's `trim` (only its emptiness is used),
  `toLowerCase` and `includes`.
- `seqs.dfy` (`Seqs`): `filter` over sequences and its laws.
- `task_list.dfy` (`TaskList`): the list transforms behind each store
  operation, with their frame conditions and the invariants they keep.
- `tasks_context.dfy` (`TasksContext`): the store as a class whose fields
  are the provider's `tasks` and `isLoading` state, the storage slot, and a
  ghost record of the last list handed to a write.
- `task_form.dfy` (`TaskForm`): the submission decision and the form state.
- `mock_tasks.dfy` (`MockData`): the seed and its properties.

Storage is a slot `Option<seq<Task>>` (absent key or list). The outcome of
each storage call is an input: `readOk` (false when the stored text cannot
be read back, which the reader turns into an empty list), `writeOk`,
`clearOk`. The clock readings and the new task's `id` are inputs too.

Behaviour of the code worth knowing:

- `addTask` does not validate its input. Only the form refuses blank
  fields.
- `updateTask`, `toggleTaskStatus` and `deleteTask` raise no error for an
  id that no record carries. They leave the list unchanged and still write
  it.
- Ids come from the clock and need not be unique. Uniqueness is proved to
  be kept only when the new id is fresh.
- `clearTasks` empties the list only after the storage key is removed. If
  the removal fails, the error is rethrown and the list is left as it was.
- Loading never reaches its error branch through the read, because the
  reader catches its own errors and returns an empty list. The branch is
  reached only when writing the seed fails, and the seed is installed
  either way.

## Model

| member | source | states |
|---|---|---|
| `Text.TrimStart` | mobile-app/contexts/TasksContext.tsx:131 | the result is a suffix of the input, everything dropped is whitespace, and it does not start with whitespace |
| `Text.TrimEnd` | mobile-app/contexts/TasksContext.tsx:131 | the result is a prefix of the input, everything dropped is whitespace, and it does not end with whitespace |
| `Text.Trim` | mobile-app/contexts/TasksContext.tsx:131 | `trim()` is `TrimEnd` after `TrimStart`: no longer than the input, and neither starting nor ending with whitespace |
| `Text.TrimIsSlice` | mobile-app/components/TaskForm.tsx:38 | what `trim()` keeps is a contiguous slice of the input with only whitespace before and after it |
| `Text.IsBlank` | mobile-app/components/TaskForm.tsx:38-43 | the falsy test `!s.trim()`, characterised by `BlankIffAllWhitespace` |
| `Text.BlankIffAllWhitespace` | mobile-app/contexts/TasksContext.tsx:131 | `!s.trim()` holds exactly when every character (Unicode scalar value) of `s` is whitespace |
| `Text.Lower` | mobile-app/contexts/TasksContext.tsx:133 | lowering keeps the length and folds each character on its own |
| `Text.LowerIdempotent` | mobile-app/contexts/TasksContext.tsx:133 | lowering twice is lowering once |
| `Text.LowerKeepsBlank` | mobile-app/contexts/TasksContext.tsx:131-133 | a query is blank exactly when its lowercased form is |
| `Text.Contains` | mobile-app/contexts/TasksContext.tsx:135-136 | `includes` as a left-to-right scan: it holds whenever the text starts with the query, and only when the query is no longer than the text |
| `Text.ContainsIffOccurs` | mobile-app/contexts/TasksContext.tsx:135-136 | `includes` holds exactly when the query occurs at some offset of the text |
| `Seqs.Filter` | mobile-app/contexts/TasksContext.tsx:102 | `filter` keeps exactly the elements that pass, each as often as in the input, and never lengthens the list |
| `Seqs.FilterAppend` | mobile-app/contexts/TasksContext.tsx:134-137 | filtering a concatenation concatenates the filtered parts, so survivors keep their order |
| `Seqs.FilterKeepsAll` | mobile-app/contexts/TasksContext.tsx:102 | when every element passes, filtering returns the input itself |
| `Seqs.FilterDropsAll` | mobile-app/contexts/TasksContext.tsx:134-137 | when no element passes, filtering returns the empty list |
| `Seqs.FilterIdempotent` | mobile-app/contexts/TasksContext.tsx:102 | filtering twice with one test equals filtering once |
| `Seqs.FilterKeepsPairwise` | mobile-app/contexts/TasksContext.tsx:102 | any relation holding of every ordered pair still holds after filtering |
| `TaskList.NewTask` | mobile-app/contexts/TasksContext.tsx:62-69 | the new record carries the given id, is pending, has the form's title and description verbatim, and takes its creation and update times from two separate clock readings |
| `TaskList.Added` | mobile-app/contexts/TasksContext.tsx:62-72 | adding yields a list one longer whose tail is the old list unchanged and whose head is pending, carries the form's title and description verbatim, and has `createdAt` and `updatedAt` from the two clock readings |
| `TaskList.AddedKeepsUniqueIds` | mobile-app/contexts/TasksContext.tsx:62-72 | adding under an id no record carries keeps ids pairwise distinct |
| `TaskList.AddedKeepsOrderAndTiming` | mobile-app/contexts/TasksContext.tsx:67-72 | with a creation reading no earlier than any creation time in the list, adding keeps the list newest first; with an update reading no earlier than the creation reading as well, it keeps every `updatedAt >= createdAt` |
| `TaskList.AddedNewestFirst` | mobile-app/contexts/TasksContext.tsx:62-72 | adding A, then B, then C, each with its own creation and update readings, puts C, B, A in front of the old list |
| `TaskList.MapWhereId` | mobile-app/contexts/TasksContext.tsx:83-91 | the id-guarded `map` keeps the length, changes each record with the id by the given function and leaves every other record as it was |
| `TaskList.MapWhereIdAbsent` | mobile-app/contexts/TasksContext.tsx:84 | when no record carries the id, the map returns the list unchanged |
| `TaskList.MapWhereIdKeepsOrder` | mobile-app/contexts/TasksContext.tsx:83-91 | a change that keeps ids and creation times keeps every record's id and creation time, hence unique ids and newest-first order, for any clock reading |
| `TaskList.MapWhereIdKeepsTiming` | mobile-app/contexts/TasksContext.tsx:83-91 | a change that keeps creation times and stamps a monotone reading `now` keeps `updatedAt >= createdAt` and moves no update time back |
| `TaskList.Merge` | mobile-app/contexts/TasksContext.tsx:85-89 | the spread takes each supplied field, keeps each omitted one, keeps id, status and `createdAt`, and stamps `updatedAt = now` |
| `TaskList.Updated` | mobile-app/contexts/TasksContext.tsx:83-91 | update keeps length and order and other records; each matching record takes every supplied field, keeps every omitted one, keeps id, status and `createdAt`, and gets `updatedAt = now` |
| `TaskList.UpdatedAbsent` | mobile-app/contexts/TasksContext.tsx:84 | updating an absent id is a silent no-op |
| `TaskList.UpdatedKeepsOrder` | mobile-app/contexts/TasksContext.tsx:85-89 | whatever the clock reads, update keeps ids unique and the list newest first |
| `TaskList.UpdatedKeepsTiming` | mobile-app/contexts/TasksContext.tsx:85-89 | with a monotone clock, update keeps `updatedAt >= createdAt` and moves no update time back |
| `TaskList.Flip` | mobile-app/contexts/TasksContext.tsx:117 | the flipped status differs from the old one |
| `TaskList.Toggle` | mobile-app/contexts/TasksContext.tsx:115-119 | the record's status changes, `updatedAt` becomes `now`, and every other field is kept |
| `TaskList.Toggled` | mobile-app/contexts/TasksContext.tsx:113-121 | toggle keeps length, order and other records; each matching record flips pending and completed, gets `updatedAt = now`, and changes in nothing else |
| `TaskList.ToggledAbsent` | mobile-app/contexts/TasksContext.tsx:114 | toggling an absent id is a silent no-op |
| `TaskList.ToggledTwice` | mobile-app/contexts/TasksContext.tsx:113-121 | toggling the same id twice restores every status; matching records keep only the second update time |
| `TaskList.ToggledKeepsOrder` | mobile-app/contexts/TasksContext.tsx:115-119 | whatever the clock reads, toggle keeps ids unique and the list newest first |
| `TaskList.ToggledKeepsTiming` | mobile-app/contexts/TasksContext.tsx:115-119 | with a monotone clock, toggle keeps `updatedAt >= createdAt` and moves no update time back |
| `TaskList.Deleted` | mobile-app/contexts/TasksContext.tsx:102 | delete removes exactly the records with the id and keeps every other record as often as it was there |
| `TaskList.DeletedAppend` | mobile-app/contexts/TasksContext.tsx:102 | deletion works piecewise over a concatenation, so the survivors keep their order |
| `TaskList.DeletedAbsent` | mobile-app/contexts/TasksContext.tsx:102 | deleting an absent id leaves the list unchanged |
| `TaskList.DeletedTwice` | mobile-app/contexts/TasksContext.tsx:102 | deleting twice equals deleting once |
| `TaskList.DeletedKeeps` | mobile-app/contexts/TasksContext.tsx:102 | deletion keeps unique ids, newest-first order and `updatedAt >= createdAt` |
| `TaskList.Matches` | mobile-app/contexts/TasksContext.tsx:134-136 | the filter's test: the lowercased title or the lowercased description contains the query |
| `TaskList.Searched` | mobile-app/contexts/TasksContext.tsx:130-137 | a blank query returns the whole list; any other returns exactly the records whose lowercased title or description contains the lowercased, untrimmed query, each matching record as often as in the list |
| `TaskList.SearchedAppend` | mobile-app/contexts/TasksContext.tsx:134-137 | search works piecewise over a concatenation, so results keep the list's order |
| `TaskList.SearchedIgnoresCase` | mobile-app/contexts/TasksContext.tsx:133-136 | searching for a query and for its lowercased form give the same result |
| `TaskList.SearchedNoMatch` | mobile-app/contexts/TasksContext.tsx:134-137 | a non-blank query that no record matches returns the empty list |
| `TaskForm.Submission` | mobile-app/components/TaskForm.tsx:37-48 | the data is submitted, untrimmed, exactly when neither field is blank; a blank title gives the title error; a blank description under a non-blank title gives the description error |
| `TaskForm.TitleCheckedFirst` | mobile-app/components/TaskForm.tsx:38-41 | under a blank title the description is not examined |
| `TaskForm.AlertMessage` | mobile-app/components/TaskForm.tsx:38-46 | an alert is raised exactly when nothing is submitted |
| `TaskForm.WithField` | mobile-app/components/TaskForm.tsx:51-56 | the named field takes the value and the other keeps its text |
| `TaskForm.Form.constructor` | mobile-app/components/TaskForm.tsx:26-35 | the form starts with both fields empty, replaced as a whole by `initialData` when it is given |
| `TaskForm.Form.InitialDataChanged` | mobile-app/components/TaskForm.tsx:31-35 | a given `initialData` replaces the whole state; none leaves it as it was |
| `TaskForm.Form.UpdateField` | mobile-app/components/TaskForm.tsx:51-56 | typing within the input's `maxLength` (100 for the title, 500 for the description) replaces only the named field |
| `TaskForm.Form.HandleSubmit` | mobile-app/components/TaskForm.tsx:37-49 | pressing submit decides on the current state as `Submission` does and changes nothing |
| `MockData.MockTasks` | mobile-app/data/mockTasks.ts:3-52 | the seed's six records with their ids, texts, statuses and timestamps as epoch milliseconds of the UTC instants written in the source |
| `MockData.MockTasksIds` | mobile-app/data/mockTasks.ts:3-52 | the seed holds six records with ids "1" to "6", pairwise distinct |
| `MockData.MockTasksNewestFirst` | mobile-app/data/mockTasks.ts:9-49 | the seed is in strictly descending creation order, as adding produces |
| `MockData.MockTasksTiming` | mobile-app/data/mockTasks.ts:8-50 | pending seed records have `updatedAt = createdAt`, completed ones (ids 2 and 4) `updatedAt > createdAt`, so all are well timed |
| `MockData.MockTasksAcceptedByForm` | mobile-app/data/mockTasks.ts:6-47 | every seed title and description would pass the form's check |
| `TasksContext.TasksProvider.constructor` | mobile-app/contexts/TasksContext.tsx:23-25 | the store starts with the seed list and `isLoading` false, and is healthy |
| `TasksContext.TasksProvider.StoredTasks` | mobile-app/contexts/TasksContext.tsx:35 | the read yields the slot's list when the key is present and readable, and a non-empty result only then; otherwise the empty list |
| `TasksContext.TasksProvider.WriteTasks` | mobile-app/contexts/TasksContext.tsx:52-59 | a write hands over the list, which lands in the slot exactly when the write succeeds |
| `TasksContext.TasksProvider.LoadTasksFromStorage` | mobile-app/contexts/TasksContext.tsx:32-50 | a non-empty stored list is installed unchanged; otherwise the seed is written and installed even when that write fails; `isLoading` ends false |
| `TasksContext.TasksProvider.AddTask` | mobile-app/contexts/TasksContext.tsx:61-79 | the new list is `Added` of the old one with separate id, creation and update readings, the same list is handed to the write, a fresh id keeps ids unique for any clock reading, a creation reading no earlier than any creation time keeps the list newest first, and an update reading no earlier than the creation reading keeps it well timed |
| `TasksContext.TasksProvider.UpdateTask` | mobile-app/contexts/TasksContext.tsx:81-98 | the new list is `Updated` of the old one, the same list is handed to the write, unique ids and newest-first order are kept for any clock reading, and a monotone clock keeps the store healthy |
| `TasksContext.TasksProvider.DeleteTask` | mobile-app/contexts/TasksContext.tsx:100-109 | the new list is `Deleted` of the old one, the same list is handed to the write, and the store stays healthy |
| `TasksContext.TasksProvider.ToggleTaskStatus` | mobile-app/contexts/TasksContext.tsx:111-128 | the new list is `Toggled` of the old one, the same list is handed to the write, unique ids and newest-first order are kept for any clock reading, and a monotone clock keeps the store healthy |
| `TasksContext.TasksProvider.SearchTasks` | mobile-app/contexts/TasksContext.tsx:130-138 | search returns `Searched` of the current list and changes no state |
| `TasksContext.TasksProvider.ClearTasks` | mobile-app/contexts/TasksContext.tsx:140-148 | after a successful removal of the key the list is empty; after a failed one the error is rethrown and neither list nor storage changes |

## Left out

- `mobile-app/utils/fileSystem.ts`: the storage key, `JSON.stringify`/`JSON.parse` and the reading back of dates. Storage is an abstract slot, and whether each read, write or clear succeeds is an input.
- Timing of the writes that are not awaited. The model lands each write at the moment it is issued, in program order. A slow earlier write finishing after a later one is not captured. React calling a `setTasks` updater twice is not captured either.
- TasksContext.TasksProvider.LoadTasksFromStorage: the load is one atomic step, so the moment when `isLoading` is true is not observable.
- `mobile-app/app/_layout.tsx`: clearing storage when the app goes to the background or unmounts is lifecycle plumbing outside the store.
- `Date.now()` and `new Date()`: the clock readings and the new id are parameters. `addTask` takes its id, `createdAt` and `updatedAt` from three separate readings, and the model keeps them separate.
- TaskList.Updated: `updateTask` reads the clock once per matching record inside its `map`, so records sharing an id may get different stamps; the model stamps them all with one reading `now`.
- TaskList.Toggled: `toggleTaskStatus` also reads the clock once per matching record; the model stamps them all with one reading `now`.
- TaskForm.Form.UpdateField: the length cap counts Unicode scalar values (Dafny's `char`), while the widget's `maxLength` counts UTF-16 code units, so a character outside the Basic Multilingual Plane counts once here and twice in the widget. For the same reason lone surrogates, which JavaScript's `trim` and `includes` handle, cannot occur in the model's strings.
- Text.Lower: folds only the ASCII letters A to Z. JavaScript's `toLowerCase` folds all of Unicode. `trim`'s whitespace set is the full ECMAScript one.
- TaskList.Merge: a patch is a pair of optional fields. Spreading an object with an explicit `undefined` value or with keys beyond title and description is not modelled.
- `useTasks` (`TasksContext.tsx:168-174`): the error for use outside a provider is React context plumbing.
- Console logging, the `Alert.alert` dialog title, `onCancel`, `submitButtonText`, and all rendering and styling.
- `TaskItem.tsx`, `SearchBar.tsx`, `App.tsx` and the screens under `mobile-app/app/`: presentation and navigation only.
