# Kanban task store — a Dafny model

This project models the task store of a small kanban board. The store holds an
ordered list of tasks and a fixed list of four statuses (new, in progress,
done, cancelled). Four operations change the list:

- `addNewTask` appends a task with a generated id and status 1.
- `editTask` overwrites the first task with a given id.
- `deleteTask` removes every task with a given id.
- `updateTasks` replaces the whole list.

A deep watcher writes the list to local storage after every change. At start-up
the store loads the stored list, or a three-task sample list when nothing is
stored.

Files:

- `wrappers.dfy`: module `Wrappers`, the `Option` type.
- `types.dfy`: module `Types`, with the `Task`, `Status` and `NewTaskData`
  records (src/types.ts). The optional `dueDate` is an `Option<string>`.
- `store.dfy`: module `Store`. It holds the initial state and pure
  specification functions on `seq<Task>`. `FindIndex` is the linear scan of
  `findIndex`, `Edited` is the list after an edit and `WithoutId` is the
  `filter` of `deleteTask`. The lemmas about them sit beside them. The class
  `TaskStore` holds the shared state: a mutable `tasks` field, a constant
  `statuses` field, and a ghost `persisted` field for what local storage holds
  under `kanban-tasks`. Each method is proved against the specification
  functions. Each method that makes the watcher fire sets `persisted` to the
  new list.
- `store_scenarios.dfy`: module `StoreScenarios`. It holds the flows that
  src/store.spec.ts exercises, proved from the method contracts alone. It also
  has a restart that reads back the stored list.

When storage starts empty, `persisted` is `None` until the first change. When
storage already holds a list, `persisted` is that list from start-up. The
watcher is not registered with `immediate`, so the sample list is not written
at start-up. `Valid()`
states that whenever something is stored, it equals the current list.

## Model

| member | source | states |
|---|---|---|
| `Store.TaskStore.constructor` | src/store.ts:8-27 | The list is the stored one when storage has one, else the three-task sample. The statuses are the fixed four. Storage is left as it was. |
| `Store.InitialStateWellFormed` | src/store.ts:8-20 | The sample tasks have distinct ids. Every sample status id names one of the four statuses. The status ids are distinct, and status 1 ("new") exists. |
| `Store.InitialLoad` | src/store.ts:23-24 | A stored list is loaded back unchanged. With nothing stored, the start list is the three sample tasks, with distinct ids and existing statuses. |
| `Store.NewTask` | src/store.ts:34-38 | The built task has the generated id and status 1 ("new"), which is an existing status. Dropping its id and status gives back exactly the caller's data. |
| `Store.TaskStore.AddNewTask` | src/store.ts:33-40 | The new list is the old list plus one task at the end. Earlier tasks are unchanged. The new task has the generated id, the caller's name, description and due date, and status 1. Storage then holds the new list. |
| `Store.AddKeepsUniqueIff` | src/store.ts:33-40 | If ids were distinct before the append, they stay distinct exactly when the generated id is not already in use. |
| `Store.FindIndex` | src/store.ts:47 | When it finds an index, that task has the id and no earlier task does. It finds nothing exactly when no task has the id. |
| `Store.Edited` | src/store.ts:47-50 | An edit keeps the length. Every position holds either its old task or the updated task, and at most one position changes. |
| `Store.TaskStore.EditTask` | src/store.ts:46-51 | If some task has the id, the task at the first such index is replaced by the updated task, the length is kept and storage holds the new list. If none has it, the list and storage are both unchanged. |
| `Store.EditReplacesFirstMatch` | src/store.ts:46-50 | If task i is the first with the updated task's id, the edit puts the updated task at i and leaves the length and every other position unchanged. |
| `Store.EditMissingIsNoop` | src/store.ts:47-48 | If no task has the updated task's id, the edit leaves the list identical. |
| `Store.EditKeepsIds` | src/store.ts:46-50 | An edit keeps the length and the id at every position. |
| `Store.EditKeepsUnique` | src/store.ts:46-50 | An edit keeps ids distinct. |
| `Store.EditThenFind` | src/store.spec.ts:84-89 | After an edit, looking up the updated id finds the same position as before, and that position holds the updated task. |
| `Store.EditIdempotent` | src/store.ts:46-50 | Applying the same edit twice gives the same list as applying it once. |
| `Store.CountId` | src/store.ts:58 | The number of tasks with an id is at most the length. It is zero exactly when no task has that id. |
| `Store.WithoutId` | src/store.ts:57-59 | No task left in the result has the deleted id, and the result is never longer than the list. |
| `Store.WithoutIdLength` | src/store.ts:58 | Deleting shortens the list by exactly the number of tasks that had the id. |
| `Store.WithoutIdMembers` | src/store.ts:58 | A task is in the result exactly when it was in the list and its id differs from the deleted id. |
| `Store.WithoutIdAppend` | src/store.ts:58 | Deleting from a concatenation is the concatenation of the deletions. |
| `Store.WithoutIdKeepsOrder` | src/store.ts:58 | A kept task stays after every kept task that came before it and before every kept task that came after it. |
| `Store.WithoutIdNoMatch` | src/store.ts:58 | Deleting an id that no task has leaves the list identical. |
| `Store.WithoutIdIdempotent` | src/store.ts:57-59 | Deleting the same id twice gives the same list as deleting it once. |
| `Store.UniqueCountAtMostOne` | src/store.spec.ts:99-102 | With distinct ids, at most one task has a given id. |
| `Store.DeleteUniqueLength` | src/store.spec.ts:99-104 | With distinct ids, deleting a present id shortens the list by exactly one. Deleting an absent id keeps the length. |
| `Store.DeleteKeepsUnique` | src/store.ts:57-59 | Deleting keeps ids distinct. |
| `Store.TaskStore.DeleteTask` | src/store.ts:57-59 | The new list is the old list without the tasks that have the id, in their order. No task has the id afterwards. The length drops by their count. Storage holds the new list. |
| `Store.TaskStore.UpdateTasks` | src/store.ts:65-67 | The list equals the given list whatever it held before, so calling it twice with the same list is the same as once. Storage holds the new list. |
| `StoreScenarios.FreshStore` | src/store.spec.ts:32-49 | A store started with empty storage and then given the two starting tasks holds exactly those tasks, and storage holds them too. |
| `StoreScenarios.AddScenario` | src/store.spec.ts:52-71 | After adding, the list is one longer and keeps the starting tasks as its prefix. The last task is "New Task" with the given description, status 1 and the generated id. |
| `StoreScenarios.EditScenario` | src/store.spec.ts:74-90 | After editing task 1, the first task with id 1 equals the updated task exactly. |
| `StoreScenarios.DeleteScenario` | src/store.spec.ts:93-105 | After deleting task 1, the list is one shorter, no task has id 1, and only task 2 remains. |
| `StoreScenarios.ChainedScenario` | src/store.ts:33-59 | After add, then edit of task 1, then delete of task 1 on one store, no task has id 1. Two tasks remain, or only one if the generated id happened to be 1. |
| `StoreScenarios.Restart` | src/store.ts:22-24 | Restarting from a stored list that the watcher wrote gives back the same task list. |

## Left out

- Vue reactivity (`ref`, `watch` with `deep: true`) is not modelled. The watcher becomes an explicit ghost assignment `persisted := Some(tasks)` at the end of every method that changes the list. Vue's deferred flushing of the watcher is not modelled either, so several changes in one tick are seen as several writes.
- Reference identity is not modelled. Vue skips the watcher when `editTask` stores the very same object already at that index, or when `updateTasks` is given the array the store already holds. The model writes in both cases.
- `localStorage` I/O and `JSON.parse`/`JSON.stringify` are not modelled. Start-up takes an `Option<seq<Task>>`: `Some` is the stored list already parsed, `None` is an absent entry.
- Malformed stored text is not modelled. The source has no try/catch, so `JSON.parse` throws on it. The model has no fallback for that case.
- An empty stored string is falsy in the source, so it would also select the sample list. The `Option` input cannot express this, and the watcher never writes an empty string.
- `Date.now()` is not modelled. The generated id is a parameter of `AddNewTask`, and ids are not claimed to be unique after an add (see `AddKeepsUniqueIff` and `ChainedScenario`).
- The `Omit<Task, 'id' | 'statusId'>` argument of `addNewTask` is modelled as `NewTaskData`. Extra properties that a caller might smuggle into the object spread at run time are not modelled.
- Numbers are unbounded integers. JavaScript's double-precision `number` (rounding, NaN, non-integer ids) is not modelled.
- `useStore` (src/store.ts:79-88) only hands out the shared state and the four operations. It is not modelled. Consumers that reassign the exposed `tasks` handle directly are modelled as calls to `UpdateTasks`. The `statuses` list is handed out the same way (src/store.ts:27, 82), but the model makes it a constant, so consumers that reassign or mutate `statuses` are not modelled.
- The status names are the source's Japanese labels, kept as Dafny strings. Nothing is proved about them.
