/**
 * The task store of the kanban board (src/store.ts): an ordered list of tasks,
 * a fixed list of four statuses, the four operations that change the list,
 * and the watcher that writes the list to local storage after every change.
 *
 * The list operations are specified by pure functions on `seq<Task>`
 * (`FindIndex`, `WithoutId`, `Edited`); the class `TaskStore` holds the shared
 * state and its methods are proved against those functions.
 */
module Store {
  import opened Wrappers
  import opened Types

  // ---------------------------------------------------------------------------
  // Initial state
  // ---------------------------------------------------------------------------

  /** The storage key the task list is written under; `TaskStore.persisted` stands for its entry. */
  const TasksStorageKey: string := "kanban-tasks"

  /** The status id every new task starts with ("new"). */
  const NewStatusId: int := 1

  /** The four fixed statuses: new, in progress, done, cancelled. */
  const InitialStatuses: seq<Status> := [
    Status(1, "新規"),
    Status(2, "作業中"),
    Status(3, "完了"),
    Status(4, "中止")
  ]

  /** The sample list used when nothing is stored. */
  const InitialTasks: seq<Task> := [
    Task(1, "Task 1", "This is task 1", 1, Some("2024-01-01")),
    Task(2, "Task 2", "This is task 2", 1, None),
    Task(3, "Task 3", "This is task 3", 2, Some("2024-02-01"))
  ]

  /** True when some status has id `statusId`. */
  predicate IsKnownStatus(statusId: int)
  {
    exists i :: 0 <= i < |InitialStatuses| && InitialStatuses[i].id == statusId
  }

  /** No two tasks of the list share an id. */
  predicate UniqueIds(tasks: seq<Task>)
  {
    forall i, j :: 0 <= i < j < |tasks| ==> tasks[i].id != tasks[j].id
  }

  /** The sample data keeps the data model's invariants: distinct ids, known statuses. */
  lemma InitialStateWellFormed()
    ensures UniqueIds(InitialTasks)
    ensures forall t :: t in InitialTasks ==> IsKnownStatus(t.statusId)
    ensures forall i, j :: 0 <= i < j < |InitialStatuses| ==> InitialStatuses[i].id != InitialStatuses[j].id
    ensures IsKnownStatus(NewStatusId)
  {
    assert InitialStatuses[0].id == 1 && InitialStatuses[1].id == 2;
  }

  /**
   * The list the store starts with. A stored list is loaded back as it is;
   * with nothing stored, the store starts from the three sample tasks, whose
   * ids are distinct and whose statuses all exist.
   */
  function InitialLoad(stored: Option<seq<Task>>): (r: seq<Task>)
    ensures stored.Some? ==> r == stored.value
    ensures stored.None? ==> |r| == 3 && UniqueIds(r)
    ensures stored.None? ==> forall t :: t in r ==> IsKnownStatus(t.statusId)
  {
    match stored
    case Some(s) => s
    case None => InitialStateWellFormed(); InitialTasks
  }

  // ---------------------------------------------------------------------------
  // addNewTask
  // ---------------------------------------------------------------------------

  /** The task `addNewTask` builds: the caller's fields, the generated id, status "new". */
  function NewTask(generatedId: int, taskData: NewTaskData): (t: Task)
    ensures t.id == generatedId
    ensures t.statusId == NewStatusId && IsKnownStatus(t.statusId)
    ensures NewTaskData(t.name, t.description, t.dueDate) == taskData
  {
    InitialStateWellFormed();
    Task(generatedId, taskData.name, taskData.description, NewStatusId, taskData.dueDate)
  }

  /**
   * Appending a new task keeps ids distinct exactly when the generated id is
   * not already in use; the generated id itself is not guaranteed fresh.
   */
  lemma AddKeepsUniqueIff(tasks: seq<Task>, generatedId: int, taskData: NewTaskData)
    requires UniqueIds(tasks)
    ensures UniqueIds(tasks + [NewTask(generatedId, taskData)])
            <==> (forall t :: t in tasks ==> t.id != generatedId)
  {
    var r := tasks + [NewTask(generatedId, taskData)];
    if !(forall t :: t in tasks ==> t.id != generatedId) {
      var t :| t in tasks && t.id == generatedId;
      var i :| 0 <= i < |tasks| && tasks[i] == t;
      assert r[i].id == r[|tasks|].id;
    }
  }

  // ---------------------------------------------------------------------------
  // editTask
  // ---------------------------------------------------------------------------

  /** The index of the first task with id `id`, as a linear scan finds it; None when there is none. */
  function FindIndex(tasks: seq<Task>, id: int): (r: Option<nat>)
    ensures r.Some? ==> r.value < |tasks| && tasks[r.value].id == id
    ensures r.Some? ==> forall j :: 0 <= j < r.value ==> tasks[j].id != id
    ensures r.None? <==> forall j :: 0 <= j < |tasks| ==> tasks[j].id != id
  {
    if |tasks| == 0 then None
    else if tasks[0].id == id then Some(0)
    else
      match FindIndex(tasks[1..], id)
      case None => None
      case Some(i) => Some(i + 1)
  }

  /**
   * The list after `editTask(updatedTask)`: the first task with its id
   * replaced, if any. The length never changes, every position holds either
   * its old task or the updated one, and at most one position changes.
   */
  function Edited(tasks: seq<Task>, updatedTask: Task): (r: seq<Task>)
    ensures |r| == |tasks|
    ensures forall j :: 0 <= j < |r| ==> r[j] == tasks[j] || r[j] == updatedTask
    ensures forall i, j :: 0 <= i < j < |r| ==> r[i] == tasks[i] || r[j] == tasks[j]
  {
    match FindIndex(tasks, updatedTask.id)
    case Some(i) => tasks[i := updatedTask]
    case None => tasks
  }

  /** When the i-th task is the first with the updated task's id, exactly position i is overwritten. */
  lemma EditReplacesFirstMatch(tasks: seq<Task>, updatedTask: Task, i: nat)
    requires i < |tasks| && tasks[i].id == updatedTask.id
    requires forall j :: 0 <= j < i ==> tasks[j].id != updatedTask.id
    ensures |Edited(tasks, updatedTask)| == |tasks|
    ensures Edited(tasks, updatedTask)[i] == updatedTask
    ensures forall j :: 0 <= j < |tasks| && j != i ==> Edited(tasks, updatedTask)[j] == tasks[j]
  {
  }

  /** When no task has the updated task's id, the list is left identical. */
  lemma EditMissingIsNoop(tasks: seq<Task>, updatedTask: Task)
    requires forall t :: t in tasks ==> t.id != updatedTask.id
    ensures Edited(tasks, updatedTask) == tasks
  {
  }

  /** Editing never changes the length or the id at any position. */
  lemma EditKeepsIds(tasks: seq<Task>, updatedTask: Task)
    ensures |Edited(tasks, updatedTask)| == |tasks|
    ensures forall j :: 0 <= j < |tasks| ==> Edited(tasks, updatedTask)[j].id == tasks[j].id
  {
  }

  /** Editing keeps ids distinct. */
  lemma EditKeepsUnique(tasks: seq<Task>, updatedTask: Task)
    requires UniqueIds(tasks)
    ensures UniqueIds(Edited(tasks, updatedTask))
  {
  }

  /** After an edit, looking the id up finds the same position, and it holds the updated task. */
  lemma EditThenFind(tasks: seq<Task>, updatedTask: Task)
    ensures FindIndex(Edited(tasks, updatedTask), updatedTask.id) == FindIndex(tasks, updatedTask.id)
    ensures FindIndex(tasks, updatedTask.id).Some? ==>
              Edited(tasks, updatedTask)[FindIndex(tasks, updatedTask.id).value] == updatedTask
  {
  }

  /** Applying the same edit twice is the same as applying it once. */
  lemma EditIdempotent(tasks: seq<Task>, updatedTask: Task)
    ensures Edited(Edited(tasks, updatedTask), updatedTask) == Edited(tasks, updatedTask)
  {
    EditThenFind(tasks, updatedTask);
  }

  // ---------------------------------------------------------------------------
  // deleteTask
  // ---------------------------------------------------------------------------

  /** How many tasks of the list have id `id`. */
  function CountId(tasks: seq<Task>, id: int): (c: nat)
    ensures c <= |tasks|
    ensures c == 0 <==> forall j :: 0 <= j < |tasks| ==> tasks[j].id != id
  {
    if |tasks| == 0 then 0
    else (if tasks[0].id == id then 1 else 0) + CountId(tasks[1..], id)
  }

  /** The list `deleteTask(id)` leaves: the tasks whose id differs from `id`, in their order. */
  function WithoutId(tasks: seq<Task>, id: int): (r: seq<Task>)
    ensures forall j :: 0 <= j < |r| ==> r[j].id != id
    ensures |r| <= |tasks|
  {
    if |tasks| == 0 then []
    else if tasks[0].id == id then WithoutId(tasks[1..], id)
    else [tasks[0]] + WithoutId(tasks[1..], id)
  }

  /** Deleting shortens the list by the number of tasks that have the id. */
  lemma {:induction false} WithoutIdLength(tasks: seq<Task>, id: int)
    ensures |WithoutId(tasks, id)| == |tasks| - CountId(tasks, id)
  {
    if |tasks| > 0 {
      WithoutIdLength(tasks[1..], id);
    }
  }

  /** A task survives deletion exactly when it was in the list and its id differs from the deleted one. */
  lemma {:induction false} WithoutIdMembers(tasks: seq<Task>, id: int)
    ensures forall t :: t in WithoutId(tasks, id) <==> t in tasks && t.id != id
  {
    if |tasks| > 0 {
      WithoutIdMembers(tasks[1..], id);
      assert tasks == [tasks[0]] + tasks[1..];
    }
  }

  /** Deleting from a list with a given first task: that task is kept or dropped, then the rest. */
  lemma WithoutIdCons(head: Task, rest: seq<Task>, id: int)
    ensures WithoutId([head] + rest, id) == (if head.id == id then [] else [head]) + WithoutId(rest, id)
  {
    assert ([head] + rest)[1..] == rest;
  }

  /** Deleting distributes over concatenation, so the kept tasks stay in their relative order. */
  lemma {:induction false} WithoutIdAppend(a: seq<Task>, b: seq<Task>, id: int)
    ensures WithoutId(a + b, id) == WithoutId(a, id) + WithoutId(b, id)
  {
    if |a| == 0 {
      assert a + b == b;
    } else {
      var head, rest := a[0], a[1..];
      var kept := if head.id == id then [] else [head];
      calc {
        WithoutId(a + b, id);
        { assert a + b == [head] + (rest + b); }
        WithoutId([head] + (rest + b), id);
        { WithoutIdCons(head, rest + b, id); }
        kept + WithoutId(rest + b, id);
        { WithoutIdAppend(rest, b, id); }
        kept + (WithoutId(rest, id) + WithoutId(b, id));
        (kept + WithoutId(rest, id)) + WithoutId(b, id);
        { assert a == [head] + rest; WithoutIdCons(head, rest, id); }
        WithoutId(a, id) + WithoutId(b, id);
      }
    }
  }

  /** A kept task sits between what is kept before it and what is kept after it. */
  lemma WithoutIdKeepsOrder(before: seq<Task>, t: Task, after: seq<Task>, id: int)
    requires t.id != id
    ensures WithoutId(before + [t] + after, id) == WithoutId(before, id) + [t] + WithoutId(after, id)
  {
    assert WithoutId([t], id) == [t] by {
      assert [t][1..] == [];
    }
    calc {
      WithoutId(before + [t] + after, id);
      { WithoutIdAppend(before + [t], after, id); }
      WithoutId(before + [t], id) + WithoutId(after, id);
      { WithoutIdAppend(before, [t], id); }
      WithoutId(before, id) + [t] + WithoutId(after, id);
    }
  }

  /** Deleting an id no task has leaves the list identical. */
  lemma {:induction false} WithoutIdNoMatch(tasks: seq<Task>, id: int)
    requires forall t :: t in tasks ==> t.id != id
    ensures WithoutId(tasks, id) == tasks
  {
    if |tasks| > 0 {
      assert tasks[0] in tasks;
      assert forall t :: t in tasks[1..] ==> t in tasks;
      WithoutIdNoMatch(tasks[1..], id);
      assert tasks == [tasks[0]] + tasks[1..];
    }
  }

  /** Deleting the same id twice is the same as deleting it once. */
  lemma WithoutIdIdempotent(tasks: seq<Task>, id: int)
    ensures WithoutId(WithoutId(tasks, id), id) == WithoutId(tasks, id)
  {
    WithoutIdNoMatch(WithoutId(tasks, id), id);
  }

  /** With distinct ids at most one task matches an id. */
  lemma {:induction false} UniqueCountAtMostOne(tasks: seq<Task>, id: int)
    requires UniqueIds(tasks)
    ensures CountId(tasks, id) <= 1
  {
    if |tasks| > 0 {
      var rest := tasks[1..];
      assert UniqueIds(rest) by {
        forall i, j | 0 <= i < j < |rest| ensures rest[i].id != rest[j].id {
          assert rest[i] == tasks[i + 1] && rest[j] == tasks[j + 1];
        }
      }
      UniqueCountAtMostOne(rest, id);
      if tasks[0].id == id {
        forall j | 0 <= j < |rest| ensures rest[j].id != id {
          assert rest[j] == tasks[j + 1];
        }
      }
    }
  }

  /**
   * With distinct ids, deleting an id that is present shortens the list by
   * exactly one, and deleting an absent one leaves the length as it was.
   */
  lemma DeleteUniqueLength(tasks: seq<Task>, id: int)
    requires UniqueIds(tasks)
    ensures (exists j :: 0 <= j < |tasks| && tasks[j].id == id) ==> |WithoutId(tasks, id)| == |tasks| - 1
    ensures (forall j :: 0 <= j < |tasks| ==> tasks[j].id != id) ==> |WithoutId(tasks, id)| == |tasks|
  {
    UniqueCountAtMostOne(tasks, id);
    WithoutIdLength(tasks, id);
  }

  /** A list headed by `head` has distinct ids iff its tail does and no tail task shares `head`'s id. */
  lemma UniqueIdsCons(head: Task, rest: seq<Task>)
    ensures UniqueIds([head] + rest) <==>
            UniqueIds(rest) && forall t :: t in rest ==> t.id != head.id
  {
    var s := [head] + rest;
    if UniqueIds(s) {
      forall i, j | 0 <= i < j < |rest| ensures rest[i].id != rest[j].id {
        assert rest[i] == s[i + 1] && rest[j] == s[j + 1];
      }
      forall t | t in rest ensures t.id != head.id {
        var k :| 0 <= k < |rest| && rest[k] == t;
        assert s[0] == head && s[k + 1] == t && s[0].id != s[k + 1].id;
      }
    }
    if UniqueIds(rest) && forall t :: t in rest ==> t.id != head.id {
      forall i, j | 0 <= i < j < |s| ensures s[i].id != s[j].id {
        assert s[j] == rest[j - 1] && s[j] in rest;
        if i == 0 {
          assert s[j].id != head.id;
        } else {
          assert s[i] == rest[i - 1] && rest[i - 1].id != rest[j - 1].id;
        }
      }
    }
  }

  /** Deleting keeps ids distinct. */
  lemma {:induction false} DeleteKeepsUnique(tasks: seq<Task>, id: int)
    requires UniqueIds(tasks)
    ensures UniqueIds(WithoutId(tasks, id))
  {
    if |tasks| > 0 {
      var rest := tasks[1..];
      assert tasks == [tasks[0]] + rest;
      UniqueIdsCons(tasks[0], rest);
      DeleteKeepsUnique(rest, id);
      if tasks[0].id != id {
        WithoutIdMembers(rest, id);
        UniqueIdsCons(tasks[0], WithoutId(rest, id));
      }
    }
  }

  // ---------------------------------------------------------------------------
  // The store
  // ---------------------------------------------------------------------------

  /**
   * The shared store. `tasks` is the reactive task list, `statuses` the fixed
   * status list, and `persisted` is what local storage holds under
   * `TasksStorageKey` (None while nothing has been written).
   */
  class TaskStore {
    var tasks: seq<Task>
    const statuses: seq<Status>
    ghost var persisted: Option<seq<Task>>

    /**
     * The statuses are the fixed four, and whatever is stored under
     * `TasksStorageKey` (`persisted`) is the current list.
     */
    ghost predicate Valid()
      reads this
    {
      statuses == InitialStatuses &&
      (persisted.Some? ==> persisted.value == tasks)
    }

    /**
     * Start-up: load the stored list if there is one, else the sample list.
     * The watcher is not run at start-up, so storage keeps what it held.
     */
    constructor (stored: Option<seq<Task>>)
      ensures Valid()
      ensures tasks == InitialLoad(stored)
      ensures stored.Some? ==> tasks == stored.value
      ensures stored.None? ==> tasks == InitialTasks
      ensures persisted == stored
    {
      tasks := InitialLoad(stored);
      statuses := InitialStatuses;
      persisted := stored;
    }

    /** Append a task with the generated id, the caller's fields and status "new". */
    method AddNewTask(generatedId: int, taskData: NewTaskData)
      requires Valid()
      modifies this
      ensures Valid()
      ensures tasks == old(tasks) + [NewTask(generatedId, taskData)]
      ensures |tasks| == |old(tasks)| + 1 && tasks[..|old(tasks)|] == old(tasks)
      ensures tasks[|tasks| - 1].id == generatedId && tasks[|tasks| - 1].statusId == NewStatusId
      ensures tasks[|tasks| - 1].name == taskData.name
      ensures tasks[|tasks| - 1].description == taskData.description
      ensures tasks[|tasks| - 1].dueDate == taskData.dueDate
      ensures persisted == Some(tasks)
    {
      var newTask := NewTask(generatedId, taskData);
      tasks := tasks + [newTask];
      persisted := Some(tasks);
    }

    /**
     * Overwrite the first task with `updatedTask.id` by `updatedTask`; do
     * nothing (and write nothing) when no task has that id.
     */
    method EditTask(updatedTask: Task)
      requires Valid()
      modifies this
      ensures Valid()
      ensures tasks == Edited(old(tasks), updatedTask)
      ensures FindIndex(old(tasks), updatedTask.id).Some? ==>
                persisted == Some(tasks) &&
                |tasks| == |old(tasks)| &&
                tasks == old(tasks)[FindIndex(old(tasks), updatedTask.id).value := updatedTask]
      ensures FindIndex(old(tasks), updatedTask.id).None? ==>
                tasks == old(tasks) && persisted == old(persisted)
    {
      var index := FindIndex(tasks, updatedTask.id);
      if index.Some? {
        tasks := tasks[index.value := updatedTask];
        persisted := Some(tasks);
      }
    }

    /** Keep only the tasks whose id differs from `taskId`, in their order. */
    method DeleteTask(taskId: int)
      requires Valid()
      modifies this
      ensures Valid()
      ensures tasks == WithoutId(old(tasks), taskId)
      ensures forall t :: t in tasks ==> t.id != taskId
      ensures |tasks| == |old(tasks)| - CountId(old(tasks), taskId)
      ensures persisted == Some(tasks)
    {
      WithoutIdLength(tasks, taskId);
      WithoutIdMembers(tasks, taskId);
      tasks := WithoutId(tasks, taskId);
      persisted := Some(tasks);
    }

    /** Replace the whole list, whatever it held. */
    method UpdateTasks(newTasks: seq<Task>)
      requires Valid()
      modifies this
      ensures Valid()
      ensures tasks == newTasks
      ensures persisted == Some(newTasks)
    {
      tasks := newTasks;
      persisted := Some(tasks);
    }
  }
}
