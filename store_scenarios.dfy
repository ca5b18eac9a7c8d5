/**
 * Client-side flows over `TaskStore` (the ones src/store.spec.ts exercises),
 * proved from the store's method contracts alone.
 */
module StoreScenarios {
  import opened Wrappers
  import opened Types
  import opened Store

  /** The two tasks every flow starts from. */
  const StartTasks: seq<Task> := [
    Task(1, "Task 1", "Desc 1", 1, Some("2024-01-01")),
    Task(2, "Task 2", "Desc 2", 2, None)
  ]

  const NewTaskInput: NewTaskData := NewTaskData("New Task", "A brand new task", Some("2025-01-01"))

  const UpdatedTaskOne: Task := Task(1, "Task 1 Updated", "Desc 1 Updated", 3, Some("2024-01-15"))

  /** A store started with empty storage whose list is then set to `StartTasks`. */
  method FreshStore() returns (store: TaskStore)
    ensures fresh(store) && store.Valid()
    ensures store.tasks == StartTasks && store.persisted == Some(StartTasks)
  {
    store := new TaskStore(None);
    store.UpdateTasks(StartTasks);
  }

  /** Adding a task grows the list by one; the new last task has the input's fields and status 1. */
  method AddScenario(generatedId: int) returns (final: seq<Task>)
    ensures |final| == |StartTasks| + 1
    ensures final[..|StartTasks|] == StartTasks
    ensures final[|final| - 1].name == "New Task"
    ensures final[|final| - 1].description == "A brand new task"
    ensures final[|final| - 1].statusId == 1
    ensures final[|final| - 1].id == generatedId
  {
    var store := FreshStore();
    store.AddNewTask(generatedId, NewTaskInput);
    final := store.tasks;
  }

  /** After editing task 1, the first task with id 1 is exactly the updated one. */
  method EditScenario() returns (found: Option<Task>)
    ensures found == Some(UpdatedTaskOne)
  {
    var store := FreshStore();
    store.EditTask(UpdatedTaskOne);
    var index := FindIndex(store.tasks, 1);
    found := if index.Some? then Some(store.tasks[index.value]) else None;
  }

  /** Deleting task 1 shortens the list by one and leaves no task with id 1. */
  method DeleteScenario() returns (final: seq<Task>)
    ensures |final| == |StartTasks| - 1
    ensures forall t :: t in final ==> t.id != 1
    ensures final == [StartTasks[1]]
  {
    var store := FreshStore();
    store.DeleteTask(1);
    final := store.tasks;
  }

  /**
   * Add, then edit task 1, then delete task 1, on one store. The generated id
   * is not guaranteed fresh: if it happens to be 1, the delete removes both.
   */
  method ChainedScenario(generatedId: int) returns (final: seq<Task>)
    ensures forall t :: t in final ==> t.id != 1
    ensures |final| == if generatedId == 1 then 1 else 2
  {
    var store := FreshStore();
    store.AddNewTask(generatedId, NewTaskInput);
    assert |store.tasks| == 3 && store.tasks[2].statusId == 1;
    store.EditTask(UpdatedTaskOne);
    assert store.tasks[0] == UpdatedTaskOne;
    store.DeleteTask(1);
    final := store.tasks;
  }

  /**
   * Restarting from what storage holds (`stored`, read back after at least
   * one change was written) gives back the same task list.
   */
  method Restart(store: TaskStore, stored: Option<seq<Task>>) returns (restarted: TaskStore)
    requires store.Valid() && stored.Some? && store.persisted == stored
    ensures restarted.Valid()
    ensures restarted.tasks == store.tasks
  {
    restarted := new TaskStore(stored);
  }
}
