/**
 * The record shapes of the task board (src/types.ts).
 * Numbers are modelled as unbounded integers and strings as `seq<char>`.
 */
module Types {
  import opened Wrappers

  /** A unit of work on the board; `dueDate` is an optional property. */
  datatype Task = Task(
    id: int,
    name: string,
    description: string,
    statusId: int,
    dueDate: Option<string>)

  /** A fixed stage a task can be in. */
  datatype Status = Status(id: int, name: string)

  /** What a caller hands to `addNewTask`: a task without `id` and `statusId`. */
  datatype NewTaskData = NewTaskData(
    name: string,
    description: string,
    dueDate: Option<string>)
}
