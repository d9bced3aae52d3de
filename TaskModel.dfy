/** The task entity: `TaskItemStatus` and the `TaskItem` record with its default values. */
module TaskModel {
  import opened Wrappers

  /** The three states of a task, in declaration order. */
  datatype TaskItemStatus = Pending | InProgress | Completed

  /** A `DateTime`, kept opaque: the model never does clock arithmetic. */
  type Timestamp = int

  /** `default(DateTime)`, which is what an unset `DueDate` holds. */
  const DefaultDateTime: Timestamp := 0

  datatype TaskItem = TaskItem(
    id: int,
    title: string,
    description: string,
    status: TaskItemStatus,
    assigneeId: int,
    creatorId: int,
    dueDate: Timestamp,
    createdAt: Timestamp,
    completedAt: Option<Timestamp>)

  /**
   * `new TaskItem()` at time `now`: every property at its initialiser or
   * at its type's default. An `AssigneeId` of 0 is the "nobody" value.
   */
  function NewTaskItem(now: Timestamp): (t: TaskItem)
    ensures t.id == 0 && t.assigneeId == 0 && t.creatorId == 0
    ensures t.title == "" && t.description == ""
    ensures t.status == Pending && t.completedAt == None
    ensures t.dueDate == DefaultDateTime && t.createdAt == now
  {
    TaskItem(0, "", "", Pending, 0, 0, DefaultDateTime, now, None)
  }
}
