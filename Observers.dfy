/**
 * `NotificationObserver`: who is told what when a task's status or
 * assignee changes. Each handler yields the ordered list of sends it makes.
 */
module Observers {
  import opened TaskModel
  import opened Notifications

  /** The two events the observable publishes, with the arguments it passes. */
  datatype Event =
    | StatusChangedEvent(task: TaskItem, oldStatus: TaskItemStatus)
    | AssignedEvent(task: TaskItem, previousAssigneeId: int)

  /**
   * An observer object. It holds no state of its own; it is a class so that
   * subscribing and unsubscribing go by object identity, as in the source.
   */
  class NotificationObserver {

    constructor ()
    {
    }

    /**
     * `OnTaskStatusChanged`: the creator always hears about the transition,
     * even when `oldStatus` equals the new status; the assignee is
     * congratulated afterwards exactly when the new status is `Completed`.
     */
    function OnTaskStatusChanged(task: TaskItem, oldStatus: TaskItemStatus): (r: seq<Send>)
      ensures 1 <= |r| <= 2
      ensures r[0] == Send(task.creatorId, StatusChanged(task.title, oldStatus, task.status))
      ensures |r| == 2 <==> task.status == Completed
      ensures |r| == 2 ==> r[1] == Send(task.assigneeId, Congrats(task.title))
    {
      [Send(task.creatorId, StatusChanged(task.title, oldStatus, task.status))]
      + (if task.status == Completed then [Send(task.assigneeId, Congrats(task.title))] else [])
    }

    /**
     * `OnTaskAssigned`: nothing when the assignee did not change; otherwise
     * the new assignee first, then the previous one, but only when the
     * previous id is positive (0 and below mean "nobody").
     */
    function OnTaskAssigned(task: TaskItem, previousAssigneeId: int): (r: seq<Send>)
      ensures |r| <= 2
      ensures r == [] <==> previousAssigneeId == task.assigneeId
      ensures r != [] ==> r[0] == Send(task.assigneeId, Assigned(task.title))
      ensures |r| == 2 <==> previousAssigneeId != task.assigneeId && previousAssigneeId > 0
      ensures |r| == 2 ==> r[1] == Send(previousAssigneeId, Unassigned(task.title))
    {
      if previousAssigneeId == task.assigneeId then []
      else
        [Send(task.assigneeId, Assigned(task.title))]
        + (if previousAssigneeId > 0 then [Send(previousAssigneeId, Unassigned(task.title))] else [])
    }

    /** The handler the observable calls for `e`. */
    function Handle(e: Event): seq<Send>
    {
      match e
      case StatusChangedEvent(task, oldStatus) => OnTaskStatusChanged(task, oldStatus)
      case AssignedEvent(task, previousAssigneeId) => OnTaskAssigned(task, previousAssigneeId)
    }
  }

  /**
   * A first assignment of a task whose `AssigneeId` still has its default
   * value tells only the new assignee: the default 0 fails the `> 0` guard.
   */
  lemma FirstAssignmentTellsOnlyAssignee(o: NotificationObserver, now: Timestamp, task: TaskItem)
    requires task.assigneeId != NewTaskItem(now).assigneeId
    ensures o.OnTaskAssigned(task, NewTaskItem(now).assigneeId) == [Send(task.assigneeId, Assigned(task.title))]
  {
  }
}
