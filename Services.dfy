/**
 * `TaskService`: the orchestrator. It loads, changes and re-stores tasks,
 * then publishes the change or sends the creation notice.
 */
module Services {
  import opened Wrappers
  import opened TaskModel
  import opened Notifications
  import opened Observers
  import opened Observable
  import opened Repository

  /**
   * The change `UpdateTaskStatusAsync` makes to the loaded task at time
   * `now`: the status is set, `CompletedAt` is stamped on completion and
   * otherwise kept as it was (never cleared); nothing else changes.
   */
  function ApplyStatus(t: TaskItem, status: TaskItemStatus, now: Timestamp): (r: TaskItem)
    ensures r.status == status
    ensures status == Completed ==> r.completedAt == Some(now)
    ensures status != Completed ==> r.completedAt == t.completedAt
    ensures r == t.(status := r.status, completedAt := r.completedAt)
  {
    if status == Completed then t.(status := status, completedAt := Some(now))
    else t.(status := status)
  }

  /** A run of status updates, each with the time at which it was made. */
  function ApplyStatuses(t: TaskItem, updates: seq<(TaskItemStatus, Timestamp)>): TaskItem
    decreases |updates|
  {
    if updates == [] then t
    else
      var (status, now) := updates[|updates| - 1];
      ApplyStatus(ApplyStatuses(t, updates[..|updates| - 1]), status, now)
  }

  /**
   * After any run of status updates a task has a completion time exactly
   * when it had one before or one of the updates was to `Completed`.
   */
  lemma {:induction false} CompletedAtIsSticky(t: TaskItem, updates: seq<(TaskItemStatus, Timestamp)>)
    ensures ApplyStatuses(t, updates).completedAt.Some?
            <==> t.completedAt.Some? || exists i :: 0 <= i < |updates| && updates[i].0 == Completed
    decreases |updates|
  {
    if updates != [] {
      var n := |updates| - 1;
      var prefix := updates[..n];
      CompletedAtIsSticky(t, prefix);
      if exists i :: 0 <= i < n && prefix[i].0 == Completed {
        var i :| 0 <= i < n && prefix[i].0 == Completed;
        assert updates[i].0 == Completed;
      }
      if exists i :: 0 <= i < |updates| && updates[i].0 == Completed {
        var i :| 0 <= i < |updates| && updates[i].0 == Completed;
        if i < n {
          assert prefix[i].0 == Completed;
        }
      }
    }
  }

  /**
   * Moving a completed task back to `Pending` keeps its completion time:
   * `CompletedAt` present does not imply `Status == Completed`.
   */
  lemma ReopenedTaskKeepsCompletedAt(t: TaskItem, done: Timestamp, reopened: Timestamp)
    ensures ApplyStatus(ApplyStatus(t, Completed, done), Pending, reopened).status == Pending
    ensures ApplyStatus(ApplyStatus(t, Completed, done), Pending, reopened).completedAt == Some(done)
  {
  }

  /** A record with the id of a stored task can always be stored back. */
  lemma FoundTaskCanBeUpdated(tasks: seq<TaskItem>, stored: TaskItem, task: TaskItem)
    requires stored in tasks && task.id == stored.id
    ensures UpdateById(tasks, task).Success?
  {
  }

  class TaskService {
    const repository: InMemoryTaskRepository
    const notificationService: NotificationService
    const taskObservable: TaskObservable

    ghost predicate Valid()
      reads repository
    {
      repository.Valid()
    }

    constructor (repository: InMemoryTaskRepository, notificationService: NotificationService, taskObservable: TaskObservable)
      ensures this.repository == repository
      ensures this.notificationService == notificationService
      ensures this.taskObservable == taskObservable
    {
      this.repository := repository;
      this.notificationService := notificationService;
      this.taskObservable := taskObservable;
    }

    /**
     * `CreateTaskAsync`: stores the task, then sends exactly one notice,
     * directly and not through the observers, to its assignee.
     */
    method CreateTask(task: TaskItem) returns (created: TaskItem)
      requires Valid()
      modifies repository, notificationService
      ensures Valid()
      ensures created == task.(id := old(repository.nextId))
      ensures repository.tasks == old(repository.tasks) + [created]
      ensures repository.nextId == old(repository.nextId) + 1
      ensures notificationService.log == old(notificationService.log) + [Send(task.assigneeId, Created(task.title))]
    {
      created := repository.Add(task);
      notificationService.NotifyUser(task.assigneeId, Created(task.title));
    }

    /**
     * `UpdateTaskStatusAsync`: throws on an unknown id before changing or
     * sending anything; otherwise stores the changed task (moving it last)
     * and publishes it with the status it had before.
     */
    method UpdateTaskStatus(taskId: int, status: TaskItemStatus, now: Timestamp)
      returns (r: Result<TaskItem, ArgumentException>)
      requires Valid()
      modifies repository, notificationService
      ensures Valid()
      ensures repository.nextId == old(repository.nextId)
      ensures old(FindById(repository.tasks, taskId)).None? ==>
                && r == Failure(TaskNotFound)
                && repository.tasks == old(repository.tasks)
                && notificationService.log == old(notificationService.log)
      ensures old(FindById(repository.tasks, taskId)).Some? ==>
                var loaded := old(FindById(repository.tasks, taskId)).value;
                && r == Success(ApplyStatus(loaded, status, now))
                && UpdateById(old(repository.tasks), r.value).Success?
                && repository.tasks == UpdateById(old(repository.tasks), r.value).value
                && notificationService.log
                   == old(notificationService.log)
                      + FanOut(taskObservable.observers, StatusChangedEvent(r.value, loaded.status))
    {
      assert repository.Valid();
      var found := repository.GetById(taskId);
      if found.None? {
        return Failure(TaskNotFound);
      }
      ghost var before := repository.tasks;
      var task := found.value;
      var oldStatus := task.status;
      task := ApplyStatus(task, status, now);
      assert task.id == taskId;
      FoundTaskCanBeUpdated(before, found.value, task);
      var updated := repository.Update(task);
      assert updated == Success(task);
      assert repository.tasks == UpdateById(before, task).value;
      var sent := taskObservable.NotifyStatusChanged(task, oldStatus);
      notificationService.NotifyUsers(sent);
      r := Success(task);
    }

    /** `GetUserTasksAsync`: exactly the repository's tasks for that assignee. */
    method GetUserTasks(userId: int) returns (r: seq<TaskItem>)
      ensures forall t :: t in r <==> t in repository.tasks && t.assigneeId == userId
      ensures r == ByAssignee(repository.tasks, userId)
    {
      r := repository.GetByAssignee(userId);
    }

    /**
     * `AssignTaskAsync`: throws on an unknown id; otherwise sets only the
     * assignee, stores the task (moving it last) and publishes it with the
     * assignee it had before.
     */
    method AssignTask(taskId: int, assigneeId: int) returns (r: Result<TaskItem, ArgumentException>)
      requires Valid()
      modifies repository, notificationService
      ensures Valid()
      ensures repository.nextId == old(repository.nextId)
      ensures old(FindById(repository.tasks, taskId)).None? ==>
                && r == Failure(TaskNotFound)
                && repository.tasks == old(repository.tasks)
                && notificationService.log == old(notificationService.log)
      ensures old(FindById(repository.tasks, taskId)).Some? ==>
                var loaded := old(FindById(repository.tasks, taskId)).value;
                && r == Success(loaded.(assigneeId := assigneeId))
                && UpdateById(old(repository.tasks), r.value).Success?
                && repository.tasks == UpdateById(old(repository.tasks), r.value).value
                && notificationService.log
                   == old(notificationService.log)
                      + FanOut(taskObservable.observers, AssignedEvent(r.value, loaded.assigneeId))
    {
      assert repository.Valid();
      var found := repository.GetById(taskId);
      if found.None? {
        return Failure(TaskNotFound);
      }
      ghost var before := repository.tasks;
      var task := found.value;
      var previousAssignee := task.assigneeId;
      task := task.(assigneeId := assigneeId);
      assert task.id == taskId;
      FoundTaskCanBeUpdated(before, found.value, task);
      var updated := repository.Update(task);
      assert updated == Success(task);
      assert repository.tasks == UpdateById(before, task).value;
      var sent := taskObservable.NotifyTaskAssigned(task, previousAssignee);
      notificationService.NotifyUsers(sent);
      r := Success(task);
    }

    /** `GetAllTasksAsync`: the repository's whole list, in its order. */
    method GetAllTasks() returns (r: seq<TaskItem>)
      ensures r == repository.tasks
    {
      r := repository.GetAll();
    }
  }
}
