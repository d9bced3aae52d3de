/**
 * A client run of the model, wired as Program.cs wires it (one
 * `NotificationObserver` subscribed): create a task, complete it, hand it
 * to someone else.
 */
module Scenario {
  import opened Wrappers
  import opened TaskModel
  import opened Notifications
  import opened Observers
  import opened Observable
  import opened Repository
  import opened Services

  /** With a single subscription, publishing sends what that observer's handler sends. */
  lemma OneSubscriberFanOut(o: NotificationObserver, e: Event)
    ensures FanOut([o], e) == o.Handle(e)
  {
    assert [o][..0] == [];
  }

  /** In a one-task store, lookup by its id finds it and an update replaces it. */
  lemma OneTaskStore(t: TaskItem, u: TaskItem)
    requires t.id == u.id
    ensures FindById([t], t.id) == Some(t)
    ensures UpdateById([t], u) == Success([u])
  {
  }

  /**
   * Step 1: the task is stored with id 1 and status `Pending`, and its
   * assignee (7) gets the creation notice.
   */
  method CreateCompleteReassign(title: string, createdAt: Timestamp, dueDate: Timestamp, completedAt: Timestamp)
  {
    var repository := new InMemoryTaskRepository();
    var notifications := new NotificationService();
    var observable := new TaskObservable();
    var observer := new NotificationObserver();
    observable.Subscribe(observer);
    var service := new TaskService(repository, notifications, observable);

    var draft := NewTaskItem(createdAt).(title := title, assigneeId := 7, creatorId := 3, dueDate := dueDate);
    var created := service.CreateTask(draft);
    assert created.id == 1 && created.status == Pending;
    assert notifications.log == [Send(7, Created(title))];

    var done := CompleteStep(service, observer, created, completedAt);
    assert done.status == Completed && done.completedAt == Some(completedAt);
    ReassignStep(service, observer, done);
    assert notifications.log == [
      Send(7, Created(title)),
      Send(3, StatusChanged(title, Pending, Completed)), Send(7, Congrats(title)),
      Send(9, Assigned(title)), Send(7, Unassigned(title))];
  }

  /** Step 2: completing it tells the creator (3), then congratulates the assignee (7). */
  method CompleteStep(service: TaskService, observer: NotificationObserver, created: TaskItem, completedAt: Timestamp)
    returns (done: TaskItem)
    requires service.Valid()
    requires service.taskObservable.observers == [observer]
    requires service.repository.tasks == [created] && created.id == 1 && created.status == Pending
    modifies service.repository, service.notificationService
    ensures service.Valid()
    ensures done == created.(status := Completed, completedAt := Some(completedAt))
    ensures service.repository.tasks == [done]
    ensures service.notificationService.log
            == old(service.notificationService.log)
               + [Send(created.creatorId, StatusChanged(created.title, Pending, Completed)),
                  Send(created.assigneeId, Congrats(created.title))]
  {
    done := ApplyStatus(created, Completed, completedAt);
    OneTaskStore(created, done);
    OneSubscriberFanOut(observer, StatusChangedEvent(done, Pending));
    var r := service.UpdateTaskStatus(1, Completed, completedAt);
    assert r == Success(done);
  }

  /** Step 3: handing it from 7 to 9 tells 9 first, then 7. */
  method ReassignStep(service: TaskService, observer: NotificationObserver, done: TaskItem)
    requires service.Valid()
    requires service.taskObservable.observers == [observer]
    requires service.repository.tasks == [done] && done.id == 1 && done.assigneeId == 7
    modifies service.repository, service.notificationService
    ensures service.Valid()
    ensures service.repository.tasks == [done.(assigneeId := 9)]
    ensures service.notificationService.log
            == old(service.notificationService.log) + [Send(9, Assigned(done.title)), Send(7, Unassigned(done.title))]
  {
    var moved := done.(assigneeId := 9);
    OneTaskStore(done, moved);
    OneSubscriberFanOut(observer, AssignedEvent(moved, 7));
    var r := service.AssignTask(1, 9);
    assert r == Success(moved);
  }
}
