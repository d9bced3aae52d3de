# Task management core, modelled in Dafny

This project models the core of a small C# task-tracking application. Users
create tasks, change their status and reassign them. Other users are notified
of these changes through an observer. The model covers six parts:

- the task record and its defaults (`TaskModel`);
- the in-memory repository: a list of tasks and an id counter (`Repository`);
- the task service that loads, changes, stores and publishes (`Services`);
- the observer registry and its sequential fan-out (`Observable`);
- the notification observer's rules: who is told what, and in which order (`Observers`);
- the factory that maps a notification type to a delivery strategy (`Strategies`).

Every call to `NotifyUserAsync` becomes a `Send(userId, kind)` appended to
`NotificationService.log` (`Notifications`). So "who is notified, how often and
in what order" is stated as equalities over that log. `Lists` holds the .NET list
and LINQ operations the core uses: `FirstOrDefault`, `Remove` and `Where`.
`Scenario.CreateCompleteReassign` is a client run of the model. It creates a task for user 7
by user 3, completes it, and hands it to user 9. Its final assertion states that the
log then reads: 7 created, 3 status changed, 7 congratulated, 9 assigned, 7 unassigned.

On three points the code does something a reader might not expect; the model follows the code:

- `CompletedAt` is never cleared when a task leaves `Completed`.
  `Services.ReopenedTaskKeepsCompletedAt` shows this, and `Services.CompletedAtIsSticky`
  states the exact rule.
- `Subscribe` does not reject duplicates. An observer subscribed twice runs twice (`Observable.FanOutRepeats`).
- `UpdateAsync` does not replace a record in place. It removes the record and appends the new one, so an updated task moves to the end of the list.
  Listings therefore follow list order, which is creation order only until a task is updated.

## Model

| member | source | states |
|---|---|---|
| `TaskModel.NewTaskItem` | Models/Task.cs:12-23 | A fresh task has id 0, assignee 0, empty title and description, status `Pending`, no completion time and the creation time it was made at |
| `Lists.FirstIndex` | Repository/InMemoryTaskRepository.cs:19 | The index found is the first element matching the predicate; -1 exactly when nothing matches |
| `Lists.FirstOrDefault` | Repository/InMemoryTaskRepository.cs:19 | The result is a matching element of the list that no earlier element matches; null exactly when nothing matches |
| `Lists.RemoveAt` | Repository/InMemoryTaskRepository.cs:27 | Removing position i shortens the list by one, removes exactly that element from the multiset, and shifts the later elements down |
| `Lists.Remove` | Patterns-Observer/TaskObservable.cs:16 | `List.Remove` leaves a list without `x` unchanged; otherwise it removes exactly one `x`, the first occurrence, and keeps the rest in order |
| `Lists.Filter` | Repository/InMemoryTaskRepository.cs:36 | `Where` keeps exactly the elements satisfying the predicate, each as many times as it occurs |
| `Lists.FilterConcat` | Repository/InMemoryTaskRepository.cs:36 | `Where` distributes over concatenation, so it keeps the list's order |
| `Strategies.CreateStrategy` | Patterns-Notification/NotificationStrategyFactory.cs:11-19 | Succeeds exactly for the codes of `Email` (0) and `Push` (1) and returns the strategy serving that code; every other int throws the unsupported-type exception |
| `Strategies.CreateStrategyRoundTrip` | Patterns-Notification/NotificationStrategyFactory.cs:13-18 | Each strategy is what the factory returns for the type it serves |
| `Observers.NotificationObserver.OnTaskStatusChanged` | Patterns-Observer/NotificationObserver.cs:15-27 | The creator is told first, with old and new status, even when they are equal. A second send congratulates the assignee exactly when the new status is `Completed`. So there are 1 or 2 sends |
| `Observers.NotificationObserver.OnTaskAssigned` | Patterns-Observer/NotificationObserver.cs:29-44 | No send exactly when the assignee did not change. Otherwise the new assignee is told first, then the previous one exactly when their id is positive. At most 2 sends |
| `Observers.FirstAssignmentTellsOnlyAssignee` | Patterns-Observer/NotificationObserver.cs:36-42 | Assigning a task whose assignee is still the default 0 tells only the new assignee |
| `Observable.FanOutConcat` | Patterns-Observer/TaskObservable.cs:21-24 | Publishing to `a + b` sends what `a` sends and then what `b` sends: observers run in list order |
| `Observable.FanOutRepeats` | Patterns-Observer/TaskObservable.cs:9-12 | With n subscriptions, duplicates included, one observer's reaction is sent n times |
| `Observable.StatusChangeCount` | Patterns-Observer/TaskObservable.cs:19-25 | A status change sends one message per subscription, or two per subscription when the task is now `Completed`; none with no subscribers |
| `Observable.AssignmentCount` | Patterns-Observer/TaskObservable.cs:27-33 | An assignment sends at most two messages per subscription, and none when the assignee is unchanged |
| `Observable.TaskObservable.constructor` | Patterns-Observer/TaskObservable.cs:7 | The registry starts empty |
| `Observable.TaskObservable.Subscribe` | Patterns-Observer/TaskObservable.cs:9-12 | The observer is appended at the end, duplicates allowed |
| `Observable.TaskObservable.Unsubscribe` | Patterns-Observer/TaskObservable.cs:14-17 | The list becomes `List.Remove` of the old list: the first occurrence goes, or nothing changes |
| `Observable.TaskObservable.Publish` | Patterns-Observer/TaskObservable.cs:21-24 | The loop issues each entry's handler output in list order, one call per entry |
| `Observable.TaskObservable.NotifyStatusChanged` | Patterns-Observer/TaskObservable.cs:19-25 | Sends the fan-out of the same `(task, oldStatus)` to every subscription, in order; the list is not changed |
| `Observable.TaskObservable.NotifyTaskAssigned` | Patterns-Observer/TaskObservable.cs:27-33 | Sends the fan-out of the same `(task, previousAssigneeId)` to every subscription, in order; the list is not changed |
| `Repository.FindById` | Repository/InMemoryTaskRepository.cs:19 | The result is a stored task with that id; null exactly when no stored task has it |
| `Repository.ByAssignee` | Repository/InMemoryTaskRepository.cs:36 | The result holds exactly the stored tasks with that assignee |
| `Repository.UpdateById` | Repository/InMemoryTaskRepository.cs:22-32 | An unknown id throws. Otherwise the length stays the same, the new record is last, and the others are the old list with the replaced record removed, in their order |
| `Repository.ByAssigneeAfterAppend` | Repository/InMemoryTaskRepository.cs:34-37 | Adding a task extends only its own assignee's listing, at the end: appending keeps each listing's order |
| `Repository.FindByIdExact` | Repository/InMemoryTaskRepository.cs:17-20 | With distinct ids, lookup by a task's id returns that task exactly when it is stored |
| `Repository.UpdateKeepsIdsIssued` | Repository/InMemoryTaskRepository.cs:22-32 | An update keeps ids distinct and all below the counter |
| `Repository.ReplaceKeepsIdsIssued` | Repository/InMemoryTaskRepository.cs:27-28 | Removing a record and appending one with the same id keeps ids distinct and issued |
| `Repository.InMemoryTaskRepository.constructor` | Repository/InMemoryTaskRepository.cs:7-8 | The store starts empty with counter 1 |
| `Repository.InMemoryTaskRepository.Add` | Repository/InMemoryTaskRepository.cs:10-15 | Any supplied id is overwritten by the counter, the task is appended with the earlier entries unchanged, and the counter advances. Ids stay distinct and issued |
| `Repository.InMemoryTaskRepository.GetById` | Repository/InMemoryTaskRepository.cs:17-20 | Returns a stored task with that id, or null exactly when there is none; the store is not changed |
| `Repository.InMemoryTaskRepository.Update` | Repository/InMemoryTaskRepository.cs:22-32 | An unknown id throws and leaves the list as it was. Otherwise the list becomes `UpdateById`'s, ids stay distinct and the counter is unchanged |
| `Repository.InMemoryTaskRepository.GetByAssignee` | Repository/InMemoryTaskRepository.cs:34-37 | Returns exactly the stored tasks with that assignee, in list order |
| `Repository.InMemoryTaskRepository.GetAll` | Repository/InMemoryTaskRepository.cs:39-42 | Returns every stored task in current list order |
| `Notifications.NotificationService.NotifyUser` | Services/NotificationService.cs:5-9 | One notification to the user is appended to the log |
| `Notifications.NotificationService.NotifyUsers` | Services/NotificationService.cs:5-9 | A run of notifications is appended to the log in order |
| `Services.ApplyStatus` | Services/TaskService.cs:40-44 | The status becomes the requested one. Completion stamps `CompletedAt`; any other status keeps it. Nothing else changes |
| `Services.CompletedAtIsSticky` | Services/TaskService.cs:43-44 | After any run of status updates, a task has a completion time exactly when it had one before or some update was to `Completed` |
| `Services.ReopenedTaskKeepsCompletedAt` | Services/TaskService.cs:43-44 | A completed task moved back to `Pending` still has its completion time |
| `Services.TaskService.constructor` | Services/TaskService.cs:13-20 | The service holds the repository, notification service and observable it was given |
| `Services.TaskService.CreateTask` | Services/TaskService.cs:22-32 | The task is stored with the next id. Then exactly one notice goes to its assignee, directly and not through the observers |
| `Services.TaskService.UpdateTaskStatus` | Services/TaskService.cs:34-51 | An unknown id throws before anything is stored or sent. Otherwise the changed task is stored and published with its status from before the update |
| `Services.TaskService.GetUserTasks` | Services/TaskService.cs:53-56 | Returns exactly the repository's listing for that assignee |
| `Services.TaskService.AssignTask` | Services/TaskService.cs:58-72 | An unknown id throws before anything is stored or sent. Otherwise only the assignee changes; the task is stored and published with the previous assignee |
| `Services.TaskService.GetAllTasks` | Services/TaskService.cs:74-77 | Returns exactly the repository's list |

## Left out

- Program.cs (the console menu, input parsing, dependency wiring) is not part of this model. `Scenario.CreateCompleteReassign` shows the one wiring it does: one `NotificationObserver` subscribed.
- The e-mail and push strategies and `NotificationService` only print a line and wait 100 ms. A strategy is a tag. A notification is a `Send(userId, kind)` entry in a log. The message texts are a kind carrying the title and statuses they mention.
- `async`/`await`: every call is awaited in turn, so each operation is a plain sequential method.
- `DateTime.UtcNow` is a `now` parameter, and timestamps are opaque integers (`default(DateTime)` is 0).
- Tasks are held by value. In the source, `GetAllAsync` and `GetByAssigneeAsync` return live or deferred views of the list, and `TaskService` changes the object that `GetByIdAsync` returned before it stores it. Here listings are snapshots, and the service stores a changed copy. `List.Remove` in `UpdateAsync` compares by reference; here it compares by value. With distinct ids both remove the same record.
- Observers: only `NotificationObserver` implements `ITaskObserver`, so the model has no interface. Its handlers return the sends they make. The service appends the fan-out to the one log that every `NotifyUserAsync` call writes to. The exception .NET raises when the list changes during a `foreach` is re-entrancy, which a sequential model does not have.
- Repository.InMemoryTaskRepository.Add: ids are unbounded integers. The 32-bit wrap-around of `_nextId++` after 2^31 - 1 additions is not modelled, so the distinct-ids invariant is stated without it.
- The interface files only declare signatures. The method shapes above follow them.
