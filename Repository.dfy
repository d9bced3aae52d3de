/**
 * `InMemoryTaskRepository`: a list of tasks and the counter that issues ids.
 * The list holds task values; the source's shared references are not modelled.
 */
module Repository {
  import opened Wrappers
  import opened TaskModel
  import Lists

  /** `FirstOrDefault(t => t.Id == id)`: the first task with that id, or null. */
  function FindById(tasks: seq<TaskItem>, id: int): (r: Option<TaskItem>)
    ensures r.Some? ==> r.value in tasks && r.value.id == id
    ensures r.None? <==> forall t :: t in tasks ==> t.id != id
  {
    Lists.FirstOrDefault(tasks, (t: TaskItem) => t.id == id)
  }

  /** `Where(t => t.AssigneeId == assigneeId)`. */
  function ByAssignee(tasks: seq<TaskItem>, assigneeId: int): (r: seq<TaskItem>)
    ensures forall t :: t in r <==> t in tasks && t.assigneeId == assigneeId
  {
    Lists.Filter(tasks, (t: TaskItem) => t.assigneeId == assigneeId)
  }

  /**
   * The list `UpdateAsync(task)` leaves behind: the stored record with the
   * same id is removed and `task` is appended, so it moves to the end; with
   * no such record the call throws and the list is untouched.
   */
  function UpdateById(tasks: seq<TaskItem>, task: TaskItem): (r: Result<seq<TaskItem>, ArgumentException>)
    ensures r.Failure? <==> forall t :: t in tasks ==> t.id != task.id
    ensures r.Failure? ==> r.error == TaskNotFound
    ensures r.Success? ==>
              var existing := FindById(tasks, task.id).value;
              && |r.value| == |tasks|
              && r.value[|tasks| - 1] == task
              && r.value[..|tasks| - 1] == Lists.Remove(tasks, existing)
              && multiset(r.value) == multiset(tasks) - multiset{existing} + multiset{task}
  {
    var existing := FindById(tasks, task.id);
    if existing.None? then Failure(TaskNotFound)
    else
      var r := Lists.Remove(tasks, existing.value) + [task];
      assert r[..|tasks| - 1] == Lists.Remove(tasks, existing.value);
      Success(r)
  }

  /**
   * Appending a task extends each assignee's listing at its end, and only
   * that of the task's own assignee: appending keeps each listing's order.
   */
  lemma ByAssigneeAfterAppend(tasks: seq<TaskItem>, t: TaskItem, assigneeId: int)
    ensures ByAssignee(tasks + [t], assigneeId)
            == ByAssignee(tasks, assigneeId) + (if t.assigneeId == assigneeId then [t] else [])
  {
    var p := (u: TaskItem) => u.assigneeId == assigneeId;
    Lists.FilterConcat(tasks, [t], p);
    assert Lists.Filter([t], p) == (if p(t) then [t] else []) + Lists.Filter([t][1..], p);
  }

  /** Ids are pairwise distinct and every one was issued before `nextId`. */
  predicate IdsIssued(tasks: seq<TaskItem>, nextId: int)
  {
    && 1 <= nextId
    && (forall i, j :: 0 <= i < j < |tasks| ==> tasks[i].id != tasks[j].id)
    && (forall i :: 0 <= i < |tasks| ==> 1 <= tasks[i].id < nextId)
  }

  /** With distinct ids, lookup by a task's id finds exactly that task. */
  lemma FindByIdExact(tasks: seq<TaskItem>, nextId: int, t: TaskItem)
    requires IdsIssued(tasks, nextId)
    ensures FindById(tasks, t.id) == Some(t) <==> t in tasks
  {
    if t in tasks {
      var u := FindById(tasks, t.id).value;
      var i :| 0 <= i < |tasks| && tasks[i] == t;
      var j :| 0 <= j < |tasks| && tasks[j] == u;
      assert i == j;
    }
  }

  /** Replacing a record by one with the same id keeps the ids distinct and issued. */
  lemma UpdateKeepsIdsIssued(tasks: seq<TaskItem>, nextId: int, task: TaskItem)
    requires IdsIssued(tasks, nextId)
    requires UpdateById(tasks, task).Success?
    ensures IdsIssued(UpdateById(tasks, task).value, nextId)
  {
    var existing := FindById(tasks, task.id).value;
    var i :| 0 <= i < |tasks| && tasks[i] == existing && existing !in tasks[..i]
             && Lists.Remove(tasks, existing) == tasks[..i] + tasks[i + 1..];
    var r := UpdateById(tasks, task).value;
    assert r == tasks[..i] + tasks[i + 1..] + [task];
    ReplaceKeepsIdsIssued(tasks, nextId, i, task);
  }

  /** Dropping the record at `i` and appending one with its id keeps the ids distinct and issued. */
  lemma ReplaceKeepsIdsIssued(tasks: seq<TaskItem>, nextId: int, i: int, task: TaskItem)
    requires IdsIssued(tasks, nextId)
    requires 0 <= i < |tasks| && task.id == tasks[i].id
    ensures IdsIssued(tasks[..i] + tasks[i + 1..] + [task], nextId)
  {
    var r := tasks[..i] + tasks[i + 1..] + [task];
    var n := |tasks|;
    assert forall k :: 0 <= k < i ==> r[k] == tasks[k];
    assert forall k :: i <= k < n - 1 ==> r[k] == tasks[k + 1];
    assert r[n - 1] == task;
    forall a, b | 0 <= a < b < n
      ensures r[a].id != r[b].id
    {
      var sa := if a < i then a else a + 1;
      assert r[a] == tasks[sa] && sa != i;
      if b < n - 1 {
        var sb := if b < i then b else b + 1;
        assert r[b] == tasks[sb] && sa < sb;
      }
    }
  }

  class InMemoryTaskRepository {
    var tasks: seq<TaskItem>
    var nextId: int

    ghost predicate Valid()
      reads this
    {
      IdsIssued(tasks, nextId)
    }

    constructor ()
      ensures Valid()
      ensures tasks == [] && nextId == 1
    {
      tasks := [];
      nextId := 1;
    }

    /** `AddAsync`: stamps the task with the next id, appends it, and advances the counter. */
    method Add(task: TaskItem) returns (created: TaskItem)
      requires Valid()
      modifies this
      ensures Valid()
      ensures created == task.(id := old(nextId))
      ensures tasks == old(tasks) + [created]
      ensures nextId == old(nextId) + 1
    {
      created := task.(id := nextId);
      nextId := nextId + 1;
      tasks := tasks + [created];
    }

    /** `GetByIdAsync`: the stored task with this id, or null. */
    method GetById(id: int) returns (r: Option<TaskItem>)
      ensures r.Some? <==> exists t :: t in tasks && t.id == id
      ensures r.Some? ==> r.value in tasks && r.value.id == id
      ensures r == FindById(tasks, id)
    {
      r := FindById(tasks, id);
    }

    /** `UpdateAsync`: replaces the record with `task`'s id and moves it last, or throws. */
    method Update(task: TaskItem) returns (r: Result<TaskItem, ArgumentException>)
      requires Valid()
      modifies this
      ensures Valid()
      ensures nextId == old(nextId)
      ensures UpdateById(old(tasks), task).Failure? ==> r == Failure(TaskNotFound) && tasks == old(tasks)
      ensures UpdateById(old(tasks), task).Success? ==> r == Success(task) && tasks == UpdateById(old(tasks), task).value
    {
      var updated := UpdateById(tasks, task);
      if updated.Failure? {
        r := Failure(TaskNotFound);
      } else {
        UpdateKeepsIdsIssued(tasks, nextId, task);
        tasks := updated.value;
        r := Success(task);
      }
    }

    /** `GetByAssigneeAsync`: the tasks assigned to `assigneeId`, in list order. */
    method GetByAssignee(assigneeId: int) returns (r: seq<TaskItem>)
      ensures forall t :: t in r <==> t in tasks && t.assigneeId == assigneeId
      ensures r == ByAssignee(tasks, assigneeId)
    {
      r := ByAssignee(tasks, assigneeId);
    }

    /** `GetAllAsync`: every stored task, in list order. */
    method GetAll() returns (r: seq<TaskItem>)
      ensures r == tasks
    {
      r := tasks;
    }
  }
}
