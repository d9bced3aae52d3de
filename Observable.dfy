/**
 * `TaskObservable`: the ordered observer list and its sequential fan-out.
 */
module Observable {
  import opened TaskModel
  import opened Notifications
  import opened Observers
  import Lists

  /**
   * What publishing `e` to `observers` sends: each entry's handler output,
   * entry by entry in list order, each entry (duplicates included) once.
   */
  function FanOut(observers: seq<NotificationObserver>, e: Event): seq<Send>
    decreases |observers|
  {
    if observers == [] then []
    else FanOut(observers[..|observers| - 1], e) + observers[|observers| - 1].Handle(e)
  }

  /** `s` written `n` times one after the other. */
  function Repeat<T>(s: seq<T>, n: nat): (r: seq<T>)
    decreases n
  {
    if n == 0 then [] else Repeat(s, n - 1) + s
  }

  lemma {:induction false} RepeatLength<T>(s: seq<T>, n: nat)
    ensures |Repeat(s, n)| == n * |s|
    decreases n
  {
    if n > 0 {
      RepeatLength(s, n - 1);
    }
  }

  /** Publishing to `a + b` sends what `a` sends, then what `b` sends. */
  lemma {:induction false} FanOutConcat(a: seq<NotificationObserver>, b: seq<NotificationObserver>, e: Event)
    ensures FanOut(a + b, e) == FanOut(a, e) + FanOut(b, e)
    decreases |b|
  {
    if b == [] {
      assert a + b == a;
    } else {
      var n := |b| - 1;
      assert (a + b)[..|a + b| - 1] == a + b[..n];
      assert (a + b)[|a + b| - 1] == b[n];
      FanOutConcat(a, b[..n], e);
      calc {
        FanOut(a + b, e);
        FanOut(a + b[..n], e) + b[n].Handle(e);
        FanOut(a, e) + FanOut(b[..n], e) + b[n].Handle(e);
        FanOut(a, e) + FanOut(b, e);
      }
    }
  }

  /**
   * All observers are notification observers and react alike, so `k`
   * subscriptions produce the reaction of one observer `k` times over.
   */
  lemma {:induction false} FanOutRepeats(observers: seq<NotificationObserver>, e: Event, o: NotificationObserver)
    ensures FanOut(observers, e) == Repeat(o.Handle(e), |observers|)
    decreases |observers|
  {
    if observers != [] {
      FanOutRepeats(observers[..|observers| - 1], e, o);
    }
  }

  /** A status change sends one message per subscription, two when the task is now `Completed`. */
  lemma {:induction false} StatusChangeCount(observers: seq<NotificationObserver>, task: TaskItem, oldStatus: TaskItemStatus)
    ensures |FanOut(observers, StatusChangedEvent(task, oldStatus))|
            == |observers| * (if task.status == Completed then 2 else 1)
  {
    if observers != [] {
      var o := observers[0];
      FanOutRepeats(observers, StatusChangedEvent(task, oldStatus), o);
      RepeatLength(o.Handle(StatusChangedEvent(task, oldStatus)), |observers|);
    }
  }

  /** An assignment sends at most two messages per subscription, and none when the assignee is unchanged. */
  lemma {:induction false} AssignmentCount(observers: seq<NotificationObserver>, task: TaskItem, previousAssigneeId: int)
    ensures |FanOut(observers, AssignedEvent(task, previousAssigneeId))| <= 2 * |observers|
    ensures previousAssigneeId == task.assigneeId ==> FanOut(observers, AssignedEvent(task, previousAssigneeId)) == []
  {
    if observers != [] {
      var o := observers[0];
      FanOutRepeats(observers, AssignedEvent(task, previousAssigneeId), o);
      RepeatLength(o.Handle(AssignedEvent(task, previousAssigneeId)), |observers|);
    }
  }

  class TaskObservable {
    var observers: seq<NotificationObserver>

    constructor ()
      ensures observers == []
    {
      observers := [];
    }

    /** Appends `o`; subscribing the same observer twice makes it run twice. */
    method Subscribe(o: NotificationObserver)
      modifies this
      ensures observers == old(observers) + [o]
    {
      observers := observers + [o];
    }

    /** Removes the first subscription of `o`, if there is one. */
    method Unsubscribe(o: NotificationObserver)
      modifies this
      ensures observers == Lists.Remove(old(observers), o)
    {
      observers := Lists.Remove(observers, o);
    }

    /** `NotifyStatusChanged`: runs every observer's status handler, in list order. */
    method NotifyStatusChanged(task: TaskItem, oldStatus: TaskItemStatus) returns (sent: seq<Send>)
      ensures sent == FanOut(observers, StatusChangedEvent(task, oldStatus))
    {
      sent := Publish(StatusChangedEvent(task, oldStatus));
    }

    /** `NotifyTaskAssigned`: runs every observer's assignment handler, in list order. */
    method NotifyTaskAssigned(task: TaskItem, previousAssigneeId: int) returns (sent: seq<Send>)
      ensures sent == FanOut(observers, AssignedEvent(task, previousAssigneeId))
    {
      sent := Publish(AssignedEvent(task, previousAssigneeId));
    }

    /** The `foreach` over the observers, each call awaited before the next. */
    method Publish(e: Event) returns (sent: seq<Send>)
      ensures sent == FanOut(observers, e)
    {
      sent := [];
      var i := 0;
      while i < |observers|
        invariant 0 <= i <= |observers|
        invariant sent == FanOut(observers[..i], e)
      {
        assert observers[..i + 1][..i] == observers[..i];
        sent := sent + observers[i].Handle(e);
        i := i + 1;
      }
      assert observers[..i] == observers;
    }
  }
}
