/**
 * What a notification is, and the log that every `NotifyUserAsync` call
 * appends to. Message texts are kept as a kind tag carrying the values
 * interpolated into them.
 */
module Notifications {
  import opened TaskModel

  datatype Kind =
    | Created(title: string)                                              // "Nova tarefa atribuída"
    | StatusChanged(title: string, from: TaskItemStatus, to: TaskItemStatus) // "Status da tarefa ... alterado"
    | Congrats(title: string)                                             // "Parabéns! Você completou"
    | Assigned(title: string)                                             // "Você foi designado"
    | Unassigned(title: string)                                           // "Você não é mais responsável"

  /** One call `NotifyUserAsync(userId, message)`. */
  datatype Send = Send(userId: int, kind: Kind)

  /** `INotificationService`: each notification sent is appended to `log`, in call order. */
  class NotificationService {
    var log: seq<Send>

    constructor ()
      ensures log == []
    {
      log := [];
    }

    method NotifyUser(userId: int, kind: Kind)
      modifies this
      ensures log == old(log) + [Send(userId, kind)]
    {
      log := log + [Send(userId, kind)];
    }

    /** A run of sends issued one after the other, awaited in order. */
    method NotifyUsers(sends: seq<Send>)
      modifies this
      ensures log == old(log) + sends
    {
      log := log + sends;
    }
  }
}
