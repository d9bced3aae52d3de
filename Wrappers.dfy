/** Option and Result, the model's stand-ins for C#'s null and thrown exceptions. */
module Wrappers {

  /** A value that may be absent: `null` in the source. */
  datatype Option<+T> = None | Some(value: T)

  /** The outcome of a call that can throw: the returned value, or the exception raised. */
  datatype Result<+T, +E> = Success(value: T) | Failure(error: E)

  /** The two `ArgumentException`s the core throws, told apart by their message. */
  datatype ArgumentException =
    | TaskNotFound                  // "Tarefa não encontrada"
    | UnsupportedNotificationType   // "Tipo de notificação não suportado"
}
