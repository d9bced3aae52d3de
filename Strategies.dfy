/** `NotificationType` and the factory that maps it to a delivery strategy. */
module Strategies {
  import opened Wrappers

  /** A C# enum is its underlying `int`: any value can be cast to it. */
  type NotificationType = int

  const Email: NotificationType := 0
  const Push: NotificationType := 1

  datatype Strategy = EmailNotificationStrategy | PushNotificationStrategy {
    /** The notification type this strategy delivers. */
    function Type(): NotificationType {
      match this
      case EmailNotificationStrategy => Email
      case PushNotificationStrategy => Push
    }
  }

  /** `NotificationStrategyFactory.CreateStrategy`: one strategy per declared type, an exception otherwise. */
  function CreateStrategy(t: NotificationType): (r: Result<Strategy, ArgumentException>)
    ensures r.Success? <==> t == Email || t == Push
    ensures r.Success? ==> r.value.Type() == t
    ensures r.Failure? ==> r.error == UnsupportedNotificationType
  {
    if t == Email then Success(EmailNotificationStrategy)
    else if t == Push then Success(PushNotificationStrategy)
    else Failure(UnsupportedNotificationType)
  }

  /** Selection inverts `Type`: every strategy is what the factory builds for its own type. */
  lemma CreateStrategyRoundTrip(s: Strategy)
    ensures CreateStrategy(s.Type()) == Success(s)
  {
  }
}
