/** The real-time events the server triggers and the clients bind to,
    each with the payload it carries on the wire, and the trigger
    (channel plus event) that publishes one. */
module Events {
  import opened Wrappers

  /** `NotificationType`: `'info' | 'success' | 'warning' | 'error'`. */
  datatype Kind = Info | Success | Warning | Error
  {
    function Name(): string {
      match this
      case Info => "info"
      case Success => "success"
      case Warning => "warning"
      case Error => "error"
    }
  }

  /** The `action` of a notification: its button caption (`label`) and the URL it opens. */
  datatype Link = Link(caption: string, url: string)

  /** What happened to a todo.  The server sends only the first four;
      `OtherAction` is any other string a client may receive. */
  datatype TodoAction = Created | Updated | Completed | Deleted | OtherAction(name: string)
  {
    function Name(): string {
      match this
      case Created => "created"
      case Updated => "updated"
      case Completed => "completed"
      case Deleted => "deleted"
      case OtherAction(n) => n
    }
  }

  /** One event with its payload.  `kind` is optional because the clients
      substitute `'info'` for a missing type. */
  datatype Event =
    | Notification(kind: Option<Kind>, title: string, message: string, action: Option<Link>)
    | AdminNotification(kind: Option<Kind>, title: string, message: string, action: Option<Link>)
    | UserRegistered(userId: nat, userName: string, userEmail: string, timestamp: int)
    | UserApproved(userId: nat)
    | RecentTodo(todoId: nat, todoTitle: string, userId: nat, ownerName: Option<string>, todoAction: TodoAction, timestamp: int)
    | TodoCreated
    | TodoCompleted(todoId: nat, userId: nat, completed: bool)
    | TodoDeleted(wasCompleted: bool)
    | TaskDue(taskId: string, title: string, dueDate: string)
  {
    /** The event name the payload is published under. */
    function Name(): string {
      match this
      case Notification(_, _, _, _) => "notification"
      case AdminNotification(_, _, _, _) => "admin-notification"
      case UserRegistered(_, _, _, _) => "user-registered"
      case UserApproved(_) => "user-approved"
      case RecentTodo(_, _, _, _, _, _) => "recent-todo"
      case TodoCreated => "todo-created"
      case TodoCompleted(_, _, _) => "todo-completed"
      case TodoDeleted(_) => "todo-deleted"
      case TaskDue(_, _, _) => "task_due"
    }
  }

  /** `pusherServer.trigger(channel, name, payload)`. */
  datatype Trigger = Trigger(channel: string, event: Event)

  /** The events that reach a subscriber of `channel`, in publication order. */
  function Deliver(ts: seq<Trigger>, channel: string): (es: seq<Event>)
    ensures |es| <= |ts|
    ensures forall e :: e in es ==> exists t :: t in ts && t.channel == channel && t.event == e
  {
    if ts == [] then []
    else (if ts[0].channel == channel then [ts[0].event] else []) + Deliver(ts[1..], channel)
  }

  /** Publishing two batches delivers the first batch's events, then the
      second's. */
  lemma {:induction false} DeliverAppend(a: seq<Trigger>, b: seq<Trigger>, channel: string)
    ensures Deliver(a + b, channel) == Deliver(a, channel) + Deliver(b, channel)
  {
    if a != [] {
      assert (a + b)[1..] == a[1..] + b;
      DeliverAppend(a[1..], b, channel);
    } else {
      assert a + b == b;
    }
  }
}
