/** The server's notification helpers: which events they publish on
    which channels.  When the real-time service is not configured every
    helper publishes nothing.  Administrators are reached through their
    own user channels, one after another in the order the database lists
    them; the admin channel is never used. */
module Notify {
  import opened Wrappers
  import opened Text
  import opened Schema
  import opened Events
  import opened Channels
  import Seqs

  /** `NotificationOptions`. */
  datatype Options = Options(
    userId: Option<nat>,
    kind: Option<Kind>,
    title: string,
    message: string,
    action: Option<Link>)

  /** `if (userId)`: the number 0 is falsy like a missing id. */
  predicate Targeted(o: Options) {
    o.userId.Some? && o.userId.value != 0
  }

  /** Publishes `es` on one channel, in order. */
  function Publish(channel: string, es: seq<Event>): (ts: seq<Trigger>)
    ensures |ts| == |es|
    ensures forall i :: 0 <= i < |es| ==> ts[i] == Trigger(channel, es[i])
  {
    seq(|es|, i requires 0 <= i < |es| => Trigger(channel, es[i]))
  }

  /** Publishes `es` on the user channel of each administrator in turn. */
  function FanOut(adminIds: seq<nat>, es: seq<Event>): (ts: seq<Trigger>)
    ensures |ts| == |adminIds| * |es|
    ensures forall t :: t in ts ==> t.event in es && exists a :: a in adminIds && t.channel == UserChannel(a)
  {
    if adminIds == [] then []
    else
      var rest := FanOut(adminIds[1..], es);
      var ts := Publish(UserChannel(adminIds[0]), es) + rest;
      assert forall t :: t in rest ==> exists a :: a in adminIds && t.channel == UserChannel(a) by {
        forall t | t in rest ensures exists a :: a in adminIds && t.channel == UserChannel(a) {
          var a :| a in adminIds[1..] && t.channel == UserChannel(a);
          assert a in adminIds;
        }
      }
      MulSucc(|adminIds| - 1, |es|);
      ts
  }

  lemma MulSucc(k: nat, m: nat)
    ensures (k + 1) * m == k * m + m
  {
  }

  lemma {:induction false} DeliverPublish(channel: string, es: seq<Event>, listener: string)
    ensures Deliver(Publish(channel, es), listener) == (if channel == listener then es else [])
  {
    var ts := Publish(channel, es);
    if es != [] {
      assert ts[1..] == Publish(channel, es[1..]);
      DeliverPublish(channel, es[1..], listener);
      assert [es[0]] + es[1..] == es;
    }
  }

  /** Each administrator's channel receives the batch exactly once, and
      every other user's channel receives nothing. */
  lemma {:induction false} DeliverFanOut(adminIds: seq<nat>, es: seq<Event>, userId: nat)
    requires Seqs.Distinct(adminIds)
    ensures Deliver(FanOut(adminIds, es), UserChannel(userId)) == (if userId in adminIds then es else [])
  {
    if adminIds != [] {
      var head := Publish(UserChannel(adminIds[0]), es);
      var rest := FanOut(adminIds[1..], es);
      DeliverAppend(head, rest, UserChannel(userId));
      DeliverPublish(UserChannel(adminIds[0]), es, UserChannel(userId));
      UserChannelInjective(adminIds[0], userId);
      Seqs.DistinctTail(adminIds);
      DeliverFanOut(adminIds[1..], es, userId);
    }
  }

  /** A fan-out never publishes on the admin channel. */
  lemma {:induction false} FanOutSkipsAdminChannel(adminIds: seq<nat>, es: seq<Event>)
    ensures Deliver(FanOut(adminIds, es), AdminChannel) == []
  {
    if adminIds != [] {
      DeliverAppend(Publish(UserChannel(adminIds[0]), es), FanOut(adminIds[1..], es), AdminChannel);
      AdminChannelIsNoUserChannel(adminIds[0]);
      DeliverPublish(UserChannel(adminIds[0]), es, AdminChannel);
      FanOutSkipsAdminChannel(adminIds[1..], es);
    }
  }

  /** The payload `sendNotification` sends to a targeted user. */
  function Direct(o: Options): Event {
    Notification(Some(o.kind.GetOr(Info)), o.title, o.message, o.action)
  }

  /** The payload `sendNotification` sends to each administrator. */
  function ToAdmins(o: Options): Event {
    Notification(Some(o.kind.GetOr(Info)), "[Admin] " + o.title, o.message, o.action)
  }

  /** `sendNotification(options)`. */
  function SendNotification(configured: bool, adminIds: seq<nat>, o: Options): (ts: seq<Trigger>)
    ensures !configured ==> ts == []
    ensures configured && Targeted(o) ==> |ts| == 1
    ensures configured && !Targeted(o) ==> |ts| == |adminIds|
    ensures forall t :: t in ts ==> t.event.Notification? && t.event.kind.Some?
  {
    if !configured then []
    else if Targeted(o) then Publish(UserChannel(o.userId.value), [Direct(o)])
    else FanOut(adminIds, [ToAdmins(o)])
  }

  /** Who receives what from `sendNotification`: the targeted user alone
      gets the notification as given; without a target each administrator
      gets it once, its title prefixed with `[Admin] `. */
  lemma SendNotificationDelivery(adminIds: seq<nat>, o: Options, userId: nat)
    requires Seqs.Distinct(adminIds)
    ensures Deliver(SendNotification(true, adminIds, o), UserChannel(userId))
         == if Targeted(o) then (if userId == o.userId.value then [Direct(o)] else [])
            else (if userId in adminIds then [ToAdmins(o)] else [])
  {
    if Targeted(o) {
      DeliverPublish(UserChannel(o.userId.value), [Direct(o)], UserChannel(userId));
      UserChannelInjective(o.userId.value, userId);
    } else {
      DeliverFanOut(adminIds, [ToAdmins(o)], userId);
    }
  }

  /** `Math.ceil(a / b)` for a positive divisor. */
  function CeilDiv(a: int, b: int): (q: int)
    requires b > 0
    ensures b * q - b < a <= b * q
  {
    -((-a) / b)
  }

  const MillisecondsPerHour: int := 1000 * 60 * 60

  /** `sendTaskDueNotification(userId, taskTitle, dueDate)` at time `now`
      (both instants in milliseconds). */
  function TaskDueOptions(userId: nat, taskTitle: string, dueDate: int, now: int): (o: Options)
    ensures o.userId == Some(userId) && o.kind == Some(Warning)
  {
    var hours := CeilDiv(dueDate - now, MillisecondsPerHour);
    Options(Some(userId), Some(Warning), "Task Due Soon",
      "\"" + taskTitle + "\" is due in " + IntToString(hours) + " hours.",
      Some(Link("View Task", "/dashboard")))
  }

  /** `sendTaskCompleteNotification(taskTitle, userName)`: addressed to no
      user, so it goes to every administrator. */
  function TaskCompleteOptions(taskTitle: string, userName: string): (o: Options)
    ensures !Targeted(o) && o.kind == Some(Success)
  {
    Options(None, Some(Success), "Task Completed",
      "\"" + taskTitle + "\" has been marked as completed by " + userName + ".",
      Some(Link("View Task", "/admin")))
  }

  /** The two events `sendNewUserNotification` sends each administrator. */
  function NewUserEvents(userName: string, userEmail: string, userId: nat, now: int): seq<Event> {
    [ Notification(Some(Info), "New User Registration",
        userName + " (" + userEmail + ") has registered and is pending approval.",
        Some(Link("Review User", "/admin"))),
      UserRegistered(userId, userName, userEmail, now) ]
  }

  /** `sendNewUserNotification(userName, userEmail, userId)` at time `now`. */
  function SendNewUser(configured: bool, adminIds: seq<nat>, userName: string, userEmail: string, userId: nat, now: int): (ts: seq<Trigger>)
    ensures |ts| == if configured then 2 * |adminIds| else 0
  {
    if !configured then [] else FanOut(adminIds, NewUserEvents(userName, userEmail, userId, now))
  }

  /** Each administrator hears of a registration once, as a notification
      followed by the `user-registered` update; nobody else hears of it. */
  lemma NewUserDelivery(adminIds: seq<nat>, userName: string, userEmail: string, userId: nat, now: int, listener: nat)
    requires Seqs.Distinct(adminIds)
    ensures Deliver(SendNewUser(true, adminIds, userName, userEmail, userId, now), UserChannel(listener))
         == if listener in adminIds then NewUserEvents(userName, userEmail, userId, now) else []
  {
    DeliverFanOut(adminIds, NewUserEvents(userName, userEmail, userId, now), listener);
  }

  /** `${userName}` of a nullable name: `null` renders as the word. */
  function NameOrNull(name: Option<string>): string {
    name.GetOr("null")
  }

  /** Title, message and type of the notification about a todo action;
      the empty title and message and `'info'` are the values the helper
      starts from before its `switch`. */
  function RecentTodoText(action: TodoAction, userName: string, todoTitle: string): (r: (string, string, Kind))
    ensures r.2 == (if action == Completed then Success else if action == Deleted then Warning else Info)
    ensures action.OtherAction? <==> r.0 == []
    ensures !action.OtherAction? ==> |r.1| >= |userName| + |todoTitle| + 2
    ensures !action.OtherAction? ==> userName <= r.1 && r.1[|r.1| - |todoTitle| - 2..] == "\"" + todoTitle + "\""
  {
    var quoted := "\"" + todoTitle + "\"";
    match action
    case Created => ("New Todo Created", userName + " created a new todo: " + quoted, Info)
    case Updated => ("Todo Updated", userName + " updated todo: " + quoted, Info)
    case Completed => ("Todo Completed", userName + " completed todo: " + quoted, Success)
    case Deleted => ("Todo Deleted", userName + " deleted todo: " + quoted, Warning)
    case OtherAction(_) => ("", "", Info)
  }

  /** The two events `sendRecentTodoNotification` sends each administrator. */
  function RecentTodoEvents(todoId: nat, todoTitle: string, todoUserId: nat, ownerName: Option<string>, action: TodoAction, now: int): seq<Event> {
    var text := RecentTodoText(action, NameOrNull(ownerName), todoTitle);
    [ Notification(Some(text.2), text.0, text.1, Some(Link("View Todos", "/admin"))),
      RecentTodo(todoId, todoTitle, todoUserId, ownerName, action, now) ]
  }

  /** `sendRecentTodoNotification(todoId, todoTitle, todoUserId, action)`
      at time `now`; `owner` is the result of looking up the todo's user. */
  function SendRecentTodo(configured: bool, adminIds: seq<nat>, owner: Option<User>, todoId: nat, todoTitle: string, todoUserId: nat, action: TodoAction, now: int): (ts: seq<Trigger>)
    ensures owner.None? ==> ts == []
    ensures |ts| == if configured && owner.Some? then 2 * |adminIds| else 0
  {
    if !configured then []
    else if owner.None? then []
    else FanOut(adminIds, RecentTodoEvents(todoId, todoTitle, todoUserId, owner.value.name, action, now))
  }

  /** Each administrator hears of a todo action once, as a notification
      followed by the `recent-todo` update, provided the owner exists. */
  lemma RecentTodoDelivery(adminIds: seq<nat>, owner: User, todoId: nat, todoTitle: string, todoUserId: nat, action: TodoAction, now: int, listener: nat)
    requires Seqs.Distinct(adminIds)
    ensures Deliver(SendRecentTodo(true, adminIds, Some(owner), todoId, todoTitle, todoUserId, action, now), UserChannel(listener))
         == if listener in adminIds then RecentTodoEvents(todoId, todoTitle, todoUserId, owner.name, action, now) else []
  {
    DeliverFanOut(adminIds, RecentTodoEvents(todoId, todoTitle, todoUserId, owner.name, action, now), listener);
  }
}
