/** `POST /api/todos/toggle`: the caller sets the completion flag of one
    of its todos.  Completing a todo that was not completed tells the
    administrators (a task-complete notification and a recent-todo
    update) when the caller's user row exists; then `todo-completed` goes
    to every administrator's channel, directly through the real-time
    server and so whether or not the notification helpers are
    configured, to keep the statistics cards current. */
module ToggleRoute {
  import opened Wrappers
  import opened Schema
  import opened Events
  import opened Http
  import Seqs
  import Notify
  import Channels
  import Stats
  import Store

  /** The body `{ todoId, completed }`. */
  datatype ToggleFields = ToggleFields(todoId: Val, completed: Val)

  /** `user.name || user.email || 'A user'`. */
  function DisplayName(u: User): (r: string)
    ensures r != []
    ensures u.name.Some? && u.name.value != [] ==> r == u.name.value
    ensures (u.name.None? || u.name.value == []) && u.email != [] ==> r == u.email
  {
    if u.name.Some? && u.name.value != [] then u.name.value
    else if u.email != [] then u.email
    else "A user"
  }

  /** The caller's user row, looked up by id. */
  function Caller(db: Store.Db, uid: nat): (r: Option<User>)
    ensures r.Some? <==> Store.HasUser(db, uid)
    ensures r.Some? ==> r.value in db.users && r.value.id == uid
  {
    var found := Store.FindUser(db.users, uid);
    if found.None? then None else Some(db.users[found.value])
  }

  /** What each administrator hears when the caller `owner` completes `t`. */
  function CompletionEvents(owner: User, t: Todo, now: int): seq<Event> {
    [Notify.ToAdmins(Notify.TaskCompleteOptions(t.title, DisplayName(owner)))]
    + Notify.RecentTodoEvents(t.id, t.title, owner.id, owner.name, Completed, now)
  }

  /** `sendTaskCompleteNotification` followed by
      `sendRecentTodoNotification(…, 'completed')`, for a caller whose
      user row exists; none of it moves the statistics. */
  function CompletionNotices(db: Store.Db, t: Todo, uid: nat, configured: bool, now: int): (ts: seq<Trigger>)
    ensures forall x :: x in ts ==> Stats.Inert(x.event)
    ensures Caller(db, uid).None? ==> ts == []
  {
    var caller := Caller(db, uid);
    if caller.None? then []
    else
      var admins := Store.Admins(db);
      var a := Notify.SendNotification(configured, admins, Notify.TaskCompleteOptions(t.title, DisplayName(caller.value)));
      var b := Notify.SendRecentTodo(configured, admins, caller, t.id, t.title, uid, Completed, now);
      assert forall x :: x in b ==> x.event in Notify.RecentTodoEvents(t.id, t.title, uid, caller.value.name, Completed, now);
      a + b
  }

  /** The handler.  `always` says whether `todo-completed` is published
      for every successful toggle, as the route does, or only when the
      flag actually changes. */
  function Toggled(db: Store.Db, session: Session, body: ToggleFields, configured: bool, now: int, always: bool): (r: Reply)
    ensures r.db.users == db.users && |r.db.todos| == |db.todos|
    ensures session.None? ==> r.status == 401 && Unchanged(r, db)
    ensures session.Some? && !(body.todoId.Num? && body.completed.Bool?) ==> r.status == 400 && Unchanged(r, db)
    ensures session.Some? && body.todoId.Num? && body.completed.Bool? && Lookup(db, body.todoId, session.value.id).None? ==>
      r.status == 404 && Unchanged(r, db)
    ensures r.status == 200 <==>
      session.Some? && body.todoId.Num? && body.completed.Bool? && Lookup(db, body.todoId, session.value.id).Some?
  {
    if session.None? then Refuse(401, "Unauthorized", db)
    else if !(body.todoId.Num? && body.completed.Bool?) then Refuse(400, "Invalid request data", db)
    else
      var uid := session.value.id;
      var found := Lookup(db, body.todoId, uid);
      if found.None? then Refuse(404, "Todo not found or unauthorized", db)
      else
        var k := found.value;
        var before := db.todos[k];
        var c := body.completed.b;
        var after := before.(completed := c, updatedAt := now);
        var db2 := db.(todos := db.todos[k := after]);
        var notices := if c && !before.completed then CompletionNotices(db2, after, uid, configured, now) else [];
        var stats := if always || c != before.completed then Notify.FanOut(Store.Admins(db2), [TodoCompleted(before.id, uid, c)]) else [];
        Reply(200, OneTodo(after), db2, notices + stats)
  }

  /** The route as written. */
  function Toggle(db: Store.Db, session: Session, body: ToggleFields, configured: bool, now: int): Reply {
    Toggled(db, session, body, configured, now, true)
  }

  /** The route with `todo-completed` published only when the flag changes. */
  function ToggleCorrected(db: Store.Db, session: Session, body: ToggleFields, configured: bool, now: int): Reply {
    Toggled(db, session, body, configured, now, false)
  }

  /** The caller's todo the toggle acts on, before the change. */
  function Target(db: Store.Db, p: Principal, body: ToggleFields): Todo
    requires Lookup(db, body.todoId, p.id).Some?
  {
    db.todos[Lookup(db, body.todoId, p.id).value]
  }

  /** A successful toggle sets the requested flag on the caller's todo
      with that id and stamps it; every other todo is unchanged. */
  lemma ToggleChangesOnlyThatTodo(db: Store.Db, p: Principal, body: ToggleFields, configured: bool, now: int, always: bool)
    requires Store.Valid(db) && Toggled(db, Some(p), body, configured, now, always).status == 200
    ensures var r := Toggled(db, Some(p), body, configured, now, always);
      forall i :: 0 <= i < |db.todos| ==>
        if db.todos[i].id == body.todoId.n then
          db.todos[i].userId == p.id && r.db.todos[i] == db.todos[i].(completed := body.completed.b, updatedAt := now)
        else r.db.todos[i] == db.todos[i]
  {
    LookupUnique(db, body.todoId, p.id);
  }

  lemma ToggleKeepsValid(db: Store.Db, session: Session, body: ToggleFields, configured: bool, now: int, always: bool)
    requires Store.Valid(db)
    ensures Store.Valid(Toggled(db, session, body, configured, now, always).db)
  {
    var r := Toggled(db, session, body, configured, now, always);
    if r.status == 200 {
      assert Store.SameKeys(r.db.todos, db.todos);
      Store.SameKeysKeepValid(db, r.db.todos);
    }
  }

  /** Who hears the completion notices: with notifications configured,
      each administrator gets the task-complete notification and the
      recent-todo pair once; nobody else hears anything. */
  lemma CompletionDelivery(db: Store.Db, t: Todo, uid: nat, configured: bool, now: int, listener: nat)
    requires Store.Valid(db) && Caller(db, uid).Some?
    ensures Deliver(CompletionNotices(db, t, uid, configured, now), Channels.UserChannel(listener))
         == if configured && listener in Store.Admins(db) then CompletionEvents(Caller(db, uid).value, t, now) else []
  {
    if configured {
      var caller := Caller(db, uid);
      var admins := Store.Admins(db);
      var o := Notify.TaskCompleteOptions(t.title, DisplayName(caller.value));
      var a := Notify.SendNotification(configured, admins, o);
      var b := Notify.SendRecentTodo(configured, admins, caller, t.id, t.title, uid, Completed, now);
      Store.AdminsExact(db);
      Events.DeliverAppend(a, b, Channels.UserChannel(listener));
      Notify.SendNotificationDelivery(admins, o, listener);
      Notify.RecentTodoDelivery(admins, caller.value, t.id, t.title, uid, Completed, now, listener);
    }
  }

  /** Who hears what from a successful toggle as written: nobody but the
      administrators, each of whom gets — only when a todo that was not
      completed is completed and notifications are configured — the
      task-complete notification and the recent-todo pair, and then,
      always, `todo-completed` with the requested flag. */
  lemma ToggleDelivery(db: Store.Db, p: Principal, body: ToggleFields, configured: bool, now: int, listener: nat)
    requires Store.Valid(db) && Toggle(db, Some(p), body, configured, now).status == 200
    ensures Caller(db, p.id).Some?
    ensures var r := Toggle(db, Some(p), body, configured, now);
      var t := Target(db, p, body);
      var c := body.completed.b;
      Deliver(r.triggers, Channels.UserChannel(listener)) ==
        if listener !in Store.Admins(db) then []
        else (if configured && c && !t.completed then CompletionEvents(Caller(db, p.id).value, t.(completed := c, updatedAt := now), now) else [])
             + [TodoCompleted(t.id, p.id, c)]
  {
    var r := Toggle(db, Some(p), body, configured, now);
    var t := Target(db, p, body);
    var c := body.completed.b;
    var after := t.(completed := c, updatedAt := now);
    var channel := Channels.UserChannel(listener);
    assert Store.HasUser(db, t.userId);
    var admins := Store.Admins(db);
    Store.AdminsExact(db);
    assert Store.Admins(r.db) == admins;
    var notices := if c && !t.completed then CompletionNotices(r.db, after, p.id, configured, now) else [];
    var stats := Notify.FanOut(admins, [TodoCompleted(t.id, p.id, c)]);
    assert r.triggers == notices + stats;
    Events.DeliverAppend(notices, stats, channel);
    Notify.DeliverFanOut(admins, [TodoCompleted(t.id, p.id, c)], listener);
    if c && !t.completed {
      ToggleKeepsValid(db, Some(p), body, configured, now, true);
      assert Caller(r.db, p.id) == Caller(db, p.id);
      CompletionDelivery(r.db, after, p.id, configured, now, listener);
    }
  }

  lemma ApplyOne(s: Stats.Stats, e: Event)
    ensures Stats.ApplyAll(s, [e]) == Stats.Apply(s, e)
  {
    assert [e][1..] == [];
  }

  /** The statistics an administrator's cards show after a toggle's
      events arrive: the notices change nothing, so only the
      `todo-completed` events (if any) count. */
  lemma StatsAfterToggle(db: Store.Db, p: Principal, body: ToggleFields, configured: bool, now: int, always: bool, admin: nat)
    requires Store.Valid(db) && Toggled(db, Some(p), body, configured, now, always).status == 200
    requires admin in Store.Admins(db)
    ensures var r := Toggled(db, Some(p), body, configured, now, always);
      var t := Target(db, p, body);
      var e := TodoCompleted(t.id, p.id, body.completed.b);
      Stats.ApplyAll(Store.Seed(db), Deliver(r.triggers, Channels.UserChannel(admin)))
        == if always || body.completed.b != t.completed then Stats.Apply(Store.Seed(db), e) else Store.Seed(db)
  {
    var r := Toggled(db, Some(p), body, configured, now, always);
    var t := Target(db, p, body);
    var c := body.completed.b;
    var e := TodoCompleted(t.id, p.id, c);
    var channel := Channels.UserChannel(admin);
    var after := t.(completed := c, updatedAt := now);
    var admins := Store.Admins(db);
    Store.AdminsExact(db);
    assert Store.Admins(r.db) == admins;
    var notices := if c && !t.completed then CompletionNotices(r.db, after, p.id, configured, now) else [];
    var stats := if always || c != t.completed then Notify.FanOut(admins, [e]) else [];
    assert r.triggers == notices + stats;
    Events.DeliverAppend(notices, stats, channel);
    var heard := Deliver(notices, channel);
    assert forall i :: 0 <= i < |heard| ==> Stats.Inert(heard[i]) by {
      forall i | 0 <= i < |heard| ensures Stats.Inert(heard[i]) {
        assert heard[i] in heard;
      }
    }
    Stats.ApplyAllInert(Store.Seed(db), heard);
    Stats.ApplyAllAppend(Store.Seed(db), heard, Deliver(stats, channel));
    if always || c != t.completed {
      Notify.DeliverFanOut(admins, [e], admin);
      ApplyOne(Store.Seed(db), e);
    }
  }

  /** How a toggle moves the database's counts: completing a todo that
      was not completed adds one completed todo, the reverse removes one,
      and a toggle that keeps the flag changes nothing. */
  lemma ToggleCounts(db: Store.Db, p: Principal, body: ToggleFields, configured: bool, now: int, always: bool)
    requires Store.Valid(db) && Toggled(db, Some(p), body, configured, now, always).status == 200
    ensures var r := Toggled(db, Some(p), body, configured, now, always);
      var t := Target(db, p, body);
      var c := body.completed.b;
      if c == t.completed then Store.CountsOf(r.db) == Store.CountsOf(db)
      else Stats.Mirrors(Store.CountsOf(db), TodoCompleted(t.id, p.id, c), Store.CountsOf(r.db))
  {
    var r := Toggled(db, Some(p), body, configured, now, always);
    var k := Lookup(db, body.todoId, p.id).value;
    Seqs.CountChangeAt(db.todos, r.db.todos, k, Store.IsDone);
  }

  /** With `todo-completed` published only on a change, every
      administrator's cards stay equal to the figures re-read from the
      database after any successful toggle. */
  lemma ToggleCorrectedKeepsAdminStats(db: Store.Db, p: Principal, body: ToggleFields, configured: bool, now: int, admin: nat)
    requires Store.Valid(db) && ToggleCorrected(db, Some(p), body, configured, now).status == 200
    requires admin in Store.Admins(db)
    ensures var r := ToggleCorrected(db, Some(p), body, configured, now);
      Stats.ApplyAll(Store.Seed(db), Deliver(r.triggers, Channels.UserChannel(admin))) == Store.Seed(r.db)
  {
    var r := ToggleCorrected(db, Some(p), body, configured, now);
    var t := Target(db, p, body);
    var c := body.completed.b;
    StatsAfterToggle(db, p, body, configured, now, false, admin);
    ToggleCounts(db, p, body, configured, now, false);
    if c != t.completed {
      Stats.ApplyTracksDatabase(Store.CountsOf(db), TodoCompleted(t.id, p.id, c), Store.CountsOf(r.db));
    }
  }

  /** As written, a toggle that keeps the flag still sends
      `todo-completed`: the database's counts stay put while every
      administrator's cards count one more completed todo (or one fewer,
      when the flag stays off and some todo is completed). */
  lemma ToggleAsWrittenMiscountsUnchangedFlag(db: Store.Db, p: Principal, body: ToggleFields, configured: bool, now: int, admin: nat)
    requires Store.Valid(db) && Toggle(db, Some(p), body, configured, now).status == 200
    requires admin in Store.Admins(db)
    requires body.completed.b == Target(db, p, body).completed
    ensures var r := Toggle(db, Some(p), body, configured, now);
      var shown := Stats.ApplyAll(Store.Seed(db), Deliver(r.triggers, Channels.UserChannel(admin)));
      && Store.Seed(r.db) == Store.Seed(db)
      && (body.completed.b ==> shown.completedTodos == Store.Seed(r.db).completedTodos + 1)
      && (!body.completed.b && Store.Seed(db).completedTodos > 0 ==> shown.completedTodos == Store.Seed(r.db).completedTodos - 1)
  {
    StatsAfterToggle(db, p, body, configured, now, true, admin);
    ToggleCounts(db, p, body, configured, now, true);
  }

  /** A reachable instance: an administrator re-completes a completed todo. */
  function Ann(): User {
    User(1, Some("Ann"), "ann@example.com", "hash", AdminRole, true, 0)
  }

  function AnnDb(): Store.Db {
    Store.Db([Ann()], [Todo(7, "Write report", None, true, 1, None, None, 0, 0)], 2, 8)
  }

  function AnnSession(): Principal {
    Principal(1, "ann@example.com", Some("Ann"), AdminRole, true)
  }

  lemma AnnIsAdmin()
    ensures Store.Valid(AnnDb()) && 1 in Store.Admins(AnnDb())
  {
    var db := AnnDb();
    assert Store.HasUser(db, 1) by {
      assert UserId(db.users[0]) == 1;
    }
    assert Store.IsAdminRow(Ann());
    Store.AdminsExact(db);
    assert Ann() in db.users;
  }

  lemma RepeatedCompletionMiscounts()
    ensures var r := Toggle(AnnDb(), Some(AnnSession()), ToggleFields(Num(7), Bool(true)), false, 5);
      && r.status == 200
      && Stats.ApplyAll(Store.Seed(AnnDb()), Deliver(r.triggers, Channels.UserChannel(1))).completedTodos
         == Store.Seed(r.db).completedTodos + 1
  {
    var body := ToggleFields(Num(7), Bool(true));
    AnnIsAdmin();
    assert Lookup(AnnDb(), body.todoId, 1) == Some(0);
    assert Target(AnnDb(), AnnSession(), body).completed;
    ToggleAsWrittenMiscountsUnchangedFlag(AnnDb(), AnnSession(), body, false, 5, 1);
  }
}
