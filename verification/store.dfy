/** The database as the route handlers see it: the `users` and `todos`
    tables as lists in the order the database returns them (creation
    order), each table's `serial` counter, and the constraints the schema
    declares — primary keys, the unique `users.email` and the reference
    from `todos.userId` to `users.id` (without cascading deletes).  The
    admin page's statistics seed and pending list are read from it. */
module Store {
  import opened Wrappers
  import opened Schema
  import Seqs
  import Stats
  import Notify
  import Pending

  datatype Db = Db(users: seq<User>, todos: seq<Todo>, nextUserId: nat, nextTodoId: nat)

  predicate HasUser(db: Db, id: nat) {
    Seqs.HasKey(db.users, UserId, id)
  }

  predicate EmailTaken(db: Db, email: string) {
    Seqs.HasKey(db.users, UserEmail, email)
  }

  /** The schema's constraints: ids and emails unique, the serial
      counters past every id handed out, and every todo owned by an
      existing user. */
  predicate Valid(db: Db) {
    && Seqs.UniqueBy(db.users, UserId)
    && Seqs.UniqueBy(db.users, UserEmail)
    && Seqs.UniqueBy(db.todos, TodoId)
    && (forall i :: 0 <= i < |db.users| ==> db.users[i].id < db.nextUserId)
    && (forall i :: 0 <= i < |db.todos| ==> db.todos[i].id < db.nextTodoId)
    && (forall i :: 0 <= i < |db.todos| ==> HasUser(db, db.todos[i].userId))
  }

  // ---------------------------------------------------------------- reads

  /** Position of the first todo with id `id` owned by `owner`
      (`where id = … and userId = … limit 1`). */
  function FindTodo(ts: seq<Todo>, id: int, owner: nat): (r: Option<nat>)
    ensures r.Some? ==> r.value < |ts| && ts[r.value].id == id && ts[r.value].userId == owner
    ensures r.None? <==> forall i :: 0 <= i < |ts| ==> !(ts[i].id == id && ts[i].userId == owner)
  {
    if ts == [] then None
    else if ts[0].id == id && ts[0].userId == owner then Some(0)
    else
      var rest := FindTodo(ts[1..], id, owner);
      assert forall i :: 1 <= i < |ts| ==> ts[i] == ts[1..][i - 1];
      if rest.Some? then Some(rest.value + 1) else None
  }

  /** Position of the user with id `id` (`where id = … limit 1`). */
  function FindUser(us: seq<User>, id: nat): (r: Option<nat>)
    ensures r.Some? ==> r.value < |us| && us[r.value].id == id
    ensures r.None? <==> !Seqs.HasKey(us, UserId, id)
  {
    if us == [] then None
    else if us[0].id == id then Some(0)
    else
      var rest := FindUser(us[1..], id);
      assert forall i :: 1 <= i < |us| ==> us[i] == us[1..][i - 1];
      if rest.Some? then Some(rest.value + 1) else None
  }

  function IsAdminRow(u: User): bool {
    u.role == AdminRole
  }

  function Ids(us: seq<User>): (r: seq<nat>)
    ensures |r| == |us| && forall i :: 0 <= i < |us| ==> r[i] == us[i].id
  {
    seq(|us|, i requires 0 <= i < |us| => us[i].id)
  }

  /** `select … from users where role = 'admin'`: the administrators'
      ids in table order, the list every fan-out walks. */
  function Admins(db: Db): seq<nat> {
    Ids(Seqs.Filter(db.users, IsAdminRow))
  }

  /** The fan-out list holds exactly the administrators, each once. */
  lemma AdminsExact(db: Db)
    requires Valid(db)
    ensures forall a :: a in Admins(db) <==> exists u :: u in db.users && u.id == a && u.role == AdminRole
    ensures Seqs.Distinct(Admins(db))
  {
    var f := Seqs.Filter(db.users, IsAdminRow);
    AdminIdsExact(db.users, f);
    assert Seqs.UniqueBy(db.users, UserId);
    Seqs.FilterKeepsUnique(db.users, IsAdminRow, UserId);
    forall i, j | 0 <= i < j < |Admins(db)| ensures Admins(db)[i] != Admins(db)[j] {
      assert UserId(f[i]) != UserId(f[j]);
    }
  }

  lemma AdminIdsExact(us: seq<User>, f: seq<User>)
    requires f == Seqs.Filter(us, IsAdminRow)
    ensures forall a :: a in Ids(f) <==> exists u :: u in us && u.id == a && u.role == AdminRole
  {
    forall a ensures a in Ids(f) <==> exists u :: u in us && u.id == a && u.role == AdminRole {
      if a in Ids(f) {
        var i :| 0 <= i < |f| && Ids(f)[i] == a;
        assert f[i] in f;
      }
      if exists u :: u in us && u.id == a && u.role == AdminRole {
        var u :| u in us && u.id == a && u.role == AdminRole;
        assert u in f;
        var i :| 0 <= i < |f| && f[i] == u;
        assert Ids(f)[i] == a;
      }
    }
  }

  // ---------------------------------------------------------------- writes

  /** `insert into users … returning`: the row takes the next serial id;
      the unique constraint on `email` refuses a second row with the same
      email, after the serial counter has already moved on. */
  function InsertUser(db: Db, name: Option<string>, email: string, password: string, role: Role, approved: bool, now: int): (r: (Db, Option<User>))
    ensures r.0.nextUserId == db.nextUserId + 1 && r.0.todos == db.todos && r.0.nextTodoId == db.nextTodoId
    ensures r.1.None? <==> EmailTaken(db, email)
    ensures r.1.None? ==> r.0.users == db.users
    ensures r.1.Some? ==> r.0.users == db.users + [r.1.value] && r.1.value.id == db.nextUserId
    ensures r.1.Some? ==> r.1.value.email == email && r.1.value.name == name && r.1.value.createdAt == now
    ensures r.1.Some? ==> r.1.value.role == role && r.1.value.approved == approved
  {
    var db2 := db.(nextUserId := db.nextUserId + 1);
    if EmailTaken(db, email) then (db2, None)
    else
      var u := User(db.nextUserId, name, email, password, role, approved, now);
      (db2.(users := db.users + [u]), Some(u))
  }

  /** A successful or refused insert keeps the constraints. */
  lemma InsertUserKeepsValid(db: Db, name: Option<string>, email: string, password: string, role: Role, approved: bool, now: int)
    requires Valid(db)
    ensures Valid(InsertUser(db, name, email, password, role, approved, now).0)
  {
    var r := InsertUser(db, name, email, password, role, approved, now);
    if r.1.Some? {
      var us := r.0.users;
      assert forall i :: 0 <= i < |db.users| ==> us[i] == db.users[i];
      assert forall i, j :: 0 <= i < j < |us| ==> us[i].id != us[j].id;
      assert forall i, j :: 0 <= i < j < |us| ==> us[i].email != us[j].email by {
        forall i, j | 0 <= i < j < |us| ensures us[i].email != us[j].email {
          if j == |db.users| {
            assert !EmailTaken(db, email);
            assert UserEmail(db.users[i]) != email;
          }
        }
      }
      forall i | 0 <= i < |r.0.todos| ensures HasUser(r.0, r.0.todos[i].userId) {
        assert HasUser(db, db.todos[i].userId);
        var k :| 0 <= k < |db.users| && UserId(db.users[k]) == db.todos[i].userId;
        assert us[k] == db.users[k];
      }
    }
  }

  /** `insert into todos … returning`: the row takes the next serial id;
      the reference to `users` refuses an owner that does not exist. */
  function InsertTodo(db: Db, title: string, description: Option<string>, userId: nat, dueDate: Option<int>, tags: Option<seq<string>>, now: int): (r: (Db, Option<Todo>))
    ensures r.0.nextTodoId == db.nextTodoId + 1 && r.0.users == db.users && r.0.nextUserId == db.nextUserId
    ensures r.1.None? <==> !HasUser(db, userId)
    ensures r.1.None? ==> r.0.todos == db.todos
    ensures r.1.Some? ==> r.0.todos == db.todos + [r.1.value] && r.1.value.id == db.nextTodoId
    ensures r.1.Some? ==> r.1.value == Todo(db.nextTodoId, title, description, false, userId, dueDate, tags, now, now)
  {
    var db2 := db.(nextTodoId := db.nextTodoId + 1);
    if !HasUser(db, userId) then (db2, None)
    else
      var t := Todo(db.nextTodoId, title, description, false, userId, dueDate, tags, now, now);
      (db2.(todos := db.todos + [t]), Some(t))
  }

  lemma InsertTodoKeepsValid(db: Db, title: string, description: Option<string>, userId: nat, dueDate: Option<int>, tags: Option<seq<string>>, now: int)
    requires Valid(db)
    ensures Valid(InsertTodo(db, title, description, userId, dueDate, tags, now).0)
  {
    var r := InsertTodo(db, title, description, userId, dueDate, tags, now);
    if r.1.Some? {
      var ts := r.0.todos;
      assert forall i :: 0 <= i < |db.todos| ==> ts[i] == db.todos[i];
      assert forall i, j :: 0 <= i < j < |ts| ==> ts[i].id != ts[j].id;
    }
  }

  /** `delete from users where id = …`: refused while a todo still
      refers to the user, since the reference does not cascade. */
  function DeleteUser(db: Db, id: nat): (r: Option<Db>)
    ensures r.None? <==> exists i :: 0 <= i < |db.todos| && db.todos[i].userId == id
    ensures r.Some? ==> r.value == db.(users := Seqs.RemoveKey(db.users, UserId, id))
  {
    if exists i :: 0 <= i < |db.todos| && db.todos[i].userId == id then None
    else Some(db.(users := Seqs.RemoveKey(db.users, UserId, id)))
  }

  /** Two todo lists that agree, position by position, on ids and owners. */
  predicate SameKeys(a: seq<Todo>, b: seq<Todo>) {
    |a| == |b| && forall i :: 0 <= i < |a| ==> a[i].id == b[i].id && a[i].userId == b[i].userId
  }

  /** Rewriting todos in place, ids and owners untouched, keeps the
      constraints. */
  lemma SameKeysKeepValid(db: Db, todos: seq<Todo>)
    requires Valid(db) && SameKeys(todos, db.todos)
    ensures Valid(db.(todos := todos))
  {
    forall i, j | 0 <= i < j < |todos| ensures TodoId(todos[i]) != TodoId(todos[j]) {
      assert TodoId(db.todos[i]) != TodoId(db.todos[j]);
    }
  }

  /** Removing todos keeps the constraints. */
  lemma FewerTodosKeepValid(db: Db, todos: seq<Todo>)
    requires Valid(db) && Seqs.IsSubseq(todos, db.todos)
    ensures Valid(db.(todos := todos))
  {
    Seqs.SubsetKeepsUnique(todos, db.todos, TodoId);
    Seqs.SubseqMembers(todos, db.todos);
    forall i | 0 <= i < |todos| ensures todos[i].id < db.nextTodoId && HasUser(db, todos[i].userId) {
      var m :| 0 <= m < |db.todos| && db.todos[m] == todos[i];
    }
  }

  /** A refused delete changes nothing; an allowed one keeps the
      constraints, since no todo refers to the removed user. */
  lemma DeleteUserKeepsValid(db: Db, id: nat)
    requires Valid(db) && DeleteUser(db, id).Some?
    ensures Valid(DeleteUser(db, id).value)
  {
    var d := DeleteUser(db, id).value;
    var us := d.users;
    Seqs.RemoveKeyKeepsUnique(db.users, UserId, id);
    Seqs.SubsetKeepsUnique(us, db.users, UserEmail);
    forall i | 0 <= i < |us| ensures us[i].id < d.nextUserId {
      assert us[i] in db.users;
    }
    forall i | 0 <= i < |d.todos| ensures HasUser(d, d.todos[i].userId) {
      assert HasUser(db, db.todos[i].userId);
      var k :| 0 <= k < |db.users| && UserId(db.users[k]) == db.todos[i].userId;
      assert db.todos[i].userId != id;
      assert db.users[k] in us;
      var m :| 0 <= m < |us| && us[m] == db.users[k];
    }
  }

  // ---------------------------------------------------------------- the admin page

  function Unapproved(u: User): bool {
    !u.approved
  }

  function IsDone(t: Todo): bool {
    t.completed
  }

  /** The four `count()` queries of the admin page. */
  function CountsOf(db: Db): (c: Stats.Counts)
    ensures c.Valid()
  {
    Stats.Counts(|db.users|, Seqs.Count(db.users, Unapproved), |db.todos|, Seqs.Count(db.todos, IsDone))
  }

  /** The `stats` object the page hands to the statistics component. */
  function Seed(db: Db): Stats.Stats {
    Stats.StatsOf(CountsOf(db))
  }

  /** The seed counts all users, the unapproved ones, all todos and the
      completed ones; pending users never exceed users nor completed
      todos todos, and the rate is the rounded percentage of completed
      todos: 0 without todos or without completed ones, 100 when all are
      completed. */
  lemma SeedFigures(db: Db)
    ensures var s := Seed(db);
      && s.totalUsers == |db.users| && s.totalTodos == |db.todos|
      && 0 <= s.pendingUsers <= s.totalUsers && 0 <= s.completedTodos <= s.totalTodos
      && 0 <= s.completionRate <= 100
      && (s.totalTodos > 0 ==> 2 * s.totalTodos * s.completionRate <= 200 * s.completedTodos + s.totalTodos < 2 * s.totalTodos * s.completionRate + 2 * s.totalTodos)
      && (s.completedTodos == 0 ==> s.completionRate == 0)
      && (s.totalTodos > 0 && s.completedTodos == s.totalTodos ==> s.completionRate == 100)
  {
    var c := CountsOf(db);
    Stats.RateIsPercentage(c.completed, c.todos);
  }

  /** `findMany({ where: approved = false, orderBy: desc(createdAt) })`,
      with the table listed in creation order. */
  function PendingList(db: Db): seq<User> {
    Seqs.Reverse(Seqs.Filter(db.users, Unapproved))
  }

  /** The rows are listed in creation order. */
  predicate Chronological(us: seq<User>) {
    Seqs.Ascending(us, UserCreatedAt)
  }

  /** The pending list holds exactly the unapproved users, as many as the
      seed's pending figure, each once; the pending-users component's
      own invariant holds of it from the start. */
  lemma PendingListExact(db: Db)
    requires Valid(db)
    ensures forall u :: u in PendingList(db) <==> u in db.users && !u.approved
    ensures |PendingList(db)| == Seed(db).pendingUsers
    ensures Pending.AllPending(PendingList(db)) && Seqs.UniqueBy(PendingList(db), UserId)
  {
    var f := Seqs.Filter(db.users, Unapproved);
    var r := PendingList(db);
    Seqs.ReverseMembers(f);
    assert Pending.AllPending(r) by {
      forall i | 0 <= i < |r| ensures !r[i].approved {
        assert r[i] in f;
      }
    }
    Seqs.FilterKeepsUnique(db.users, Unapproved, UserId);
    Seqs.ReverseKeepsUnique(f, UserId);
  }

  /** With the table in creation order the pending list runs newest first. */
  lemma PendingNewestFirst(db: Db)
    requires Chronological(db.users)
    ensures forall i, j :: 0 <= i < j < |PendingList(db)| ==> PendingList(db)[i].createdAt >= PendingList(db)[j].createdAt
  {
    Seqs.FilterAscending(db.users, Unapproved, UserCreatedAt);
    Seqs.ReverseAscending(Seqs.Filter(db.users, Unapproved), UserCreatedAt);
  }
}
