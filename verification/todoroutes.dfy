/** `GET`, `POST`, `PUT` and `DELETE /api/todos`.  Every method needs a
    session; a caller reads, changes and deletes only todos it owns.  The
    search of `GET` is the database's `LIKE` and is a parameter; the
    due-date reminder `POST` schedules with a timer is not part of this
    model. */
module TodoRoutes {
  import opened Wrappers
  import opened Text
  import opened Schema
  import opened Http
  import Seqs
  import Store

  // ---------------------------------------------------------------- GET

  /** `searchParams.get('filter') || 'all'`. */
  function FilterParam(filter: Option<string>): string {
    if filter.Some? && filter.value != [] then filter.value else "all"
  }

  /** The query's conditions: the caller's todos, narrowed by status for
      `completed` and `pending`, and by the search pattern when a term is
      given. */
  function Selects(uid: nat, filter: string, search: string, like: (string, Todo) -> bool): Todo -> bool {
    (t: Todo) =>
      && t.userId == uid
      && (filter == "completed" ==> t.completed)
      && (filter == "pending" ==> !t.completed)
      && (search != [] ==> like(search, t))
  }

  /** `GET /api/todos`, newest first (the table's creation order
      reversed); `like` is the database's case-insensitive `LIKE` test. */
  function List(db: Store.Db, session: Session, filter: Option<string>, search: Option<string>, like: (string, Todo) -> bool): (r: Reply)
    ensures session.None? ==> r.status == 401 && Unchanged(r, db)
    ensures session.Some? ==> r.status == 200 && Unchanged(r, db) && r.body.TodoList? && |r.body.todos| <= |db.todos|
  {
    if session.None? then Refuse(401, "Unauthorized", db)
    else
      var q := if search.Some? then search.value else "";
      var keep := Selects(session.value.id, FilterParam(filter), q, like);
      Reply(200, TodoList(Seqs.Reverse(Seqs.Filter(db.todos, keep))), db, [])
  }

  /** The list holds exactly the caller's todos that pass the status
      filter and the search: every status for `all`, for a missing filter
      and for any other value; completed ones for `completed`; the others
      for `pending`. */
  lemma ListSelects(db: Store.Db, p: Principal, filter: Option<string>, search: Option<string>, like: (string, Todo) -> bool, t: Todo)
    ensures List(db, Some(p), filter, search, like).body.TodoList?
    ensures t in List(db, Some(p), filter, search, like).body.todos <==>
      && t in db.todos && t.userId == p.id
      && (filter == Some("completed") ==> t.completed)
      && (filter == Some("pending") ==> !t.completed)
      && (search.Some? && search.value != [] ==> like(search.value, t))
  {
    var q := if search.Some? then search.value else "";
    var keep := Selects(p.id, FilterParam(filter), q, like);
    Seqs.ReverseMembers(Seqs.Filter(db.todos, keep));
  }

  /** With the table in creation order, the list runs newest first. */
  lemma ListNewestFirst(db: Store.Db, p: Principal, filter: Option<string>, search: Option<string>, like: (string, Todo) -> bool)
    requires Seqs.Ascending(db.todos, TodoCreatedAt)
    ensures var ts := List(db, Some(p), filter, search, like).body.todos;
      forall i, j :: 0 <= i < j < |ts| ==> ts[i].createdAt >= ts[j].createdAt
  {
    var q := if search.Some? then search.value else "";
    var keep := Selects(p.id, FilterParam(filter), q, like);
    Seqs.FilterAscending(db.todos, keep, TodoCreatedAt);
    Seqs.ReverseAscending(Seqs.Filter(db.todos, keep), TodoCreatedAt);
  }

  /** The list holds no todo twice: no two entries share an id. */
  lemma ListNoRepeats(db: Store.Db, p: Principal, filter: Option<string>, search: Option<string>, like: (string, Todo) -> bool)
    requires Store.Valid(db)
    ensures var ts := List(db, Some(p), filter, search, like).body.todos;
      forall i, j :: 0 <= i < j < |ts| ==> ts[i].id != ts[j].id
  {
    var q := if search.Some? then search.value else "";
    var keep := Selects(p.id, FilterParam(filter), q, like);
    Seqs.FilterKeepsUnique(db.todos, keep, TodoId);
    Seqs.ReverseKeepsUnique(Seqs.Filter(db.todos, keep), TodoId);
  }

  // ---------------------------------------------------------------- POST and PUT

  /** The fields `POST` and `PUT` read from the body.  `description` is a
      string or absent. */
  datatype TodoFields = TodoFields(id: Val, title: Val, description: Option<string>, dueDate: Val, tags: Val)

  /** The body's due date and tags can be written to the database. */
  predicate Writable(body: TodoFields, toDate: Val -> Option<int>) {
    DueDate(body.dueDate, toDate).Some? && TagList(body.tags).Some?
  }

  /** `POST /api/todos`: the new todo is the caller's, uncompleted, with
      the trimmed title.  A due date or tags the driver cannot write fail
      the statement before it is sent (500, nothing written); the
      database itself refuses the row (500) if the caller's user row no
      longer exists. */
  function Create(db: Store.Db, session: Session, body: TodoFields, toDate: Val -> Option<int>, now: int): (r: Reply)
    ensures r.triggers == []
    ensures session.None? ==> r.status == 401 && Unchanged(r, db)
    ensures session.Some? && RequiredTitle(body.title).Err? ==> r.status == RequiredTitle(body.title).error && Unchanged(r, db)
    ensures session.Some? && RequiredTitle(body.title).Ok? && !Writable(body, toDate) ==> r.status == 500 && Unchanged(r, db)
    ensures r.status == 201 <==>
      session.Some? && RequiredTitle(body.title).Ok? && Writable(body, toDate) && Store.HasUser(db, session.value.id)
    ensures r.status != 201 ==> r.db.users == db.users && r.db.todos == db.todos
    ensures r.status == 201 ==> r.body.OneTodo? && r.db.users == db.users && r.db.todos == db.todos + [r.body.todo]
    ensures r.status == 201 ==> r.body.OneTodo? && r.body.todo.id == db.nextTodoId
    ensures r.status == 201 ==> r.body.OneTodo? && r.body.todo.userId == session.value.id && !r.body.todo.completed
    ensures r.status == 201 ==> r.body.OneTodo? && r.body.todo.title == Trim(body.title.s) && r.body.todo.title != []
    ensures r.status == 201 ==> r.body.OneTodo? && r.body.todo.description == OrNull(body.description)
    ensures r.status == 201 ==> r.body.OneTodo? && Some(r.body.todo.dueDate) == DueDate(body.dueDate, toDate)
    ensures r.status == 201 ==> r.body.OneTodo? && r.body.todo.tags == TagList(body.tags)
  {
    if session.None? then Refuse(401, "Unauthorized", db)
    else
      var title := RequiredTitle(body.title);
      if title.Err? then
        Refuse(title.error, if title.error == 400 then "Title is required" else InternalError, db)
      else if !Writable(body, toDate) then Refuse(500, InternalError, db)
      else
        var ins := Store.InsertTodo(db, title.value, OrNull(body.description), session.value.id,
          DueDate(body.dueDate, toDate).value, TagList(body.tags), now);
        if ins.1.None? then Reply(500, Failure(InternalError), ins.0, [])
        else Reply(201, OneTodo(ins.1.value), ins.0, [])
  }

  lemma CreateKeepsValid(db: Store.Db, session: Session, body: TodoFields, toDate: Val -> Option<int>, now: int)
    requires Store.Valid(db)
    ensures Store.Valid(Create(db, session, body, toDate, now).db)
  {
    if session.Some? && RequiredTitle(body.title).Ok? && Writable(body, toDate) {
      Store.InsertTodoKeepsValid(db, Trim(body.title.s), OrNull(body.description), session.value.id,
        DueDate(body.dueDate, toDate).value, TagList(body.tags), now);
    }
  }

  /** `PUT /api/todos`: `!id` and the title checks first (400, or 500 for
      a title that is not a string), then ownership (404), then a due date
      or tags the driver cannot write (500). */
  function Update(db: Store.Db, session: Session, body: TodoFields, toDate: Val -> Option<int>, now: int): (r: Reply)
    ensures r.triggers == [] && r.db == db.(todos := r.db.todos) && Store.SameKeys(r.db.todos, db.todos)
    ensures session.None? ==> r.status == 401 && Unchanged(r, db)
    ensures session.Some? && !Truthy(body.id) ==> r.status == 400 && Unchanged(r, db)
    ensures session.Some? && Truthy(body.id) && RequiredTitle(body.title).Err? ==>
      r.status == RequiredTitle(body.title).error && Unchanged(r, db)
    ensures session.Some? && Truthy(body.id) && RequiredTitle(body.title).Ok? && Lookup(db, body.id, session.value.id).None? ==>
      r.status == 404 && Unchanged(r, db)
    ensures (&& session.Some? && Truthy(body.id) && RequiredTitle(body.title).Ok?
             && Lookup(db, body.id, session.value.id).Some? && !Writable(body, toDate))
      ==> r.status == 500 && Unchanged(r, db)
    ensures r.status == 200 <==>
      && session.Some? && Truthy(body.id) && RequiredTitle(body.title).Ok? && Lookup(db, body.id, session.value.id).Some?
      && Writable(body, toDate)
  {
    if session.None? then Refuse(401, "Unauthorized", db)
    else if !Truthy(body.id) then Refuse(400, "ID and title are required", db)
    else
      var title := RequiredTitle(body.title);
      if title.Err? then
        Refuse(title.error, if title.error == 400 then "ID and title are required" else InternalError, db)
      else
        var found := Lookup(db, body.id, session.value.id);
        if found.None? then Refuse(404, "Todo not found or unauthorized", db)
        else if !Writable(body, toDate) then Refuse(500, InternalError, db)
        else
          var k := found.value;
          var t := db.todos[k].(title := title.value, description := OrNull(body.description),
            dueDate := DueDate(body.dueDate, toDate).value, tags := TagList(body.tags), updatedAt := now);
          Reply(200, OneTodo(t), db.(todos := db.todos[k := t]), [])
  }

  /** A successful update rewrites the title (trimmed), description, due
      date and tags of the caller's todo with that id and stamps it; its
      id, owner, completion and creation time stay, and every other todo
      is unchanged. */
  lemma UpdateChangesOnlyThatTodo(db: Store.Db, p: Principal, body: TodoFields, toDate: Val -> Option<int>, now: int)
    requires Store.Valid(db) && Update(db, Some(p), body, toDate, now).status == 200
    ensures var r := Update(db, Some(p), body, toDate, now);
      forall i :: 0 <= i < |db.todos| ==>
        if db.todos[i].id == body.id.n then
          && r.db.todos[i].id == db.todos[i].id && r.db.todos[i].userId == db.todos[i].userId == p.id
          && r.db.todos[i].completed == db.todos[i].completed && r.db.todos[i].createdAt == db.todos[i].createdAt
          && r.db.todos[i].title == Trim(body.title.s) && r.db.todos[i].description == OrNull(body.description)
          && Some(r.db.todos[i].dueDate) == DueDate(body.dueDate, toDate) && r.db.todos[i].tags == TagList(body.tags)
          && r.db.todos[i].updatedAt == now
        else r.db.todos[i] == db.todos[i]
  {
    LookupUnique(db, body.id, p.id);
  }

  lemma UpdateKeepsValid(db: Store.Db, session: Session, body: TodoFields, toDate: Val -> Option<int>, now: int)
    requires Store.Valid(db)
    ensures Store.Valid(Update(db, session, body, toDate, now).db)
  {
    var r := Update(db, session, body, toDate, now);
    Store.SameKeysKeepValid(db, r.db.todos);
  }

  // ---------------------------------------------------------------- DELETE

  /** The rows `delete … where id = … and userId = …` keeps. */
  function NotThat(id: int, uid: nat): Todo -> bool {
    (t: Todo) => !(t.id == id && t.userId == uid)
  }

  /** `DELETE /api/todos` with body `{ id }`. */
  function Delete(db: Store.Db, session: Session, id: Val): (r: Reply)
    ensures r.triggers == [] && r.db.users == db.users
    ensures session.None? ==> r.status == 401 && Unchanged(r, db)
    ensures session.Some? && !Truthy(id) ==> r.status == 400 && Unchanged(r, db)
    ensures session.Some? && Truthy(id) && Lookup(db, id, session.value.id).None? ==> r.status == 404 && Unchanged(r, db)
    ensures r.status == 200 <==> session.Some? && Truthy(id) && Lookup(db, id, session.value.id).Some?
    ensures r.status == 200 ==> forall t :: t in r.db.todos <==> t in db.todos && !(t.id == id.n && t.userId == session.value.id)
    ensures r.status == 200 ==> Seqs.IsSubseq(r.db.todos, db.todos) && |r.db.todos| < |db.todos|
  {
    if session.None? then Refuse(401, "Unauthorized", db)
    else if !Truthy(id) then Refuse(400, "ID is required", db)
    else
      var found := Lookup(db, id, session.value.id);
      if found.None? then Refuse(404, "Todo not found or unauthorized", db)
      else
        var kept := Seqs.Filter(db.todos, NotThat(id.n, session.value.id));
        assert db.todos[found.value] !in kept;
        Seqs.CountComplement(db.todos, NotThat(id.n, session.value.id), (t: Todo) => !NotThat(id.n, session.value.id)(t));
        CountPositive(db.todos, found.value, (t: Todo) => !NotThat(id.n, session.value.id)(t));
        Reply(200, Done("Todo deleted successfully"), db.(todos := kept), [])
  }

  lemma CountPositive<T>(s: seq<T>, k: nat, p: T -> bool)
    requires k < |s| && p(s[k])
    ensures Seqs.Count(s, p) > 0
  {
    Seqs.CountChangeAt(s, s, k, p);
    if k > 0 {
      CountPositive(s[1..], k - 1, p);
    }
  }

  /** Deleting the caller's todo leaves no todo with that id behind. */
  lemma DeleteRemovesThatId(db: Store.Db, p: Principal, id: Val)
    requires Store.Valid(db) && Delete(db, Some(p), id).status == 200
    ensures forall t :: t in Delete(db, Some(p), id).db.todos ==> t.id != id.n
  {
    LookupUnique(db, id, p.id);
    var r := Delete(db, Some(p), id);
    forall t | t in r.db.todos ensures t.id != id.n {
      var i :| 0 <= i < |db.todos| && db.todos[i] == t;
    }
  }

  lemma DeleteKeepsValid(db: Store.Db, session: Session, id: Val)
    requires Store.Valid(db)
    ensures Store.Valid(Delete(db, session, id).db)
  {
    var r := Delete(db, session, id);
    if r.status == 200 {
      Store.FewerTodosKeepValid(db, r.db.todos);
    }
  }
}
