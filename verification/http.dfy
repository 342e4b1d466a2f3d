/** What the route handlers share: the loosely typed JSON values a
    request body is read into, JavaScript truthiness, and the shape of a
    handler's outcome — status, response body, the store afterwards and
    the real-time triggers it published, in order. */
module Http {
  import opened Wrappers
  import opened Text
  import opened Schema
  import opened Events
  import Store

  /** A value of a request's JSON body (numbers as integers). */
  datatype Val = Undefined | Null | Bool(b: bool) | Num(n: int) | Str(s: string) | Arr(items: seq<Val>) | Obj

  /** JavaScript truthiness: `undefined`, `null`, `false`, `0` and `''`
      are falsy. */
  predicate Truthy(v: Val) {
    match v
    case Undefined => false
    case Null => false
    case Bool(b) => b
    case Num(n) => n != 0
    case Str(s) => s != []
    case _ => true
  }

  /** The JSON a handler answers with. */
  datatype Body =
    | Failure(error: string)
    | TodoList(todos: seq<Todo>)
    | OneTodo(todo: Todo)
    | Done(message: string)
    | BulkDone(message: string, count: nat)
    | SignedUp(message: string, id: nat, name: Option<string>, email: string)

  /** A handler's outcome. */
  datatype Reply = Reply(status: int, body: Body, db: Store.Db, triggers: seq<Trigger>)

  /** A refusal: an error status, the store untouched, nothing published. */
  function Refuse(status: int, error: string, db: Store.Db): (r: Reply)
    ensures r.status == status && r.db == db && r.triggers == [] && r.body.Failure?
  {
    Reply(status, Failure(error), db, [])
  }

  /** The handler refused the request and changed nothing. */
  predicate Unchanged(r: Reply, db: Store.Db) {
    r.db == db && r.triggers == []
  }

  const InternalError: string := "Internal server error"

  /** `!title || !title.trim()` and then `title.trim()`: a falsy or blank
      title is refused with 400; a truthy title that is not a string has
      no `trim`, and the handler fails with 500. */
  function RequiredTitle(title: Val): (r: Result<string, int>)
    ensures r.Ok? <==> title.Str? && !AllSpace(title.s)
    ensures r.Ok? ==> r.value == Trim(title.s) && r.value != []
    ensures r.Err? ==> (r.error == 500 <==> Truthy(title) && !title.Str?)
    ensures r.Err? ==> r.error == 400 || r.error == 500
  {
    if !Truthy(title) then Err(400)
    else if !title.Str? then Err(500)
    else if Trim(title.s) == [] then Err(400)
    else Ok(Trim(title.s))
  }

  /** `value || null` for a nullable text field. */
  function OrNull(s: Option<string>): (r: Option<string>)
    ensures r.None? <==> s.None? || s.value == []
    ensures r.Some? ==> r == s
  {
    if s.Some? && s.value != [] then s else None
  }

  /** `dueDate ? new Date(dueDate) : null` as the database driver writes
      it: a falsy value is no date; any other is parsed by `toDate`, whose
      `None` is JavaScript's invalid date.  An invalid date cannot be
      written (its `toISOString` throws), so the whole value is `None`:
      the statement fails before it reaches the database. */
  function DueDate(d: Val, toDate: Val -> Option<int>): (r: Option<Option<int>>)
    ensures r == Some(None) <==> !Truthy(d)
    ensures r.None? <==> Truthy(d) && toDate(d).None?
    ensures r.Some? && r.value.Some? ==> Truthy(d) && r.value == toDate(d)
  {
    if !Truthy(d) then Some(None)
    else if toDate(d).None? then None
    else Some(toDate(d))
  }

  predicate AllStrings(items: seq<Val>) {
    forall i :: 0 <= i < |items| ==> items[i].Str?
  }

  /** `tags || []` as the driver writes it into the text-array column: a
      falsy value is the empty list and an array of strings is its
      strings; anything else cannot be written and the statement fails
      (`None`). */
  function TagList(v: Val): (r: Option<seq<string>>)
    ensures !Truthy(v) ==> r == Some([])
    ensures Truthy(v) ==> (r.Some? <==> v.Arr? && AllStrings(v.items))
    ensures r.Some? && Truthy(v) ==> |r.value| == |v.items| && forall i :: 0 <= i < |v.items| ==> r.value[i] == v.items[i].s
  {
    if !Truthy(v) then Some([])
    else if v.Arr? && AllStrings(v.items) then Some(seq(|v.items|, i requires 0 <= i < |v.items| => v.items[i].s))
    else None
  }

  /** The row an id from the body finds among the caller's todos: a
      number is compared with the ids; any other value finds nothing. */
  function Lookup(db: Store.Db, id: Val, owner: nat): (r: Option<nat>)
    ensures r.Some? ==> id.Num? && r.value < |db.todos| && db.todos[r.value].id == id.n && db.todos[r.value].userId == owner
    ensures r.None? <==> !id.Num? || forall i :: 0 <= i < |db.todos| ==> !(db.todos[i].id == id.n && db.todos[i].userId == owner)
  {
    if id.Num? then Store.FindTodo(db.todos, id.n, owner) else None
  }

  /** The found row is the only one with its id. */
  lemma LookupUnique(db: Store.Db, id: Val, owner: nat)
    requires Store.Valid(db) && Lookup(db, id, owner).Some?
    ensures forall i :: 0 <= i < |db.todos| && db.todos[i].id == id.n ==> i == Lookup(db, id, owner).value
  {
    var k := Lookup(db, id, owner).value;
    assert TodoId(db.todos[k]) == id.n;
  }
}
