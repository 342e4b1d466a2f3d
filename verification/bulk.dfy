/** `PATCH /api/todos/bulk`: complete or delete several of the caller's
    todos at once.  The requested ids are first narrowed to the caller's
    own rows; the update or delete then acts on the rows with the
    surviving ids, and the reply reports how many there were. */
module BulkRoute {
  import opened Wrappers
  import opened Schema
  import opened Text
  import opened Http
  import Seqs
  import Store

  /** The body `{ ids, action }`. */
  datatype BulkFields = BulkFields(ids: Val, action: Val)

  /** The query's condition: an id from the list, owned by the caller. */
  function Chosen(items: seq<Val>, uid: nat): Todo -> bool {
    (t: Todo) => Num(t.id) in items && t.userId == uid
  }

  /** `rows.map(todo => todo.id)`. */
  function TodoIds(ts: seq<Todo>): (r: seq<nat>)
    ensures |r| == |ts|
    ensures forall i :: 0 <= i < |ts| ==> r[i] == ts[i].id
  {
    seq(|ts|, i requires 0 <= i < |ts| => ts[i].id)
  }

  /** `inArray(todos.id, validIds)`. */
  function InIds(ids: seq<nat>): Todo -> bool {
    (t: Todo) => t.id in ids
  }

  /** `Successfully ${action}d ${n} ${noun}`. */
  function Message(action: string, n: nat): (m: string)
    ensures "Successfully " + action + "d " <= m
    ensures var lead := "Successfully " + action + "d ";
      && |m| == |lead| + |NatToString(n)| + 1 + |Plural(n, "todo", "todos")|
      && m[|lead|..|lead| + |NatToString(n)|] == NatToString(n) && m[|lead| + |NatToString(n)| + 1..] == Plural(n, "todo", "todos")
  {
    "Successfully " + action + "d " + NatToString(n) + " " + Plural(n, "todo", "todos")
  }

  predicate KnownAction(action: Val) {
    action == Str("complete") || action == Str("delete")
  }

  /** The handler.  Without a session 401; without a non-empty id list,
      or with an action other than the two known ones, 400; when none of
      the ids names one of the caller's todos, 404. */
  function Bulk(db: Store.Db, session: Session, body: BulkFields, now: int): (r: Reply)
    ensures r.triggers == [] && r.db.users == db.users
    ensures r.db.nextUserId == db.nextUserId && r.db.nextTodoId == db.nextTodoId
    ensures session.None? ==> r.status == 401 && Unchanged(r, db)
    ensures session.Some? && !(body.ids.Arr? && body.ids.items != []) ==> r.status == 400 && Unchanged(r, db)
    ensures session.Some? && body.ids.Arr? && body.ids.items != [] && !KnownAction(body.action) ==> r.status == 400 && Unchanged(r, db)
    ensures r.status == 404 <==>
      session.Some? && body.ids.Arr? && body.ids.items != [] && KnownAction(body.action)
      && Seqs.Count(db.todos, Chosen(body.ids.items, session.value.id)) == 0
    ensures r.status == 404 ==> Unchanged(r, db)
    ensures r.status in {200, 400, 401, 404}
    ensures r.status == 200 ==> r.body.BulkDone? && r.body.count == Seqs.Count(db.todos, Chosen(body.ids.items, session.value.id))
  {
    if session.None? then Refuse(401, "Unauthorized", db)
    else if !(body.ids.Arr? && body.ids.items != []) then Refuse(400, "No todo IDs provided", db)
    else if !KnownAction(body.action) then Refuse(400, "Invalid action", db)
    else
      var valid := TodoIds(Seqs.Filter(db.todos, Chosen(body.ids.items, session.value.id)));
      if valid == [] then Refuse(404, "No valid todos found", db)
      else
        var todos :=
          if body.action == Str("complete") then
            Seqs.Patch(db.todos, InIds(valid), (t: Todo) => t.(completed := true, updatedAt := now))
          else
            Seqs.Filter(db.todos, (t: Todo) => !InIds(valid)(t));
        Reply(200, BulkDone(Message(body.action.s, |valid|), |valid|), db.(todos := todos), [])
  }

  /** With todo ids unique, a row's id survives the ownership query
      exactly when the row is one of the caller's requested todos, so the
      update never reaches another user's row that shares nothing but a
      list position. */
  lemma ValidIdsExact(todos: seq<Todo>, items: seq<Val>, uid: nat)
    requires Seqs.UniqueBy(todos, TodoId)
    ensures var valid := TodoIds(Seqs.Filter(todos, Chosen(items, uid)));
      forall i :: 0 <= i < |todos| ==> (InIds(valid)(todos[i]) <==> Chosen(items, uid)(todos[i]))
  {
    var valid := TodoIds(Seqs.Filter(todos, Chosen(items, uid)));
    forall i | 0 <= i < |todos| ensures todos[i].id in valid <==> Num(todos[i].id) in items && todos[i].userId == uid {
      if todos[i].id in valid {
        ValidIdChosen(todos, items, uid, i);
      }
      if Num(todos[i].id) in items && todos[i].userId == uid {
        ChosenIdValid(todos, items, uid, i);
      }
    }
  }

  /** A surviving id belongs to a chosen row, hence (ids being unique)
      to this one. */
  lemma ValidIdChosen(todos: seq<Todo>, items: seq<Val>, uid: nat, i: nat)
    requires Seqs.UniqueBy(todos, TodoId) && i < |todos|
    requires todos[i].id in TodoIds(Seqs.Filter(todos, Chosen(items, uid)))
    ensures Chosen(items, uid)(todos[i])
  {
    var chosen := Seqs.Filter(todos, Chosen(items, uid));
    var valid := TodoIds(chosen);
    var j :| 0 <= j < |valid| && valid[j] == todos[i].id;
    assert Chosen(items, uid)(chosen[j]);
    assert chosen[j] in todos;
    var m :| 0 <= m < |todos| && todos[m] == chosen[j];
    assert TodoId(todos[m]) == TodoId(todos[i]);
  }

  /** A chosen row's id survives the query. */
  lemma ChosenIdValid(todos: seq<Todo>, items: seq<Val>, uid: nat, i: nat)
    requires i < |todos| && Chosen(items, uid)(todos[i])
    ensures todos[i].id in TodoIds(Seqs.Filter(todos, Chosen(items, uid)))
  {
    var chosen := Seqs.Filter(todos, Chosen(items, uid));
    assert todos[i] in todos;
    assert todos[i] in chosen;
    var j :| 0 <= j < |chosen| && chosen[j] == todos[i];
    assert TodoIds(chosen)[j] == todos[i].id;
  }

  /** Completing in bulk marks exactly the caller's requested todos
      completed, stamped now; every other row is as it was, and the
      reported count is the number of rows marked. */
  lemma BulkCompleteExact(db: Store.Db, p: Principal, body: BulkFields, now: int)
    requires Store.Valid(db) && Bulk(db, Some(p), body, now).status == 200 && body.action == Str("complete")
    ensures var r := Bulk(db, Some(p), body, now);
      && |r.db.todos| == |db.todos|
      && (forall i :: 0 <= i < |db.todos| ==>
            r.db.todos[i] == if Chosen(body.ids.items, p.id)(db.todos[i]) then db.todos[i].(completed := true, updatedAt := now) else db.todos[i])
      && r.body.message == Message("complete", r.body.count)
  {
    ValidIdsExact(db.todos, body.ids.items, p.id);
  }

  /** Deleting in bulk removes exactly the caller's requested todos,
      keeps the others in order, and reports how many went. */
  lemma BulkDeleteExact(db: Store.Db, p: Principal, body: BulkFields, now: int)
    requires Store.Valid(db) && Bulk(db, Some(p), body, now).status == 200 && body.action == Str("delete")
    ensures var r := Bulk(db, Some(p), body, now);
      && (forall t :: t in r.db.todos <==> t in db.todos && !Chosen(body.ids.items, p.id)(t))
      && Seqs.IsSubseq(r.db.todos, db.todos)
      && |r.db.todos| == |db.todos| - r.body.count
      && r.body.message == Message("delete", r.body.count)
  {
    var chosen := Chosen(body.ids.items, p.id);
    var valid := TodoIds(Seqs.Filter(db.todos, chosen));
    var kept := (t: Todo) => !InIds(valid)(t);
    var others := (t: Todo) => !chosen(t);
    ValidIdsExact(db.todos, body.ids.items, p.id);
    Seqs.FilterSame(db.todos, kept, others);
    Seqs.CountComplement(db.todos, chosen, others);
  }

  lemma BulkKeepsValid(db: Store.Db, session: Session, body: BulkFields, now: int)
    requires Store.Valid(db)
    ensures Store.Valid(Bulk(db, session, body, now).db)
  {
    var r := Bulk(db, session, body, now);
    if r.status == 200 {
      if body.action == Str("complete") {
        assert Store.SameKeys(r.db.todos, db.todos);
        Store.SameKeysKeepValid(db, r.db.todos);
      } else {
        Store.FewerTodosKeepValid(db, r.db.todos);
      }
    }
  }

  /** The message names the count and uses the singular exactly for one. */
  lemma MessageStatesCount(action: string, n: nat)
    ensures var m := Message(action, n);
      && m[|m| - |Plural(n, "todo", "todos")|..] == Plural(n, "todo", "todos")
      && (Plural(n, "todo", "todos") == "todo" <==> n == 1)
      && m[|"Successfully " + action + "d "|..|"Successfully " + action + "d "| + |NatToString(n)|] == NatToString(n)
      && DigitsValue(NatToString(n)) == n
  {
    NatToStringRoundTrip(n);
  }
}
