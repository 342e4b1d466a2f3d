/** One row of the dashboard list: the request its checkbox sends, and
    whether it is shown as overdue.  Times are instants on one clock. */
module TodoItem {
  import opened Wrappers
  import opened Schema
  import opened Events
  import Toasts

  /** The body the checkbox posts to the toggle route. */
  datatype ToggleRequest = ToggleRequest(todoId: nat, completed: bool)

  /** `handleToggleComplete`: ask for the opposite of the current flag. */
  function ToggleRequestFor(t: Todo): (r: ToggleRequest)
    ensures r.todoId == t.id && r.completed != t.completed
  {
    ToggleRequest(t.id, !t.completed)
  }

  const CompletedSuffix: string := "\" marked as complete!"
  const ReopenedSuffix: string := "\" marked as incomplete"
  const RetrySuffix: string := " task. Please try again."

  /** The toast once the toggle request has returned: on success the
      todo's title, quoted, and the state it was asked to take; on failure
      the action that failed. */
  function ToggleToast(t: Todo, ok: bool): (r: Toasts.Toast)
    ensures r.variant == Toasts.Typed(if ok then Success else Error)
    ensures r.description.None? && r.action.None?
  {
    var asked := ToggleRequestFor(t).completed;
    if ok then
      var title := (if asked then "\U{2705} Task \"" else "\U{1F504} Task \"") + t.title + (if asked then CompletedSuffix else ReopenedSuffix);
      Toasts.Toast(Toasts.Typed(Success), title, None, None, None)
    else
      Toasts.Toast(Toasts.Typed(Error), "Failed to " + (if asked then "complete" else "mark as incomplete") + RetrySuffix, None, None, None)
  }

  /** The success toast quotes the title just before its closing words,
      which announce completion exactly when the todo was open; the
      failure toast always ends by asking to retry. */
  lemma ToggleToastReportsRequest(t: Todo)
    ensures var m := ToggleToast(t, true).title;
      var s := if t.completed then ReopenedSuffix else CompletedSuffix;
      |m| > |s| + |t.title| && m[|m| - |s|..] == s && m[|m| - |s| - |t.title|..|m| - |s|] == t.title
      && (m[|m| - 1] == '!' <==> !t.completed)
    ensures var m := ToggleToast(t, false).title;
      |m| > |RetrySuffix| && m[|m| - |RetrySuffix|..] == RetrySuffix
  {
    var asked := ToggleRequestFor(t).completed;
    var p := if asked then "\U{2705} Task \"" else "\U{1F504} Task \"";
    var s := if asked then CompletedSuffix else ReopenedSuffix;
    var m := p + t.title + s;
    assert m[|m| - |s|..] == s;
    assert m[|m| - |s| - |t.title|..|m| - |s|] == t.title;
    assert m[|m| - 1] == s[|s| - 1];
    var v := if asked then "complete" else "mark as incomplete";
    var f := "Failed to " + v + RetrySuffix;
    assert f[|f| - |RetrySuffix|..] == RetrySuffix;
  }

  /** `isOverdue`: a due date strictly before now, and not yet completed. */
  predicate IsOverdue(t: Todo, now: int) {
    t.dueDate.Some? && t.dueDate.value < now && !t.completed
  }

  /** A completed todo or one without a due date is never overdue; an
      overdue todo stays overdue as time passes. */
  lemma OverdueFacts(t: Todo, now: int, later: int)
    ensures t.completed || t.dueDate.None? ==> !IsOverdue(t, now)
    ensures IsOverdue(t, now) && now <= later ==> IsOverdue(t, later)
  {
  }
}
