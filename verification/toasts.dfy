/** Toasts: the helpers of the toast library (durations per type, the
    error classifier, the canned success and loading messages), the
    toasts the toast provider raises for real-time events, and the
    success and failure messages of the bulk-action bar. */
module Toasts {
  import opened Wrappers
  import opened Text
  import opened Schema
  import opened Events
  import Notify

  /** Which `toast` function raised it: plain `toast(...)` or one of
      `toast.success`, `toast.error`, `toast.warning`, `toast.info`,
      `toast.loading`. */
  datatype Variant = Plain | Typed(kind: Kind) | Loading

  /** A toast with its options. */
  datatype Toast = Toast(
    variant: Variant,
    title: string,
    description: Option<string>,
    action: Option<Link>,
    duration: Option<nat>)

  /** How long a typed toast of `showToast` stays up, in milliseconds. */
  function Duration(kind: Kind): (ms: nat)
    ensures 4000 <= ms <= 6000
    ensures kind == Error <==> ms == 6000
    ensures kind == Warning <==> ms == 5000
  {
    match kind
    case Success => 4000
    case Error => 6000
    case Warning => 5000
    case Info => 4000
  }

  /** `showToast.success | error | warning | info (message, description)`. */
  function Show(kind: Kind, message: string, description: Option<string>): (t: Toast)
    ensures t.variant == Typed(kind) && t.title == message && t.description == description
    ensures t.duration == Some(Duration(kind)) && t.action.None?
  {
    Toast(Typed(kind), message, description, None, Some(Duration(kind)))
  }

  /** `showToast.loading(message)`: no description and no set duration. */
  function ShowLoading(message: string): (t: Toast)
    ensures t.variant == Loading && t.title == message && t.duration.None?
  {
    Toast(Loading, message, None, None, None)
  }

  /** What `handleApiError` may be given (a `Response` is not modelled):
      an `Error` with its message, a string, an object with an `error`
      property (either property possibly empty or absent), or anything
      else. */
  datatype Thrown =
    | ThrownError(message: string)
    | ThrownString(text: string)
    | ThrownObject(error: Option<string>, details: Option<string>)
    | ThrownOther

  const DefaultFallback: string := "An unexpected error occurred"

  /** `apiError.error || fallbackMessage`. */
  function OrFallback(error: Option<string>, fallback: string): (r: string)
    ensures r == fallback || (error.Some? && r == error.value && r != [])
  {
    if error.Some? && error.value != [] then error.value else fallback
  }

  const NetworkHint: string := "Please check your internet connection and try again."
  const TimeoutHint: string := "The request took too long. Please try again."
  const PendingHint: string := "Your account is awaiting admin approval. Please contact support if this takes too long."
  const SupportHint: string := "Please try again or contact support if the problem persists."

  /** `handleApiError(error, fallbackMessage)`. */
  function HandleApiError(e: Thrown, fallback: string): (t: Toast)
    ensures t.variant == Typed(Error) || t.variant == Typed(Warning)
    ensures t.variant == Typed(Warning) <==>
      e.ThrownError? && !Contains(e.message, "fetch") && !Contains(e.message, "timeout")
      && Contains(e.message, "Account pending approval")
    ensures e.ThrownError? && Contains(e.message, "fetch") ==> t.title == "Network Error" && t.description == Some(NetworkHint)
    ensures e.ThrownError? && !Contains(e.message, "fetch") && Contains(e.message, "timeout") ==>
      t.title == "Request Timeout" && t.description == Some(TimeoutHint)
    ensures t.variant == Typed(Warning) ==> t.title == "Account Pending" && t.description == Some(PendingHint)
    ensures (&& e.ThrownError? && !Contains(e.message, "fetch") && !Contains(e.message, "timeout")
             && !Contains(e.message, "Account pending approval"))
      ==> t.title == "Error" && t.description == Some(e.message)
    ensures e.ThrownString? ==> t.title == "Error" && t.description == Some(e.text)
    ensures e.ThrownObject? ==> t.title == OrFallback(e.error, fallback) && t.description == e.details
    ensures e.ThrownOther? ==> t.title == fallback && t.description == Some(SupportHint)
    ensures t.action.None? && t.duration == Some(if t.variant == Typed(Warning) then 5000 else 6000)
  {
    match e
    case ThrownError(m) =>
      if Contains(m, "fetch") then Show(Error, "Network Error", Some(NetworkHint))
      else if Contains(m, "timeout") then Show(Error, "Request Timeout", Some(TimeoutHint))
      else if Contains(m, "Account pending approval") then
        Show(Warning, "Account Pending", Some(PendingHint))
      else Show(Error, "Error", Some(m))
    case ThrownString(s) => Show(Error, "Error", Some(s))
    case ThrownObject(err, details) => Show(Error, OrFallback(err, fallback), details)
    case ThrownOther => Show(Error, fallback, Some(SupportHint))
  }

  /** An error message that mentions `fetch` is reported as a network
      error whatever else it says, since that test comes first. */
  lemma NetworkErrorWins(m: string, fallback: string)
    requires Contains(m, "fetch")
    ensures HandleApiError(ThrownError(m), fallback).title == "Network Error"
    ensures HandleApiError(ThrownError(m), fallback).duration == Some(6000)
  {
  }

  /** An error message that matches none of the known phrases is shown as
      it is, under the title `Error`. */
  lemma UnknownErrorShownVerbatim(m: string, fallback: string)
    requires !Contains(m, "fetch") && !Contains(m, "timeout") && !Contains(m, "Account pending approval")
    ensures HandleApiError(ThrownError(m), fallback) == Toast(Typed(Error), "Error", Some(m), None, Some(6000))
  {
  }

  /** The `${count > 1 ? 's' : ''}` suffix of the toast library. */
  function PluralS(count: int): string {
    if count > 1 then "s" else ""
  }

  /** `showSuccessToast.bulkCompleted(count)`. */
  function BulkCompletedToast(count: int): (t: Toast)
    ensures t.variant == Typed(Success) && t.title == "Tasks Completed"
  {
    Show(Success, "Tasks Completed", Some(IntToString(count) + " task" + PluralS(count) + " marked as completed."))
  }

  /** In `${count} task${s}${tail}` the letter before the tail is the
      plural `s` exactly when the count is above one. */
  lemma PluralBeforeTail(count: int, tail: string)
    ensures var d := IntToString(count) + " task" + PluralS(count) + tail;
      |d| > |tail| && d[|d| - |tail|..] == tail
      && (d[|d| - |tail| - 1] == 's' <==> count > 1)
  {
    var a := IntToString(count) + " task" + PluralS(count);
    var d := a + tail;
    assert d[|a|..] == tail;
    assert d[|a| - 1] == a[|a| - 1];
    if count <= 1 {
      assert a == IntToString(count) + " task";
    }
  }

  /** The bulk toasts say `tasks` exactly when the count is above one. */
  lemma BulkToastsPluralIffMany(count: int)
    ensures var d := BulkCompletedToast(count).description.value;
      |d| > 21 && d[|d| - 21..] == " marked as completed." && (d[|d| - 22] == 's' <==> count > 1)
    ensures var d := BulkDeletedToast(count).description.value;
      |d| > 22 && d[|d| - 22..] == " removed successfully." && (d[|d| - 23] == 's' <==> count > 1)
  {
    PluralBeforeTail(count, " marked as completed.");
    PluralBeforeTail(count, " removed successfully.");
  }

  /** `showSuccessToast.bulkDeleted(count)`. */
  function BulkDeletedToast(count: int): (t: Toast)
    ensures t.variant == Typed(Success) && t.title == "Tasks Deleted"
  {
    Show(Success, "Tasks Deleted", Some(IntToString(count) + " task" + PluralS(count) + " removed successfully."))
  }

  /** `showLoadingToast.bulkAction(action, count)`: any action other than
      `'complete'` reads as deleting. */
  function BulkLoadingToast(action: string, count: int): (t: Toast)
    ensures t.variant == Loading
    ensures action == "complete" ==> "Completing " <= t.title
    ensures action != "complete" ==> "Deleting " <= t.title
  {
    ShowLoading((if action == "complete" then "Completing" else "Deleting") + " " + IntToString(count) + " task" + PluralS(count) + "...")
  }

  /** The text of the export toast before the format. */
  const ExportLead: string := "Your tasks have been exported as "

  /** `showSuccessToast.exportCompleted(format)`: the description names
      the format upper-cased, between the lead and a full stop. */
  function ExportCompletedToast(format: string): (t: Toast)
    ensures t.variant == Typed(Success) && t.duration == Some(4000) && t.title == "Export Completed"
    ensures t.description.Some? && |t.description.value| == |ExportLead| + |format| + 1
    ensures t.description.Some? && ExportLead <= t.description.value
    ensures t.description.Some? && t.description.value[|ExportLead|..|ExportLead| + |format|] == Upper(format)
    ensures t.description.Some? && t.description.value[|ExportLead| + |format|] == '.'
  {
    ExportCompletedText(Upper(format));
    Show(Success, "Export Completed", Some(ExportLead + Upper(format) + "."))
  }

  lemma ExportCompletedText(f: string)
    ensures var d := ExportLead + f + ".";
      |d| == |ExportLead| + |f| + 1 && ExportLead <= d && d[|ExportLead|..|ExportLead| + |f|] == f && d[|ExportLead| + |f|] == '.'
  {
    var d := ExportLead + f + ".";
    assert d[..|ExportLead|] == ExportLead;
    assert d[|ExportLead|..|ExportLead| + |f|] == f;
  }

  /** The export toast names the format without a lower-case letter, and
      reads as the requested format once case is ignored: `csv`, `Csv`
      and `CSV` all give `CSV`. */
  lemma ExportToastNamesFormat(format: string)
    ensures var d := ExportCompletedToast(format).description.value;
      var shown := d[|ExportLead|..|ExportLead| + |format|];
      && (forall i :: 0 <= i < |shown| ==> !('a' <= shown[i] <= 'z'))
      && Lower(shown) == Lower(format)
  {
    LowerOfUpper(format);
  }

  /** `showSuccessToast.signInSuccess(name)`: an empty or absent name
      gives the generic greeting. */
  function SignInToast(name: Option<string>): (t: Toast)
    ensures t.variant == Typed(Success) && t.duration == Some(4000) && t.title == "Welcome Back!"
    ensures name.Some? && name.value != [] ==> t.description == Some("Hello " + name.value)
    ensures name.None? || name.value == [] ==> t.description == Some("You have been signed in successfully.")
  {
    Show(Success, "Welcome Back!",
      Some(if name.Some? && name.value != [] then "Hello " + name.value else "You have been signed in successfully."))
  }

  /** The success toast of the bulk-action bar after the request went
      through: the count, the word, then what happened. */
  function BulkBarSuccess(complete: bool, n: nat): (t: Toast)
    ensures t.variant == Typed(Success) && t.description.None? && t.duration.None?
    ensures NatToString(n) + " " + Plural(n, "task", "tasks") <= t.title
    ensures complete ==> t.title[|NatToString(n) + " " + Plural(n, "task", "tasks")|..] == " marked as complete"
    ensures !complete ==> t.title[|NatToString(n) + " " + Plural(n, "task", "tasks")|..] == " deleted"
  {
    Toast(Typed(Success),
      NatToString(n) + " " + Plural(n, "task", "tasks") + (if complete then " marked as complete" else " deleted"),
      None, None, None)
  }

  /** For one todo the bar says `1 task`. */
  lemma BulkBarSuccessOne(complete: bool)
    ensures BulkBarSuccess(complete, 1).title == (if complete then "1 task marked as complete" else "1 task deleted")
  {
    assert NatToString(1) == "1" by {
      assert DigitChar(1) == '1';
    }
    OneTaskTexts();
  }

  lemma OneTaskTexts()
    ensures "1" + " " + "task" + " marked as complete" == "1 task marked as complete"
    ensures "1" + " " + "task" + " deleted" == "1 task deleted"
  {
  }

  /** The error toast of the bulk-action bar when the request failed. */
  function BulkBarFailure(complete: bool): (t: Toast)
    ensures t.variant == Typed(Error) && t.description.None? && t.duration.None?
    ensures complete ==> t.title == "Failed to complete selected todos"
    ensures !complete ==> t.title == "Failed to delete selected todos"
  {
    FailureTexts();
    Toast(Typed(Error), "Failed to " + (if complete then "complete" else "delete") + " selected todos", None, None, None)
  }

  lemma FailureTexts()
    ensures "Failed to " + "complete" + " selected todos" == "Failed to complete selected todos"
    ensures "Failed to " + "delete" + " selected todos" == "Failed to delete selected todos"
  {
  }

  /** The two pluralisations disagree only about zero: the library says
      `0 task`, the bulk-action bar `0 tasks`. */
  lemma PluralisationsAgreeExceptZero(n: nat)
    ensures ("task" + PluralS(n) == Plural(n, "task", "tasks")) <==> n != 0
  {
    if n == 0 {
      assert ("task" + PluralS(n))[..] != "tasks";
    }
  }

  /** The toast the toast provider raises for an event, if any: due
      tasks for everybody, registrations and todo activity for
      administrators only. */
  function ProviderToast(session: Session, e: Event): (t: Option<Toast>)
    ensures session.None? ==> t.None?
    ensures t.Some? ==> t.value.variant == Plain && t.value.description.Some?
    ensures t.Some? && !e.TaskDue? ==> session.Some? && session.value.IsAdmin()
    ensures session.Some? && e.TaskDue? ==> t == Some(Toast(Plain, e.title, Some("Task " + e.taskId + " is due on " + e.dueDate), None, None))
    ensures session.Some? && session.value.IsAdmin() && (e.UserRegistered? || e.RecentTodo?) ==> t.Some?
    ensures t.Some? ==> e.TaskDue? || e.UserRegistered? || e.RecentTodo?
    ensures session.Some? && session.value.IsAdmin() && e.RecentTodo? && !e.todoAction.OtherAction? ==>
      t.value.description == Some(e.todoTitle + " by " + Notify.NameOrNull(e.ownerName))
  {
    if session.None? then None
    else
      match e
      case TaskDue(taskId, title, dueDate) =>
        Some(Toast(Plain, title, Some("Task " + taskId + " is due on " + dueDate), None, None))
      case UserRegistered(_, userName, userEmail, _) =>
        if session.value.IsAdmin() then
          Some(Toast(Plain, "New User Registration",
            Some(userName + " (" + userEmail + ") has registered and is awaiting approval."), None, None))
        else None
      case RecentTodo(_, todoTitle, _, ownerName, action, _) =>
        if session.value.IsAdmin() then
          var title := match action
            case Created => "New Todo Created"
            case Updated => "Todo Updated"
            case Completed => "Todo Completed"
            case Deleted => "Todo Deleted"
            case OtherAction(_) => "";
          var description := if action.OtherAction? then "" else todoTitle + " by " + Notify.NameOrNull(ownerName);
          Some(Toast(Plain, title, Some(description), None, None))
        else None
      case _ => None
  }

  /** For every `recent-todo` update the server sends, the toast's title
      is the title of the notification the server sends alongside it. */
  lemma ProviderToastMatchesServerTitle(p: Principal, todoId: nat, todoTitle: string, todoUserId: nat, ownerName: Option<string>, action: TodoAction, now: int)
    requires p.IsAdmin()
    ensures ProviderToast(Some(p), RecentTodo(todoId, todoTitle, todoUserId, ownerName, action, now)).value.title
         == Notify.RecentTodoText(action, Notify.NameOrNull(ownerName), todoTitle).0
  {
  }

  /** The toast the notification provider raises for a `notification`
      event: with the action button when the action has a URL. */
  function NotificationToast(title: string, message: string, action: Option<Link>): (t: Toast)
    ensures t.variant == Plain && t.title == title && t.description == Some(message)
    ensures t.action.Some? <==> action.Some? && action.value.url != []
  {
    Toast(Plain, title, Some(message), if action.Some? && action.value.url != [] then action else None, None)
  }
}
