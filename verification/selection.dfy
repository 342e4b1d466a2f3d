/** Selecting todos for a bulk action on the dashboard list, and the
    bulk-action bar that sends the selection to the server: the selected
    ids in click order, the select-all flag, whether selection mode is on,
    and the run of one bulk action. */
module Selection {
  import opened Wrappers
  import opened Events
  import Seqs
  import Toasts

  /** The list's selection state. */
  datatype Selection = Selection(ids: seq<nat>, selectAll: bool, selecting: bool)

  function NotEqual(id: nat): nat -> bool {
    x => x != id
  }

  /** `toggleSelectAll`: anything selected (or the flag set) clears the
      selection; otherwise every todo is selected. */
  function ToggleSelectAll(s: Selection, todoIds: seq<nat>): (r: Selection)
    ensures r.selecting == s.selecting
    ensures s.selectAll || s.ids != [] ==> r.ids == [] && !r.selectAll
    ensures !(s.selectAll || s.ids != []) ==> r.ids == todoIds && r.selectAll
  {
    if s.selectAll || |s.ids| > 0 then s.(ids := [], selectAll := false)
    else s.(ids := todoIds, selectAll := true)
  }

  /** `toggleTodoSelection(id)` on the id list: a selected id is dropped
      (every copy of it), any other id is appended. */
  function Toggle(ids: seq<nat>, id: nat): (r: seq<nat>)
    ensures id in ids ==> id !in r && Seqs.IsSubseq(r, ids) && (forall x :: x in ids && x != id ==> x in r)
    ensures id !in ids ==> r == ids + [id]
  {
    if id in ids then Seqs.Filter(ids, NotEqual(id)) else ids + [id]
  }

  /** `toggleTodoSelection(id)`: toggles the id and clears the select-all flag. */
  function ToggleTodo(s: Selection, id: nat): (r: Selection)
    ensures r.ids == Toggle(s.ids, id) && !r.selectAll && r.selecting == s.selecting
    ensures id in r.ids <==> id !in s.ids
  {
    s.(ids := Toggle(s.ids, id), selectAll := false)
  }

  /** `handleBulkActionSuccess`: the selection empties; selection mode stays. */
  function AfterBulkSuccess(s: Selection): (r: Selection)
    ensures r.ids == [] && !r.selectAll && r.selecting == s.selecting
  {
    s.(ids := [], selectAll := false)
  }

  /** The Cancel button: the selection empties and selection mode ends. */
  function Cancel(s: Selection): (r: Selection)
    ensures r.ids == [] && !r.selectAll && !r.selecting
  {
    Selection([], false, false)
  }

  /** The header checkbox: ticked when the flag is set, or when the
      selection is as long as the list and not empty. */
  predicate HeaderChecked(s: Selection, todoCount: nat) {
    s.selectAll || (|s.ids| > 0 && |s.ids| == todoCount)
  }

  /** Whether the per-todo checkboxes, the count and the bar are shown. */
  predicate ShowsSelection(s: Selection) {
    s.selecting || |s.ids| > 0
  }

  lemma {:induction false} SubseqKeepsDistinct(a: seq<nat>, b: seq<nat>)
    requires Seqs.IsSubseq(a, b) && Seqs.Distinct(b)
    ensures Seqs.Distinct(a)
    decreases |b|
  {
    if a != [] {
      assert Seqs.Distinct(b[1..]) by {
        forall i, j | 0 <= i < j < |b[1..]| ensures b[1..][i] != b[1..][j] {
          assert b[1..][i] == b[i + 1] && b[1..][j] == b[j + 1];
        }
      }
      if a[0] == b[0] && Seqs.IsSubseq(a[1..], b[1..]) {
        SubseqKeepsDistinct(a[1..], b[1..]);
        Seqs.SubseqMembers(a[1..], b[1..]);
        forall i, j | 0 <= i < j < |a| ensures a[i] != a[j] {
          if i == 0 {
            assert a[j] == a[1..][j - 1];
            assert a[j] in b[1..];
          } else {
            assert a[i] == a[1..][i - 1] && a[j] == a[1..][j - 1];
          }
        }
      } else {
        SubseqKeepsDistinct(a, b[1..]);
      }
    }
  }

  /** Toggling never introduces a duplicate id. */
  lemma ToggleKeepsDistinct(ids: seq<nat>, id: nat)
    requires Seqs.Distinct(ids)
    ensures Seqs.Distinct(Toggle(ids, id))
  {
    if id in ids {
      SubseqKeepsDistinct(Toggle(ids, id), ids);
    }
  }

  /** Toggling an unselected id twice gives the selection back exactly. */
  lemma ToggleTwiceUnselected(ids: seq<nat>, id: nat)
    requires id !in ids
    ensures Toggle(Toggle(ids, id), id) == ids
  {
    var once := ids + [id];
    Seqs.FilterKeepsAll(ids, NotEqual(id));
    assert Seqs.Filter(once, NotEqual(id)) == ids by {
      FilterAppendDropped(ids, id);
    }
  }

  lemma {:induction false} FilterAppendDropped(ids: seq<nat>, id: nat)
    requires id !in ids
    ensures Seqs.Filter(ids + [id], NotEqual(id)) == ids
  {
    if ids == [] {
      assert [] + [id] == [id];
    } else {
      assert (ids + [id])[1..] == ids[1..] + [id];
      FilterAppendDropped(ids[1..], id);
    }
  }

  /** Toggling a selected id twice moves it to the end: with distinct ids
      the selection holds the same ids as before. */
  lemma ToggleTwiceSelected(ids: seq<nat>, id: nat)
    requires id in ids && Seqs.Distinct(ids)
    ensures forall x :: x in Toggle(Toggle(ids, id), id) <==> x in ids
    ensures Seqs.Distinct(Toggle(Toggle(ids, id), id))
  {
    ToggleKeepsDistinct(ids, id);
    ToggleKeepsDistinct(Toggle(ids, id), id);
    Seqs.SubseqMembers(Toggle(ids, id), ids);
  }

  /** The two bulk actions. */
  datatype BulkAction = CompleteSelected | DeleteSelected
  {
    function Name(): string {
      match this
      case CompleteSelected => "complete"
      case DeleteSelected => "delete"
    }
  }

  /** The body of `PATCH /api/todos/bulk`. */
  datatype BulkRequest = BulkRequest(ids: seq<nat>, action: BulkAction)

  /** One click on a bulk-action button: the request sent (if any), the
      toast shown (if any), whether `onSuccess` ran, and the bar's loading
      flag and current action afterwards. */
  datatype BulkRun = BulkRun(
    request: Option<BulkRequest>,
    toast: Option<Toasts.Toast>,
    succeeded: bool,
    loading: bool,
    current: Option<BulkAction>)

  /** `handleBulkAction(action)`, where `ok` is whether the server answered
      with a success status. */
  function RunBulkAction(selected: seq<nat>, action: BulkAction, ok: bool): (r: BulkRun)
    ensures selected == [] <==> r.request.None?
    ensures r.request.Some? ==> r.request.value == BulkRequest(selected, action)
    ensures r.succeeded <==> selected != [] && ok
    ensures r.toast.Some? <==> selected != []
    ensures r.toast.Some? ==> (r.toast.value.variant == Toasts.Typed(Success) <==> ok)
    ensures r.toast.Some? && !ok ==> r.toast.value.title == "Failed to " + action.Name() + " selected todos"
    ensures !r.loading && r.current.None?
  {
    if |selected| == 0 then BulkRun(None, None, false, false, None)
    else
      var complete := action == CompleteSelected;
      var toast := if ok then Toasts.BulkBarSuccess(complete, |selected|) else Toasts.BulkBarFailure(complete);
      BulkRun(Some(BulkRequest(selected, action)), Some(toast), ok, false, None)
  }

  /** The bar renders nothing for an empty selection. */
  predicate BarVisible(selected: seq<nat>) {
    |selected| > 0
  }

  /** A bulk action that went through leaves the list with nothing
      selected; one that failed leaves the selection as it was. */
  lemma BulkRunThenSelection(s: Selection, action: BulkAction, ok: bool)
    ensures var run := RunBulkAction(s.ids, action, ok);
      var after := if run.succeeded then AfterBulkSuccess(s) else s;
      (s.ids != [] && ok ==> after.ids == [] && forall n: nat :: !HeaderChecked(after, n))
      && (!ok ==> after == s)
  {
  }

  /** The bar's success message says `task` for exactly one selected todo. */
  lemma SuccessMessageSingular(id: nat, action: BulkAction)
    ensures RunBulkAction([id], action, true).toast.value.title
         == (if action == CompleteSelected then "1 task marked as complete" else "1 task deleted")
  {
    Toasts.BulkBarSuccessOne(action == CompleteSelected);
  }
}
