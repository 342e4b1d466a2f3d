/** The administrator's "Recent Todos" card: a short feed of todos, newest
    first, kept up to date by `recent-todo` events.  A creation puts the
    todo in front and keeps at most ten entries; an update renames, a
    completion ticks and a deletion drops the entries with the event's id. */
module Feed {
  import opened Wrappers
  import opened Schema
  import opened Events
  import Seqs
  import Notify

  /** The most entries the card keeps after a creation. */
  const Capacity: nat := 10

  /** A feed entry; `userEmail` holds whatever name the event carried. */
  datatype Item = Item(
    id: nat,
    title: string,
    description: Option<string>,
    completed: bool,
    dueDate: Option<int>,
    createdAt: int,
    userEmail: Option<string>)

  function ItemId(t: Item): nat {
    t.id
  }

  predicate Present(feed: seq<Item>, id: nat) {
    Seqs.HasKey(feed, ItemId, id)
  }

  function Min(a: nat, b: nat): nat {
    if a <= b then a else b
  }

  /** The `created` case: a todo already in the feed leaves it alone;
      otherwise the new entry (not completed, no description or due date)
      goes in front of the first nine old ones. */
  function Create(feed: seq<Item>, id: nat, title: string, owner: Option<string>, timestamp: int): (r: seq<Item>)
    ensures Present(feed, id) ==> r == feed
    ensures !Present(feed, id) ==>
      |r| == 1 + Min(|feed|, Capacity - 1)
      && r[0] == Item(id, title, None, false, None, timestamp, owner)
      && r[1..] == feed[..|r| - 1]
  {
    if Present(feed, id) then feed
    else [Item(id, title, None, false, None, timestamp, owner)] + feed[..Min(|feed|, Capacity - 1)]
  }

  /** The `updated` case: entries with the id take the new title. */
  function Rename(feed: seq<Item>, id: nat, title: string): (r: seq<Item>)
    ensures |r| == |feed|
    ensures forall i :: 0 <= i < |feed| ==>
      r[i] == (if feed[i].id == id then feed[i].(title := title) else feed[i])
  {
    seq(|feed|, i requires 0 <= i < |feed| => if feed[i].id == id then feed[i].(title := title) else feed[i])
  }

  /** The `completed` case: entries with the id are marked completed. */
  function Complete(feed: seq<Item>, id: nat): (r: seq<Item>)
    ensures |r| == |feed|
    ensures forall i :: 0 <= i < |feed| ==>
      r[i] == (if feed[i].id == id then feed[i].(completed := true) else feed[i])
  {
    seq(|feed|, i requires 0 <= i < |feed| => if feed[i].id == id then feed[i].(completed := true) else feed[i])
  }

  /** The `deleted` case: entries with the id leave the feed. */
  function Remove(feed: seq<Item>, id: nat): (r: seq<Item>)
    ensures !Present(r, id)
    ensures forall t :: t in feed && t.id != id ==> t in r
    ensures forall t :: t in r ==> t in feed
    ensures Seqs.IsSubseq(r, feed)
  {
    Seqs.RemoveKey(feed, ItemId, id)
  }

  /** `handleRecentTodo`: dispatch on the action; an action the card does
      not know leaves the feed as it is. */
  function HandleRecentTodo(feed: seq<Item>, todoId: nat, todoTitle: string, owner: Option<string>, action: TodoAction, timestamp: int): (r: seq<Item>)
    ensures action.OtherAction? ==> r == feed
    ensures action.Updated? || action.Completed? ==> |r| == |feed| && forall i :: 0 <= i < |r| ==> r[i].id == feed[i].id
    ensures action.Deleted? ==> !Present(r, todoId) && Seqs.IsSubseq(r, feed)
    ensures action.Created? ==> Present(r, todoId) && (r == feed || |r| <= Capacity)
  {
    match action
    case Created => Create(feed, todoId, todoTitle, owner, timestamp)
    case Updated => Rename(feed, todoId, todoTitle)
    case Completed => Complete(feed, todoId)
    case Deleted => Remove(feed, todoId)
    case OtherAction(_) => feed
  }

  /** The card subscribes only for a signed-in administrator and binds only
      `recent-todo`. */
  function OnEvent(session: Session, feed: seq<Item>, e: Event): (r: seq<Item>)
    ensures !(session.Some? && session.value.IsAdmin() && e.RecentTodo?) ==> r == feed
  {
    if session.Some? && session.value.IsAdmin() then
      match e
      case RecentTodo(todoId, todoTitle, _, owner, action, timestamp) =>
        HandleRecentTodo(feed, todoId, todoTitle, owner, action, timestamp)
      case _ => feed
    else feed
  }

  /** Renaming keeps ids and completion flags, entry by entry. */
  lemma RenameKeepsShape(feed: seq<Item>, id: nat, title: string)
    ensures forall i :: 0 <= i < |feed| ==>
      Rename(feed, id, title)[i].id == feed[i].id && Rename(feed, id, title)[i].completed == feed[i].completed
  {
  }

  /** Completing twice is completing once. */
  lemma CompleteIdempotent(feed: seq<Item>, id: nat)
    ensures Complete(Complete(feed, id), id) == Complete(feed, id)
  {
  }

  /** Every handler leaves a feed of at most ten entries at most ten long. */
  lemma HandleKeepsBound(feed: seq<Item>, todoId: nat, todoTitle: string, owner: Option<string>, action: TodoAction, timestamp: int)
    requires |feed| <= Capacity
    ensures |HandleRecentTodo(feed, todoId, todoTitle, owner, action, timestamp)| <= Capacity
  {
  }

  lemma {:induction false} PrefixKeepsUnique(feed: seq<Item>, n: nat)
    requires n <= |feed| && Seqs.UniqueBy(feed, ItemId)
    ensures Seqs.UniqueBy(feed[..n], ItemId)
  {
    forall i, j | 0 <= i < j < n ensures ItemId(feed[..n][i]) != ItemId(feed[..n][j]) {
      assert feed[..n][i] == feed[i] && feed[..n][j] == feed[j];
    }
  }

  /** A created entry is new to the feed, so ids stay unique. */
  lemma {:induction false} CreateKeepsUnique(feed: seq<Item>, id: nat, title: string, owner: Option<string>, timestamp: int)
    requires Seqs.UniqueBy(feed, ItemId)
    ensures Seqs.UniqueBy(Create(feed, id, title, owner, timestamp), ItemId)
  {
    if !Present(feed, id) {
      var r := Create(feed, id, title, owner, timestamp);
      var n := |r| - 1;
      PrefixKeepsUnique(feed, n);
      forall i, j | 0 <= i < j < |r| ensures ItemId(r[i]) != ItemId(r[j]) {
        assert r[j] == feed[j - 1];
        if i > 0 {
          assert r[i] == feed[i - 1];
        } else {
          assert ItemId(feed[j - 1]) != id;
        }
      }
    }
  }

  /** If ids are unique before an event, they are unique after it. */
  lemma {:induction false} HandleKeepsUnique(feed: seq<Item>, todoId: nat, todoTitle: string, owner: Option<string>, action: TodoAction, timestamp: int)
    requires Seqs.UniqueBy(feed, ItemId)
    ensures Seqs.UniqueBy(HandleRecentTodo(feed, todoId, todoTitle, owner, action, timestamp), ItemId)
  {
    match action
    case Created => CreateKeepsUnique(feed, todoId, todoTitle, owner, timestamp);
    case Updated =>
      var r := Rename(feed, todoId, todoTitle);
      forall i, j | 0 <= i < j < |r| ensures ItemId(r[i]) != ItemId(r[j]) {
        assert r[i].id == feed[i].id && r[j].id == feed[j].id;
      }
    case Completed =>
      var r := Complete(feed, todoId);
      forall i, j | 0 <= i < j < |r| ensures ItemId(r[i]) != ItemId(r[j]) {
        assert r[i].id == feed[i].id && r[j].id == feed[j].id;
      }
    case Deleted => Seqs.RemoveKeyKeepsUnique(feed, ItemId, todoId);
    case OtherAction(_) =>
  }

  /** What each action leaves in the feed about its todo: after `created`
      the todo is there, after `deleted` it is gone, after `completed`
      every entry for it is completed and after `updated` every entry for
      it has the new title. */
  lemma HandleEffect(feed: seq<Item>, todoId: nat, todoTitle: string, owner: Option<string>, action: TodoAction, timestamp: int)
    ensures var r := HandleRecentTodo(feed, todoId, todoTitle, owner, action, timestamp);
      && (action == Created ==> Present(r, todoId))
      && (action == Deleted ==> !Present(r, todoId))
      && (action == Completed ==> forall t :: t in r && t.id == todoId ==> t.completed)
      && (action == Updated ==> forall t :: t in r && t.id == todoId ==> t.title == todoTitle)
  {
    var r := HandleRecentTodo(feed, todoId, todoTitle, owner, action, timestamp);
    if action == Created {
      if !Present(feed, todoId) {
        assert ItemId(r[0]) == todoId;
      }
    }
  }

  /** The feed an administrator sees follows the server: of the two events
      each administrator receives for a todo action, the notification
      leaves the feed alone and the update applies the action. */
  lemma FeedFollowsServer(p: Principal, feed: seq<Item>, todoId: nat, todoTitle: string, todoUserId: nat, owner: Option<string>, action: TodoAction, now: int)
    requires p.IsAdmin()
    ensures var es := Notify.RecentTodoEvents(todoId, todoTitle, todoUserId, owner, action, now);
      OnEvent(Some(p), OnEvent(Some(p), feed, es[0]), es[1])
      == HandleRecentTodo(feed, todoId, todoTitle, owner, action, now)
  {
  }
}
