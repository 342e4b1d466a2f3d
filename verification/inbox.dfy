/** The notification centre of a signed-in client: the list of received
    notifications (newest first), marking one read, removing one or all,
    the unread count, and what a received event adds to the list.  The
    random id and the clock reading of a new entry are parameters. */
module Inbox {
  import opened Wrappers
  import opened Schema
  import opened Events
  import opened Toasts
  import Seqs

  /** A stored notification. */
  datatype Entry = Entry(
    id: string,
    kind: Kind,
    title: string,
    message: string,
    action: Option<Link>,
    timestamp: int,
    read: bool)

  function EntryId(n: Entry): string {
    n.id
  }

  predicate IsUnread(n: Entry) {
    !n.read
  }

  /** `unreadCount`: `notifications.filter(n => !n.read).length`. */
  function UnreadCount(ns: seq<Entry>): (c: nat)
    ensures c <= |ns|
  {
    Seqs.Count(ns, IsUnread)
  }

  /** `addNotification`: the new entry, unread, goes in front. */
  function Add(ns: seq<Entry>, id: string, now: int, kind: Kind, title: string, message: string, action: Option<Link>): (r: seq<Entry>)
    ensures |r| == |ns| + 1 && r[1..] == ns
    ensures r[0].id == id && !r[0].read && r[0].timestamp == now
  {
    [Entry(id, kind, title, message, action, now, false)] + ns
  }

  /** Adding a notification raises the unread count by one. */
  lemma AddRaisesUnread(ns: seq<Entry>, id: string, now: int, kind: Kind, title: string, message: string, action: Option<Link>)
    ensures UnreadCount(Add(ns, id, now, kind, title, message, action)) == UnreadCount(ns) + 1
  {
    var r := Add(ns, id, now, kind, title, message, action);
    assert r[1..] == ns;
  }

  /** `markAsRead(id)`: every entry with that id becomes read; the rest
      and the order stay as they were. */
  function MarkAsRead(ns: seq<Entry>, id: string): (r: seq<Entry>)
    ensures |r| == |ns|
    ensures forall i :: 0 <= i < |ns| ==> r[i] == (if ns[i].id == id then ns[i].(read := true) else ns[i])
  {
    seq(|ns|, i requires 0 <= i < |ns| => if ns[i].id == id then ns[i].(read := true) else ns[i])
  }

  /** Unread entries carrying `id`. */
  function UnreadWithId(ns: seq<Entry>, id: string): nat {
    if ns == [] then 0 else (if ns[0].id == id && !ns[0].read then 1 else 0) + UnreadWithId(ns[1..], id)
  }

  /** Marking an id read lowers the unread count by exactly the number of
      unread entries with that id. */
  lemma {:induction false} MarkAsReadLowersUnread(ns: seq<Entry>, id: string)
    ensures UnreadCount(MarkAsRead(ns, id)) == UnreadCount(ns) - UnreadWithId(ns, id)
  {
    if ns != [] {
      var r := MarkAsRead(ns, id);
      assert r[1..] == MarkAsRead(ns[1..], id);
      MarkAsReadLowersUnread(ns[1..], id);
    }
  }

  /** Marking read twice is marking read once. */
  lemma MarkAsReadIdempotent(ns: seq<Entry>, id: string)
    ensures MarkAsRead(MarkAsRead(ns, id), id) == MarkAsRead(ns, id)
  {
  }

  /** `clearNotification(id)`: every entry with that id is removed. */
  function Clear(ns: seq<Entry>, id: string): (r: seq<Entry>)
    ensures !Seqs.HasKey(r, EntryId, id)
    ensures forall n :: n in ns && n.id != id ==> n in r
    ensures forall n :: n in r ==> n in ns
    ensures Seqs.IsSubseq(r, ns)
  {
    Seqs.RemoveKey(ns, EntryId, id)
  }

  /** Removing entries never raises the unread count. */
  lemma {:induction false} ClearKeepsUnreadBounded(ns: seq<Entry>, id: string)
    ensures UnreadCount(Clear(ns, id)) <= UnreadCount(ns)
  {
    SubseqCountBounded(Clear(ns, id), ns);
  }

  lemma {:induction false} SubseqCountBounded(a: seq<Entry>, b: seq<Entry>)
    requires Seqs.IsSubseq(a, b)
    ensures UnreadCount(a) <= UnreadCount(b)
    decreases |b|
  {
    if a != [] {
      if a[0] == b[0] && Seqs.IsSubseq(a[1..], b[1..]) {
        SubseqCountBounded(a[1..], b[1..]);
      } else {
        SubseqCountBounded(a, b[1..]);
      }
    }
  }

  /** `clearAllNotifications()`. */
  function ClearAll(ns: seq<Entry>): (r: seq<Entry>)
    ensures r == [] && UnreadCount(r) == 0
  {
    []
  }

  /** What the provider does with an event received on one of its
      channels: `notification` (user channel) is stored and toasted,
      `admin-notification` (admin channel, administrators only) is
      stored; a missing type becomes `info`.  Nothing happens without a
      session. */
  function Receive(session: Session, ns: seq<Entry>, e: Event, id: string, now: int): (r: (seq<Entry>, Option<Toast>))
    ensures session.None? ==> r == (ns, None)
    ensures r.0 == ns || (|r.0| == |ns| + 1 && r.0[1..] == ns && r.0[0].id == id && !r.0[0].read)
    ensures r.1.Some? ==> e.Notification? && r.1.value.title == e.title
    ensures session.Some? && e.Notification? ==>
      r.0 == [Entry(id, e.kind.GetOr(Info), e.title, e.message, e.action, now, false)] + ns && r.1.Some?
    ensures session.Some? && e.AdminNotification? ==>
      r.1.None? && (|r.0| == |ns| + 1 <==> session.value.IsAdmin())
    ensures session.Some? && e.AdminNotification? && session.value.IsAdmin() ==> r.0[0].kind == e.kind.GetOr(Info)
    ensures !(e.Notification? || e.AdminNotification?) ==> r == (ns, None)
  {
    if session.None? then (ns, None)
    else
      match e
      case Notification(kind, title, message, action) =>
        (Add(ns, id, now, kind.GetOr(Info), title, message, action), Some(NotificationToast(title, message, action)))
      case AdminNotification(kind, title, message, action) =>
        if session.value.IsAdmin() then (Add(ns, id, now, kind.GetOr(Info), title, message, action), None)
        else (ns, None)
      case _ => (ns, None)
  }
}
