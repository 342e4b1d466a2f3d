/** The administrator's statistics cards: the figures the admin page
    computes from the database, and the live updates the statistics
    component applies to them as events arrive.  `Math.round` of the
    percentage is taken on exact rationals. */
module Stats {
  import opened Wrappers
  import opened Schema
  import opened Events

  /** `Stats` as the component holds it. */
  datatype Stats = Stats(
    totalUsers: int,
    pendingUsers: int,
    totalTodos: int,
    completedTodos: int,
    completionRate: int)

  /** `Math.round((c / t) * 100)` for `t > 0`: the integer nearest to
      `100 c / t`, halves rounded up. */
  function RoundPercent(c: int, t: int): (r: int)
    requires t > 0
    ensures 2 * t * r <= 200 * c + t < 2 * t * r + 2 * t
  {
    (200 * c + t) / (2 * t)
  }

  /** The completion rate, 0 when there are no todos, otherwise the
      percentage rounded to the nearest integer with halves up. */
  function Rate(completed: int, total: int): (r: int)
    ensures total <= 0 ==> r == 0
    ensures total > 0 ==> 2 * total * r <= 200 * completed + total < 2 * total * r + 2 * total
  {
    if total > 0 then RoundPercent(completed, total) else 0
  }

  lemma CancelLe(t: int, a: int, b: int)
    requires t > 0 && t * a <= t * b
    ensures a <= b
  {
    assert t * (b - a) >= 0;
  }

  /** A rate over a count no larger than its total is a percentage. */
  lemma RateIsPercentage(completed: int, total: int)
    requires 0 <= completed <= total
    ensures 0 <= Rate(completed, total) <= 100
    ensures completed == total && total > 0 ==> Rate(completed, total) == 100
    ensures completed == 0 ==> Rate(completed, total) == 0
  {
    if total > 0 {
      var r := RoundPercent(completed, total);
      var t := total;
      assert t * (2 * r) <= t * 201 by {
        assert 2 * t * r <= 200 * completed + t;
        assert 200 * completed <= 200 * t;
      }
      CancelLe(t, 2 * r, 201);
      assert t * 0 <= t * (2 * r + 1) by {
        assert 200 * completed + t < 2 * t * r + 2 * t;
        assert 2 * t * r + 2 * t == t * (2 * r + 2);
      }
      CancelLe(t, 0, 2 * r + 1);
      if completed == t {
        assert t * 200 <= t * (2 * r + 1) by {
          assert 201 * t < 2 * t * r + 2 * t;
        }
        CancelLe(t, 200, 2 * r + 1);
      }
      if completed == 0 {
        assert t * (2 * r) <= t * 1 by {
          assert 2 * t * r <= t;
        }
        CancelLe(t, 2 * r, 1);
      }
    }
  }

  /** The counts the admin page reads from the database. */
  datatype Counts = Counts(users: nat, pending: nat, todos: nat, completed: nat)
  {
    /** Pending users are users; completed todos are todos. */
    predicate Valid() {
      pending <= users && completed <= todos
    }
  }

  /** The statistics the admin page renders for the given counts. */
  function StatsOf(c: Counts): Stats {
    Stats(c.users, c.pending, c.todos, c.completed, Rate(c.completed, c.todos))
  }

  function Max0(x: int): (r: int)
    ensures r >= 0 && r >= x && (x >= 0 ==> r == x)
  {
    if x > 0 then x else 0
  }

  /** The component's handler for one event; events it does not bind
      leave the statistics unchanged. */
  function Apply(s: Stats, e: Event): (r: Stats)
    ensures r.totalUsers == s.totalUsers + (if e.UserRegistered? then 1 else 0)
    ensures !(e.UserRegistered? || e.UserApproved? || e.TodoCreated? || e.TodoCompleted? || e.TodoDeleted?) ==> r == s
    ensures e.UserRegistered? || e.UserApproved? ==>
      r.totalTodos == s.totalTodos && r.completedTodos == s.completedTodos && r.completionRate == s.completionRate
    ensures e.TodoCreated? || e.TodoCompleted? || e.TodoDeleted? ==>
      r.totalUsers == s.totalUsers && r.pendingUsers == s.pendingUsers
      && r.completionRate == Rate(r.completedTodos, r.totalTodos)
    ensures e.UserRegistered? ==> r.pendingUsers == s.pendingUsers + 1
    ensures e.UserApproved? ==> r.pendingUsers == Max0(s.pendingUsers - 1)
    ensures e.TodoCreated? ==> r.totalTodos == s.totalTodos + 1 && r.completedTodos == s.completedTodos
    ensures e.TodoCompleted? ==> r.totalTodos == s.totalTodos
    ensures e.TodoCompleted? && e.completed ==> r.completedTodos == s.completedTodos + 1
    ensures e.TodoCompleted? && !e.completed ==> r.completedTodos == Max0(s.completedTodos - 1)
    ensures e.TodoDeleted? ==> r.totalTodos == Max0(s.totalTodos - 1)
    ensures e.TodoDeleted? && e.wasCompleted ==> r.completedTodos == Max0(s.completedTodos - 1)
    ensures e.TodoDeleted? && !e.wasCompleted ==> r.completedTodos == s.completedTodos
  {
    match e
    case UserRegistered(_, _, _, _) =>
      s.(totalUsers := s.totalUsers + 1, pendingUsers := s.pendingUsers + 1)
    case UserApproved(_) =>
      s.(pendingUsers := Max0(s.pendingUsers - 1))
    case TodoCreated =>
      var total := s.totalTodos + 1;
      s.(totalTodos := total, completionRate := Rate(s.completedTodos, total))
    case TodoCompleted(_, _, completed) =>
      var done := if completed then s.completedTodos + 1 else Max0(s.completedTodos - 1);
      s.(completedTodos := done, completionRate := Rate(done, s.totalTodos))
    case TodoDeleted(wasCompleted) =>
      var total := Max0(s.totalTodos - 1);
      var done := if wasCompleted then Max0(s.completedTodos - 1) else s.completedTodos;
      s.(totalTodos := total, completedTodos := done, completionRate := Rate(done, total))
    case _ => s
  }

  /** The user events keep the pending figure within the user figure. */
  lemma UserEventsKeepPendingBounded(s: Stats, e: Event)
    requires 0 <= s.pendingUsers <= s.totalUsers
    requires e.UserRegistered? || e.UserApproved?
    ensures 0 <= Apply(s, e).pendingUsers <= Apply(s, e).totalUsers
  {
  }

  /** The reducer does not keep completed todos within the total: a
      `todo-completed` for a todo the figures never counted pushes the
      completed figure past it. */
  lemma CompletedMayExceedTotal()
    ensures var s := Apply(Stats(0, 0, 0, 0, 0), TodoCompleted(1, 1, true));
      s.completedTodos > s.totalTodos && s.completionRate == 0
  {
  }

  /** All four counts non-negative. */
  predicate NonNegative(s: Stats) {
    s.totalUsers >= 0 && s.pendingUsers >= 0 && s.totalTodos >= 0 && s.completedTodos >= 0
  }

  /** The clamps keep every count non-negative, whatever arrives. */
  lemma ApplyKeepsNonNegative(s: Stats, e: Event)
    requires NonNegative(s)
    ensures NonNegative(Apply(s, e))
  {
  }

  /** `e` is the event the server would publish for the database change
      from `c` to `c2`, or an event that does not concern the figures
      while they stay put. */
  predicate Mirrors(c: Counts, e: Event, c2: Counts) {
    match e
    case UserRegistered(_, _, _, _) => c2 == c.(users := c.users + 1, pending := c.pending + 1)
    case UserApproved(_) => c.pending > 0 && c2 == c.(pending := c.pending - 1)
    case TodoCreated => c2 == c.(todos := c.todos + 1)
    case TodoCompleted(_, _, completed) =>
      if completed then c.completed < c.todos && c2 == c.(completed := c.completed + 1)
      else c.completed > 0 && c2 == c.(completed := c.completed - 1)
    case TodoDeleted(wasCompleted) =>
      c.todos > 0 &&
      if wasCompleted then c.completed > 0 && c2 == c.(todos := c.todos - 1, completed := c.completed - 1)
      else c.completed < c.todos && c2 == c.(todos := c.todos - 1)
    case _ => c2 == c
  }

  /** A mirrored change keeps the counts valid. */
  lemma MirrorsKeepsValid(c: Counts, e: Event, c2: Counts)
    requires c.Valid() && Mirrors(c, e, c2)
    ensures c2.Valid()
  {
  }

  /** The live update agrees with re-reading the database: applying the
      event for a change to the figures of the old counts gives the
      figures of the new counts. */
  lemma ApplyTracksDatabase(c: Counts, e: Event, c2: Counts)
    requires c.Valid() && Mirrors(c, e, c2)
    ensures Apply(StatsOf(c), e) == StatsOf(c2)
  {
  }

  /** The handler folded over a sequence of events, in arrival order. */
  function ApplyAll(s: Stats, es: seq<Event>): Stats
    decreases |es|
  {
    if es == [] then s else ApplyAll(Apply(s, es[0]), es[1..])
  }

  /** A history of database changes, each with the event it published. */
  predicate Trace(cs: seq<Counts>, es: seq<Event>) {
    |cs| == |es| + 1 && forall i :: 0 <= i < |es| ==> Mirrors(cs[i], es[i], cs[i + 1])
  }

  /** Over any history that starts from valid counts, the live figures
      equal the figures of the last counts. */
  lemma {:induction false} ApplyAllTracksDatabase(cs: seq<Counts>, es: seq<Event>)
    requires Trace(cs, es) && cs[0].Valid()
    ensures ApplyAll(StatsOf(cs[0]), es) == StatsOf(cs[|cs| - 1])
    decreases |es|
  {
    if es != [] {
      ApplyTracksDatabase(cs[0], es[0], cs[1]);
      MirrorsKeepsValid(cs[0], es[0], cs[1]);
      assert Trace(cs[1..], es[1..]) by {
        forall i | 0 <= i < |es[1..]| ensures Mirrors(cs[1..][i], es[1..][i], cs[1..][i + 1]) {
          assert cs[1..][i] == cs[i + 1] && cs[1..][i + 1] == cs[i + 2] && es[1..][i] == es[i + 1];
        }
      }
      ApplyAllTracksDatabase(cs[1..], es[1..]);
    }
  }

  /** An event the statistics component does not bind. */
  predicate Inert(e: Event) {
    !(e.UserRegistered? || e.UserApproved? || e.TodoCreated? || e.TodoCompleted? || e.TodoDeleted?)
  }

  /** Folding over two batches is folding over the first, then the second. */
  lemma {:induction false} ApplyAllAppend(s: Stats, a: seq<Event>, b: seq<Event>)
    ensures ApplyAll(s, a + b) == ApplyAll(ApplyAll(s, a), b)
    decreases |a|
  {
    if a == [] {
      assert a + b == b;
    } else {
      assert (a + b)[1..] == a[1..] + b;
      ApplyAllAppend(Apply(s, a[0]), a[1..], b);
    }
  }

  /** Events the component does not bind leave the figures alone. */
  lemma {:induction false} ApplyAllInert(s: Stats, es: seq<Event>)
    requires forall i :: 0 <= i < |es| ==> Inert(es[i])
    ensures ApplyAll(s, es) == s
    decreases |es|
  {
    if es != [] {
      ApplyAllInert(s, es[1..]);
    }
  }

  /** The component reacts only while someone is signed in. */
  function OnEvent(session: Session, s: Stats, e: Event): (r: Stats)
    ensures session.None? ==> r == s
    ensures session.Some? ==> r == Apply(s, e)
  {
    if session.None? then s else Apply(s, e)
  }

  /** Applying a two-event list is applying the events in turn. */
  lemma ApplyPair(s: Stats, a: Event, b: Event)
    ensures ApplyAll(s, [a, b]) == Apply(Apply(s, a), b)
  {
    assert [a, b][1..] == [b];
    assert [b][1..] == [];
    assert ApplyAll(s, [a, b]) == ApplyAll(Apply(s, a), [b]);
    assert ApplyAll(Apply(s, a), [b]) == ApplyAll(Apply(Apply(s, a), b), []);
  }
}
