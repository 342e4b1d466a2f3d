/** The administrator's list of users awaiting approval: seeded from the
    database, newest first, then kept current by `user-registered` events
    (a new user goes in front) and by approvals and rejections, whether
    they arrive as a `user-approved` event or come from the card the
    administrator clicked. */
module Pending {
  import opened Wrappers
  import opened Schema
  import opened Events
  import Seqs
  import Notify

  predicate Listed(list: seq<User>, id: nat) {
    Seqs.HasKey(list, UserId, id)
  }

  /** The user the list shows for a registration: no password, not
      approved, role `user`. */
  function Registrant(userId: nat, userName: string, userEmail: string, timestamp: int): User {
    User(userId, Some(userName), userEmail, "", UserRole, false, timestamp)
  }

  /** `handleUserRegistered`: a user already listed leaves the list alone;
      otherwise the registrant goes in front. */
  function Register(list: seq<User>, userId: nat, userName: string, userEmail: string, timestamp: int): (r: seq<User>)
    ensures Listed(list, userId) ==> r == list
    ensures !Listed(list, userId) ==> |r| == |list| + 1 && r[1..] == list
    ensures !Listed(list, userId) ==> r[0] == Registrant(userId, userName, userEmail, timestamp)
    ensures Listed(r, userId)
  {
    if Listed(list, userId) then list
    else
      var r := [Registrant(userId, userName, userEmail, timestamp)] + list;
      assert UserId(r[0]) == userId;
      r
  }

  /** `handleUserApproved` and `handleUserUpdate`: the user leaves the list;
      the others stay in order. */
  function Resolve(list: seq<User>, userId: nat): (r: seq<User>)
    ensures !Listed(r, userId)
    ensures forall u :: u in list && u.id != userId ==> u in r
    ensures forall u :: u in r ==> u in list
    ensures Seqs.IsSubseq(r, list)
    ensures !Listed(list, userId) ==> r == list
  {
    Seqs.RemoveKey(list, UserId, userId)
  }

  /** The list subscribes only for a signed-in administrator, and binds
      `user-registered` and `user-approved`. */
  function OnEvent(session: Session, list: seq<User>, e: Event): (r: seq<User>)
    ensures !(session.Some? && session.value.IsAdmin() && (e.UserRegistered? || e.UserApproved?)) ==> r == list
  {
    if session.Some? && session.value.IsAdmin() then
      match e
      case UserRegistered(userId, userName, userEmail, timestamp) => Register(list, userId, userName, userEmail, timestamp)
      case UserApproved(userId) => Resolve(list, userId)
      case _ => list
    else list
  }

  /** Every listed user awaits approval. */
  predicate AllPending(list: seq<User>) {
    forall i :: 0 <= i < |list| ==> !list[i].approved
  }

  /** Every event keeps the list free of duplicates and of approved users. */
  lemma {:induction false} OnEventKeepsInvariant(session: Session, list: seq<User>, e: Event)
    requires Seqs.UniqueBy(list, UserId) && AllPending(list)
    ensures Seqs.UniqueBy(OnEvent(session, list, e), UserId) && AllPending(OnEvent(session, list, e))
  {
    var r := OnEvent(session, list, e);
    if r != list {
      if e.UserRegistered? {
        forall i, j | 0 <= i < j < |r| ensures UserId(r[i]) != UserId(r[j]) {
          assert r[j] == list[j - 1];
          if i > 0 {
            assert r[i] == list[i - 1];
          } else {
            assert UserId(list[j - 1]) != e.userId;
          }
        }
        forall i | 0 <= i < |r| ensures !r[i].approved {
          if i > 0 {
            assert r[i] == list[i - 1];
          }
        }
      } else {
        Seqs.RemoveKeyKeepsUnique(list, UserId, e.userId);
        forall i | 0 <= i < |r| ensures !r[i].approved {
          assert r[i] in list;
        }
      }
    }
  }

  /** A registration the server announces shows up in the list of every
      administrator: of the two events each one receives, the notification
      leaves the list alone and the update registers the user. */
  lemma ListFollowsServer(p: Principal, list: seq<User>, userName: string, userEmail: string, userId: nat, now: int)
    requires p.IsAdmin()
    ensures var es := Notify.NewUserEvents(userName, userEmail, userId, now);
      var r := OnEvent(Some(p), OnEvent(Some(p), list, es[0]), es[1]);
      Listed(r, userId) && (!Listed(list, userId) ==> r[0] == Registrant(userId, userName, userEmail, now))
  {
  }
}
