/** The account routes: an administrator approving or rejecting a
    registration (`POST /api/admin/approve-user`), and a visitor signing
    up (`POST /api/auth/signup`).  Signing up stores the address lowered
    and trimmed but, as written, looks for an existing account under the
    address exactly as typed. */
module Accounts {
  import opened Wrappers
  import opened Text
  import opened Schema
  import opened Events
  import opened Http
  import Seqs
  import Notify
  import Channels
  import Stats
  import Store
  import Validation

  // ------------------------------------------------------------ approval

  /** The body `{ userId, approved }`. */
  datatype ApprovalFields = ApprovalFields(userId: Val, approved: Val)

  predicate IsAdminSession(session: Session) {
    session.Some? && session.value.IsAdmin()
  }

  /** Whether some todo still references the user. */
  predicate OwnsTodos(db: Store.Db, id: int) {
    exists i :: 0 <= i < |db.todos| && db.todos[i].userId == id
  }

  function HasId(id: int): User -> bool {
    (u: User) => u.id == id
  }

  function SetApproved(u: User): User {
    u.(approved := true)
  }

  /** The handler.  Only an administrator may call it (401); the user id
      must be a number and the decision a boolean (400).  Approving sets
      the flag on the row with that id, if there is one; rejecting deletes
      that row, which the database refuses while the user still owns
      todos (500).  Nothing is published. */
  function Approve(db: Store.Db, session: Session, body: ApprovalFields): (r: Reply)
    ensures r.triggers == [] && r.db.todos == db.todos
    ensures r.db.nextUserId == db.nextUserId && r.db.nextTodoId == db.nextTodoId
    ensures !IsAdminSession(session) ==> r.status == 401 && Unchanged(r, db)
    ensures IsAdminSession(session) && !(body.userId.Num? && body.approved.Bool?) ==> r.status == 400 && Unchanged(r, db)
    ensures r.status == 500 <==>
      IsAdminSession(session) && body.userId.Num? && body.approved.Bool? && !body.approved.b && OwnsTodos(db, body.userId.n)
    ensures r.status == 500 ==> Unchanged(r, db)
    ensures r.status == 200 <==> IsAdminSession(session) && body.userId.Num? && body.approved.Bool? && !(r.status == 500)
    ensures r.status in {200, 400, 401, 500}
  {
    if !IsAdminSession(session) then Refuse(401, "Unauthorized", db)
    else if !(body.userId.Num? && body.approved.Bool?) then Refuse(400, "Invalid request data", db)
    else
      var n := body.userId.n;
      if body.approved.b then
        Reply(200, Done("User approved successfully"), db.(users := Seqs.Patch(db.users, HasId(n), SetApproved)), [])
      else if n < 0 then
        Reply(200, Done("User rejected and removed"), db, [])
      else
        var removed := Store.DeleteUser(db, n);
        if removed.None? then Refuse(500, InternalError, db)
        else Reply(200, Done("User rejected and removed"), removed.value, [])
  }

  /** Approving sets the flag of the user with that id and leaves every
      other row as it was. */
  lemma ApproveExact(db: Store.Db, session: Session, body: ApprovalFields)
    requires Approve(db, session, body).status == 200 && body.approved.b
    ensures var r := Approve(db, session, body);
      |r.db.users| == |db.users|
      && forall i :: 0 <= i < |db.users| ==>
           r.db.users[i] == if db.users[i].id == body.userId.n then db.users[i].(approved := true) else db.users[i]
  {
  }

  /** Rejecting removes the user with that id, keeps every other row,
      and their order. */
  lemma RejectExact(db: Store.Db, session: Session, body: ApprovalFields)
    requires Approve(db, session, body).status == 200 && !body.approved.b
    ensures var r := Approve(db, session, body);
      && (forall u :: u in r.db.users <==> u in db.users && u.id != body.userId.n)
      && Seqs.IsSubseq(r.db.users, db.users)
  {
    var r := Approve(db, session, body);
    if body.userId.n < 0 {
      assert Seqs.IsSubseq(db.users, db.users) by {
        Seqs.SubseqRefl(db.users);
      }
    }
  }

  lemma ApproveKeepsValid(db: Store.Db, session: Session, body: ApprovalFields)
    requires Store.Valid(db)
    ensures Store.Valid(Approve(db, session, body).db)
  {
    var r := Approve(db, session, body);
    if r.status == 200 {
      if body.approved.b {
        assert forall i :: 0 <= i < |db.users| ==> r.db.users[i].id == db.users[i].id && r.db.users[i].email == db.users[i].email;
        forall i | 0 <= i < |db.todos| ensures Store.HasUser(r.db, db.todos[i].userId) {
          assert Store.HasUser(db, db.todos[i].userId);
          var j :| 0 <= j < |db.users| && UserId(db.users[j]) == db.todos[i].userId;
          assert UserId(r.db.users[j]) == db.todos[i].userId;
        }
      } else if body.userId.n >= 0 {
        Store.DeleteUserKeepsValid(db, body.userId.n);
      }
    }
  }

  /** Once approved, a user leaves the pending list, and nobody else
      joins or leaves it. */
  lemma ApproveLeavesPending(db: Store.Db, session: Session, body: ApprovalFields)
    requires Store.Valid(db) && Approve(db, session, body).status == 200
    ensures var r := Approve(db, session, body);
      forall u :: u in Store.PendingList(r.db) <==> u in Store.PendingList(db) && u.id != body.userId.n
  {
    var r := Approve(db, session, body);
    ApproveKeepsValid(db, session, body);
    Store.PendingListExact(db);
    Store.PendingListExact(r.db);
    if body.approved.b {
      ApprovedLeaveUnapproved(db.users, body.userId.n);
    } else {
      RejectExact(db, session, body);
    }
  }

  /** Setting the flag on the rows with id `n` takes exactly those rows
      out of the unapproved ones. */
  lemma ApprovedLeaveUnapproved(users: seq<User>, n: int)
    ensures var after := Seqs.Patch(users, HasId(n), SetApproved);
      forall u :: u in after && !u.approved <==> u in users && !u.approved && u.id != n
  {
    var after := Seqs.Patch(users, HasId(n), SetApproved);
    forall u ensures u in after && !u.approved <==> u in users && !u.approved && u.id != n {
      if u in after {
        var i :| 0 <= i < |after| && after[i] == u;
      }
      if u in users && u.id != n {
        var i :| 0 <= i < |users| && users[i] == u;
        assert after[i] == u;
      }
    }
  }

  /** Repeating a decision that succeeded succeeds again and changes
      nothing more. */
  lemma ApproveIdempotent(db: Store.Db, session: Session, body: ApprovalFields)
    requires Approve(db, session, body).status == 200
    ensures var r := Approve(db, session, body);
      var again := Approve(r.db, session, body);
      again.status == 200 && again.db == r.db
  {
    var r := Approve(db, session, body);
    var again := Approve(r.db, session, body);
    if body.approved.b {
      assert again.db.users == r.db.users;
    } else if body.userId.n >= 0 {
      Seqs.RemoveKeyIdempotent(db.users, UserId, body.userId.n);
    }
  }

  // -------------------------------------------------------------- sign-up

  /** The body `{ name, email, password }`. */
  datatype SignUpFields = SignUpFields(name: Val, email: Val, password: Val)

  /** `password.length < 6`: only strings and arrays have a length; for
      any other value the comparison is false and the check passes. */
  predicate TooShort(password: Val) {
    (password.Str? && |password.s| < 6) || (password.Arr? && |password.items| < 6)
  }

  /** `name?.trim()` can be evaluated: the name is absent, null or a string. */
  predicate NameUsable(name: Val) {
    name.Undefined? || name.Null? || name.Str?
  }

  /** `name?.trim() || null`. */
  function StoredName(name: Val): (r: Option<string>)
    ensures r.Some? <==> name.Str? && !AllSpace(name.s)
    ensures r.Some? ==> r.value == Trim(name.s) && r.value != [] && IsTrimmed(r.value)
  {
    if name.Str? && Trim(name.s) != [] then Some(Trim(name.s)) else None
  }

  /** `newUser.name || newUser.email`. */
  function NameOrEmail(u: User): string {
    if u.name.Some? && u.name.value != [] then u.name.value else u.email
  }

  /** The request passes the checks made before the duplicate lookup. */
  predicate WellFormed(body: SignUpFields) {
    && Truthy(body.email) && Truthy(body.password)
    && body.email.Str? && '@' in body.email.s
    && !TooShort(body.password)
  }

  /** The address the duplicate lookup uses: as typed, as in the route,
      or as it will be stored. */
  function LookupKey(email: string, normalised: bool): string {
    if normalised then Validation.NormaliseEmail(email) else email
  }

  const Welcome: string := "User created successfully. Please wait for admin approval."

  /** The handler, with the duplicate lookup by the address as typed
      (`normalised` false, as written) or as stored.  `hash` stands for
      bcrypt, `now` for the database's clock. */
  function SignUpWith(db: Store.Db, body: SignUpFields, configured: bool, hash: string -> string, now: int, normalised: bool): (r: Reply)
    ensures r.db.todos == db.todos && r.db.nextTodoId == db.nextTodoId
    ensures !(Truthy(body.email) && Truthy(body.password)) ==>
      r.status == 400 && r.body == Failure("Email and password are required") && Unchanged(r, db)
    ensures Truthy(body.email) && Truthy(body.password) && !(body.email.Str? && '@' in body.email.s) ==>
      r.status == 400 && r.body == Failure("Please provide a valid email address") && Unchanged(r, db)
    ensures Truthy(body.email) && Truthy(body.password) && body.email.Str? && '@' in body.email.s && TooShort(body.password) ==>
      r.status == 400 && r.body == Failure("Password must be at least 6 characters long") && Unchanged(r, db)
    ensures WellFormed(body) && Store.EmailTaken(db, LookupKey(body.email.s, normalised)) ==>
      r.status == 400 && r.body == Failure("User already exists") && Unchanged(r, db)
    ensures r.status == 201 <==>
      WellFormed(body) && body.password.Str? && NameUsable(body.name)
      && !Store.EmailTaken(db, LookupKey(body.email.s, normalised))
      && !Store.EmailTaken(db, Validation.NormaliseEmail(body.email.s))
    ensures r.status == 201 ==>
      && r.db.nextUserId == db.nextUserId + 1
      && r.db.users == db.users + [User(db.nextUserId, StoredName(body.name), Validation.NormaliseEmail(body.email.s), hash(body.password.s), UserRole, false, now)]
      && r.body == SignedUp(Welcome, db.nextUserId, StoredName(body.name), Validation.NormaliseEmail(body.email.s))
    ensures r.status in {201, 400, 500}
    ensures r.status != 201 ==> r.triggers == [] && r.db.users == db.users
  {
    if !Truthy(body.email) || !Truthy(body.password) then Refuse(400, "Email and password are required", db)
    else if !body.email.Str? || '@' !in body.email.s then Refuse(400, "Please provide a valid email address", db)
    else if TooShort(body.password) then Refuse(400, "Password must be at least 6 characters long", db)
    else if Store.EmailTaken(db, LookupKey(body.email.s, normalised)) then Refuse(400, "User already exists", db)
    else if !body.password.Str? || !NameUsable(body.name) then Refuse(500, InternalError, db)
    else
      var inserted := Store.InsertUser(db, StoredName(body.name), Validation.NormaliseEmail(body.email.s), hash(body.password.s), UserRole, false, now);
      if inserted.1.None? then Refuse(500, InternalError, inserted.0)
      else
        var u := inserted.1.value;
        var triggers := Notify.SendNewUser(configured, Store.Admins(inserted.0), NameOrEmail(u), u.email, u.id, now);
        Reply(201, SignedUp(Welcome, u.id, u.name, u.email), inserted.0, triggers)
  }

  /** The route as written. */
  function SignUp(db: Store.Db, body: SignUpFields, configured: bool, hash: string -> string, now: int): (r: Reply)
    ensures r.status in {201, 400, 500} && r.db.todos == db.todos
    ensures WellFormed(body) && Store.EmailTaken(db, body.email.s) ==>
      r.status == 400 && r.body == Failure("User already exists") && Unchanged(r, db)
    ensures r.status == 201 ==>
      body.email.Str? && |r.db.users| == |db.users| + 1 && r.db.users[|db.users|].email == Validation.NormaliseEmail(body.email.s)
      && !r.db.users[|db.users|].approved
  {
    SignUpWith(db, body, configured, hash, now, false)
  }

  /** The route with the duplicate lookup made by the stored address. */
  function SignUpCorrected(db: Store.Db, body: SignUpFields, configured: bool, hash: string -> string, now: int): (r: Reply)
    ensures r.status in {201, 400, 500} && r.db.todos == db.todos
    ensures WellFormed(body) && Store.EmailTaken(db, Validation.NormaliseEmail(body.email.s)) ==>
      r.status == 400 && r.body == Failure("User already exists") && Unchanged(r, db)
    ensures r.status == 201 ==>
      body.email.Str? && |r.db.users| == |db.users| + 1 && r.db.users[|db.users|].email == Validation.NormaliseEmail(body.email.s)
      && !r.db.users[|db.users|].approved
  {
    SignUpWith(db, body, configured, hash, now, true)
  }

  /** As written, an address that differs from a registered one only in
      case or surrounding blanks passes the duplicate lookup and then
      collides with the unique column: the visitor gets a server error
      instead of "User already exists", and an id is used up. */
  lemma SignUpAsWrittenCollides(db: Store.Db, body: SignUpFields, configured: bool, hash: string -> string, now: int)
    requires WellFormed(body) && body.password.Str? && NameUsable(body.name)
    requires !Store.EmailTaken(db, body.email.s) && Store.EmailTaken(db, Validation.NormaliseEmail(body.email.s))
    ensures var r := SignUp(db, body, configured, hash, now);
      r.status == 500 && r.db.nextUserId == db.nextUserId + 1 && r.db.users == db.users && r.triggers == []
  {
  }

  function Registered(): Store.Db {
    Store.Db([User(1, None, "a@b", "hash", UserRole, true, 0)], [], 2, 1)
  }

  function CaseVariant(): SignUpFields {
    SignUpFields(Undefined, Str("A@b"), Str("secret"))
  }

  lemma CaseVariantWellFormed()
    ensures WellFormed(CaseVariant()) && CaseVariant().password.Str? && NameUsable(CaseVariant().name)
  {
    assert "A@b"[1] == '@';
  }

  lemma CaseVariantNotTaken()
    ensures !Store.EmailTaken(Registered(), "A@b")
  {
    var db := Registered();
    assert db.users == [db.users[0]];
    assert UserEmail(db.users[0]) != "A@b" by {
      assert UserEmail(db.users[0])[0] == 'a';
    }
  }

  lemma CaseVariantNormalised()
    ensures Validation.NormaliseEmail("A@b") == "a@b"
  {
    assert Lower("A@b") == "a@b";
    TrimOfTrimmed("a@b");
  }

  lemma RegisteredTaken()
    ensures Store.EmailTaken(Registered(), "a@b")
  {
    assert UserEmail(Registered().users[0]) == "a@b";
  }

  /** A reachable instance: `a@b` is registered and a visitor signs up as
      `A@b`. */
  lemma CaseVariantSignUpFails(configured: bool, hash: string -> string, now: int)
    ensures var r := SignUp(Registered(), CaseVariant(), configured, hash, now);
      r.status == 500 && r.db.nextUserId == 3
    ensures SignUpCorrected(Registered(), CaseVariant(), configured, hash, now).body == Failure("User already exists")
  {
    CaseVariantWellFormed();
    CaseVariantNotTaken();
    CaseVariantNormalised();
    RegisteredTaken();
    SignUpAsWrittenCollides(Registered(), CaseVariant(), configured, hash, now);
    assert LookupKey(CaseVariant().email.s, true) == "a@b";
  }

  /** With the lookup by the stored address, "User already exists"
      answers exactly the well-formed requests whose address is taken,
      and a server error comes only from a password that is not a string
      or a name that cannot be trimmed. */
  lemma SignUpCorrectedErrors(db: Store.Db, body: SignUpFields, configured: bool, hash: string -> string, now: int)
    ensures var r := SignUpCorrected(db, body, configured, hash, now);
      && (r.body == Failure("User already exists") <==> WellFormed(body) && Store.EmailTaken(db, Validation.NormaliseEmail(body.email.s)))
      && (r.status == 500 <==>
            WellFormed(body) && !Store.EmailTaken(db, Validation.NormaliseEmail(body.email.s))
            && !(body.password.Str? && NameUsable(body.name)))
      && (r.status == 500 ==> Unchanged(r, db))
  {
  }

  lemma SignUpKeepsValid(db: Store.Db, body: SignUpFields, configured: bool, hash: string -> string, now: int, normalised: bool)
    requires Store.Valid(db)
    ensures Store.Valid(SignUpWith(db, body, configured, hash, now, normalised).db)
  {
    if WellFormed(body) && !Store.EmailTaken(db, LookupKey(body.email.s, normalised)) && body.password.Str? && NameUsable(body.name) {
      Store.InsertUserKeepsValid(db, StoredName(body.name), Validation.NormaliseEmail(body.email.s), hash(body.password.s), UserRole, false, now);
    }
  }

  /** A new user, never an administrator, leaves the administrators as
      they were. */
  lemma NewUserKeepsAdmins(db: Store.Db, db2: Store.Db, u: User)
    requires Store.Valid(db) && Store.Valid(db2) && db2.users == db.users + [u] && u.role == UserRole
    ensures forall a :: a in Store.Admins(db2) <==> a in Store.Admins(db)
  {
    Store.AdminsExact(db);
    Store.AdminsExact(db2);
  }

  /** A new unapproved row adds one user and one pending user. */
  lemma PendingRowCounts(db: Store.Db, db2: Store.Db, u: User)
    requires db2.users == db.users + [u] && db2.todos == db.todos && !u.approved
    ensures Store.CountsOf(db2) == Store.CountsOf(db).(users := Store.CountsOf(db).users + 1, pending := Store.CountsOf(db).pending + 1)
  {
    Seqs.CountAppend(db.users, [u], Store.Unapproved);
    assert Seqs.Count([u], Store.Unapproved) == 1 by {
      assert [u][1..] == [];
    }
  }

  /** The registration notice and update move the cards from the old
      figures to those of the database with the new row. */
  lemma NewUserEventsStats(db: Store.Db, db2: Store.Db, u: User, now: int)
    requires db2.users == db.users + [u] && db2.todos == db.todos && !u.approved
    ensures Stats.ApplyAll(Store.Seed(db), Notify.NewUserEvents(NameOrEmail(u), u.email, u.id, now)) == Store.Seed(db2)
  {
    PendingRowCounts(db, db2, u);
    var es := Notify.NewUserEvents(NameOrEmail(u), u.email, u.id, now);
    assert Stats.Mirrors(Store.CountsOf(db), es[1], Store.CountsOf(db2));
    Stats.ApplyPair(Store.Seed(db), es[0], es[1]);
    Stats.ApplyTracksDatabase(Store.CountsOf(db), es[1], Store.CountsOf(db2));
  }

  /** What a registration does to an administrator's cards: with
      notifications configured they move to the figures of the database
      with the new row; without, they stay. */
  lemma NewUserStats(db: Store.Db, db2: Store.Db, u: User, configured: bool, now: int, admin: nat)
    requires Store.Valid(db) && Store.Valid(db2) && admin in Store.Admins(db)
    requires db2.users == db.users + [u] && db2.todos == db.todos && u.role == UserRole && !u.approved
    ensures Stats.ApplyAll(Store.Seed(db), Deliver(Notify.SendNewUser(configured, Store.Admins(db2), NameOrEmail(u), u.email, u.id, now), Channels.UserChannel(admin)))
         == if configured then Store.Seed(db2) else Store.Seed(db)
  {
    if configured {
      NewUserKeepsAdmins(db, db2, u);
      Store.AdminsExact(db2);
      Notify.NewUserDelivery(Store.Admins(db2), NameOrEmail(u), u.email, u.id, now, admin);
      NewUserEventsStats(db, db2, u, now);
    }
  }

  /** After a sign-up every administrator's cards agree with the
      database again when notifications are configured; without them the
      cards keep the old figures while the database has one more pending
      user. */
  lemma SignUpKeepsAdminStats(db: Store.Db, body: SignUpFields, configured: bool, hash: string -> string, now: int, normalised: bool, admin: nat)
    requires Store.Valid(db) && SignUpWith(db, body, configured, hash, now, normalised).status == 201
    requires admin in Store.Admins(db)
    ensures var r := SignUpWith(db, body, configured, hash, now, normalised);
      Stats.ApplyAll(Store.Seed(db), Deliver(r.triggers, Channels.UserChannel(admin)))
        == if configured then Store.Seed(r.db) else Store.Seed(db)
    ensures var r := SignUpWith(db, body, configured, hash, now, normalised);
      Store.Seed(r.db).pendingUsers == Store.Seed(db).pendingUsers + 1
  {
    var r := SignUpWith(db, body, configured, hash, now, normalised);
    var u := User(db.nextUserId, StoredName(body.name), Validation.NormaliseEmail(body.email.s), hash(body.password.s), UserRole, false, now);
    assert r.triggers == Notify.SendNewUser(configured, Store.Admins(r.db), NameOrEmail(u), u.email, u.id, now);
    SignUpKeepsValid(db, body, configured, hash, now, normalised);
    PendingRowCounts(db, r.db, u);
    NewUserStats(db, r.db, u, configured, now, admin);
  }
}
