/** The administrator's "All Users" dialog: the search over the fetched
    users, the split into approved and pending users, and the CSV export
    of the users the search keeps.  The date label of the export is
    rendered by a formatting function passed in. */
module Directory {
  import opened Wrappers
  import opened Text
  import opened Schema
  import opened Csv
  import Seqs
  import Exports

  /** The search keeps a user whose lower-cased email, or non-empty
      lower-cased name, includes the lower-cased term. */
  predicate MatchesTerm(term: string, u: User) {
    Contains(Lower(u.email), Lower(term))
    || (u.name.Some? && u.name.value != [] && Contains(Lower(u.name.value), Lower(term)))
  }

  function Keep(term: string): User -> bool {
    u => MatchesTerm(term, u)
  }

  /** `filteredUsers`. */
  function Search(users: seq<User>, term: string): (r: seq<User>)
    ensures Seqs.IsSubseq(r, users)
    ensures forall u :: u in r ==> MatchesTerm(term, u)
    ensures forall u :: u in users && MatchesTerm(term, u) ==> u in r
  {
    Seqs.Filter(users, Keep(term))
  }

  /** An empty term keeps every user. */
  lemma EmptyTermKeepsAll(users: seq<User>)
    ensures Search(users, "") == users
  {
    forall i | 0 <= i < |users| ensures Keep("")(users[i]) {
      ContainsEmpty(Lower(users[i].email));
    }
    Seqs.FilterKeepsAll(users, Keep(""));
  }

  predicate IsApproved(u: User) {
    u.approved
  }

  predicate IsPending(u: User) {
    !u.approved
  }

  /** The approved and the pending users of the kept list. */
  function Partition(kept: seq<User>): (r: (seq<User>, seq<User>))
    ensures forall u :: u in r.0 ==> u.approved && u in kept
    ensures forall u :: u in r.1 ==> !u.approved && u in kept
    ensures forall u :: u in kept ==> u in r.0 || u in r.1
    ensures |r.0| + |r.1| == |kept|
    ensures Seqs.IsSubseq(r.0, kept) && Seqs.IsSubseq(r.1, kept)
  {
    Seqs.CountComplement(kept, IsApproved, IsPending);
    (Seqs.Filter(kept, IsApproved), Seqs.Filter(kept, IsPending))
  }

  /** No user is both approved and pending. */
  lemma PartitionDisjoint(kept: seq<User>)
    ensures forall u :: u in Partition(kept).0 ==> u !in Partition(kept).1
  {
  }

  const UsersHeader: seq<string> := ["ID", "Name", "Email", "Role", "Approved", "Created At"]

  /** The six fields of a line as the dialog writes them: nothing quoted. */
  function UserFieldsAsWritten(u: User, dateLabel: int -> string): (fs: seq<string>)
    ensures |fs| == |UsersHeader|
  {
    [NatToString(u.id), u.name.GetOr(""), u.email, u.role.Name(), Exports.YesNo(u.approved), dateLabel(u.createdAt)]
  }

  function UserLineAsWritten(u: User, dateLabel: int -> string): string {
    Join(UserFieldsAsWritten(u, dateLabel), ",")
  }

  /** The export as the dialog writes it: the header line, then one line
      per kept user, joined by line feeds. */
  function UsersCsvAsWritten(kept: seq<User>, dateLabel: int -> string): string {
    Join([Join(UsersHeader, ",")] + seq(|kept|, i requires 0 <= i < |kept| => UserLineAsWritten(kept[i], dateLabel)), "\n")
  }

  /** The values a line is meant to carry. */
  function UserValues(u: User, dateLabel: int -> string): seq<string> {
    [NatToString(u.id), u.name.GetOr(""), u.email, u.role.Name(), Exports.YesNo(u.approved), dateLabel(u.createdAt)]
  }

  /** A line with the free-text fields quoted and escaped. */
  function UserCells(u: User, dateLabel: int -> string): (cells: seq<Cell>)
    ensures Texts(cells) == UserValues(u, dateLabel)
  {
    [Bare(NatToString(u.id)), Quoted(u.name.GetOr("")), Quoted(u.email), Bare(u.role.Name()),
     Bare(Exports.YesNo(u.approved)), Bare(dateLabel(u.createdAt))]
  }

  /** Approved users read `Yes`, the others `No`; a missing name is empty. */
  lemma UserValuesFacts(u: User, dateLabel: int -> string)
    ensures UserValues(u, dateLabel)[4] == (if u.approved then "Yes" else "No")
    ensures u.name.None? ==> UserValues(u, dateLabel)[1] == ""
  {
  }

  lemma UsersHeaderPlain()
    ensures forall i :: 0 <= i < |UsersHeader| ==> Plain(UsersHeader[i])
  {
    assert Plain(UsersHeader[0]) && Plain(UsersHeader[1]) && Plain(UsersHeader[2]);
    assert Plain(UsersHeader[3]) && Plain(UsersHeader[4]) && Plain(UsersHeader[5]);
  }

  function UsersDocument(kept: seq<User>, dateLabel: int -> string): (doc: seq<seq<Cell>>)
    ensures |doc| == |kept| + 1
  {
    [Exports.HeaderCells(UsersHeader)] + seq(|kept|, i requires 0 <= i < |kept| => UserCells(kept[i], dateLabel))
  }

  /** The export with names and emails quoted. */
  function UsersCsv(kept: seq<User>, dateLabel: int -> string): string {
    RenderDocument(UsersDocument(kept, dateLabel))
  }

  function UsersRecords(kept: seq<User>, dateLabel: int -> string): seq<seq<string>> {
    [UsersHeader] + seq(|kept|, i requires 0 <= i < |kept| => UserValues(kept[i], dateLabel))
  }

  lemma UserCellsWellFormed(u: User, dateLabel: int -> string)
    requires Plain(dateLabel(u.createdAt))
    ensures AllWellFormed(UserCells(u, dateLabel))
  {
    Exports.DigitsArePlain(u.id);
  }

  lemma UsersDocumentWellFormed(kept: seq<User>, dateLabel: int -> string)
    requires forall i :: 0 <= i < |kept| ==> Plain(dateLabel(kept[i].createdAt))
    ensures WellFormedDocument(UsersDocument(kept, dateLabel))
  {
    var doc := UsersDocument(kept, dateLabel);
    UsersHeaderPlain();
    Exports.HeaderCellsWellFormed(UsersHeader);
    assert doc[0] == Exports.HeaderCells(UsersHeader);
    forall i | 1 <= i < |doc| ensures |doc[i]| >= 1 && AllWellFormed(doc[i]) {
      assert doc[i] == UserCells(kept[i - 1], dateLabel);
      UserCellsWellFormed(kept[i - 1], dateLabel);
    }
  }

  /** Read back by an RFC 4180 reader, the export is the six-column header
      and one record per kept user, holding that user's values. */
  lemma UsersCsvRoundTrip(kept: seq<User>, dateLabel: int -> string)
    requires forall i :: 0 <= i < |kept| ==> Plain(dateLabel(kept[i].createdAt))
    ensures ParseDocument(UsersCsv(kept, dateLabel)) == Ok(UsersRecords(kept, dateLabel))
  {
    UsersDocumentWellFormed(kept, dateLabel);
    ParseDocumentOfRendered(UsersDocument(kept, dateLabel));
    assert DocumentTexts(UsersDocument(kept, dateLabel)) == UsersRecords(kept, dateLabel);
  }

  /** A user whose name holds a comma (the signup route stores any name). */
  function CommaNameUser(): User {
    User(1, Some("Doe, Jane"), "e", "", UserRole, false, 0)
  }

  function CommaNameCells(): seq<Cell> {
    [Bare("1"), Bare("Doe"), Bare(" Jane"), Bare("e"), Bare("user"), Bare("No"), Bare("d")]
  }

  lemma CommaNameLineRendered()
    ensures UserLineAsWritten(CommaNameUser(), Exports.SampleLabel) == RenderRow(CommaNameCells())
  {
    var xs := ["1"];
    var ys := ["e", "user", "No", "d"];
    assert NatToString(1) == "1";
    assert "Doe" + "," + " Jane" == "Doe, Jane";
    assert UserFieldsAsWritten(CommaNameUser(), Exports.SampleLabel) == xs + ["Doe" + "," + " Jane"] + ys;
    JoinSplitPart(xs, "Doe", " Jane", ys, ",");
    assert xs + ["Doe", " Jane"] + ys == RenderCells(CommaNameCells());
  }

  lemma CommaNameCellsRead()
    ensures AllWellFormed(CommaNameCells())
    ensures Texts(CommaNameCells()) == ["1", "Doe", " Jane", "e", "user", "No", "d"]
  {
  }

  /** As written, a comma in a name splits it over two columns: the line
      reads back as seven fields and every later column is shifted. */
  lemma UserLineAsWrittenShiftsColumns()
    ensures ParseRecord(UserLineAsWritten(CommaNameUser(), Exports.SampleLabel))
         == Ok(Piece(["1", "Doe", " Jane", "e", "user", "No", "d"], []))
  {
    CommaNameLineRendered();
    CommaNameCellsRead();
    assert RenderRow(CommaNameCells()) + [] == RenderRow(CommaNameCells());
    ParseRecordOfRendered(CommaNameCells(), []);
  }
}
