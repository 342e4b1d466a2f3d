/** The two todo exports: the administrator's export of every todo with its
    owner (JSON or CSV), and a user's export of their own todos.  Date
    labels and ISO timestamps are rendered by a formatting function passed
    in; its output is taken as it comes. */
module Exports {
  import opened Wrappers
  import opened Text
  import opened Schema
  import opened Csv
  import Seqs
  import Store

  /** A todo joined with its owner's email and name (either may be missing
      in a left join). */
  datatype AdminRow = AdminRow(todo: Todo, userEmail: Option<string>, userName: Option<string>)

  /** One todo left-joined with `users` on its owner: the owner's email
      and name, or nothing when no user row has that id. */
  function JoinOwner(db: Store.Db, t: Todo): (r: AdminRow)
    ensures r.todo == t
    ensures r.userEmail.Some? <==> Store.HasUser(db, t.userId)
    ensures r.userEmail.Some? ==>
      exists k :: 0 <= k < |db.users| && db.users[k].id == t.userId && r.userEmail == Some(db.users[k].email) && r.userName == db.users[k].name
  {
    match Store.FindUser(db.users, t.userId)
    case Some(k) => AdminRow(t, Some(db.users[k].email), db.users[k].name)
    case None => AdminRow(t, None, None)
  }

  /** The rows the administrator export selects: every todo with its
      owner, ordered by `desc(createdAt)`.  The table is kept in creation
      order, so that ordering is the table read backwards. */
  function AdminRows(db: Store.Db): (rows: seq<AdminRow>)
    ensures |rows| == |db.todos|
    ensures forall i :: 0 <= i < |rows| ==> rows[i] == JoinOwner(db, db.todos[|db.todos| - 1 - i])
  {
    seq(|db.todos|, i requires 0 <= i < |db.todos| => JoinOwner(db, db.todos[|db.todos| - 1 - i]))
  }

  /** Every todo appears in the administrator's rows exactly once, newest
      first, and in a valid store with its owner's email. */
  lemma AdminRowsExact(db: Store.Db)
    requires Seqs.Ascending(db.todos, TodoCreatedAt)
    ensures var rows := AdminRows(db);
      && (forall t :: t in db.todos <==> exists i :: 0 <= i < |rows| && rows[i].todo == t)
      && (forall i, j :: 0 <= i < j < |rows| ==> rows[i].todo.createdAt >= rows[j].todo.createdAt)
      && (Store.Valid(db) ==> forall i :: 0 <= i < |rows| ==> rows[i].userEmail.Some?)
  {
    var rows := AdminRows(db);
    var n := |db.todos|;
    forall t ensures t in db.todos <==> exists i :: 0 <= i < |rows| && rows[i].todo == t {
      if t in db.todos {
        var k :| 0 <= k < n && db.todos[k] == t;
        assert rows[n - 1 - k].todo == t;
      }
    }
    forall i, j | 0 <= i < j < |rows| ensures rows[i].todo.createdAt >= rows[j].todo.createdAt {
      assert TodoCreatedAt(db.todos[n - 1 - j]) <= TodoCreatedAt(db.todos[n - 1 - i]);
    }
  }

  /** `searchParams.get('format') || 'csv'` compared with `'json'`. */
  predicate AdminWantsJson(format: Option<string>) {
    format.Some? && format.value == "json"
  }

  /** The owner part of a JSON record. */
  datatype JsonUser = JsonUser(email: Option<string>, name: string)

  /** A record of the administrator's JSON export. */
  datatype JsonTodo = JsonTodo(
    id: nat,
    title: string,
    description: string,
    completed: bool,
    dueDate: Option<string>,
    tags: seq<string>,
    createdAt: string,
    updatedAt: string,
    user: JsonUser)

  /** The administrator's JSON document: when it was made, the count, the
      records. */
  datatype JsonExport = JsonExport(exportDate: string, totalTodos: nat, todos: seq<JsonTodo>)

  function JsonTodoOf(r: AdminRow, iso: int -> string): (j: JsonTodo)
    ensures j.id == r.todo.id && j.title == r.todo.title && j.completed == r.todo.completed
    ensures j.description == r.todo.description.GetOr("") && j.tags == r.todo.tags.GetOr([])
    ensures j.user.name == r.userName.GetOr("") && j.user.email == r.userEmail
    ensures j.dueDate.None? <==> r.todo.dueDate.None?
  {
    var t := r.todo;
    JsonTodo(t.id, t.title, t.description.GetOr(""), t.completed,
      if t.dueDate.Some? then Some(iso(t.dueDate.value)) else None,
      t.tags.GetOr([]), iso(t.createdAt), iso(t.updatedAt),
      JsonUser(r.userEmail, r.userName.GetOr("")))
  }

  /** The JSON branch: the moment of the export, the count and one record
      per row, in order. */
  function AdminJson(rows: seq<AdminRow>, iso: int -> string, now: int): (e: JsonExport)
    ensures e.exportDate == iso(now)
    ensures e.totalTodos == |e.todos| == |rows|
    ensures forall i :: 0 <= i < |rows| ==> e.todos[i] == JsonTodoOf(rows[i], iso)
  {
    JsonExport(iso(now), |rows|, seq(|rows|, i requires 0 <= i < |rows| => JsonTodoOf(rows[i], iso)))
  }

  function YesNo(b: bool): (s: string)
    ensures s == "Yes" || s == "No"
    ensures s == "Yes" <==> b
  {
    if b then "Yes" else "No"
  }

  /** The CSV header. */
  const AdminHeader: seq<string> :=
    ["ID", "Title", "Description", "Completed", "Due Date", "Tags", "Created At", "Updated At", "User Email", "User Name"]

  function HeaderCells(names: seq<string>): (cells: seq<Cell>)
    ensures Texts(cells) == names
  {
    seq(|names|, i requires 0 <= i < |names| => Bare(names[i]))
  }

  /** The ten fields of a CSV line as the route writes them: title,
      description and name quoted with inner quotes doubled, the tags
      enclosed in quotes without doubling, the email bare. */
  function AdminFieldsAsWritten(r: AdminRow, dateLabel: int -> string): (fs: seq<string>)
    ensures |fs| == 10 && (fs[3] == "Yes" <==> r.todo.completed)
  {
    var t := r.todo;
    [ NatToString(t.id),
      Quote(t.title),
      Quote(t.description.GetOr("")),
      YesNo(t.completed),
      if t.dueDate.Some? then dateLabel(t.dueDate.value) else "",
      "\"" + Join(t.tags.GetOr([]), ", ") + "\"",
      dateLabel(t.createdAt),
      dateLabel(t.updatedAt),
      r.userEmail.GetOr(""),
      Quote(r.userName.GetOr("")) ]
  }

  /** A CSV line as the route writes it. */
  function AdminLineAsWritten(r: AdminRow, dateLabel: int -> string): string {
    Join(AdminFieldsAsWritten(r, dateLabel), ",")
  }

  /** The whole CSV document as the route writes it: the header joined by
      commas, then one as-written line per row, joined by line feeds. */
  function AdminCsvAsWritten(rows: seq<AdminRow>, dateLabel: int -> string): string {
    Join(LinesAsWritten(AdminHeader, rows, dateLabel), "\n")
  }

  /** The lines of the CSV text as written: the header names joined by
      commas, then one as-written line per row. */
  function LinesAsWritten(header: seq<string>, rows: seq<AdminRow>, dateLabel: int -> string): (ls: seq<string>)
    ensures |ls| == |rows| + 1 && ls[0] == Join(header, ",")
    ensures forall i :: 0 <= i < |rows| ==> ls[i + 1] == AdminLineAsWritten(rows[i], dateLabel)
  {
    [Join(header, ",")] + seq(|rows|, i requires 0 <= i < |rows| => AdminLineAsWritten(rows[i], dateLabel))
  }

  /** The values a line is meant to carry, one per header column. */
  function AdminValues(r: AdminRow, dateLabel: int -> string): (vs: seq<string>)
    ensures |vs| == |AdminHeader|
  {
    var t := r.todo;
    [ NatToString(t.id), t.title, t.description.GetOr(""), YesNo(t.completed),
      if t.dueDate.Some? then dateLabel(t.dueDate.value) else "",
      Join(t.tags.GetOr([]), ", "), dateLabel(t.createdAt), dateLabel(t.updatedAt),
      r.userEmail.GetOr(""), r.userName.GetOr("") ]
  }

  /** A line with every free-text field quoted and escaped. */
  function AdminCells(r: AdminRow, dateLabel: int -> string): (cells: seq<Cell>)
    ensures Texts(cells) == AdminValues(r, dateLabel)
  {
    var t := r.todo;
    [ Bare(NatToString(t.id)), Quoted(t.title), Quoted(t.description.GetOr("")), Bare(YesNo(t.completed)),
      Bare(if t.dueDate.Some? then dateLabel(t.dueDate.value) else ""),
      Quoted(Join(t.tags.GetOr([]), ", ")), Bare(dateLabel(t.createdAt)), Bare(dateLabel(t.updatedAt)),
      Quoted(r.userEmail.GetOr("")), Quoted(r.userName.GetOr("")) ]
  }

  /** The cells a reader sees in an as-written line whose email is plain and
      whose tags hold no quote: the email bare, everything else as in the
      corrected line. */
  function AdminCellsAsWritten(r: AdminRow, dateLabel: int -> string): (cells: seq<Cell>)
    ensures Texts(cells) == AdminValues(r, dateLabel)
  {
    AdminCells(r, dateLabel)[8 := Bare(r.userEmail.GetOr(""))]
  }

  /** The date labels of a row hold no separator, quote or line break. */
  predicate PlainLabels(r: AdminRow, dateLabel: int -> string) {
    Plain(dateLabel(r.todo.createdAt)) && Plain(dateLabel(r.todo.updatedAt))
    && (r.todo.dueDate.Some? ==> Plain(dateLabel(r.todo.dueDate.value)))
  }

  lemma DigitsArePlain(n: nat)
    ensures Plain(NatToString(n))
  {
    forall i | 0 <= i < |NatToString(n)| ensures IsDigit(NatToString(n)[i]) {
      NatToStringDigits(n);
    }
  }

  lemma {:induction false} NatToStringDigits(n: nat)
    ensures forall i :: 0 <= i < |NatToString(n)| ==> IsDigit(NatToString(n)[i])
  {
    if n >= 10 {
      NatToStringDigits(n / 10);
    }
  }

  lemma AdminCellsWellFormed(r: AdminRow, dateLabel: int -> string)
    requires PlainLabels(r, dateLabel)
    ensures AllWellFormed(AdminCells(r, dateLabel))
  {
    DigitsArePlain(r.todo.id);
  }

  /** The rows of the CSV document: the header, then one per todo. */
  function AdminDocument(rows: seq<AdminRow>, dateLabel: int -> string): (doc: seq<seq<Cell>>)
    ensures |doc| == |rows| + 1
  {
    [HeaderCells(AdminHeader)] + seq(|rows|, i requires 0 <= i < |rows| => AdminCells(rows[i], dateLabel))
  }

  /** The whole CSV document: the header line, then one line per row. */
  function AdminCsv(rows: seq<AdminRow>, dateLabel: int -> string): string {
    RenderDocument(AdminDocument(rows, dateLabel))
  }

  /** The records an RFC 4180 reader should find in the CSV document. */
  function AdminRecords(rows: seq<AdminRow>, dateLabel: int -> string): seq<seq<string>> {
    [AdminHeader] + seq(|rows|, i requires 0 <= i < |rows| => AdminValues(rows[i], dateLabel))
  }

  lemma HeaderPlainFront()
    ensures forall i :: 0 <= i < 5 ==> Plain(AdminHeader[i])
  {
    assert Plain(AdminHeader[0]) && Plain(AdminHeader[1]) && Plain(AdminHeader[2]);
    assert Plain(AdminHeader[3]) && Plain(AdminHeader[4]);
  }

  lemma HeaderPlainBack()
    ensures forall i :: 5 <= i < 10 ==> Plain(AdminHeader[i])
  {
    assert Plain(AdminHeader[5]) && Plain(AdminHeader[6]) && Plain(AdminHeader[7]);
    assert Plain(AdminHeader[8]) && Plain(AdminHeader[9]);
  }

  lemma HeaderPlain()
    ensures forall i :: 0 <= i < |AdminHeader| ==> Plain(AdminHeader[i])
  {
    HeaderPlainFront();
    HeaderPlainBack();
  }

  /** A header of plain names renders as well-formed bare cells. */
  lemma HeaderCellsWellFormed(names: seq<string>)
    requires forall i :: 0 <= i < |names| ==> Plain(names[i])
    ensures AllWellFormed(HeaderCells(names)) && |HeaderCells(names)| == |names|
  {
  }

  lemma HeaderWellFormed()
    ensures AllWellFormed(HeaderCells(AdminHeader))
  {
    HeaderPlain();
    HeaderCellsWellFormed(AdminHeader);
  }

  lemma AdminDocumentWellFormed(rows: seq<AdminRow>, dateLabel: int -> string)
    requires forall i :: 0 <= i < |rows| ==> PlainLabels(rows[i], dateLabel)
    ensures WellFormedDocument(AdminDocument(rows, dateLabel))
  {
    var doc := AdminDocument(rows, dateLabel);
    HeaderWellFormed();
    forall i | 0 <= i < |doc| ensures |doc[i]| >= 1 && AllWellFormed(doc[i]) {
      if i > 0 {
        assert doc[i] == AdminCells(rows[i - 1], dateLabel);
        AdminCellsWellFormed(rows[i - 1], dateLabel);
      }
    }
  }

  lemma AdminDocumentTexts(rows: seq<AdminRow>, dateLabel: int -> string)
    ensures DocumentTexts(AdminDocument(rows, dateLabel)) == AdminRecords(rows, dateLabel)
  {
  }

  /** Read back by an RFC 4180 reader, the CSV document is the header
      followed by exactly one ten-field record per row, holding the row's
      values, whatever quotes, commas or line breaks the text fields hold. */
  lemma AdminCsvRoundTrip(rows: seq<AdminRow>, dateLabel: int -> string)
    requires forall i :: 0 <= i < |rows| ==> PlainLabels(rows[i], dateLabel)
    ensures ParseDocument(AdminCsv(rows, dateLabel)) == Ok(AdminRecords(rows, dateLabel))
  {
    AdminDocumentWellFormed(rows, dateLabel);
    ParseDocumentOfRendered(AdminDocument(rows, dateLabel));
    AdminDocumentTexts(rows, dateLabel);
  }

  /** The as-written fields escape nothing the reader needs escaped: an
      email without separator, quote or line break, and tags without a
      quote. */
  predicate SafeAsWritten(r: AdminRow) {
    Plain(r.userEmail.GetOr("")) && '"' !in Join(r.todo.tags.GetOr([]), ", ")
  }

  lemma AdminLineAsWrittenRendered(r: AdminRow, dateLabel: int -> string)
    requires SafeAsWritten(r)
    ensures AdminLineAsWritten(r, dateLabel) == RenderRow(AdminCellsAsWritten(r, dateLabel))
  {
    var tags := Join(r.todo.tags.GetOr([]), ", ");
    assert Quote(tags) == "\"" + tags + "\"";
    assert AdminFieldsAsWritten(r, dateLabel) == RenderCells(AdminCellsAsWritten(r, dateLabel));
  }

  lemma AdminCellsAsWrittenWellFormed(r: AdminRow, dateLabel: int -> string)
    requires PlainLabels(r, dateLabel) && SafeAsWritten(r)
    ensures |AdminCellsAsWritten(r, dateLabel)| == 10 && AllWellFormed(AdminCellsAsWritten(r, dateLabel))
  {
    AdminCellsWellFormed(r, dateLabel);
  }

  /** The CSV document a reader sees in the as-written text. */
  function DocumentAsWritten(header: seq<string>, rows: seq<AdminRow>, dateLabel: int -> string): (doc: seq<seq<Cell>>)
    ensures |doc| == |rows| + 1 && doc[0] == HeaderCells(header)
    ensures forall i :: 0 <= i < |rows| ==> doc[i + 1] == AdminCellsAsWritten(rows[i], dateLabel)
  {
    [HeaderCells(header)] + seq(|rows|, i requires 0 <= i < |rows| => AdminCellsAsWritten(rows[i], dateLabel))
  }

  /** The header renders as the names joined by commas. */
  lemma HeaderRendered(names: seq<string>)
    ensures RenderRow(HeaderCells(names)) == Join(names, ",")
  {
    assert RenderCells(HeaderCells(names)) == names;
  }

  lemma LinesAsWrittenRendered(header: seq<string>, rows: seq<AdminRow>, dateLabel: int -> string)
    requires forall i :: 0 <= i < |rows| ==> SafeAsWritten(rows[i])
    ensures var doc := DocumentAsWritten(header, rows, dateLabel);
      forall i :: 0 <= i < |doc| ==> LinesAsWritten(header, rows, dateLabel)[i] == RenderRow(doc[i])
  {
    var doc := DocumentAsWritten(header, rows, dateLabel);
    var written := LinesAsWritten(header, rows, dateLabel);
    forall i | 0 <= i < |doc| ensures written[i] == RenderRow(doc[i]) {
      if i == 0 {
        HeaderRendered(header);
      } else {
        AdminLineAsWrittenRendered(rows[i - 1], dateLabel);
      }
    }
  }

  lemma DocumentAsWrittenWellFormed(header: seq<string>, rows: seq<AdminRow>, dateLabel: int -> string)
    requires |header| >= 1 && forall i :: 0 <= i < |header| ==> Plain(header[i])
    requires forall i :: 0 <= i < |rows| ==> PlainLabels(rows[i], dateLabel) && SafeAsWritten(rows[i])
    ensures WellFormedDocument(DocumentAsWritten(header, rows, dateLabel))
  {
    var doc := DocumentAsWritten(header, rows, dateLabel);
    forall i | 0 <= i < |doc| ensures |doc[i]| >= 1 && AllWellFormed(doc[i]) {
      if i == 0 {
        HeaderCellsWellFormed(header);
      } else {
        var cells := AdminCellsAsWritten(rows[i - 1], dateLabel);
        assert doc[i] == cells;
        assert |cells| == 10 && AllWellFormed(cells) by {
          AdminCellsAsWrittenWellFormed(rows[i - 1], dateLabel);
        }
      }
    }
  }

  lemma DocumentAsWrittenTexts(header: seq<string>, rows: seq<AdminRow>, dateLabel: int -> string)
    ensures DocumentTexts(DocumentAsWritten(header, rows, dateLabel))
         == [header] + seq(|rows|, i requires 0 <= i < |rows| => AdminValues(rows[i], dateLabel))
  {
  }

  /** The CSV text as the route writes it reads back as the intended
      records whenever no email holds a separator, quote or line break and
      no tag holds a quote; the two sample rows below show it reads back
      wrongly or not at all otherwise. */
  lemma AdminCsvAsWrittenReadsBack(rows: seq<AdminRow>, dateLabel: int -> string)
    requires forall i :: 0 <= i < |rows| ==> PlainLabels(rows[i], dateLabel) && SafeAsWritten(rows[i])
    ensures ParseDocument(AdminCsvAsWritten(rows, dateLabel)) == Ok(AdminRecords(rows, dateLabel))
  {
    var doc := DocumentAsWritten(AdminHeader, rows, dateLabel);
    LinesAsWrittenRendered(AdminHeader, rows, dateLabel);
    RenderDocumentOfLines(doc, LinesAsWritten(AdminHeader, rows, dateLabel));
    HeaderPlain();
    DocumentAsWrittenWellFormed(AdminHeader, rows, dateLabel);
    ParseDocumentOfRendered(doc);
    DocumentAsWrittenTexts(AdminHeader, rows, dateLabel);
  }

  /** A sample row whose owner's email holds a comma (an address the
      signup route accepts, since it asks only for an `@`). */
  function CommaEmailRow(): AdminRow {
    AdminRow(Todo(1, "t", None, false, 1, None, None, 0, 0), Some("a,b@x"), None)
  }

  function SampleLabel(instant: int): string {
    "d"
  }

  lemma CommaEmailFields()
    ensures AdminFieldsAsWritten(CommaEmailRow(), SampleLabel)
         == ["1", "\"t\"", "\"\"", "No", "", "\"\"", "d", "d", "a,b@x", "\"\""]
  {
    assert NatToString(1) == "1";
    assert Quote("t") == "\"t\"";
    assert Quote("") == "\"\"";
    assert Join([], ", ") == "";
  }

  /** The cells an RFC 4180 reader sees in the comma-email line. */
  function CommaEmailCells(): seq<Cell> {
    [Bare("1"), Quoted("t"), Quoted(""), Bare("No"), Bare(""), Quoted(""), Bare("d"), Bare("d"),
     Bare("a"), Bare("b@x"), Quoted("")]
  }

  lemma CommaEmailCellsRender()
    ensures RenderCells(CommaEmailCells())
         == ["1", "\"t\"", "\"\"", "No", "", "\"\"", "d", "d", "a", "b@x", "\"\""]
  {
    assert Quote("t") == "\"t\"";
    assert Quote("") == "\"\"";
  }

  lemma CommaEmailCellsRead()
    ensures AllWellFormed(CommaEmailCells())
    ensures Texts(CommaEmailCells()) == ["1", "t", "", "No", "", "", "d", "d", "a", "b@x", ""]
  {
  }

  lemma CommaEmailLineRendered()
    ensures AdminLineAsWritten(CommaEmailRow(), SampleLabel) == RenderRow(CommaEmailCells())
  {
    var xs := ["1", "\"t\"", "\"\"", "No", "", "\"\"", "d", "d"];
    var ys := ["\"\""];
    CommaEmailFields();
    assert "a" + "," + "b@x" == "a,b@x";
    assert xs + ["a,b@x"] + ys == ["1", "\"t\"", "\"\"", "No", "", "\"\"", "d", "d", "a,b@x", "\"\""];
    assert AdminFieldsAsWritten(CommaEmailRow(), SampleLabel) == xs + ["a" + "," + "b@x"] + ys;
    JoinSplitPart(xs, "a", "b@x", ys, ",");
    CommaEmailCellsRender();
    assert xs + ["a", "b@x"] + ys == RenderCells(CommaEmailCells());
  }

  /** As written, the comma in the email splits that column in two: the
      line reads back as eleven fields, the owner's name lands under a
      column of its own and the email is cut at the comma. */
  lemma AdminLineAsWrittenShiftsColumns()
    ensures ParseRecord(AdminLineAsWritten(CommaEmailRow(), SampleLabel))
         == Ok(Piece(["1", "t", "", "No", "", "", "d", "d", "a", "b@x", ""], []))
  {
    CommaEmailLineRendered();
    CommaEmailCellsRead();
    assert RenderRow(CommaEmailCells()) + [] == RenderRow(CommaEmailCells());
    ParseRecordOfRendered(CommaEmailCells(), []);
  }

  /** A sample row with a tag holding a double quote. */
  function QuotedTagRow(): AdminRow {
    AdminRow(Todo(1, "t", None, false, 1, None, Some(["a\"b"]), 0, 0), Some("e"), None)
  }

  /** A quoted field whose closing quote is followed by more text. */
  lemma TextAfterQuote(rest: string)
    ensures ParseField("\"a\"b\"" + rest) == Err(TextAfterClosingQuote)
  {
    var inner := "b\"" + rest;
    var closing := "\"" + inner;
    var body := "a" + closing;
    assert closing[1..] == inner && closing[1] == 'b';
    assert ParseQuotedBody(closing) == Ok(Piece([], inner));
    assert body[0] == 'a' && body[1..] == closing && ['a'] + [] == "a";
    assert ParseQuotedBody(body) == Ok(Piece("a", inner));
    assert ("\"" + body)[1..] == body;
    assert "\"a\"b\"" + rest == "\"" + body;
    assert !AtBoundary(inner);
  }

  lemma QuotedTagFields()
    ensures AdminFieldsAsWritten(QuotedTagRow(), SampleLabel)
         == ["1", "\"t\"", "\"\"", "No", "", "\"a\"b\"", "d", "d", "e", "\"\""]
  {
    assert NatToString(1) == "1";
    assert Quote("t") == "\"t\"";
    assert Quote("") == "\"\"";
    assert Join(["a\"b"], ", ") == "a\"b";
    assert "\"" + "a\"b" + "\"" == "\"a\"b\"";
  }

  /** The five well-formed fields in front of the tags field. */
  function QuotedTagFront(): seq<Cell> {
    [Bare("1"), Quoted("t"), Quoted(""), Bare("No"), Bare("")]
  }

  lemma QuotedTagFrontRender()
    ensures RenderCells(QuotedTagFront()) == ["1", "\"t\"", "\"\"", "No", ""]
    ensures AllWellFormed(QuotedTagFront())
  {
    assert Quote("t") == "\"t\"";
    assert Quote("") == "\"\"";
  }

  /** The as-written line is the five front fields, a comma, then a tail
      that starts with the tags field. */
  function QuotedTagRest(): string {
    Join(AdminFieldsAsWritten(QuotedTagRow(), SampleLabel)[6..], ",")
  }

  lemma QuotedTagLineSplit()
    ensures AdminLineAsWritten(QuotedTagRow(), SampleLabel)
         == RenderRow(QuotedTagFront()) + ([','] + ("\"a\"b\"" + ("," + QuotedTagRest())))
  {
    var fs := AdminFieldsAsWritten(QuotedTagRow(), SampleLabel);
    QuotedTagFields();
    QuotedTagFrontRender();
    assert fs[..5] == RenderCells(QuotedTagFront());
    assert fs == fs[..5] + fs[5..];
    JoinAppend(fs[..5], fs[5..], ",");
    JoinCons(fs[5..], ",");
    assert fs[5..][0] == "\"a\"b\"" && fs[5..][1..] == fs[6..];
    var j := Join(fs[6..], ",");
    assert Join(fs[5..], ",") == "\"a\"b\"" + ("," + j);
  }

  /** As written, a tag holding a quote ends the tags field early: the
      reader meets text after what it takes for the closing quote, and
      the line cannot be read at all. */
  lemma AdminLineAsWrittenUnreadable()
    ensures ParseRecord(AdminLineAsWritten(QuotedTagRow(), SampleLabel)) == Err(TextAfterClosingQuote)
  {
    var j := QuotedTagRest();
    QuotedTagLineSplit();
    TextAfterQuote("," + j);
    QuotedTagFrontRender();
    ParseRecordAfterRendered(QuotedTagFront(), "\"a\"b\"" + ("," + j));
  }

  /** The corrected line differs from the line as written exactly in the
      two fields the route forgot to escape. */
  lemma CorrectedLineFixesTagsAndEmail(r: AdminRow, dateLabel: int -> string)
    ensures var fs := AdminFieldsAsWritten(r, dateLabel);
      var cs := RenderCells(AdminCells(r, dateLabel));
      forall i :: 0 <= i < 10 && i != 5 && i != 8 ==> fs[i] == cs[i]
  {
  }

  /** A user's export record: everything as text. */
  datatype ExportRecord = ExportRecord(
    id: nat,
    title: string,
    description: string,
    completed: string,
    createdAt: string,
    updatedAt: string,
    dueDate: string,
    tags: string)

  /** The record of one todo: `Yes`/`No`, empty text for a missing
      description, due date or tag list, tags joined by `, `. */
  function ExportRecordOf(t: Todo, iso: int -> string): (e: ExportRecord)
    ensures e.id == t.id && e.title == t.title
    ensures e.completed == "Yes" <==> t.completed
    ensures e.completed == "Yes" || e.completed == "No"
    ensures t.description.None? ==> e.description == ""
    ensures t.dueDate.None? ==> e.dueDate == ""
    ensures t.dueDate.Some? ==> e.dueDate == iso(t.dueDate.value)
    ensures t.tags.None? ==> e.tags == ""
  {
    ExportRecord(t.id, t.title, t.description.GetOr(""), YesNo(t.completed), iso(t.createdAt), iso(t.updatedAt),
      if t.dueDate.Some? then iso(t.dueDate.value) else "",
      if t.tags.Some? then Join(t.tags.value, ", ") else "")
  }

  /** What the user export returns; the CSV text itself is produced by a
      library and is not modelled, only the records it is made from. */
  datatype UserExport = Unauthorized | JsonRecords(records: seq<ExportRecord>) | CsvRecords(records: seq<ExportRecord>)

  /** `searchParams.get('format') || 'json'`, CSV chosen ignoring case. */
  predicate UserWantsCsv(format: Option<string>) {
    format.Some? && format.value != [] && Lower(format.value) == "csv"
  }

  /** `where(eq(todos.userId, id))`. */
  function OwnedBy(id: nat): Todo -> bool {
    (t: Todo) => t.userId == id
  }

  /** The caller's todos, in table order. */
  function Mine(db: Store.Db, id: nat): (ts: seq<Todo>)
    ensures forall t :: t in ts <==> t in db.todos && t.userId == id
    ensures Seqs.IsSubseq(ts, db.todos)
  {
    Seqs.Filter(db.todos, OwnedBy(id))
  }

  /** The user export: without a session 401; otherwise one record per
      todo the caller owns, in table order. */
  function UserExportOf(session: Session, db: Store.Db, format: Option<string>, iso: int -> string): (x: UserExport)
    ensures session.None? <==> x.Unauthorized?
    ensures x.CsvRecords? <==> session.Some? && UserWantsCsv(format)
    ensures !x.Unauthorized? ==> |x.records| == |Mine(db, session.value.id)|
    ensures !x.Unauthorized? ==> forall i :: 0 <= i < |x.records| ==>
      x.records[i] == ExportRecordOf(Mine(db, session.value.id)[i], iso)
  {
    if session.None? then Unauthorized
    else
      var todos := Mine(db, session.value.id);
      var records := seq(|todos|, i requires 0 <= i < |todos| => ExportRecordOf(todos[i], iso));
      if UserWantsCsv(format) then CsvRecords(records) else JsonRecords(records)
  }

  /** A signed-in user's export holds a record of every todo they own,
      and only of those: no other user's todo is exported. */
  lemma UserExportExactlyMine(session: Session, db: Store.Db, format: Option<string>, iso: int -> string)
    requires session.Some?
    ensures var x := UserExportOf(session, db, format, iso);
      && (forall t :: t in db.todos && t.userId == session.value.id ==>
            exists i :: 0 <= i < |x.records| && x.records[i] == ExportRecordOf(t, iso))
      && (forall i :: 0 <= i < |x.records| ==>
            var t := Mine(db, session.value.id)[i];
            t in db.todos && t.userId == session.value.id && x.records[i] == ExportRecordOf(t, iso))
  {
    var x := UserExportOf(session, db, format, iso);
    var id := session.value.id;
    Seqs.MappedExactly(db.todos, Mine(db, id), x.records, (t: Todo) => ExportRecordOf(t, iso), OwnedBy(id));
  }

  /** `csv`, `CSV` and `Csv` all choose CSV; no format means JSON. */
  lemma UserFormatExamples()
    ensures UserWantsCsv(Some("CSV")) && UserWantsCsv(Some("Csv")) && !UserWantsCsv(None)
  {
    assert Lower("CSV") == "csv";
    assert Lower("Csv") == "csv";
  }

  /** What the administrator export returns. */
  datatype AdminExport = AdminUnauthorized | AdminJsonDoc(doc: JsonExport) | AdminCsvDoc(text: string)

  /** The administrator export: 401 unless an administrator is signed in;
      JSON only for exactly `json`, the CSV text as written otherwise. */
  function AdminExportOf(session: Session, db: Store.Db, format: Option<string>, iso: int -> string, dateLabel: int -> string, now: int): (x: AdminExport)
    ensures !(session.Some? && session.value.IsAdmin()) <==> x.AdminUnauthorized?
    ensures x.AdminJsonDoc? <==> session.Some? && session.value.IsAdmin() && AdminWantsJson(format)
    ensures x.AdminJsonDoc? ==> x.doc.exportDate == iso(now) && x.doc.totalTodos == |x.doc.todos| == |db.todos|
    ensures x.AdminJsonDoc? ==> forall i :: 0 <= i < |db.todos| ==> x.doc.todos[i] == JsonTodoOf(AdminRows(db)[i], iso)
    ensures x.AdminCsvDoc? ==> x.text == AdminCsvAsWritten(AdminRows(db), dateLabel)
  {
    var rows := AdminRows(db);
    if !(session.Some? && session.value.IsAdmin()) then AdminUnauthorized
    else if AdminWantsJson(format) then AdminJsonDoc(AdminJson(rows, iso, now))
    else AdminCsvDoc(AdminCsvAsWritten(rows, dateLabel))
  }

  /** An administrator's CSV export of a store whose rows have plain
      emails and quote-free tags reads back as the header and one record
      per todo, newest first. */
  lemma AdminExportCsvReadsBack(session: Session, db: Store.Db, format: Option<string>, iso: int -> string, dateLabel: int -> string, now: int)
    requires session.Some? && session.value.IsAdmin() && !AdminWantsJson(format)
    requires forall i :: 0 <= i < |db.todos| ==> PlainLabels(AdminRows(db)[i], dateLabel) && SafeAsWritten(AdminRows(db)[i])
    ensures ParseDocument(AdminExportOf(session, db, format, iso, dateLabel, now).text) == Ok(AdminRecords(AdminRows(db), dateLabel))
  {
    AdminCsvAsWrittenReadsBack(AdminRows(db), dateLabel);
  }
}
