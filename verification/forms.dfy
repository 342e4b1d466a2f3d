/** The two todo forms.  The create form checks only the title's length,
    turns the comma-separated tags into a list on submission (its preview
    splits on spaces instead) and clears every field after a successful
    request.  The edit form starts from the stored todo, refuses a blank
    title without a request and normalises what it sends. */
module Forms {
  import opened Wrappers
  import opened Text
  import opened Schema
  import opened Events
  import Tags
  import Validation
  import Toasts

  // ---------------------------------------------------------------- create

  /** The create form's four text fields. */
  datatype CreateFields = CreateFields(title: string, description: string, dueDate: string, tags: string)

  /** The fields as the form starts and as a successful request leaves them. */
  const Blank: CreateFields := CreateFields("", "", "", "")

  /** The form's own schema: the title's length, nothing else. */
  function CreateTitleIssues(title: string): (r: seq<Validation.Issue>)
    ensures r == [] <==> 1 <= |title| <= 100
  {
    Validation.Check(|title| < 1, "title", "Title is required")
    + Validation.Check(|title| > 100, "title", "Title must be less than 100 characters")
  }

  /** What `todoApi.create` is given. */
  datatype CreateRequest = CreateRequest(title: string, description: string, dueDate: string, tags: seq<string>)

  /** Submitting: a title of the wrong length stops the submission in the
      form; otherwise the request goes out with the tags split on commas,
      and the fields are cleared when it succeeds. */
  function SubmitCreate(f: CreateFields, succeeded: bool): (r: (Option<CreateRequest>, CreateFields))
    ensures r.0.Some? <==> 1 <= |f.title| <= 100
    ensures r.0.Some? ==> r.0.value == CreateRequest(f.title, f.description, f.dueDate, Tags.Tokenise(f.tags, ','))
    ensures r.0.Some? && succeeded ==> r.1 == Blank
    ensures r.0.None? || !succeeded ==> r.1 == f
  {
    if CreateTitleIssues(f.title) != [] then (None, f)
    else
      var request := CreateRequest(f.title, f.description, f.dueDate, Tags.Tokenise(f.tags, ','));
      (Some(request), if succeeded then Blank else f)
  }

  /** The tags the form shows under the field while typing. */
  function Preview(f: CreateFields): (r: seq<string>)
    ensures forall i :: 0 <= i < |r| ==> r[i] != [] && ' ' !in r[i]
  {
    Tags.Tokenise(f.tags, ' ')
  }

  /** The submitted tags are those the todo schema would derive from the
      same field, so every one is trimmed, non-empty and comma-free. */
  lemma SubmittedTagsMatchSchema(f: CreateFields, succeeded: bool)
    requires SubmitCreate(f, succeeded).0.Some?
    ensures SubmitCreate(f, succeeded).0.value.tags == Validation.TagsValue(Some(f.tags))
  {
  }

  /** The form lets through a title of spaces that the todo schema rejects. */
  lemma BlankTitlePassesForm()
    ensures SubmitCreate(CreateFields(" ", "", "", ""), true).0.Some?
    ensures Validation.TitleIssues(" ") != []
  {
    assert AllSpace(" ");
  }

  /** A comma-free input with a space previews as two tags and is
      submitted as one. */
  lemma PreviewDisagreesWithSubmission()
    ensures Preview(CreateFields("t", "", "", "a b")) == ["a", "b"]
    ensures SubmitCreate(CreateFields("t", "", "", "a b"), true).0.value.tags == ["a b"]
  {
    Tags.PreviewDiffersFromSubmission();
  }

  // ---------------------------------------------------------------- edit

  /** The edit form's four text fields. */
  datatype EditFields = EditFields(title: string, description: string, dueDate: string, tags: string)

  /** The fields as the form opens on a stored todo: a missing description
      or tag list is empty, tags are joined with spaces and the due date is
      rendered by `iso` (`toISOString`). */
  function InitialFields(t: Todo, iso: int -> string): (r: EditFields)
    ensures r.title == t.title
    ensures t.description.None? ==> r.description == []
    ensures t.description.Some? ==> r.description == t.description.value
    ensures t.dueDate.None? ==> r.dueDate == []
    ensures t.dueDate.Some? ==> r.dueDate == iso(t.dueDate.value)
    ensures t.tags.None? ==> r.tags == []
    ensures t.tags.Some? ==> r.tags == Join(t.tags.value, " ")
  {
    EditFields(
      t.title,
      t.description.GetOr(""),
      if t.dueDate.Some? then iso(t.dueDate.value) else "",
      if t.tags.Some? then Join(t.tags.value, " ") else "")
  }

  /** The JSON body of the `PUT` request. */
  datatype EditBody = EditBody(id: nat, title: string, description: Option<string>, dueDate: Option<string>, tags: seq<string>)

  /** Saving: a blank title sends nothing; otherwise the title and the
      description are trimmed, a blank description and an empty due date
      are sent as `null`, and blank tags as an empty list. */
  function SubmitEdit(id: nat, f: EditFields): (r: Option<EditBody>)
    ensures r.None? <==> AllSpace(f.title)
    ensures r.Some? ==> r.value.id == id && r.value.title == Trim(f.title) && r.value.title != []
    ensures r.Some? ==> (r.value.description.None? <==> AllSpace(f.description))
    ensures r.Some? && r.value.description.Some? ==> r.value.description.value == Trim(f.description)
    ensures r.Some? ==> (r.value.dueDate.None? <==> f.dueDate == [])
    ensures r.Some? ==> forall i :: 0 <= i < |r.value.tags| ==> r.value.tags[i] != [] && ' ' !in r.value.tags[i]
  {
    if Trim(f.title) == [] then None
    else
      var description := Trim(f.description);
      Some(EditBody(
        id,
        Trim(f.title),
        if description == [] then None else Some(description),
        if f.dueDate == [] then None else Some(f.dueDate),
        if Trim(f.tags) == [] then [] else Tags.Tokenise(f.tags, ' ')))
  }

  /** A todo that is stored in normal form: a trimmed non-blank title, a
      trimmed non-blank description if any, and non-empty, trimmed,
      space-free tags. */
  predicate Normal(t: Todo) {
    && t.title != [] && IsTrimmed(t.title)
    && (t.description.Some? ==> t.description.value != [] && IsTrimmed(t.description.value))
    && (t.tags.Some? ==> forall i :: 0 <= i < |t.tags.value| ==> Tags.Clean1(t.tags.value[i], ' '))
  }

  lemma JoinedTagsBlankOnlyWhenEmpty(tags: seq<string>)
    requires forall i :: 0 <= i < |tags| ==> Tags.Clean1(tags[i], ' ')
    ensures Trim(Join(tags, " ")) == [] ==> tags == []
  {
    if tags != [] {
      Tags.TokeniseSpaceJoin(tags);
      if Trim(Join(tags, " ")) == [] {
        assert AllSpace(Join(tags, " "));
        NoTokensInSpaces(Join(tags, " "));
      }
    }
  }

  /** A string of whitespace splits into nothing but blanks. */
  lemma NoTokensInSpaces(s: string)
    requires AllSpace(s)
    ensures Tags.Tokenise(s, ' ') == []
  {
    if s != [] {
      var pieces := Split(s, ' ');
      PiecesOfSpaces(s, pieces);
      CleanOfBlanks(pieces);
    }
  }

  lemma PiecesOfSpaces(s: string, pieces: seq<string>)
    requires AllSpace(s) && pieces == Split(s, ' ')
    ensures forall i :: 0 <= i < |pieces| ==> AllSpace(pieces[i])
  {
    forall i | 0 <= i < |pieces| ensures AllSpace(pieces[i]) {
      JoinedPartIsInfix(pieces, i, " ");
      forall k | 0 <= k < |pieces[i]| ensures IsSpace(pieces[i][k]) {
        assert pieces[i][k] in Join(pieces, " ");
      }
    }
  }

  /** Every character of a joined part occurs in the join. */
  lemma {:induction false} JoinedPartIsInfix(parts: seq<string>, i: nat, sep: string)
    requires i < |parts|
    ensures forall c :: c in parts[i] ==> c in Join(parts, sep)
  {
    if |parts| > 1 {
      if i > 0 {
        JoinedPartIsInfix(parts[1..], i - 1, sep);
        assert parts[1..][i - 1] == parts[i];
      }
      assert Join(parts, sep) == parts[0] + sep + Join(parts[1..], sep);
    }
  }

  lemma {:induction false} CleanOfBlanks(pieces: seq<string>)
    requires forall i :: 0 <= i < |pieces| ==> AllSpace(pieces[i])
    ensures Tags.Clean(pieces) == []
  {
    if pieces != [] {
      CleanOfBlanks(pieces[1..]);
    }
  }

  /** Opening a stored todo in normal form and saving it without changes
      sends back what is stored: the same title, description, due date and
      tags (a missing tag list as the empty list). */
  lemma {:induction false} EditRoundTrip(t: Todo, iso: int -> string)
    requires Normal(t)
    requires t.dueDate.Some? ==> iso(t.dueDate.value) != []
    ensures SubmitEdit(t.id, InitialFields(t, iso)) == Some(EditBody(
      t.id, t.title, t.description,
      if t.dueDate.Some? then Some(iso(t.dueDate.value)) else None,
      t.tags.GetOr([])))
  {
    var dueDate := if t.dueDate.Some? then Some(iso(t.dueDate.value)) else None;
    InitialFieldsBack(t, iso);
    SubmitEditOf(t.id, InitialFields(t, iso), t.title, t.description, dueDate, t.tags.GetOr([]));
  }

  /** The fields trim and normalise to the given title, description, due
      date and tags. */
  predicate FieldsCarry(f: EditFields, title: string, description: Option<string>,
                        dueDate: Option<string>, tags: seq<string>) {
    && Trim(f.title) == title && title != []
    && (var d := Trim(f.description); (if d == [] then None else Some(d)) == description)
    && (if f.dueDate == [] then None else Some(f.dueDate)) == dueDate
    && (if Trim(f.tags) == [] then [] else Tags.Tokenise(f.tags, ' ')) == tags
  }

  /** Each field of a todo in normal form trims and normalises back to the
      stored value. */
  lemma InitialFieldsBack(t: Todo, iso: int -> string)
    requires Normal(t)
    requires t.dueDate.Some? ==> iso(t.dueDate.value) != []
    ensures FieldsCarry(InitialFields(t, iso), t.title, t.description,
      if t.dueDate.Some? then Some(iso(t.dueDate.value)) else None, t.tags.GetOr([]))
  {
    var f := InitialFields(t, iso);
    TrimOfTrimmed(t.title);
    DescriptionBack(t.description, f.description);
    TagsBack(t.tags, f.tags);
  }

  /** Saving fields whose trimmed and normalised parts are already known. */
  lemma SubmitEditOf(id: nat, f: EditFields, title: string, description: Option<string>,
                     dueDate: Option<string>, tags: seq<string>)
    requires FieldsCarry(f, title, description, dueDate, tags)
    ensures SubmitEdit(id, f) == Some(EditBody(id, title, description, dueDate, tags))
  {
  }

  /** A stored description in normal form survives the field and the trim. */
  lemma DescriptionBack(d: Option<string>, field: string)
    requires d.Some? ==> d.value != [] && IsTrimmed(d.value)
    requires field == d.GetOr("")
    ensures var s := Trim(field); (if s == [] then None else Some(s)) == d
  {
    if d.Some? {
      TrimOfTrimmed(d.value);
    }
  }

  /** A stored tag list in normal form survives the space-joined field. */
  lemma TagsBack(tags: Option<seq<string>>, field: string)
    requires tags.Some? ==> forall i :: 0 <= i < |tags.value| ==> Tags.Clean1(tags.value[i], ' ')
    requires tags.Some? ==> field == Join(tags.value, " ")
    requires tags.None? ==> field == []
    ensures (if Trim(field) == [] then [] else Tags.Tokenise(field, ' ')) == tags.GetOr([])
  {
    if tags.Some? {
      JoinedTagsBlankOnlyWhenEmpty(tags.value);
      Tags.TokeniseSpaceJoin(tags.value);
    }
  }

  /** How a save ends: the server's answer, or a failure to reach it. */
  datatype Response = Answered(ok: bool, error: Option<string>) | Unreachable

  /** The toast after a save, and whether the dialog closes: success
      closes it, an error answer shows the server's message or a fallback,
      a failed request a fixed message. */
  function EditOutcome(response: Response): (r: (Toasts.Toast, bool))
    ensures r.1 <==> response.Answered? && response.ok
    ensures r.0.variant == Toasts.Typed(if r.1 then Success else Error)
    ensures response.Answered? && !response.ok && response.error.Some? && response.error.value != [] ==>
      r.0.title == response.error.value
  {
    match response
    case Answered(ok, error) =>
      if ok then (Toasts.Toast(Toasts.Typed(Success), "\U{270F}\U{FE0F} Task updated successfully!", None, None, None), true)
      else (Toasts.Toast(Toasts.Typed(Error), Toasts.OrFallback(error, "Failed to update todo"), None, None, None), false)
    case Unreachable =>
      (Toasts.Toast(Toasts.Typed(Error), "Failed to update task. Please try again.", None, None, None), false)
  }
}
