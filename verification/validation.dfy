/** The form and request schemas of the application, as the validation
    library applies them: every check of every field runs and reports its
    own issue (so one bad value can report several), issues come in field
    order, a field's transform runs only when its checks passed, and an
    object-level check runs after the field checks even when those failed.
    The e-mail pattern and the clock comparison of the due date are
    parameters. */
module Validation {
  import opened Wrappers
  import opened Text
  import Tags
  import Seqs

  /** One reported problem: the field it is about and the message the
      schema gives, or `None` where the library's own wording applies. */
  datatype Issue = Issue(path: string, message: Option<string>)

  /** The outcome of a parse: the transformed values, or the issues. */
  type Parsed<T> = Result<T, seq<Issue>>

  /** The issue of one failing check, none for a passing one. */
  function Check(fails: bool, path: string, message: string): (r: seq<Issue>)
    ensures r == [] <==> !fails
  {
    if fails then [Issue(path, Some(message))] else []
  }

  /** A check whose message is the library's own. */
  function CheckDefault(fails: bool, path: string): (r: seq<Issue>)
    ensures r == [] <==> !fails
  {
    if fails then [Issue(path, None)] else []
  }

  // ---------------------------------------------------------------- todo form

  /** Title: at least one and at most 100 characters, not only whitespace. */
  function TitleIssues(t: string): (r: seq<Issue>)
    ensures r == [] <==> 1 <= |t| <= 100 && !AllSpace(t)
    ensures forall i :: 0 <= i < |r| ==> r[i].path == "title"
  {
    var short := Check(|t| < 1, "title", "Title is required");
    var long := Check(|t| > 100, "title", "Title must be less than 100 characters");
    var blank := Check(|Trim(t)| == 0, "title", "Title cannot be empty or just spaces");
    assert |Trim(t)| == 0 <==> AllSpace(t);
    assert |short| <= 1 && |long| <= 1 && |blank| <= 1;
    short + long + blank
  }

  /** An empty title fails both the length check and the blank check. */
  lemma EmptyTitleReportsTwice()
    ensures |TitleIssues("")| == 2
  {
  }

  /** Description: at most 500 characters when present. */
  function DescriptionIssues(d: Option<string>): (r: seq<Issue>)
    ensures r == [] <==> d.None? || |d.value| <= 500
  {
    if d.None? then [] else Check(|d.value| > 500, "description", "Description must be less than 500 characters")
  }

  /** `val?.trim() || undefined`: a blank or absent description becomes
      absent, any other is trimmed. */
  function DescriptionValue(d: Option<string>): (r: Option<string>)
    ensures r.None? <==> d.None? || AllSpace(d.value)
    ensures r.Some? ==> r.value != [] && IsTrimmed(r.value) && |r.value| <= |d.value|
  {
    if d.None? then None
    else
      var t := Trim(d.value);
      if t == [] then None else Some(t)
  }

  /** Normalising an already normalised description changes nothing. */
  lemma DescriptionValueIdempotent(d: Option<string>)
    ensures DescriptionValue(DescriptionValue(d)) == DescriptionValue(d)
  {
    if d.Some? && Trim(d.value) != [] {
      TrimIdempotent(d.value);
    }
  }

  /** Due date: an absent or empty one passes; any other must denote an
      instant after now, which `future` decides. */
  function DueDateIssues(d: Option<string>, future: string -> bool): (r: seq<Issue>)
    ensures r == [] <==> d.None? || d.value == [] || future(d.value)
  {
    Check(d.Some? && d.value != [] && !future(d.value), "dueDate", "Due date must be in the future")
  }

  /** The tag list the tags field turns into: split on `,`, trimmed,
      blanks dropped; an absent or empty field gives none. */
  function TagsValue(s: Option<string>): (r: seq<string>)
    ensures forall i :: 0 <= i < |r| ==> r[i] != [] && IsTrimmed(r[i]) && ',' !in r[i]
    ensures s.None? || s.value == [] ==> r == []
  {
    if s.Some? then Tags.Tokenise(s.value, ',') else []
  }

  /** `new Set(tags).size`. */
  function SetSize(ts: seq<string>): nat {
    |set t | t in ts|
  }

  lemma {:induction false} SetSizeBounded(ts: seq<string>)
    ensures SetSize(ts) <= |ts|
  {
    if ts != [] {
      SetSizeBounded(ts[1..]);
      SetOfCons(ts);
    }
  }

  lemma SetOfCons(ts: seq<string>)
    requires ts != []
    ensures (set t | t in ts) == {ts[0]} + (set t | t in ts[1..])
  {
    assert forall t :: t in ts <==> t == ts[0] || t in ts[1..] by {
      assert ts == [ts[0]] + ts[1..];
    }
  }

  /** The tag form's uniqueness test, `new Set(tags).size === tags.length`,
      says that no tag occurs twice. */
  lemma {:induction false} SetSizeIffDistinct(ts: seq<string>)
    ensures SetSize(ts) == |ts| <==> Seqs.Distinct(ts)
  {
    if ts != [] {
      SetSizeIffDistinct(ts[1..]);
      SetSizeBounded(ts[1..]);
      SetOfCons(ts);
      if ts[0] in ts[1..] {
        assert (set t | t in ts) == (set t | t in ts[1..]);
        var k :| 0 <= k < |ts[1..]| && ts[1..][k] == ts[0];
        assert ts[0] == ts[k + 1];
      } else {
        assert |set t | t in ts| == 1 + SetSize(ts[1..]);
        if Seqs.Distinct(ts[1..]) {
          forall i, j | 0 <= i < j < |ts| ensures ts[i] != ts[j] {
            if i > 0 {
              assert ts[i] == ts[1..][i - 1] && ts[j] == ts[1..][j - 1];
            } else {
              assert ts[j] == ts[1..][j - 1];
            }
          }
        }
        if Seqs.Distinct(ts) {
          forall i, j | 0 <= i < j < |ts[1..]| ensures ts[1..][i] != ts[1..][j] {
            assert ts[1..][i] == ts[i + 1] && ts[1..][j] == ts[j + 1];
          }
        }
      }
    }
  }

  /** The three checks on the tag list, each reported on its own. */
  function TagsIssues(ts: seq<string>): (r: seq<Issue>)
    ensures r == [] <==> (forall i :: 0 <= i < |ts| ==> 1 <= |ts[i]| <= 20) && |ts| <= 5 && Seqs.Distinct(ts)
  {
    SetSizeIffDistinct(ts);
    Check(!(forall i :: 0 <= i < |ts| ==> |ts[i]| <= 20 && |ts[i]| > 0), "tags", "Each tag must be between 1-20 characters")
    + Check(|ts| > 5, "tags", "You can add up to 5 tags")
    + Check(SetSize(ts) != |ts|, "tags", "Tags must be unique")
  }

  /** At most five distinct tags of at most twenty characters each. */
  predicate TagsAcceptable(ts: seq<string>) {
    (forall i :: 0 <= i < |ts| ==> |ts[i]| <= 20) && |ts| <= 5 && Seqs.Distinct(ts)
  }

  /** For tokens, which are never empty, only the upper length bound can fail. */
  lemma TagsIssuesOfTokens(ts: seq<string>)
    requires forall i :: 0 <= i < |ts| ==> ts[i] != []
    ensures TagsIssues(ts) == [] <==> TagsAcceptable(ts)
  {
  }

  /** What the todo form submits, before validation. */
  datatype TodoFormInput = TodoFormInput(
    title: string,
    description: Option<string>,
    dueDate: Option<string>,
    tags: Option<string>)

  /** What it yields after validation. */
  datatype TodoFormValues = TodoFormValues(
    title: string,
    description: Option<string>,
    dueDate: Option<string>,
    tags: seq<string>)

  /** The title rule: one to a hundred characters, not only whitespace. */
  predicate TitleOk(t: string) {
    1 <= |t| <= 100 && !AllSpace(t)
  }

  /** The description rule: absent, or at most 500 characters. */
  predicate DescriptionOk(d: Option<string>) {
    d.None? || |d.value| <= 500
  }

  /** The due-date rule: absent, empty, or in the future. */
  predicate DueDateOk(d: Option<string>, future: string -> bool) {
    d.None? || d.value == [] || future(d.value)
  }

  /** The form passes every check of the schema. */
  predicate FormAcceptable(x: TodoFormInput, future: string -> bool) {
    && TitleOk(x.title)
    && DescriptionOk(x.description)
    && DueDateOk(x.dueDate, future)
    && TagsAcceptable(TagsValue(x.tags))
  }

  /** Every field's issues, in field order; none exactly for an acceptable form. */
  function TodoFormIssues(x: TodoFormInput, future: string -> bool): (r: seq<Issue>)
    ensures r == [] <==> FormAcceptable(x, future)
  {
    var title := TitleIssues(x.title);
    var description := DescriptionIssues(x.description);
    var dueDate := DueDateIssues(x.dueDate, future);
    var ts := TagsValue(x.tags);
    var tags := TagsIssues(ts);
    TagsIssuesOfTokens(ts);
    assert title == [] <==> TitleOk(x.title);
    assert description == [] <==> DescriptionOk(x.description);
    assert dueDate == [] <==> DueDateOk(x.dueDate, future);
    title + description + dueDate + tags
  }

  /** `todoFormSchema.safeParse`. */
  function ParseTodoForm(x: TodoFormInput, future: string -> bool): (r: Parsed<TodoFormValues>)
    ensures r.Ok? <==> FormAcceptable(x, future)
    ensures r.Ok? ==> r.value.title == x.title && r.value.dueDate == x.dueDate
    ensures r.Ok? ==> r.value.description == DescriptionValue(x.description)
    ensures r.Ok? ==> r.value.tags == TagsValue(x.tags)
    ensures r.Err? ==> r.error != []
  {
    var issues := TodoFormIssues(x, future);
    if issues == [] then Ok(TodoFormValues(x.title, DescriptionValue(x.description), x.dueDate, TagsValue(x.tags)))
    else Err(issues)
  }

  /** Every tag of an accepted form is a trimmed, comma-free word of one
      to twenty characters, and there are at most five, all different. */
  lemma AcceptedTagsAreClean(x: TodoFormInput, future: string -> bool)
    requires ParseTodoForm(x, future).Ok?
    ensures var ts := ParseTodoForm(x, future).value.tags;
      |ts| <= 5 && Seqs.Distinct(ts)
      && forall i :: 0 <= i < |ts| ==> 1 <= |ts[i]| <= 20 && IsTrimmed(ts[i]) && ',' !in ts[i]
  {
  }

  // ---------------------------------------------------------------- sign-in

  /** E-mail: required and matching the library's e-mail pattern, which
      `isEmail` stands for. */
  function EmailIssues(e: string, isEmail: string -> bool): (r: seq<Issue>)
    ensures r == [] <==> e != [] && isEmail(e)
  {
    Check(|e| < 1, "email", "Email is required")
    + Check(!isEmail(e), "email", "Please enter a valid email address")
  }

  /** The stored form of an e-mail address: lower-cased, then trimmed. */
  function NormaliseEmail(e: string): (r: string)
    ensures IsTrimmed(r) && |r| <= |e|
    ensures forall i :: 0 <= i < |r| ==> !('A' <= r[i] <= 'Z')
    ensures r == [] <==> AllSpace(e)
  {
    TrimKeepsNoUpper(Lower(e));
    AllSpaceLower(e);
    Trim(Lower(e))
  }

  /** Lower-casing keeps whitespace and non-whitespace apart. */
  lemma AllSpaceLower(e: string)
    ensures AllSpace(Lower(e)) <==> AllSpace(e)
  {
    if AllSpace(Lower(e)) {
      forall i | 0 <= i < |e| ensures IsSpace(e[i]) {
        assert IsSpace(Lower(e)[i]);
      }
    }
  }

  /** Normalising a stored address changes nothing: two addresses that
      normalise alike are stored alike however often they are normalised. */
  lemma NormaliseEmailIdempotent(e: string)
    ensures NormaliseEmail(NormaliseEmail(e)) == NormaliseEmail(e)
  {
    var r := NormaliseEmail(e);
    LowerOfNoUpper(r);
    TrimOfTrimmed(r);
  }

  /** Password: six to a hundred characters. */
  function PasswordIssues(p: string): (r: seq<Issue>)
    ensures r == [] <==> 6 <= |p| <= 100
  {
    Check(|p| < 1, "password", "Password is required")
    + Check(|p| < 6, "password", "Password must be at least 6 characters")
    + Check(|p| > 100, "password", "Password is too long")
  }

  datatype SignInInput = SignInInput(email: string, password: string)
  datatype SignInValues = SignInValues(email: string, password: string)

  /** `signInSchema.safeParse`. */
  function ParseSignIn(x: SignInInput, isEmail: string -> bool): (r: Parsed<SignInValues>)
    ensures r.Ok? <==> x.email != [] && isEmail(x.email) && 6 <= |x.password| <= 100
    ensures r.Ok? ==> r.value == SignInValues(NormaliseEmail(x.email), x.password)
    ensures r.Err? ==> r.error != []
  {
    var issues := EmailIssues(x.email, isEmail) + PasswordIssues(x.password);
    if issues == [] then Ok(SignInValues(NormaliseEmail(x.email), x.password)) else Err(issues)
  }

  // ---------------------------------------------------------------- sign-up

  /** Name: two to fifty characters, of which at least two remain after
      trimming. */
  function NameIssues(n: string): (r: seq<Issue>)
    ensures r == [] <==> 2 <= |n| <= 50 && |Trim(n)| > 1
  {
    Check(|n| < 1, "name", "Name is required")
    + Check(|n| < 2, "name", "Name must be at least 2 characters")
    + Check(|n| > 50, "name", "Name must be less than 50 characters")
    + Check(|Trim(n)| <= 1, "name", "Name cannot be empty or just spaces")
  }

  const Mismatch: Issue := Issue("confirmPassword", Some("Passwords don't match"))

  datatype SignUpInput = SignUpInput(email: string, password: string, name: string, confirmPassword: string)
  datatype SignUpValues = SignUpValues(email: string, password: string, name: string, confirmPassword: string)

  /** `signUpSchema.safeParse`: the sign-in fields, the name and the
      confirmation, then the object-level check that the two passwords
      agree, reported on the confirmation field. */
  function ParseSignUp(x: SignUpInput, isEmail: string -> bool): (r: Parsed<SignUpValues>)
    ensures r.Ok? <==>
      && x.email != [] && isEmail(x.email) && 6 <= |x.password| <= 100
      && 2 <= |x.name| <= 50 && |Trim(x.name)| > 1
      && x.password == x.confirmPassword
    ensures r.Ok? ==> r.value == SignUpValues(NormaliseEmail(x.email), x.password, Trim(x.name), x.confirmPassword)
    ensures r.Ok? ==> IsTrimmed(r.value.name) && |r.value.name| >= 2
    ensures x.password != x.confirmPassword ==> r.Err? && Mismatch in r.error
    ensures r.Err? ==> r.error != []
  {
    var fields := EmailIssues(x.email, isEmail) + PasswordIssues(x.password) + NameIssues(x.name);
    assert fields == [] <==> EmailIssues(x.email, isEmail) == [] && PasswordIssues(x.password) == [] && NameIssues(x.name) == [];
    var issues := fields
      + Check(|x.confirmPassword| < 1, "confirmPassword", "Please confirm your password")
      + (if x.password != x.confirmPassword then [Mismatch] else []);
    if issues == [] then Ok(SignUpValues(NormaliseEmail(x.email), x.password, Trim(x.name), x.confirmPassword))
    else Err(issues)
  }

  /** A mismatch is reported even when every field failed its own checks:
      the object-level check still runs. */
  lemma MismatchReportedAlongsideFieldIssues(isEmail: string -> bool)
    ensures var r := ParseSignUp(SignUpInput("", "a", "", "b"), isEmail);
      r.Err? && Mismatch in r.error && |r.error| >= 6
  {
  }

  // ---------------------------------------------------------------- bulk, approval, filter

  datatype BulkInput = BulkInput(ids: seq<int>, action: string)

  /** The issues of the id list: its length first, then every id that is
      not positive, each reported under its position. */
  function IdIssues(ids: seq<int>, from: nat): (r: seq<Issue>)
    ensures r == [] <==> forall i :: 0 <= i < |ids| ==> ids[i] > 0
    decreases |ids|
  {
    if ids == [] then []
    else CheckDefault(ids[0] <= 0, "ids." + NatToString(from)) + IdIssues(ids[1..], from + 1)
  }

  /** `bulkActionSchema.safeParse`. */
  function ParseBulk(x: BulkInput): (r: Parsed<BulkInput>)
    ensures r.Ok? <==>
      1 <= |x.ids| <= 50 && (forall i :: 0 <= i < |x.ids| ==> x.ids[i] > 0)
      && (x.action == "complete" || x.action == "delete")
    ensures r.Ok? ==> r.value == x
    ensures r.Err? ==> r.error != []
  {
    var issues := Check(|x.ids| < 1, "ids", "Please select at least one item")
      + Check(|x.ids| > 50, "ids", "Cannot perform bulk action on more than 50 items")
      + IdIssues(x.ids, 0)
      + CheckDefault(x.action != "complete" && x.action != "delete", "action");
    if issues == [] then Ok(x) else Err(issues)
  }

  datatype ApprovalInput = ApprovalInput(userId: int, approved: bool)

  /** `userApprovalSchema.safeParse`. */
  function ParseApproval(x: ApprovalInput): (r: Parsed<ApprovalInput>)
    ensures r.Ok? <==> x.userId > 0
    ensures r.Ok? ==> r.value == x
    ensures r.Err? ==> r.error == [Issue("userId", Some("Invalid user ID"))]
  {
    if x.userId <= 0 then Err([Issue("userId", Some("Invalid user ID"))]) else Ok(x)
  }

  datatype FilterInput = FilterInput(filter: Option<string>, search: Option<string>, page: Option<int>, limit: Option<int>)
  datatype FilterValues = FilterValues(filter: string, search: Option<string>, page: Option<int>, limit: Option<int>)

  predicate IsFilterName(f: string) {
    f == "all" || f == "completed" || f == "pending"
  }

  /** `todoFilterSchema.safeParse`.  An absent filter becomes `all`.  The
      page and limit defaults sit inside `.optional()`, which lets an
      absent value through before the default is reached, so an absent
      page or limit stays absent. */
  function ParseFilter(x: FilterInput): (r: Parsed<FilterValues>)
    ensures r.Ok? <==>
      && (x.filter.None? || IsFilterName(x.filter.value))
      && (x.search.None? || |x.search.value| <= 100)
      && (x.page.None? || x.page.value > 0)
      && (x.limit.None? || 1 <= x.limit.value <= 100)
    ensures r.Ok? ==> IsFilterName(r.value.filter) && r.value.filter == x.filter.GetOr("all")
    ensures r.Ok? ==> r.value.search == x.search && r.value.page == x.page && r.value.limit == x.limit
    ensures r.Err? ==> r.error != []
  {
    var issues := CheckDefault(x.filter.Some? && !IsFilterName(x.filter.value), "filter")
      + Check(x.search.Some? && |x.search.value| > 100, "search", "Search term too long")
      + CheckDefault(x.page.Some? && x.page.value <= 0, "page")
      + CheckDefault(x.limit.Some? && x.limit.value < 1, "limit")
      + CheckDefault(x.limit.Some? && x.limit.value > 100, "limit");
    if issues == [] then Ok(FilterValues(x.filter.GetOr("all"), x.search, x.page, x.limit)) else Err(issues)
  }

  /** An empty query parses to the `all` filter with no page and no limit. */
  lemma EmptyFilterDefaults()
    ensures ParseFilter(FilterInput(None, None, None, None)) == Ok(FilterValues("all", None, None, None))
  {
  }
}
