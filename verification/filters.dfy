/** The dashboard's todo list: which of the caller's todos the list shows
    for the status filter and the search term taken from the address. */
module TodoFilter {
  import opened Wrappers
  import opened Text
  import opened Schema
  import Seqs

  /** The status part: `'all'`, `'completed'` or `'pending'`; any other
      value matches nothing. */
  predicate MatchesStatus(filter: string, t: Todo) {
    filter == "all" || (filter == "completed" && t.completed) || (filter == "pending" && !t.completed)
  }

  /** The search part: the lower-cased term occurs in the lower-cased
      title, or in the lower-cased description when there is one. */
  predicate MatchesSearch(search: string, t: Todo) {
    Contains(Lower(t.title), Lower(search))
    || (t.description.Some? && Contains(Lower(t.description.value), Lower(search)))
  }

  function Keep(filter: string, search: string): Todo -> bool {
    t => MatchesStatus(filter, t) && MatchesSearch(search, t)
  }

  /** `filteredTodos`. */
  function Visible(todos: seq<Todo>, filter: string, search: string): (r: seq<Todo>)
    ensures Seqs.IsSubseq(r, todos)
    ensures forall t :: t in r ==> MatchesStatus(filter, t) && MatchesSearch(search, t)
    ensures forall t :: t in todos && MatchesStatus(filter, t) && MatchesSearch(search, t) ==> t in r
  {
    Seqs.Filter(todos, Keep(filter, search))
  }

  /** With the filter `all` and no search term every todo is shown, in order. */
  lemma AllAndEmptyShowsEverything(todos: seq<Todo>)
    ensures Visible(todos, "all", "") == todos
  {
    forall i | 0 <= i < |todos| ensures Keep("all", "")(todos[i]) {
      ContainsEmpty(Lower(todos[i].title));
    }
    Seqs.FilterKeepsAll(todos, Keep("all", ""));
  }

  /** A filter value other than the three known ones shows nothing. */
  lemma UnknownFilterShowsNothing(todos: seq<Todo>, filter: string, search: string)
    requires filter != "all" && filter != "completed" && filter != "pending"
    ensures Visible(todos, filter, search) == []
  {
    NothingKept(todos, filter, search);
  }

  lemma {:induction false} NothingKept(todos: seq<Todo>, filter: string, search: string)
    requires filter != "all" && filter != "completed" && filter != "pending"
    ensures Seqs.Count(todos, Keep(filter, search)) == 0
  {
    if todos != [] {
      NothingKept(todos[1..], filter, search);
    }
  }

  /** `completed` and `pending` split the shown todos by their flag. */
  lemma StatusFiltersSplit(todos: seq<Todo>, search: string)
    ensures forall t :: t in Visible(todos, "completed", search) ==> t.completed
    ensures forall t :: t in Visible(todos, "pending", search) ==> !t.completed
    ensures |Visible(todos, "completed", search)| + |Visible(todos, "pending", search)| == |Visible(todos, "all", search)|
  {
    SplitCount(todos, search);
  }

  lemma {:induction false} SplitCount(todos: seq<Todo>, search: string)
    ensures Seqs.Count(todos, Keep("completed", search)) + Seqs.Count(todos, Keep("pending", search))
         == Seqs.Count(todos, Keep("all", search))
  {
    if todos != [] {
      SplitCount(todos[1..], search);
    }
  }

  /** Without a description, only the title can match the term. */
  lemma NullDescriptionMatchesByTitle(search: string, t: Todo)
    requires t.description.None?
    ensures MatchesSearch(search, t) <==> Contains(Lower(t.title), Lower(search))
  {
  }

  /** Searching ignores ASCII case: a term and its lower-cased form match
      the same todos. */
  lemma SearchIgnoresCase(search: string, t: Todo)
    ensures MatchesSearch(Lower(search), t) <==> MatchesSearch(search, t)
  {
    assert Lower(Lower(search)) == Lower(search);
  }
}

/** The dashboard's filter bar: edits on the address's query parameters.
    The parameters are an ordered list of name/value pairs as the WHATWG
    URL Standard (section 6.2, `URLSearchParams`) keeps them. */
module QueryParams {
  import opened Wrappers
  import opened Text
  import FormUrl

  type Params = seq<(string, string)>

  /** `get(name)`: the value of the first pair with that name. */
  function Get(ps: Params, name: string): (r: Option<string>)
    ensures r.None? <==> forall i :: 0 <= i < |ps| ==> ps[i].0 != name
    ensures r.Some? ==> exists i :: 0 <= i < |ps| && ps[i] == (name, r.value) && forall j :: 0 <= j < i ==> ps[j].0 != name
  {
    if ps == [] then None else if ps[0].0 == name then Some(ps[0].1) else Get(ps[1..], name)
  }

  /** `delete(name)`: every pair with that name goes. */
  function Delete(ps: Params, name: string): (r: Params)
    ensures forall i :: 0 <= i < |r| ==> r[i].0 != name
    ensures forall q :: q in r <==> q in ps && q.0 != name
    ensures |r| <= |ps|
  {
    if ps == [] then []
    else if ps[0].0 == name then Delete(ps[1..], name)
    else [ps[0]] + Delete(ps[1..], name)
  }

  /** `set(name, value)`: the first pair with that name takes the value
      and later ones go; with no such pair, the pair is appended. */
  function Set(ps: Params, name: string, value: string): (r: Params)
    ensures (name, value) in r
    ensures forall i, j :: 0 <= i < j < |r| && r[i].0 == name ==> r[j].0 != name
    ensures forall q :: q in r && q.0 != name <==> q in ps && q.0 != name
  {
    if ps == [] then [(name, value)]
    else if ps[0].0 == name then [(name, value)] + Delete(ps[1..], name)
    else [ps[0]] + Set(ps[1..], name, value)
  }

  lemma {:induction false} GetDeleted(ps: Params, name: string, other: string)
    ensures Get(Delete(ps, name), name).None?
    ensures other != name ==> Get(Delete(ps, name), other) == Get(ps, other)
  {
    if ps != [] {
      GetDeleted(ps[1..], name, other);
    }
  }

  /** After `set`, the name reads back the value and every other name
      reads as before. */
  lemma {:induction false} GetSet(ps: Params, name: string, value: string, other: string)
    ensures Get(Set(ps, name, value), name) == Some(value)
    ensures other != name ==> Get(Set(ps, name, value), other) == Get(ps, other)
  {
    if ps != [] {
      if ps[0].0 == name {
        GetDeleted(ps[1..], name, other);
      } else {
        GetSet(ps[1..], name, value, other);
      }
    }
  }

  const Dashboard := "/dashboard?"

  /** Every push of the filter bar goes to the dashboard with the edited
      parameters written as `URLSearchParams.toString()` writes them. */
  function Target(ps: Params): (url: string)
    ensures Dashboard <= url && url[|Dashboard|..] == FormUrl.Serialize(ps)
  {
    Dashboard + FormUrl.Serialize(ps)
  }

  /** The page reads the query of the target back as exactly the edited
      parameters, in order: every name and value survives a space, an `&`,
      an `=`, a `+`, a `%` or any other character. */
  lemma TargetReadsBack(ps: Params)
    ensures var q := FormUrl.Parse(Target(ps)[|Dashboard|..]);
      && |q| == |ps|
      && forall i :: 0 <= i < |ps| ==>
           FormUrl.DecodeUtf8(q[i].0) == Some(ps[i].0) && FormUrl.DecodeUtf8(q[i].1) == Some(ps[i].1)
  {
    FormUrl.SerializeReadsBack(ps);
  }

  /** A one-parameter target, given how its name and value are written. */
  lemma TargetOne(name: string, value: string, writtenName: string, writtenValue: string)
    requires FormUrl.Encode(name) == writtenName && FormUrl.Encode(value) == writtenValue
    ensures Target([(name, value)]) == Dashboard + writtenName + "=" + writtenValue
  {
    FormUrl.SerializeOne(name, value);
  }

  /** A search for `buy milk` goes to `/dashboard?search=buy+milk`. */
  lemma TargetSpaceExample()
    ensures Target([("search", "buy milk")]) == "/dashboard?search=buy+milk"
  {
    FormUrl.EncodeUnreserved("search");
    FormUrl.EncodeSpaceExample();
    TargetOne("search", "buy milk", "search", "buy+milk");
    SpaceTargetText();
  }

  lemma SpaceTargetText()
    ensures Dashboard + "search" + "=" + "buy+milk" == "/dashboard?search=buy+milk"
  {
  }

  /** A search for `a&b` goes to `/dashboard?search=a%26b`. */
  lemma TargetAmpersandExample()
    ensures Target([("search", "a&b")]) == "/dashboard?search=a%26b"
  {
    FormUrl.EncodeUnreserved("search");
    FormUrl.EncodeAmpersandExample();
    TargetOne("search", "a&b", "search", "a%26b");
    AmpersandTargetText();
  }

  lemma AmpersandTargetText()
    ensures Dashboard + "search" + "=" + "a%26b" == "/dashboard?search=a%26b"
  {
  }

  /** `searchParams.get('filter') || 'all'`. */
  function CurrentFilter(ps: Params): (f: string)
    ensures f != []
    ensures Get(ps, "filter").Some? && Get(ps, "filter").value != [] ==> f == Get(ps, "filter").value
    ensures (Get(ps, "filter").None? || Get(ps, "filter").value == []) ==> f == "all"
  {
    match Get(ps, "filter")
    case Some(v) => if v == [] then "all" else v
    case None => "all"
  }

  /** `handleFilterChange`: `all` drops the filter, any other value sets it. */
  function FilterChange(ps: Params, filter: string): (r: Params)
    ensures Get(r, "filter") == (if filter == "all" then None else Some(filter))
    ensures forall q :: q in r && q.0 != "filter" <==> q in ps && q.0 != "filter"
  {
    GetDeleted(ps, "filter", "filter");
    GetSet(ps, "filter", filter, "filter");
    if filter == "all" then Delete(ps, "filter") else Set(ps, "filter", filter)
  }

  /** `handleSearchSubmit`: the trimmed term, or no term when it is blank. */
  function SearchSubmit(ps: Params, input: string): (r: Params)
    ensures Get(r, "search") == (if Trim(input) == [] then None else Some(Trim(input)))
    ensures forall q :: q in r && q.0 != "search" <==> q in ps && q.0 != "search"
  {
    GetDeleted(ps, "search", "search");
    GetSet(ps, "search", Trim(input), "search");
    var term := Trim(input);
    if term != [] then Set(ps, "search", term) else Delete(ps, "search")
  }

  /** `clearSearch`: the parameters without the term, and the emptied input. */
  function ClearSearch(ps: Params): (r: (Params, string))
    ensures r.1 == []
  {
    (Delete(ps, "search"), "")
  }

  /** A filter change is read back as the chosen filter (an empty choice
      reads as `all`), and leaves every other parameter alone. */
  lemma FilterChangeEffect(ps: Params, filter: string, other: string)
    ensures CurrentFilter(FilterChange(ps, filter)) == (if filter == [] then "all" else filter)
    ensures other != "filter" ==> Get(FilterChange(ps, filter), other) == Get(ps, other)
  {
    GetDeleted(ps, "filter", other);
    GetSet(ps, "filter", filter, other);
  }

  /** A search submit stores the trimmed term or removes a blank one, and
      leaves every other parameter alone. */
  lemma SearchSubmitEffect(ps: Params, input: string, other: string)
    ensures Get(SearchSubmit(ps, input), "search") == (if Trim(input) == [] then None else Some(Trim(input)))
    ensures other != "search" ==> Get(SearchSubmit(ps, input), other) == Get(ps, other)
  {
    GetDeleted(ps, "search", other);
    GetSet(ps, "search", Trim(input), other);
  }

  /** Clearing removes the term only. */
  lemma ClearSearchEffect(ps: Params, other: string)
    ensures Get(ClearSearch(ps).0, "search").None?
    ensures other != "search" ==> Get(ClearSearch(ps).0, other) == Get(ps, other)
  {
    GetDeleted(ps, "search", other);
  }
}
