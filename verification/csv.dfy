/** Comma-separated values as the exports write them, and a reader that
    follows section 2 of RFC 4180 (records separated by a line feed, the
    separator the application writes): a field is either bare text
    without `,`, `"` or a line break, or text enclosed in double quotes
    with every inner `"` doubled.  The reader is the partner of the
    writers: a well-formed row reads back as exactly its cells. */
module Csv {
  import opened Wrappers
  import opened Text

  /** `s.replace(/"/g, '""')`. */
  function Escape(s: string): (r: string)
    ensures |r| == |s| + CountQuotes(s)
    ensures '"' !in s ==> r == s
  {
    if s == [] then []
    else (if s[0] == '"' then ['"', '"'] else [s[0]]) + Escape(s[1..])
  }

  /** Number of `"` characters in `s`. */
  function CountQuotes(s: string): nat {
    if s == [] then 0 else (if s[0] == '"' then 1 else 0) + CountQuotes(s[1..])
  }

  /** `"${s.replace(/"/g, '""')}"`: the quoted form of a field. */
  function Quote(s: string): (r: string)
    ensures |r| == |s| + CountQuotes(s) + 2
    ensures r[0] == '"' && r[|r| - 1] == '"'
  {
    ['"'] + Escape(s) + ['"']
  }

  /** Text that may stand in a record without quotes. */
  predicate Plain(s: string) {
    ',' !in s && '"' !in s && '\n' !in s
  }

  /** One field as written: bare, or enclosed in quotes. */
  datatype Cell = Bare(text: string) | Quoted(text: string)
  {
    /** A bare field may not hold a separator, a quote or a line break. */
    predicate WellFormed() {
      Bare? ==> Plain(text)
    }

    function Render(): string {
      match this
      case Bare(t) => t
      case Quoted(t) => Quote(t)
    }
  }

  function RenderCells(cells: seq<Cell>): (r: seq<string>)
    ensures |r| == |cells|
    ensures forall i :: 0 <= i < |cells| ==> r[i] == cells[i].Render()
  {
    seq(|cells|, i requires 0 <= i < |cells| => cells[i].Render())
  }

  /** `row.join(',')`. */
  function RenderRow(cells: seq<Cell>): string {
    Join(RenderCells(cells), [','])
  }

  /** `rows.map(row => row.join(',')).join('\n')`. */
  function RenderDocument(rows: seq<seq<Cell>>): string {
    Join(seq(|rows|, i requires 0 <= i < |rows| => RenderRow(rows[i])), ['\n'])
  }

  /** A document renders as its lines joined by line feeds. */
  lemma RenderDocumentOfLines(rows: seq<seq<Cell>>, lines: seq<string>)
    requires |lines| == |rows|
    requires forall i :: 0 <= i < |rows| ==> lines[i] == RenderRow(rows[i])
    ensures RenderDocument(rows) == Join(lines, ['\n'])
  {
    assert lines == seq(|rows|, i requires 0 <= i < |rows| => RenderRow(rows[i]));
  }

  function Texts(cells: seq<Cell>): (r: seq<string>)
    ensures |r| == |cells|
    ensures forall i :: 0 <= i < |cells| ==> r[i] == cells[i].text
  {
    seq(|cells|, i requires 0 <= i < |cells| => cells[i].text)
  }

  predicate AllWellFormed(cells: seq<Cell>) {
    forall i :: 0 <= i < |cells| ==> cells[i].WellFormed()
  }

  datatype ParseError =
    | UnterminatedQuote
    | TextAfterClosingQuote
    | QuoteInBareField

  /** A field's text and the input left after it. */
  datatype Piece<T> = Piece(value: T, rest: string)

  /** Reads the inside of a quoted field (the opening quote already
      consumed) up to its closing quote; `""` stands for one `"`. */
  function ParseQuotedBody(s: string): (r: Result<Piece<string>, ParseError>)
    ensures r.Ok? ==> |r.value.rest| < |s|
    decreases |s|
  {
    if s == [] then Err(UnterminatedQuote)
    else if s[0] == '"' then
      if |s| >= 2 && s[1] == '"' then
        match ParseQuotedBody(s[2..])
        case Ok(p) => Ok(Piece(['"'] + p.value, p.rest))
        case Err(e) => Err(e)
      else Ok(Piece([], s[1..]))
    else
      match ParseQuotedBody(s[1..])
      case Ok(p) => Ok(Piece([s[0]] + p.value, p.rest))
      case Err(e) => Err(e)
  }

  /** Reads a bare field: everything up to the next `,` or line feed. */
  function ParseBare(s: string): (r: Result<Piece<string>, ParseError>)
    ensures r.Ok? ==> Plain(r.value.value) && s == r.value.value + r.value.rest
    ensures r.Ok? ==> r.value.rest == [] || r.value.rest[0] in {',', '\n'}
    ensures r.Err? ==> '"' in s
  {
    if s == [] || s[0] == ',' || s[0] == '\n' then Ok(Piece([], s))
    else if s[0] == '"' then Err(QuoteInBareField)
    else
      match ParseBare(s[1..])
      case Ok(p) =>
        assert s == [s[0]] + p.value + p.rest;
        Ok(Piece([s[0]] + p.value, p.rest))
      case Err(e) => Err(e)
  }

  /** A field boundary: the end of the input, a `,` or a line feed. */
  predicate AtBoundary(s: string) {
    s == [] || s[0] == ',' || s[0] == '\n'
  }

  /** Reads one field from the front of `s`. */
  function ParseField(s: string): (r: Result<Piece<string>, ParseError>)
    ensures r.Ok? ==> |r.value.rest| <= |s| && AtBoundary(r.value.rest)
  {
    if s != [] && s[0] == '"' then
      match ParseQuotedBody(s[1..])
      case Ok(p) => if AtBoundary(p.rest) then Ok(p) else Err(TextAfterClosingQuote)
      case Err(e) => Err(e)
    else ParseBare(s)
  }

  /** Reads one record: fields separated by `,`, up to a line feed or the
      end of the input. */
  function ParseRecord(s: string): (r: Result<Piece<seq<string>>, ParseError>)
    ensures r.Ok? ==> |r.value.value| >= 1 && |r.value.rest| <= |s|
    ensures r.Ok? ==> r.value.rest == [] || r.value.rest[0] == '\n'
    decreases |s|
  {
    match ParseField(s)
    case Err(e) => Err(e)
    case Ok(f) =>
      if f.rest != [] && f.rest[0] == ',' then
        match ParseRecord(f.rest[1..])
        case Ok(p) => Ok(Piece([f.value] + p.value, p.rest))
        case Err(e) => Err(e)
      else Ok(Piece([f.value], f.rest))
  }

  /** Reads a whole document: records separated by line feeds. */
  function ParseDocument(s: string): (r: Result<seq<seq<string>>, ParseError>)
    ensures r.Ok? ==> |r.value| >= 1
    decreases |s|
  {
    match ParseRecord(s)
    case Err(e) => Err(e)
    case Ok(p) =>
      if p.rest == [] then Ok([p.value])
      else
        match ParseDocument(p.rest[1..])
        case Ok(rows) => Ok([p.value] + rows)
        case Err(e) => Err(e)
  }

  lemma QuotedBodyStepDoubled(u: string, p: Piece<string>)
    requires ParseQuotedBody(u) == Ok(p)
    ensures ParseQuotedBody(['"', '"'] + u) == Ok(Piece(['"'] + p.value, p.rest))
  {
    assert (['"', '"'] + u)[2..] == u;
  }

  lemma QuotedBodyStepChar(c: char, u: string, p: Piece<string>)
    requires c != '"'
    requires ParseQuotedBody(u) == Ok(p)
    ensures ParseQuotedBody([c] + u) == Ok(Piece([c] + p.value, p.rest))
  {
    assert ([c] + u)[1..] == u;
  }

  /** Escaping works character by character. */
  lemma EscapeCons(t: string, rest: string)
    requires t != []
    ensures Escape(t) + ['"'] + rest
         == (if t[0] == '"' then ['"', '"'] else [t[0]]) + (Escape(t[1..]) + ['"'] + rest)
  {
  }

  /** The quoted body reads back whatever text was escaped, provided the
      text after the closing quote does not begin with another quote. */
  lemma {:induction false} ParseQuotedBodyOfEscaped(t: string, rest: string)
    requires rest == [] || rest[0] != '"'
    ensures ParseQuotedBody(Escape(t) + ['"'] + rest) == Ok(Piece(t, rest))
  {
    if t == [] {
      assert Escape(t) + ['"'] + rest == ['"'] + rest;
      assert (['"'] + rest)[1..] == rest;
    } else {
      var u := Escape(t[1..]) + ['"'] + rest;
      ParseQuotedBodyOfEscaped(t[1..], rest);
      EscapeCons(t, rest);
      if t[0] == '"' {
        QuotedBodyStepDoubled(u, Piece(t[1..], rest));
      } else {
        QuotedBodyStepChar(t[0], u, Piece(t[1..], rest));
      }
      assert [t[0]] + t[1..] == t;
    }
  }

  /** A quoted cell followed by a field boundary reads back as its text. */
  lemma ParseFieldOfQuoted(t: string, rest: string)
    requires AtBoundary(rest)
    ensures ParseField(Quote(t) + rest) == Ok(Piece(t, rest))
  {
    assert (Quote(t) + rest)[1..] == Escape(t) + ['"'] + rest;
    ParseQuotedBodyOfEscaped(t, rest);
  }

  lemma {:induction false} ParseBareOfPlain(t: string, rest: string)
    requires Plain(t)
    requires AtBoundary(rest)
    ensures ParseBare(t + rest) == Ok(Piece(t, rest))
  {
    if t != [] {
      var s := t + rest;
      assert s[0] == t[0];
      assert s[1..] == t[1..] + rest;
      ParseBareOfPlain(t[1..], rest);
      assert [t[0]] + t[1..] == t;
    } else {
      assert t + rest == rest;
    }
  }

  /** A well-formed cell followed by a field boundary reads back as its text. */
  lemma ParseFieldOfRendered(c: Cell, rest: string)
    requires c.WellFormed()
    requires AtBoundary(rest)
    ensures ParseField(c.Render() + rest) == Ok(Piece(c.text, rest))
  {
    match c
    case Quoted(t) =>
      ParseFieldOfQuoted(t, rest);
    case Bare(t) =>
      ParseBareOfPlain(t, rest);
  }

  /** Splitting off the first part of a join. */
  lemma JoinCons(parts: seq<string>, sep: string)
    requires |parts| >= 2
    ensures Join(parts, sep) == parts[0] + sep + Join(parts[1..], sep)
  {
  }

  lemma RenderRowCons(cells: seq<Cell>, rest: string)
    requires |cells| >= 2
    ensures RenderRow(cells) + rest == cells[0].Render() + ([','] + (RenderRow(cells[1..]) + rest))
  {
    var parts := RenderCells(cells);
    assert parts[1..] == RenderCells(cells[1..]);
    JoinCons(parts, [',']);
  }

  lemma TextsCons(cells: seq<Cell>)
    requires |cells| >= 1
    ensures Texts(cells) == [cells[0].text] + Texts(cells[1..])
  {
  }

  lemma AllWellFormedTail(cells: seq<Cell>)
    requires |cells| >= 1 && AllWellFormed(cells)
    ensures AllWellFormed(cells[1..])
  {
    forall i | 0 <= i < |cells[1..]| ensures cells[1..][i].WellFormed() {
      assert cells[1..][i] == cells[i + 1];
    }
  }

  /** How a record continues after its first field. */
  lemma ParseRecordStep(x: string, y: string, t: string, tail: Piece<seq<string>>)
    requires ParseField(x + ([','] + y)) == Ok(Piece(t, [','] + y))
    requires ParseRecord(y) == Ok(tail)
    ensures ParseRecord(x + ([','] + y)) == Ok(Piece([t] + tail.value, tail.rest))
  {
    assert ([','] + y)[1..] == y;
  }

  /** A rendered row reads back one cell longer when its tail does. */
  lemma ParseRecordOfRenderedCons(cells: seq<Cell>, rest: string)
    requires |cells| >= 2
    requires cells[0].WellFormed()
    requires ParseRecord(RenderRow(cells[1..]) + rest) == Ok(Piece(Texts(cells[1..]), rest))
    ensures ParseRecord(RenderRow(cells) + rest) == Ok(Piece(Texts(cells), rest))
  {
    var y := RenderRow(cells[1..]) + rest;
    RenderRowCons(cells, rest);
    ParseFieldOfRendered(cells[0], [','] + y);
    ParseRecordStep(cells[0].Render(), y, cells[0].text, Piece(Texts(cells[1..]), rest));
    TextsCons(cells);
  }

  /** A row of well-formed cells, followed by the end of the input or a
      line feed, reads back as the texts of its cells. */
  lemma {:induction false} ParseRecordOfRendered(cells: seq<Cell>, rest: string)
    requires |cells| >= 1
    requires AllWellFormed(cells)
    requires rest == [] || rest[0] == '\n'
    ensures ParseRecord(RenderRow(cells) + rest) == Ok(Piece(Texts(cells), rest))
    decreases |cells|
  {
    if |cells| == 1 {
      assert RenderRow(cells) == cells[0].Render();
      ParseFieldOfRendered(cells[0], rest);
      assert Texts(cells) == [cells[0].text];
    } else {
      AllWellFormedTail(cells);
      ParseRecordOfRendered(cells[1..], rest);
      ParseRecordOfRenderedCons(cells, rest);
    }
  }

  /** A reading with `v` put in front of its fields; an error stays. */
  function Prepend(v: seq<string>, r: Result<Piece<seq<string>>, ParseError>): Result<Piece<seq<string>>, ParseError> {
    match r
    case Ok(p) => Ok(Piece(v + p.value, p.rest))
    case Err(e) => Err(e)
  }

  /** How a record continues after its first field, error or not. */
  lemma ParseRecordStepAny(x: string, y: string, t: string)
    requires ParseField(x + ([','] + y)) == Ok(Piece(t, [','] + y))
    ensures ParseRecord(x + ([','] + y)) == Prepend([t], ParseRecord(y))
  {
    assert ([','] + y)[1..] == y;
  }

  lemma PrependPrepend(a: seq<string>, b: seq<string>, r: Result<Piece<seq<string>>, ParseError>)
    ensures Prepend(a, Prepend(b, r)) == Prepend(a + b, r)
  {
    if r.Ok? {
      assert a + (b + r.value.value) == (a + b) + r.value.value;
    }
  }

  /** A rendered row followed by `,` and more input reads as the row's
      texts followed by whatever the rest reads as, error included. */
  lemma {:induction false} ParseRecordAfterRendered(cells: seq<Cell>, y: string)
    requires |cells| >= 1 && AllWellFormed(cells)
    ensures ParseRecord(RenderRow(cells) + ([','] + y)) == Prepend(Texts(cells), ParseRecord(y))
    decreases |cells|
  {
    if |cells| == 1 {
      assert RenderRow(cells) == cells[0].Render();
      ParseFieldOfRendered(cells[0], [','] + y);
      ParseRecordStepAny(cells[0].Render(), y, cells[0].text);
      assert Texts(cells) == [cells[0].text];
    } else {
      var y2 := RenderRow(cells[1..]) + ([','] + y);
      AllWellFormedTail(cells);
      ParseRecordAfterRendered(cells[1..], y);
      RenderRowCons(cells, [','] + y);
      ParseFieldOfRendered(cells[0], [','] + y2);
      ParseRecordStepAny(cells[0].Render(), y2, cells[0].text);
      TextsCons(cells);
      PrependPrepend([cells[0].text], Texts(cells[1..]), ParseRecord(y));
    }
  }

  /** Every row of a document non-empty and well-formed. */
  predicate WellFormedDocument(rows: seq<seq<Cell>>) {
    forall i :: 0 <= i < |rows| ==> |rows[i]| >= 1 && AllWellFormed(rows[i])
  }

  /** The texts of every row of a document. */
  function DocumentTexts(rows: seq<seq<Cell>>): (r: seq<seq<string>>)
    ensures |r| == |rows|
    ensures forall i :: 0 <= i < |rows| ==> r[i] == Texts(rows[i])
  {
    seq(|rows|, i requires 0 <= i < |rows| => Texts(rows[i]))
  }

  lemma RenderDocumentCons(rows: seq<seq<Cell>>)
    requires |rows| >= 2
    ensures RenderDocument(rows) == RenderRow(rows[0]) + (['\n'] + RenderDocument(rows[1..]))
  {
    var lines := seq(|rows|, i requires 0 <= i < |rows| => RenderRow(rows[i]));
    assert lines[1..] == seq(|rows| - 1, i requires 0 <= i < |rows| - 1 => RenderRow(rows[1..][i]));
    JoinCons(lines, ['\n']);
  }

  lemma DocumentTextsCons(rows: seq<seq<Cell>>)
    requires |rows| >= 1
    ensures DocumentTexts(rows) == [Texts(rows[0])] + DocumentTexts(rows[1..])
  {
  }

  /** How a document continues after its first record. */
  lemma ParseDocumentStep(x: string, y: string, v: seq<string>, rows: seq<seq<string>>)
    requires ParseRecord(x + (['\n'] + y)) == Ok(Piece(v, ['\n'] + y))
    requires ParseDocument(y) == Ok(rows)
    ensures ParseDocument(x + (['\n'] + y)) == Ok([v] + rows)
  {
    assert (['\n'] + y)[1..] == y;
  }

  /** A rendered document reads back one row longer when its tail does. */
  lemma ParseDocumentOfRenderedCons(rows: seq<seq<Cell>>)
    requires |rows| >= 2
    requires |rows[0]| >= 1 && AllWellFormed(rows[0])
    requires ParseDocument(RenderDocument(rows[1..])) == Ok(DocumentTexts(rows[1..]))
    ensures ParseDocument(RenderDocument(rows)) == Ok(DocumentTexts(rows))
  {
    var y := RenderDocument(rows[1..]);
    RenderDocumentCons(rows);
    ParseRecordOfRendered(rows[0], ['\n'] + y);
    ParseDocumentStep(RenderRow(rows[0]), y, Texts(rows[0]), DocumentTexts(rows[1..]));
    DocumentTextsCons(rows);
  }

  /** A document of well-formed rows reads back as the texts of its rows. */
  lemma {:induction false} ParseDocumentOfRendered(rows: seq<seq<Cell>>)
    requires |rows| >= 1
    requires WellFormedDocument(rows)
    ensures ParseDocument(RenderDocument(rows)) == Ok(DocumentTexts(rows))
    decreases |rows|
  {
    if |rows| == 1 {
      assert RenderDocument(rows) == RenderRow(rows[0]) + [];
      ParseRecordOfRendered(rows[0], []);
      assert DocumentTexts(rows) == [Texts(rows[0])];
    } else {
      assert WellFormedDocument(rows[1..]) by {
        forall i | 0 <= i < |rows[1..]| ensures |rows[1..][i]| >= 1 && AllWellFormed(rows[1..][i]) {
          assert rows[1..][i] == rows[i + 1];
        }
      }
      ParseDocumentOfRendered(rows[1..]);
      ParseDocumentOfRenderedCons(rows);
    }
  }
}
