/** The tag tokeniser the forms and the todo validator share:
    `str.split(sep).map(tag => tag.trim()).filter(Boolean)`, where an empty
    input gives no tags.  Submission splits on `,`; the create form's
    preview and the edit form split on a space. */
module Tags {
  import opened Text

  /** `.map(tag => tag.trim()).filter(Boolean)` over the pieces. */
  function Clean(pieces: seq<string>): (r: seq<string>)
    ensures |r| <= |pieces|
    ensures forall i :: 0 <= i < |r| ==> r[i] != [] && IsTrimmed(r[i])
  {
    if pieces == [] then []
    else
      var t := Trim(pieces[0]);
      var rest := Clean(pieces[1..]);
      if t == [] then rest
      else
        var r := [t] + rest;
        assert r[1..] == rest;
        r
  }

  /** `str ? str.split(sep).map(tag => tag.trim()).filter(Boolean) : []`. */
  function Tokenise(s: string, sep: char): (r: seq<string>)
    ensures forall i :: 0 <= i < |r| ==> r[i] != [] && IsTrimmed(r[i])
    ensures forall i :: 0 <= i < |r| ==> sep !in r[i]
  {
    if s == [] then []
    else
      var pieces := Split(s, sep);
      CleanKeepsOut(pieces, sep);
      Clean(pieces)
  }

  lemma {:induction false} CleanKeepsOut(pieces: seq<string>, c: char)
    requires forall i :: 0 <= i < |pieces| ==> c !in pieces[i]
    ensures forall i :: 0 <= i < |Clean(pieces)| ==> c !in Clean(pieces)[i]
  {
    if pieces != [] {
      CleanKeepsOut(pieces[1..], c);
      TrimChars(pieces[0]);
      var t := Trim(pieces[0]);
      var rest := Clean(pieces[1..]);
      var r := Clean(pieces);
      forall i | 0 <= i < |r| ensures c !in r[i] {
        if t == [] {
          assert r == rest;
        } else {
          assert r == [t] + rest;
          if i > 0 {
            assert r[i] == rest[i - 1];
          }
        }
      }
    }
  }

  /** A tag the tokeniser can give back unchanged: non-empty, trimmed and
      free of the separator. */
  predicate Clean1(t: string, sep: char) {
    t != [] && IsTrimmed(t) && sep !in t
  }

  lemma {:induction false} TrimStartAfterSpaces(p: string, t: string)
    requires AllSpace(p)
    ensures TrimStart(p + t) == TrimStart(t)
    decreases |p|
  {
    if p == [] {
      assert p + t == t;
    } else {
      assert (p + t)[1..] == p[1..] + t;
      TrimStartAfterSpaces(p[1..], t);
    }
  }

  /** Leading whitespace before a trimmed string is all `trim` removes. */
  lemma TrimAfterSpaces(p: string, t: string)
    requires AllSpace(p) && t != [] && IsTrimmed(t)
    ensures Trim(p + t) == t
  {
    TrimStartAfterSpaces(p, t);
    TrimOfTrimmed(t);
    assert Trim(p + t) == TrimEnd(TrimStart(p + t));
    assert Trim(t) == TrimEnd(TrimStart(t));
  }

  /** Cleaning a list whose first piece trims to something non-empty. */
  lemma CleanCons(x: string, rest: seq<string>)
    requires Trim(x) != []
    ensures Clean([x] + rest) == [Trim(x)] + Clean(rest)
  {
    assert ([x] + rest)[1..] == rest;
  }

  lemma NoSeparatorInSpaces(p: string, c: char)
    requires AllSpace(p) && !IsSpace(c)
    ensures c !in p
  {
    forall i | 0 <= i < |p| ensures p[i] != c {
      assert IsSpace(p[i]);
    }
  }

  lemma CommaJoinStep(p: string, tags: seq<string>)
    requires |tags| >= 2
    ensures p + Join(tags, ", ") == (p + tags[0]) + [','] + ([' '] + Join(tags[1..], ", "))
  {
  }

  lemma CommaJoinOne(p: string, t: string)
    requires AllSpace(p) && Clean1(t, ',')
    ensures Clean(Split(p + Join([t], ", "), ',')) == [t]
  {
    NoSeparatorInSpaces(p, ',');
    TrimAfterSpaces(p, t);
    assert p + Join([t], ", ") == p + t;
    SplitWithoutSeparator(p + t, ',');
    CleanCons(p + t, []);
  }

  lemma SplitCommaStep(p: string, tags: seq<string>)
    requires AllSpace(p) && |tags| >= 2 && ',' !in tags[0]
    ensures Split(p + Join(tags, ", "), ',') == [p + tags[0]] + Split([' '] + Join(tags[1..], ", "), ',')
  {
    NoSeparatorInSpaces(p, ',');
    var head := p + tags[0];
    assert ',' !in head;
    CommaJoinStep(p, tags);
    SplitAtFirstSeparator(head, [' '] + Join(tags[1..], ", "), ',');
  }

  lemma CleanStep(whole: seq<string>, head: string, tail: seq<string>, tags: seq<string>)
    requires tags != [] && whole == [head] + tail && Trim(head) == tags[0] != []
    requires Clean(tail) == tags[1..]
    ensures Clean(whole) == tags
  {
    CleanCons(head, tail);
    assert [tags[0]] + tags[1..] == tags;
  }

  lemma CommaJoinMore(p: string, tags: seq<string>)
    requires AllSpace(p) && |tags| >= 2 && Clean1(tags[0], ',')
    requires Clean(Split([' '] + Join(tags[1..], ", "), ',')) == tags[1..]
    ensures Clean(Split(p + Join(tags, ", "), ',')) == tags
  {
    SplitCommaStep(p, tags);
    TrimAfterSpaces(p, tags[0]);
    CleanStep(Split(p + Join(tags, ", "), ','), p + tags[0], Split([' '] + Join(tags[1..], ", "), ','), tags);
  }

  lemma {:induction false} CommaJoinAfterSpaces(p: string, tags: seq<string>)
    requires AllSpace(p) && tags != []
    requires forall i :: 0 <= i < |tags| ==> Clean1(tags[i], ',')
    ensures Clean(Split(p + Join(tags, ", "), ',')) == tags
    decreases |tags|
  {
    if |tags| == 1 {
      CommaJoinOne(p, tags[0]);
      assert [tags[0]] == tags;
    } else {
      CommaJoinAfterSpaces([' '], tags[1..]);
      CommaJoinMore(p, tags);
    }
  }

  /** Tags shown as `tags.join(', ')` tokenise back to themselves on `,`
      when each is non-empty, trimmed and comma-free. */
  lemma TokeniseCommaJoin(tags: seq<string>)
    requires forall i :: 0 <= i < |tags| ==> Clean1(tags[i], ',')
    ensures Tokenise(Join(tags, ", "), ',') == tags
  {
    if tags != [] {
      CommaJoinAfterSpaces([], tags);
      assert [] + Join(tags, ", ") == Join(tags, ", ");
    }
  }

  lemma {:induction false} SpaceJoinNonEmpty(tags: seq<string>)
    requires tags != [] && tags[0] != []
    ensures Join(tags, " ") != []
  {
    if |tags| > 1 {
      assert |Join(tags, " ")| >= |tags[0]|;
    }
  }

  /** Tags loaded as `tags.join(' ')` tokenise back to themselves on a
      space when each is non-empty, trimmed and space-free. */
  lemma {:induction false} TokeniseSpaceJoin(tags: seq<string>)
    requires forall i :: 0 <= i < |tags| ==> Clean1(tags[i], ' ')
    ensures Tokenise(Join(tags, " "), ' ') == tags
    decreases |tags|
  {
    if tags != [] {
      SpaceJoinNonEmpty(tags);
      TrimOfTrimmed(tags[0]);
      if |tags| == 1 {
        SplitWithoutSeparator(tags[0], ' ');
        assert [tags[0]][1..] == [];
      } else {
        var rest := Join(tags[1..], " ");
        assert Join(tags, " ") == tags[0] + [' '] + rest;
        SplitAtFirstSeparator(tags[0], rest, ' ');
        var pieces := [tags[0]] + Split(rest, ' ');
        assert pieces[1..] == Split(rest, ' ');
        TokeniseSpaceJoin(tags[1..]);
        SpaceJoinNonEmpty(tags[1..]);
        assert [tags[0]] + tags[1..] == tags;
      }
    }
  }

  /** The two tokenisers disagree on a space without a comma: `a b`
      previews as two tags and is submitted as one. */
  lemma PreviewDiffersFromSubmission()
    ensures Tokenise("a b", ',') == ["a b"]
    ensures Tokenise("a b", ' ') == ["a", "b"]
  {
    SubmitKeepsSpace();
    PreviewSplitsSpace();
  }

  lemma SubmitKeepsSpace()
    ensures Tokenise("a b", ',') == ["a b"]
  {
    SplitWithoutSeparator("a b", ',');
    TrimOfTrimmed("a b");
    CleanCons("a b", []);
  }

  lemma PreviewSplitsSpace()
    ensures Tokenise("a b", ' ') == ["a", "b"]
  {
    SplitOnSpace();
    CleanTwo("a", "b");
  }

  lemma SplitOnSpace()
    ensures Split("a b", ' ') == ["a", "b"]
  {
    assert "a b" == "a" + [' '] + "b";
    SplitAtFirstSeparator("a", "b", ' ');
    SplitWithoutSeparator("b", ' ');
  }

  /** Two clean pieces survive cleaning unchanged. */
  lemma CleanTwo(a: string, b: string)
    requires a != [] && IsTrimmed(a) && b != [] && IsTrimmed(b)
    ensures Clean([a, b]) == [a, b]
  {
    TrimOfTrimmed(a);
    TrimOfTrimmed(b);
    assert [a, b][1..] == [b];
    assert [b][1..] == [];
  }
}
