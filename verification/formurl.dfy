/** The `application/x-www-form-urlencoded` format of section 5 of the
    WHATWG URL Standard, which `URLSearchParams` reads and writes: a
    query is `name=value` pairs joined by `&`; each name and value is
    encoded as UTF-8 (RFC 3629), a space is written `+`, the ASCII
    letters and digits and `*`, `-`, `.`, `_` stand for themselves, and
    every other byte is written `%XX` with upper-case hex digits.  The
    parser is the serialiser's partner: a serialised list of pairs parses
    back to the UTF-8 bytes of the same names and values, which decode to
    the original strings. */
module FormUrl {
  import opened Wrappers
  import opened Text

  type byte = b: int | 0 <= b < 0x100

  // ---------------------------------------------------------------- UTF-8

  /** The UTF-8 encoding of one scalar value: one to four bytes. */
  function Utf8Char(c: char): (bs: seq<byte>)
    ensures 1 <= |bs| <= 4
    ensures |bs| == 1 <==> (c as int) < 0x80
  {
    var n := c as int;
    if n < 0x80 then [n]
    else if n < 0x800 then [0xC0 + n / 64, 0x80 + n % 64]
    else if n < 0x10000 then [0xE0 + n / 4096, 0x80 + n / 64 % 64, 0x80 + n % 64]
    else [0xF0 + n / 0x40000, 0x80 + n / 4096 % 64, 0x80 + n / 64 % 64, 0x80 + n % 64]
  }

  /** The UTF-8 encoding of a string. */
  function Utf8(s: string): (bs: seq<byte>)
    ensures |s| <= |bs| <= 4 * |s|
  {
    if s == [] then [] else Utf8Char(s[0]) + Utf8(s[1..])
  }

  predicate Continuation(b: int) {
    0x80 <= b < 0xC0
  }

  /** Reads the scalar value at the front of a byte sequence and says how
      many bytes it took; `None` for an ill-formed sequence (a stray
      continuation byte, a truncated sequence, an over-long form, a
      surrogate or a value past U+10FFFF). */
  function DecodeOne(bs: seq<byte>): (r: Option<(char, nat)>)
    requires bs != []
    ensures r.Some? ==> 1 <= r.value.1 <= |bs|
  {
    var b0, b1, b2, b3 := bs[0] as int, Byte(bs, 1), Byte(bs, 2), Byte(bs, 3);
    if b0 < 0x80 then Some((b0 as char, 1))
    else if 0xC2 <= b0 < 0xE0 && |bs| >= 2 && Continuation(b1) then
      Some((((b0 - 0xC0) * 64 + (b1 - 0x80)) as char, 2))
    else if 0xE0 <= b0 < 0xF0 && |bs| >= 3 && Continuation(b1) && Continuation(b2) then
      var n := (b0 - 0xE0) * 4096 + (b1 - 0x80) * 64 + (b2 - 0x80);
      if 0x800 <= n && !(0xD800 <= n < 0xE000) then Some((n as char, 3)) else None
    else if 0xF0 <= b0 < 0xF5 && |bs| >= 4 && Continuation(b1) && Continuation(b2) && Continuation(b3) then
      var n := (b0 - 0xF0) * 0x40000 + (b1 - 0x80) * 4096 + (b2 - 0x80) * 64 + (b3 - 0x80);
      if 0x10000 <= n < 0x110000 then Some((n as char, 4)) else None
    else None
  }

  /** The byte at `i`, or zero past the end. */
  function Byte(bs: seq<byte>, i: nat): int {
    if i < |bs| then bs[i] else 0
  }

  /** Decodes a whole byte sequence; `None` if any part is ill-formed. */
  function DecodeUtf8(bs: seq<byte>): (r: Option<string>)
    decreases |bs|
  {
    if bs == [] then Some([])
    else match DecodeOne(bs)
      case None => None
      case Some((c, k)) =>
        match DecodeUtf8(bs[k..])
        case None => None
        case Some(rest) => Some([c] + rest)
  }

  lemma DecodeOneOfUtf8Char(c: char, rest: seq<byte>)
    ensures DecodeOne(Utf8Char(c) + rest) == Some((c, |Utf8Char(c)|))
  {
    var n := c as int;
    if n < 0x80 {
    } else if n < 0x800 {
      DecodeTwo(c, rest);
    } else if n < 0x10000 {
      DecodeThree(c, rest);
    } else {
      DecodeFour(c, rest);
    }
  }

  lemma DecodeTwo(c: char, rest: seq<byte>)
    requires 0x80 <= c as int < 0x800
    ensures DecodeOne(Utf8Char(c) + rest) == Some((c, 2))
  {
    var n := c as int;
    var bs := Utf8Char(c) + rest;
    assert bs[0] == 0xC0 + n / 64 && bs[1] == 0x80 + n % 64;
    assert (n / 64) * 64 + n % 64 == n;
  }

  lemma DecodeThree(c: char, rest: seq<byte>)
    requires 0x800 <= c as int < 0x10000
    ensures DecodeOne(Utf8Char(c) + rest) == Some((c, 3))
  {
    var n := c as int;
    var q := n / 64;
    var bs := Utf8Char(c) + rest;
    assert bs[0] == 0xE0 + n / 4096 && bs[1] == 0x80 + q % 64 && bs[2] == 0x80 + n % 64;
    assert n / 4096 == q / 64;
    assert (q / 64) * 4096 + (q % 64) * 64 + n % 64 == n;
  }

  lemma DecodeFour(c: char, rest: seq<byte>)
    requires 0x10000 <= c as int
    ensures DecodeOne(Utf8Char(c) + rest) == Some((c, 4))
  {
    var n := c as int;
    var q := n / 64;
    var p := q / 64;
    var bs := Utf8Char(c) + rest;
    assert bs[0] == 0xF0 + n / 0x40000 && bs[1] == 0x80 + n / 4096 % 64;
    assert bs[2] == 0x80 + q % 64 && bs[3] == 0x80 + n % 64;
    assert n / 4096 == p && n / 0x40000 == p / 64;
    assert (p / 64) * 0x40000 + (p % 64) * 4096 + (q % 64) * 64 + n % 64 == n;
  }

  /** Decoding inverts encoding. */
  lemma {:induction false} DecodeUtf8OfUtf8(s: string)
    ensures DecodeUtf8(Utf8(s)) == Some(s)
  {
    if s != [] {
      var head := Utf8Char(s[0]);
      var bs := Utf8(s);
      assert bs == head + Utf8(s[1..]);
      DecodeOneOfUtf8Char(s[0], Utf8(s[1..]));
      assert bs[|head|..] == Utf8(s[1..]);
      DecodeUtf8OfUtf8(s[1..]);
      assert [s[0]] + s[1..] == s;
    }
  }

  /** Encoding is injective: different strings have different bytes. */
  lemma Utf8Injective(s: string, t: string)
    requires Utf8(s) == Utf8(t)
    ensures s == t
  {
    DecodeUtf8OfUtf8(s);
    DecodeUtf8OfUtf8(t);
  }

  // ------------------------------------------------------ percent-encoding

  /** The bytes that stand for themselves: ASCII letters and digits and
      `*`, `-`, `.`, `_`. */
  predicate Unreserved(b: byte) {
    || ('0' as int <= b <= '9' as int)
    || ('A' as int <= b <= 'Z' as int)
    || ('a' as int <= b <= 'z' as int)
    || b == '*' as int || b == '-' as int || b == '.' as int || b == '_' as int
  }

  /** The upper-case hex digit of a value below sixteen. */
  function HexDigit(d: nat): (c: char)
    requires d < 16
    ensures ('0' <= c <= '9') || ('A' <= c <= 'F')
  {
    if d < 10 then ('0' as int + d) as char else ('A' as int + d - 10) as char
  }

  /** The value of a hex digit of either case. */
  function HexValue(c: char): (r: Option<nat>)
    ensures r.Some? ==> r.value < 16
    ensures r.Some? <==> ('0' <= c <= '9') || ('A' <= c <= 'F') || ('a' <= c <= 'f')
  {
    if '0' <= c <= '9' then Some(c as int - '0' as int)
    else if 'A' <= c <= 'F' then Some(c as int - 'A' as int + 10)
    else if 'a' <= c <= 'f' then Some(c as int - 'a' as int + 10)
    else None
  }

  lemma HexValueOfDigit(d: nat)
    requires d < 16
    ensures HexValue(HexDigit(d)) == Some(d)
  {
  }

  /** A character the encoder may write: never `&` or `=`, the two
      characters the parser splits on. */
  predicate Safe(c: char) {
    c != '&' && c != '='
  }

  predicate AllSafe(s: string) {
    forall i :: 0 <= i < |s| ==> Safe(s[i])
  }

  /** One byte as written: itself, `+` for a space, `%XX` otherwise. */
  function EncodeByte(b: byte): (s: string)
    ensures 1 <= |s| <= 3 && AllSafe(s)
    ensures ' ' !in s
    ensures |s| == 1 <==> Unreserved(b) || b == 0x20
  {
    if Unreserved(b) then [b as char]
    else if b == 0x20 then "+"
    else "%" + [HexDigit(b / 16), HexDigit(b % 16)]
  }

  function EncodeBytes(bs: seq<byte>): (s: string)
    ensures AllSafe(s) && ' ' !in s
  {
    if bs == [] then [] else EncodeByte(bs[0]) + EncodeBytes(bs[1..])
  }

  /** A name or a value as `URLSearchParams` writes it. */
  function Encode(s: string): (r: string)
    ensures AllSafe(r) && ' ' !in r
    ensures |Utf8(s)| <= |r| <= 3 * |Utf8(s)|
  {
    EncodeBytesLength(Utf8(s));
    EncodeBytes(Utf8(s))
  }

  lemma {:induction false} EncodeBytesLength(bs: seq<byte>)
    ensures |bs| <= |EncodeBytes(bs)| <= 3 * |bs|
  {
    if bs != [] {
      EncodeBytesLength(bs[1..]);
    }
  }

  /** A name or a value as the parser reads it: `+` is a space, `%` with
      two hex digits is that byte, any other character (a `%` without two
      hex digits included) stands for its UTF-8 bytes. */
  function DecodeComponent(s: string): seq<byte>
    decreases |s|
  {
    if s == [] then []
    else if s[0] == '%' && |s| >= 3 && HexValue(s[1]).Some? && HexValue(s[2]).Some? then
      [HexValue(s[1]).value * 16 + HexValue(s[2]).value] + DecodeComponent(s[3..])
    else if s[0] == '+' then [0x20] + DecodeComponent(s[1..])
    else Utf8Char(s[0]) + DecodeComponent(s[1..])
  }

  lemma DecodeStep(b: byte, rest: string)
    ensures DecodeComponent(EncodeByte(b) + rest) == [b] + DecodeComponent(rest)
  {
    var s := EncodeByte(b) + rest;
    if Unreserved(b) {
      assert s[0] == b as char && s[1..] == rest;
    } else if b == 0x20 {
      assert s[0] == '+' && s[1..] == rest;
    } else {
      HexValueOfDigit(b / 16);
      HexValueOfDigit(b % 16);
      assert s[0] == '%' && s[1] == HexDigit(b / 16) && s[2] == HexDigit(b % 16) && s[3..] == rest;
    }
  }

  /** Reading inverts writing, byte for byte. */
  lemma {:induction false} DecodeEncodeBytes(bs: seq<byte>)
    ensures DecodeComponent(EncodeBytes(bs)) == bs
  {
    if bs != [] {
      DecodeStep(bs[0], EncodeBytes(bs[1..]));
      DecodeEncodeBytes(bs[1..]);
      assert [bs[0]] + bs[1..] == bs;
    }
  }

  /** A written name or value reads back as the string's UTF-8 bytes, and
      those decode to the string. */
  lemma DecodeEncode(s: string)
    ensures DecodeComponent(Encode(s)) == Utf8(s)
    ensures DecodeUtf8(DecodeComponent(Encode(s))) == Some(s)
  {
    DecodeEncodeBytes(Utf8(s));
    DecodeUtf8OfUtf8(s);
  }

  // ---------------------------------------------------------- the query

  /** `name=value`. */
  function Pair(name: string, value: string): string {
    Encode(name) + "=" + Encode(value)
  }

  /** `URLSearchParams.toString()`: the pairs in order, joined by `&`. */
  function Serialize(ps: seq<(string, string)>): (q: string)
    ensures ps == [] <==> q == []
  {
    Join(seq(|ps|, i requires 0 <= i < |ps| => Pair(ps[i].0, ps[i].1)), "&")
  }

  lemma SerializeOne(name: string, value: string)
    ensures Serialize([(name, value)]) == Encode(name) + "=" + Encode(value)
  {
    assert seq(1, i requires 0 <= i < 1 => Pair([(name, value)][i].0, [(name, value)][i].1)) == [Pair(name, value)];
  }

  /** One `&`-separated piece: the name up to the first `=`, the value
      after it (empty when there is no `=`). */
  function ParsePiece(p: string): (seq<byte>, seq<byte>) {
    var parts := Split(p, '=');
    (DecodeComponent(parts[0]), DecodeComponent(Join(parts[1..], "=")))
  }

  /** The pieces in order, empty ones skipped. */
  function ParsePieces(pieces: seq<string>): (r: seq<(seq<byte>, seq<byte>)>)
    ensures |r| <= |pieces|
  {
    if pieces == [] then []
    else (if pieces[0] == [] then [] else [ParsePiece(pieces[0])]) + ParsePieces(pieces[1..])
  }

  /** The form-urlencoded parser, up to the UTF-8 decoding of each name
      and value. */
  function Parse(q: string): seq<(seq<byte>, seq<byte>)> {
    ParsePieces(Split(q, '&'))
  }

  lemma ParsePair(name: string, value: string)
    ensures ParsePiece(Pair(name, value)) == (Utf8(name), Utf8(value))
  {
    var a, b := Encode(name), Encode(value);
    assert '=' !in a by { assert forall i :: 0 <= i < |a| ==> Safe(a[i]); }
    assert '=' !in b by { assert forall i :: 0 <= i < |b| ==> Safe(b[i]); }
    assert Pair(name, value) == a + ['='] + b;
    SplitAtFirstSeparator(a, b, '=');
    SplitWithoutSeparator(b, '=');
    assert Split(Pair(name, value), '=') == [a, b];
    assert Join([b], "=") == b;
    DecodeEncode(name);
    DecodeEncode(value);
  }

  lemma {:induction false} ParseNonEmptyPieces(pieces: seq<string>)
    requires forall i :: 0 <= i < |pieces| ==> pieces[i] != []
    ensures ParsePieces(pieces) == seq(|pieces|, i requires 0 <= i < |pieces| => ParsePiece(pieces[i]))
  {
    if pieces != [] {
      ParseNonEmptyPieces(pieces[1..]);
    }
  }

  /** Parsing inverts serialising: the query parses back to the UTF-8
      bytes of every name and value, in order, none lost and none added. */
  lemma SerializeRoundTrip(ps: seq<(string, string)>)
    ensures Parse(Serialize(ps)) == seq(|ps|, i requires 0 <= i < |ps| => (Utf8(ps[i].0), Utf8(ps[i].1)))
  {
    var pieces := seq(|ps|, i requires 0 <= i < |ps| => Pair(ps[i].0, ps[i].1));
    if ps == [] {
      assert Split([], '&') == [[]];
    } else {
      forall i | 0 <= i < |pieces| ensures '&' !in pieces[i] && pieces[i] != [] {
        var a, b := Encode(ps[i].0), Encode(ps[i].1);
        assert '&' !in a by { assert forall k :: 0 <= k < |a| ==> Safe(a[k]); }
        assert '&' !in b by { assert forall k :: 0 <= k < |b| ==> Safe(b[k]); }
        assert pieces[i] == a + "=" + b;
      }
      SplitJoin(pieces, '&');
      ParseNonEmptyPieces(pieces);
      forall i | 0 <= i < |ps| ensures ParsePiece(pieces[i]) == (Utf8(ps[i].0), Utf8(ps[i].1)) {
        ParsePair(ps[i].0, ps[i].1);
      }
    }
  }

  /** Every name and value of a serialised query decodes back to itself. */
  lemma SerializeReadsBack(ps: seq<(string, string)>)
    ensures |Parse(Serialize(ps))| == |ps|
    ensures forall i :: 0 <= i < |ps| ==>
      DecodeUtf8(Parse(Serialize(ps))[i].0) == Some(ps[i].0) && DecodeUtf8(Parse(Serialize(ps))[i].1) == Some(ps[i].1)
  {
    SerializeRoundTrip(ps);
    forall i | 0 <= i < |ps|
      ensures DecodeUtf8(Utf8(ps[i].0)) == Some(ps[i].0) && DecodeUtf8(Utf8(ps[i].1)) == Some(ps[i].1)
    {
      DecodeUtf8OfUtf8(ps[i].0);
      DecodeUtf8OfUtf8(ps[i].1);
    }
  }

  lemma {:induction false} Utf8Append(s: string, t: string)
    ensures Utf8(s + t) == Utf8(s) + Utf8(t)
  {
    if s == [] {
      assert s + t == t;
    } else {
      assert (s + t)[0] == s[0] && (s + t)[1..] == s[1..] + t;
      Utf8Append(s[1..], t);
      assert Utf8(s + t) == Utf8Char(s[0]) + Utf8(s[1..] + t);
    }
  }

  lemma {:induction false} EncodeBytesAppend(xs: seq<byte>, ys: seq<byte>)
    ensures EncodeBytes(xs + ys) == EncodeBytes(xs) + EncodeBytes(ys)
  {
    if xs == [] {
      assert xs + ys == ys;
    } else {
      assert (xs + ys)[0] == xs[0] && (xs + ys)[1..] == xs[1..] + ys;
      EncodeBytesAppend(xs[1..], ys);
      assert EncodeBytes(xs + ys) == EncodeByte(xs[0]) + EncodeBytes(xs[1..] + ys);
    }
  }

  /** Encoding works character by character. */
  lemma EncodeAppend(s: string, t: string)
    ensures Encode(s + t) == Encode(s) + Encode(t)
  {
    Utf8Append(s, t);
    EncodeBytesAppend(Utf8(s), Utf8(t));
  }

  predicate UnreservedChar(c: char) {
    (c as int) < 0x80 && Unreserved(c as int)
  }

  /** Letters, digits and `*-._` are written as they are. */
  lemma {:induction false} EncodeUnreserved(s: string)
    requires forall i :: 0 <= i < |s| ==> UnreservedChar(s[i])
    ensures Encode(s) == s
  {
    if s != [] {
      EncodeUnreserved(s[1..]);
      EncodeAppend([s[0]], s[1..]);
      assert [s[0]] + s[1..] == s;
      assert Utf8([s[0]]) == [s[0] as int];
    }
  }

  /** An ASCII character is written as its one byte is. */
  lemma EncodeAscii(c: char)
    requires (c as int) < 0x80
    ensures Encode([c]) == EncodeByte(c as int)
  {
    assert Utf8([c]) == Utf8Char(c) + Utf8([]);
    assert Utf8([c]) == [c as int];
    assert EncodeBytes([c as int]) == EncodeByte(c as int) + EncodeBytes([]);
  }

  /** Encoding of a word, one other character and a word. */
  lemma EncodeAround(a: string, c: char, b: string)
    requires forall i :: 0 <= i < |a| ==> UnreservedChar(a[i])
    requires forall i :: 0 <= i < |b| ==> UnreservedChar(b[i])
    requires (c as int) < 0x80
    ensures Encode(a + [c] + b) == a + EncodeByte(c as int) + b
  {
    EncodeUnreserved(a);
    EncodeUnreserved(b);
    EncodeAscii(c);
    EncodeAppend(a, [c]);
    EncodeAppend(a + [c], b);
  }

  /** A space is written `+`. */
  lemma EncodeSpaceExample()
    ensures Encode("buy milk") == "buy+milk"
  {
    EncodeAround("buy", ' ', "milk");
    assert EncodeByte(' ' as int) == "+";
    SpaceText();
  }

  lemma SpaceText()
    ensures "buy" + [' '] + "milk" == "buy milk" && "buy" + "+" + "milk" == "buy+milk"
  {
  }

  /** An `&` is written `%26`, so it cannot end the pair early. */
  lemma EncodeAmpersandExample()
    ensures Encode("a&b") == "a%26b"
  {
    EncodeAround("a", '&', "b");
    assert EncodeByte('&' as int) == "%26" by {
      assert HexDigit(2) == '2' && HexDigit(6) == '6';
    }
    AmpersandText();
  }

  lemma AmpersandText()
    ensures "a" + ['&'] + "b" == "a&b" && "a" + "%26" + "b" == "a%26b"
  {
  }

  /** An `=` is written `%3D`, so it cannot end the name early. */
  lemma EncodeEqualsExample()
    ensures Encode("x=y") == "x%3Dy"
  {
    EncodeAround("x", '=', "y");
    assert EncodeByte('=' as int) == "%3D" by {
      assert HexDigit(3) == '3' && HexDigit(13) == 'D';
    }
    EqualsText();
  }

  lemma EqualsText()
    ensures "x" + ['='] + "y" == "x=y" && "x" + "%3D" + "y" == "x%3Dy"
  {
  }
}
