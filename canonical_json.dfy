/**
 * The canonical serialisation of a DimensionTuple, as pydantic's
 * `model_dump_json()` writes it: compact JSON with the fields in declaration
 * order, strings escaped as serde_json escapes them (quote, backslash, the
 * five short control escapes, every other control character below U+0020 as
 * a lower-case \u00XX, everything else verbatim).
 *
 * The decoder exists to prove the encoder injective: two tuples with the same
 * canonical string are the same tuple, so deduplicating by string is
 * deduplicating by structure.
 */
module CanonicalJson {
  import opened Wrappers
  import opened Records

  const Quote: char := '"'
  const Backslash: char := '\\'

  function HexDigit(d: nat): (c: char)
    requires d < 16
    ensures HexValue(c) == Some(d)
  {
    if d < 10 then (48 + d) as char else (87 + d) as char
  }

  /** Value of one lower-case hexadecimal digit. */
  function HexValue(c: char): (r: Option<nat>)
    ensures r.Some? ==> r.value < 16
  {
    if '0' <= c <= '9' then Some(c as int - 48)
    else if 'a' <= c <= 'f' then Some(c as int - 87)
    else None
  }

  /** How serde_json writes one character inside a string literal. */
  function EscapeChar(c: char): (r: string)
    ensures |r| >= 1
  {
    if c == Quote then [Backslash, Quote]
    else if c == Backslash then [Backslash, Backslash]
    else if c == 8 as char then "\\b"
    else if c == 9 as char then "\\t"
    else if c == 10 as char then "\\n"
    else if c == 12 as char then "\\f"
    else if c == 13 as char then "\\r"
    else if (c as int) < 0x20 then
      "\\u00" + [HexDigit(c as int / 16), HexDigit(c as int % 16)]
    else [c]
  }

  function EscapeString(s: string): string {
    if s == [] then [] else EscapeChar(s[0]) + EscapeString(s[1..])
  }

  /** A string as a JSON string literal. */
  function QuotedString(s: string): string {
    [Quote] + EscapeString(s) + [Quote]
  }

  /** The elements of a JSON array of strings, comma separated, no spaces. */
  function EncodeItems(xs: seq<string>): string {
    if xs == [] then []
    else if |xs| == 1 then QuotedString(xs[0])
    else QuotedString(xs[0]) + ("," + EncodeItems(xs[1..]))
  }

  function EncodeList(xs: seq<string>): string {
    "[" + (EncodeItems(xs) + "]")
  }

  const OccasionKey: string := "{\"occasion\":"
  const AuthorStyleKey: string := ",\"author_style\":"
  const IngredientsKey: string := ",\"ingredients\":"
  const CookingMethodKey: string := ",\"cooking_method\":"
  const ObjectEnd: string := "}"

  /** `DimensionTuple.model_dump_json()`. */
  function Encode(t: DimensionTuple): string {
    OccasionKey + (QuotedString(t.occasion)
      + (AuthorStyleKey + (QuotedString(t.authorStyle)
      + (IngredientsKey + (EncodeList(t.ingredients)
      + (CookingMethodKey + (QuotedString(t.cookingMethod)
      + ObjectEnd)))))))
  }

  // ------------------------------------------------------------------
  // Decoder: the partial inverse of Encode.
  // ------------------------------------------------------------------

  /** The rest of `s` after the literal `lit`, if `s` starts with it. */
  function Expect(lit: string, s: string): (r: Option<string>)
    ensures r.Some? ==> |r.value| == |s| - |lit|
  {
    if |lit| <= |s| && s[..|lit|] == lit then Some(s[|lit|..]) else None
  }

  /** The character a short escape `\e` denotes. */
  function UnescapeShort(e: char): Option<char> {
    if e == Quote then Some(Quote)
    else if e == Backslash then Some(Backslash)
    else if e == 'b' then Some(8 as char)
    else if e == 't' then Some(9 as char)
    else if e == 'n' then Some(10 as char)
    else if e == 'f' then Some(12 as char)
    else if e == 'r' then Some(13 as char)
    else None
  }

  /** The code point written by four hexadecimal digits. */
  function Hex4(s: string): (r: Option<char>)
    requires |s| == 4
  {
    match (HexValue(s[0]), HexValue(s[1]), HexValue(s[2]), HexValue(s[3]))
    case (Some(a), Some(b), Some(c), Some(d)) =>
      var v := ((a * 16 + b) * 16 + c) * 16 + d;
      if 0xD800 <= v < 0xE000 then None else Some(v as char)
    case _ => None
  }

  function Prepend(c: char, r: Option<(string, string)>): Option<(string, string)> {
    match r
    case None => None
    case Some((x, rest)) => Some(([c] + x, rest))
  }

  /** Decodes the body of a string literal up to and including its closing quote. */
  function DecodeBody(s: string): (r: Option<(string, string)>)
    ensures r.Some? ==> |r.value.1| < |s|
    decreases |s|
  {
    if s == [] then None
    else if s[0] == Quote then Some(([], s[1..]))
    else if s[0] == Backslash then
      if |s| < 2 then None
      else if s[1] == 'u' then
        if |s| < 6 then None
        else match Hex4(s[2..6])
          case None => None
          case Some(c) => Prepend(c, DecodeBody(s[6..]))
      else match UnescapeShort(s[1])
        case None => None
        case Some(c) => Prepend(c, DecodeBody(s[2..]))
    else Prepend(s[0], DecodeBody(s[1..]))
  }

  function DecodeQuoted(s: string): (r: Option<(string, string)>)
    ensures r.Some? ==> |r.value.1| < |s|
  {
    if s != [] && s[0] == Quote then DecodeBody(s[1..]) else None
  }

  /** Decodes one or more comma-separated string literals and the closing bracket. */
  function DecodeItems(s: string): (r: Option<(seq<string>, string)>)
    ensures r.Some? ==> |r.value.1| < |s|
    decreases |s|
  {
    match DecodeQuoted(s)
    case None => None
    case Some((x, rest)) =>
      if rest != [] && rest[0] == ']' then Some(([x], rest[1..]))
      else if rest != [] && rest[0] == ',' then
        match DecodeItems(rest[1..])
        case None => None
        case Some((xs, rest')) => Some(([x] + xs, rest'))
      else None
  }

  function DecodeList(s: string): (r: Option<(seq<string>, string)>)
    ensures r.Some? ==> |r.value.1| < |s|
  {
    if |s| >= 2 && s[0] == '[' && s[1] == ']' then Some(([], s[2..]))
    else if s != [] && s[0] == '[' then DecodeItems(s[1..])
    else None
  }

  /** Parses a canonical DimensionTuple string; None on anything else. */
  function Decode(s: string): Option<DimensionTuple> {
    var r0 :- Expect(OccasionKey, s);
    var (occasion, r1) :- DecodeQuoted(r0);
    var r2 :- Expect(AuthorStyleKey, r1);
    var (style, r3) :- DecodeQuoted(r2);
    var r4 :- Expect(IngredientsKey, r3);
    var (ingredients, r5) :- DecodeList(r4);
    var r6 :- Expect(CookingMethodKey, r5);
    var (cooking, r7) :- DecodeQuoted(r6);
    var r8 :- Expect(ObjectEnd, r7);
    if r8 == [] then Some(DimensionTuple(occasion, style, ingredients, cooking)) else None
  }
}

module CanonicalJsonFacts {
  import opened Wrappers
  import opened Records
  import opened CanonicalJson

  lemma ExpectLiteral(lit: string, rest: string)
    ensures Expect(lit, lit + rest) == Some(rest)
  {
    assert (lit + rest)[..|lit|] == lit;
    assert (lit + rest)[|lit|..] == rest;
  }

  /** Decoding the escape of one character yields that character. */
  lemma EscapeCharDecodes(c: char, rest: string)
    ensures DecodeBody(EscapeChar(c) + rest) == Prepend(c, DecodeBody(rest))
  {
    var s := EscapeChar(c) + rest;
    if c == Quote || c == Backslash || c == 8 as char || c == 9 as char
       || c == 10 as char || c == 12 as char || c == 13 as char {
      assert s[2..] == rest;
    } else if (c as int) < 0x20 {
      var n := c as int;
      assert s[0] == Backslash && s[1] == 'u';
      assert s[2..6] == ['0', '0', HexDigit(n / 16), HexDigit(n % 16)];
      assert s[6..] == rest;
      assert Hex4(s[2..6]) == Some(c);
    } else {
      assert s[1..] == rest;
    }
  }

  lemma {:induction false} EscapeStringDecodes(x: string, rest: string)
    ensures DecodeBody(EscapeString(x) + [Quote] + rest) == Some((x, rest))
  {
    if x == [] {
      assert EscapeString(x) + [Quote] + rest == [Quote] + rest;
    } else {
      var tail := EscapeString(x[1..]) + [Quote] + rest;
      assert EscapeString(x) + [Quote] + rest == EscapeChar(x[0]) + tail;
      EscapeCharDecodes(x[0], tail);
      EscapeStringDecodes(x[1..], rest);
      assert [x[0]] + x[1..] == x;
    }
  }

  lemma QuotedDecodes(x: string, rest: string)
    ensures DecodeQuoted(QuotedString(x) + rest) == Some((x, rest))
  {
    var s := QuotedString(x) + rest;
    assert s[1..] == EscapeString(x) + [Quote] + rest;
    EscapeStringDecodes(x, rest);
  }

  lemma Associate(a: string, b: string, c: string)
    ensures a + b + c == a + (b + c)
  {
  }

  lemma ItemsDecodeLast(x: string, rest: string)
    ensures DecodeItems(QuotedString(x) + ("]" + rest)) == Some(([x], rest))
  {
    QuotedDecodes(x, "]" + rest);
    assert ("]" + rest)[1..] == rest;
  }

  lemma ItemsDecodeNext(x: string, tail: string, xs: seq<string>, rest: string)
    requires DecodeItems(tail) == Some((xs, rest))
    ensures DecodeItems(QuotedString(x) + ("," + tail)) == Some(([x] + xs, rest))
  {
    QuotedDecodes(x, "," + tail);
    assert ("," + tail)[1..] == tail;
  }

  lemma {:induction false} ItemsDecode(xs: seq<string>, rest: string)
    requires xs != []
    ensures DecodeItems(EncodeItems(xs) + "]" + rest) == Some((xs, rest))
  {
    var q := QuotedString(xs[0]);
    if |xs| == 1 {
      assert EncodeItems(xs) == q;
      Associate(q, "]", rest);
      ItemsDecodeLast(xs[0], rest);
      assert [xs[0]] == xs;
    } else {
      var e := EncodeItems(xs[1..]);
      var tail := e + "]" + rest;
      assert EncodeItems(xs) == q + ("," + e);
      Associate(q, "," + e, "]");
      Associate(q, "," + e + "]", rest);
      Associate(",", e, "]");
      Associate(",", e + "]", rest);
      ItemsDecode(xs[1..], rest);
      ItemsDecodeNext(xs[0], tail, xs[1..], rest);
      assert [xs[0]] + xs[1..] == xs;
    }
  }

  lemma ListDecodes(xs: seq<string>, rest: string)
    ensures DecodeList(EncodeList(xs) + rest) == Some((xs, rest))
  {
    var e := EncodeItems(xs);
    var s := EncodeList(xs) + rest;
    Associate("[", e + "]", rest);
    assert s == "[" + (e + "]" + rest);
    if xs == [] {
      assert s == "[]" + rest;
      assert s[2..] == rest;
    } else {
      assert s[1..] == e + "]" + rest;
      assert e[0] == Quote;
      ItemsDecode(xs, rest);
    }
  }

  /** The canonical string of a tuple parses back to that tuple. */
  lemma DecodeEncode(t: DimensionTuple)
    ensures Decode(Encode(t)) == Some(t)
  {
    var s7 := QuotedString(t.cookingMethod) + ObjectEnd;
    var s6 := CookingMethodKey + s7;
    var s5 := EncodeList(t.ingredients) + s6;
    var s4 := IngredientsKey + s5;
    var s3 := QuotedString(t.authorStyle) + s4;
    var s2 := AuthorStyleKey + s3;
    var s1 := QuotedString(t.occasion) + s2;
    var s0 := OccasionKey + s1;
    ExpectLiteral(OccasionKey, s1);
    QuotedDecodes(t.occasion, s2);
    ExpectLiteral(AuthorStyleKey, s3);
    QuotedDecodes(t.authorStyle, s4);
    ExpectLiteral(IngredientsKey, s5);
    ListDecodes(t.ingredients, s6);
    ExpectLiteral(CookingMethodKey, s7);
    QuotedDecodes(t.cookingMethod, ObjectEnd);
    ExpectLiteral(ObjectEnd, []);
    assert ObjectEnd + [] == ObjectEnd;
  }

  /** Two tuples with the same canonical string are equal. */
  lemma EncodeInjective(a: DimensionTuple, b: DimensionTuple)
    ensures Encode(a) == Encode(b) <==> a == b
  {
    if Encode(a) == Encode(b) {
      DecodeEncode(a);
      DecodeEncode(b);
    }
  }
}
