/**
  The text encoding of a template's `default_round_names` column: the list is
  written with `JSON.stringify` and read back with `JSON.parse`
  (ECMA-262 sections 25.5.2 and 25.5.1, over the JSON grammar of RFC 8259).
  Only the part of JSON that a list of strings needs is modelled: an array
  whose elements are strings, with the white space JSON allows between tokens.
*/
module RoundNames {
  import opened Wrappers
  import JsBuiltins

  // ---------------------------------------------------------------- encoding

  /** A lower-case hexadecimal digit, as `JSON.stringify` writes them. */
  function HexChar(d: nat): (c: char)
    requires d < 16
    ensures JsBuiltins.IsRadixDigit(c, 16) && JsBuiltins.DigitValue(c) == d
  {
    if d < 10 then '0' + d as char else 'a' + (d - 10) as char
  }

  /**
    How `JSON.stringify` writes one character inside a string literal: quote and
    backslash are escaped, the five control characters with a short escape use
    it, the other control characters become `\u00XX`, everything else is itself.
  */
  function EscapeChar(c: char): string {
    if c == '"' then "\\\""
    else if c == '\\' then "\\\\"
    else if c == '\U{0008}' then "\\b"
    else if c == '\t' then "\\t"
    else if c == '\n' then "\\n"
    else if c == '\U{000C}' then "\\f"
    else if c == '\r' then "\\r"
    else if c < ' ' then "\\u00" + [HexChar(c as nat / 16), HexChar(c as nat % 16)]
    else [c]
  }

  function EscapeString(s: string): string {
    if |s| == 0 then "" else EscapeChar(s[0]) + EscapeString(s[1..])
  }

  /** A JSON string literal. */
  function Quote(s: string): string {
    "\"" + EscapeString(s) + "\""
  }

  /** The elements after the first, each preceded by a comma. */
  function EncodeMore(names: seq<string>): string {
    if |names| == 0 then "" else "," + Quote(names[0]) + EncodeMore(names[1..])
  }

  /** `JSON.stringify(names)` for a list of strings: no white space is written. */
  function EncodeRoundNames(names: seq<string>): (r: string)
    ensures |r| >= 2 && r[0] == '[' && r[|r| - 1] == ']'
  {
    if |names| == 0 then "[]" else "[" + Quote(names[0]) + EncodeMore(names[1..]) + "]"
  }

  // ---------------------------------------------------------------- decoding

  predicate IsJsonWhiteSpace(c: char) {
    c == ' ' || c == '\t' || c == '\n' || c == '\r'
  }

  /** Skips the white space JSON allows between tokens. */
  function SkipWhiteSpace(s: string): (r: string)
    ensures |r| <= |s|
    ensures r == [] || !IsJsonWhiteSpace(r[0])
  {
    if |s| > 0 && IsJsonWhiteSpace(s[0]) then SkipWhiteSpace(s[1..]) else s
  }

  /** Four hexadecimal digits, of either case, at the head of `s`. */
  predicate StartsWithHex4(s: string) {
    |s| >= 4 && JsBuiltins.IsRadixDigit(s[0], 16) && JsBuiltins.IsRadixDigit(s[1], 16)
    && JsBuiltins.IsRadixDigit(s[2], 16) && JsBuiltins.IsRadixDigit(s[3], 16)
  }

  /** The UTF-16 code unit that the four hexadecimal digits of a `\u` escape denote. */
  function Hex4(s: string): (v: nat)
    requires StartsWithHex4(s)
    ensures v < 0x10000
  {
    ((JsBuiltins.DigitValue(s[0]) * 16 + JsBuiltins.DigitValue(s[1])) * 16
      + JsBuiltins.DigitValue(s[2])) * 16 + JsBuiltins.DigitValue(s[3])
  }

  predicate IsHighSurrogate(v: nat) { 0xD800 <= v <= 0xDBFF }
  predicate IsLowSurrogate(v: nat) { 0xDC00 <= v <= 0xDFFF }

  /** The code point that a leading and a trailing UTF-16 surrogate encode together. */
  function SurrogatePair(hi: nat, lo: nat): (c: char)
    requires IsHighSurrogate(hi) && IsLowSurrogate(lo)
    ensures c as int >= 0x10000
  {
    (0x10000 + (hi - 0xD800) * 0x400 + (lo - 0xDC00)) as char
  }

  /**
    The character an escape sequence stands for, given the text after the
    backslash, and the text after the escape. A `\u` escape of a leading
    surrogate directly followed by a `\u` escape of a trailing one reads as
    the code point the pair encodes. Any other `\u` escape of a surrogate is
    refused, since a lone surrogate is not a character here.
  */
  function Unescape(s: string): (r: Option<(char, string)>)
    ensures r.Some? ==> |r.value.1| < |s|
  {
    if |s| == 0 then None
    else if s[0] == '"' then Some(('"', s[1..]))
    else if s[0] == '\\' then Some(('\\', s[1..]))
    else if s[0] == '/' then Some(('/', s[1..]))
    else if s[0] == 'b' then Some(('\U{0008}', s[1..]))
    else if s[0] == 'f' then Some(('\U{000C}', s[1..]))
    else if s[0] == 'n' then Some(('\n', s[1..]))
    else if s[0] == 'r' then Some(('\r', s[1..]))
    else if s[0] == 't' then Some(('\t', s[1..]))
    else if s[0] == 'u' && StartsWithHex4(s[1..]) then
      var v := Hex4(s[1..]);
      if IsHighSurrogate(v) && |s| >= 7 && s[5] == '\\' && s[6] == 'u'
        && StartsWithHex4(s[7..]) && IsLowSurrogate(Hex4(s[7..]))
      then Some((SurrogatePair(v, Hex4(s[7..])), s[11..]))
      else if IsHighSurrogate(v) || IsLowSurrogate(v) then None
      else Some((v as char, s[5..]))
    else None
  }

  /**
    The content of a string literal whose opening quote has been read, and the
    text after its closing quote. A raw control character or a missing closing
    quote is a syntax error (`None`).
  */
  function ParseChars(s: string): (r: Option<(string, string)>)
    ensures r.Some? ==> |r.value.1| < |s|
    decreases |s|
  {
    if |s| == 0 then None
    else if s[0] == '"' then Some(([], s[1..]))
    else if s[0] < ' ' then None
    else if s[0] == '\\' then
      match Unescape(s[1..])
      case None => None
      case Some((c, rest)) =>
        match ParseChars(rest)
        case None => None
        case Some((t, after)) => Some(([c] + t, after))
    else
      match ParseChars(s[1..])
      case None => None
      case Some((t, after)) => Some(([s[0]] + t, after))
  }

  /**
    One or more string elements followed by the closing bracket, given the text
    at the first element; returns the elements and the text after the bracket.
  */
  function ParseElements(s: string): Option<(seq<string>, string)>
    decreases |s|
  {
    if |s| == 0 || s[0] != '"' then None
    else
      match ParseChars(s[1..])
      case None => None
      case Some((first, rest)) =>
        var r := SkipWhiteSpace(rest);
        if |r| > 0 && r[0] == ']' then Some(([first], r[1..]))
        else if |r| > 0 && r[0] == ',' then
          match ParseElements(SkipWhiteSpace(r[1..]))
          case None => None
          case Some((more, after)) => Some(([first] + more, after))
        else None
  }

  /**
    `JSON.parse(text)` where the result must be an array of strings; a syntax
    error, or a value of another shape, is `None`.
  */
  function DecodeRoundNames(text: string): (r: Option<seq<string>>)
    ensures r.Some? ==> |SkipWhiteSpace(text)| > 0 && SkipWhiteSpace(text)[0] == '['
    ensures SkipWhiteSpace(text) == [] ==> r.None?
  {
    var s := SkipWhiteSpace(text);
    if |s| == 0 || s[0] != '[' then None
    else
      var t := SkipWhiteSpace(s[1..]);
      if |t| > 0 && t[0] == ']' then
        if SkipWhiteSpace(t[1..]) == [] then Some([]) else None
      else
        match ParseElements(t)
        case None => None
        case Some((names, after)) => if SkipWhiteSpace(after) == [] then Some(names) else None
  }

  /**
    `JSON.parse(column || '[]')`: a missing (SQL NULL) or empty column reads as
    the empty list.
  */
  function DecodeStored(column: Option<string>): (r: Option<seq<string>>)
    ensures column == None || column == Some("") ==> r == Some([])
  {
    var text := if column == None || column == Some("") then "[]" else column.value;
    DecodeEmptyArray();
    DecodeRoundNames(text)
  }

  // ---------------------------------------------------------------- round trip

  lemma DecodeEmptyArray()
    ensures DecodeRoundNames("[]") == Some([])
  {
    var text := "[]";
    assert SkipWhiteSpace(text) == text;
    assert text[1..] == "]";
    assert SkipWhiteSpace("]") == "]";
    assert "]"[1..] == [];
  }

  /** An element followed by the closing bracket. */
  lemma ParseLastElement(s: string, first: string, rest: string)
    requires |s| > 0 && s[0] == '"' && ParseChars(s[1..]) == Some((first, "]" + rest))
    ensures ParseElements(s) == Some(([first], rest))
  {
    var r := "]" + rest;
    assert SkipWhiteSpace(r) == r;
    assert r[1..] == rest;
  }

  /** An element followed by a comma and further elements. */
  lemma ParseNextElement(s: string, first: string, next: string, more: seq<string>, after: string)
    requires |s| > 0 && s[0] == '"' && ParseChars(s[1..]) == Some((first, "," + next))
    requires |next| > 0 && next[0] == '"'
    requires ParseElements(next) == Some((more, after))
    ensures ParseElements(s) == Some(([first] + more, after))
  {
    var r := "," + next;
    assert SkipWhiteSpace(r) == r;
    assert r[1..] == next;
    assert SkipWhiteSpace(next) == next;
  }

  /** Reading one escaped character consumes exactly its escape. */
  lemma ParseEscapedChar(c: char, tail: string)
    ensures ParseChars(EscapeChar(c) + tail) ==
      match ParseChars(tail)
      case None => None
      case Some((t, after)) => Some(([c] + t, after))
  {
    var s := EscapeChar(c) + tail;
    if c == '"' || c == '\\' || c == '\U{0008}' || c == '\t' || c == '\n' || c == '\U{000C}' || c == '\r' {
      assert s[0] == '\\' && s[1..][1..] == tail;
      ParseAfterEscape(s, c, tail);
    } else if c < ' ' {
      ParseUnicodeEscape(c, tail);
    } else {
      assert s[0] == c && s[1..] == tail;
    }
  }

  /** A control character without a short escape reads back from its `\u00XX` escape. */
  lemma ParseUnicodeEscape(c: char, tail: string)
    requires c < ' ' && c != '\U{0008}' && c != '\t' && c != '\n' && c != '\U{000C}' && c != '\r'
    ensures ParseChars(EscapeChar(c) + tail) ==
      match ParseChars(tail)
      case None => None
      case Some((t, after)) => Some(([c] + t, after))
  {
    var s := EscapeChar(c) + tail;
    var hi, lo := HexChar(c as nat / 16), HexChar(c as nat % 16);
    assert s == ['\\', 'u', '0', '0', hi, lo] + tail;
    assert s[1..][5..] == tail;
    assert (c as nat / 16) * 16 + c as nat % 16 == c as nat;
    ParseAfterEscape(s, c, tail);
  }

  /** Once the escape after a backslash is read, the literal goes on after it. */
  lemma ParseAfterEscape(s: string, c: char, rest: string)
    requires |s| > 0 && s[0] == '\\' && Unescape(s[1..]) == Some((c, rest))
    ensures ParseChars(s) ==
      match ParseChars(rest)
      case None => None
      case Some((t, after)) => Some(([c] + t, after))
  {
  }

  // ------------------------------------------------- surrogate-pair escapes

  /** Four lower-case hexadecimal digits that denote `v`. */
  function Hex4Text(v: nat): (t: string)
    requires v < 0x10000
    ensures |t| == 4
  {
    [HexChar(v / 16 / 16 / 16), HexChar(v / 16 / 16 % 16), HexChar(v / 16 % 16), HexChar(v % 16)]
  }

  lemma Hex4TextValue(v: nat, s: string)
    requires v < 0x10000 && |s| >= 4 && s[..4] == Hex4Text(v)
    ensures StartsWithHex4(s) && Hex4(s) == v
  {
    var q1 := v / 16;
    var q2 := q1 / 16;
    assert v == q1 * 16 + v % 16;
    assert q1 == q2 * 16 + q1 % 16;
    assert q2 == q2 / 16 * 16 + q2 % 16;
  }

  /** The leading UTF-16 surrogate of a code point above the Basic Multilingual Plane. */
  function HighSurrogateOf(c: char): (v: nat)
    requires c as int >= 0x10000
    ensures IsHighSurrogate(v)
  {
    0xD800 + (c as int - 0x10000) / 0x400
  }

  /** The trailing UTF-16 surrogate of a code point above the Basic Multilingual Plane. */
  function LowSurrogateOf(c: char): (v: nat)
    requires c as int >= 0x10000
    ensures IsLowSurrogate(v)
  {
    0xDC00 + (c as int - 0x10000) % 0x400
  }

  /** A surrogate pair's code point splits back into the two surrogates. */
  lemma SurrogatePairOf(c: char)
    requires c as int >= 0x10000
    ensures SurrogatePair(HighSurrogateOf(c), LowSurrogateOf(c)) == c
  {
    var d := c as int - 0x10000;
    assert d == d / 0x400 * 0x400 + d % 0x400;
  }

  /** The escapes of a leading and a trailing surrogate read as one character. */
  lemma UnescapePair(s: string)
    requires |s| >= 11 && s[0] == 'u' && s[5] == '\\' && s[6] == 'u'
    requires StartsWithHex4(s[1..]) && IsHighSurrogate(Hex4(s[1..]))
    requires StartsWithHex4(s[7..]) && IsLowSurrogate(Hex4(s[7..]))
    ensures Unescape(s) == Some((SurrogatePair(Hex4(s[1..]), Hex4(s[7..])), s[11..]))
  {
  }

  /**
    The text after the backslash of `\uXXXX\uYYYY`: the escapes of the two
    UTF-16 surrogates of a character above the Basic Multilingual Plane.
  */
  function PairEscape(c: char): (t: string)
    requires c as int >= 0x10000
    ensures |t| == 11
  {
    "u" + Hex4Text(HighSurrogateOf(c)) + "\\u" + Hex4Text(LowSurrogateOf(c))
  }

  lemma PairEscapeLayout(c: char, rest: string)
    requires c as int >= 0x10000
    ensures var s := PairEscape(c) + rest;
      && s[0] == 'u' && s[1..][..4] == Hex4Text(HighSurrogateOf(c))
      && s[5] == '\\' && s[6] == 'u' && s[7..][..4] == Hex4Text(LowSurrogateOf(c))
      && s[11..] == rest
  {
  }

  /** A character written as the escapes of its two surrogates reads back as that character. */
  lemma SurrogatePairEscape(c: char, rest: string)
    requires c as int >= 0x10000
    ensures Unescape(PairEscape(c) + rest) == Some((c, rest))
  {
    var s := PairEscape(c) + rest;
    PairEscapeLayout(c, rest);
    Hex4TextValue(HighSurrogateOf(c), s[1..]);
    Hex4TextValue(LowSurrogateOf(c), s[7..]);
    UnescapePair(s);
    SurrogatePairOf(c);
  }

  /** A trailing surrogate's escape on its own is refused. */
  lemma LoneLowSurrogateRefused(v: nat, rest: string)
    requires IsLowSurrogate(v)
    ensures Unescape("u" + Hex4Text(v) + rest) == None
  {
    var s := "u" + Hex4Text(v) + rest;
    assert s[1..][..4] == Hex4Text(v);
    Hex4TextValue(v, s[1..]);
  }

  /** A leading surrogate's escape that no escape follows is refused. */
  lemma LoneHighSurrogateRefused(v: nat, rest: string)
    requires IsHighSurrogate(v)
    requires rest == [] || rest[0] != '\\'
    ensures Unescape("u" + Hex4Text(v) + rest) == None
  {
    var s := "u" + Hex4Text(v) + rest;
    assert s[1..][..4] == Hex4Text(v);
    Hex4TextValue(v, s[1..]);
    assert |s| > 5 ==> s[5] == rest[0];
  }

  /** Concatenation regrouped to the right. */
  lemma Regroup4<T>(a: seq<T>, b: seq<T>, c: seq<T>, d: seq<T>)
    ensures a + b + c + d == a + (b + (c + d))
  {
  }

  /** A string literal holding one surrogate-pair escape reads as that one character. */
  lemma ParsePairLiteral(c: char, rest: string)
    requires c as int >= 0x10000
    ensures ParseChars("\\" + PairEscape(c) + "\"" + rest) == Some(([c], rest))
  {
    var after := "\"" + rest;
    var body := "\\" + (PairEscape(c) + after);
    Regroup4("\\", PairEscape(c), "\"", rest);
    assert body[0] == '\\' && body[1..] == PairEscape(c) + after;
    SurrogatePairEscape(c, after);
    ParseAfterEscape(body, c, after);
    assert after[0] == '"' && after[1..] == rest;
    assert ParseChars(after) == Some(([], rest));
    assert [c] + [] == [c];
  }

  /** `JSON.parse` of a list whose one element is a surrogate-pair escape. */
  lemma DecodePairElement(c: char)
    requires c as int >= 0x10000
    ensures DecodeRoundNames("[\"\\" + PairEscape(c) + "\"]") == Some([[c]])
  {
    var body := "\"" + ("\\" + PairEscape(c) + "\"" + "]");
    ParsePairLiteral(c, "]");
    assert body[0] == '"' && body[1..] == "\\" + PairEscape(c) + "\"" + "]";
    assert "]" + "" == "]";
    ParseLastElement(body, [c], "");
    DecodeBracketed(body, [[c]]);
    PairElementText(PairEscape(c));
  }

  lemma PairElementText(e: string)
    ensures "[\"\\" + e + "\"]" == "[" + ("\"" + ("\\" + e + "\"" + "]"))
  {
  }

  lemma AstralPairEscape()
    ensures PairEscape('\U{1F600}') == "ud83d\\ude00"
  {
    assert HighSurrogateOf('\U{1F600}') == 0xD83D;
    assert LowSurrogateOf('\U{1F600}') == 0xDE00;
    assert 0xD83D / 16 == 0xD83 && 0xD83 / 16 == 0xD8 && 0xD8 / 16 == 0xD;
    assert 0xD8 % 16 == 8 && 0xD83 % 16 == 3 && 0xD83D % 16 == 0xD;
    assert HexChar(0xD) == 'd' && HexChar(8) == '8' && HexChar(3) == '3';
    assert 0xDE00 / 16 == 0xDE0 && 0xDE0 / 16 == 0xDE && 0xDE / 16 == 0xD;
    assert 0xDE % 16 == 0xE && 0xDE0 % 16 == 0 && 0xDE00 % 16 == 0;
    assert HexChar(0xE) == 'e' && HexChar(0) == '0';
  }

  /**
    U+1F600 is written `\ud83d\ude00` as a surrogate-pair escape, and
    `JSON.parse('["\\ud83d\\ude00"]')` is the one-element list holding it.
  */
  lemma DecodeEscapedAstral()
    ensures PairEscape('\U{1F600}') == "ud83d\\ude00"
    ensures DecodeRoundNames("[\"\\" + PairEscape('\U{1F600}') + "\"]") == Some(["\U{1F600}"])
  {
    AstralPairEscape();
    DecodePairElement('\U{1F600}');
  }

  lemma {:induction false} ParseEscapedString(x: string, rest: string)
    ensures ParseChars(EscapeString(x) + "\"" + rest) == Some((x, rest))
  {
    if |x| == 0 {
      assert EscapeString(x) + "\"" + rest == "\"" + rest;
    } else {
      var tail := EscapeString(x[1..]) + "\"" + rest;
      assert EscapeString(x) + "\"" + rest == EscapeChar(x[0]) + tail;
      ParseEscapedString(x[1..], rest);
      ParseEscapedChar(x[0], tail);
      assert [x[0]] + x[1..] == x;
    }
  }

  lemma QuoteLayout(x: string, tail: string)
    ensures |Quote(x) + tail| > 0 && (Quote(x) + tail)[0] == '"'
    ensures (Quote(x) + tail)[1..] == EscapeString(x) + "\"" + tail
  {
    assert Quote(x) + tail == "\"" + (EscapeString(x) + "\"" + tail);
  }

  /** The text of the elements from the first one on, then the bracket and `rest`. */
  function ElementsText(names: seq<string>, rest: string): string
    requires |names| > 0
  {
    Quote(names[0]) + AfterElement(names[1..], rest)
  }

  /** The text after an element: the remaining elements, the bracket, `rest`. */
  function AfterElement(names: seq<string>, rest: string): string {
    EncodeMore(names) + "]" + rest
  }

  lemma ElementsTextLayout(names: seq<string>, rest: string)
    requires |names| > 0
    ensures |ElementsText(names, rest)| > 0 && ElementsText(names, rest)[0] == '"'
    ensures ElementsText(names, rest)[1..] == EscapeString(names[0]) + "\"" + AfterElement(names[1..], rest)
  {
    QuoteLayout(names[0], AfterElement(names[1..], rest));
  }

  lemma AfterElementLayout(names: seq<string>, rest: string)
    ensures |names| == 0 ==> AfterElement(names, rest) == "]" + rest
    ensures |names| > 0 ==> AfterElement(names, rest) == "," + ElementsText(names, rest)
  {
    if |names| > 0 {
      var q, m := Quote(names[0]), EncodeMore(names[1..]);
      assert EncodeMore(names) == "," + q + m;
      Regroup(",", q, m, "]", rest);
    }
  }

  /** Concatenation regrouped to the right. */
  lemma Regroup<T>(a: seq<T>, b: seq<T>, c: seq<T>, d: seq<T>, e: seq<T>)
    ensures a + b + c + d + e == a + (b + (c + d + e))
  {
  }

  lemma {:induction false} ParseEncodedElements(names: seq<string>, rest: string)
    requires |names| > 0
    ensures ParseElements(ElementsText(names, rest)) == Some((names, rest))
  {
    var s := ElementsText(names, rest);
    var after := AfterElement(names[1..], rest);
    ElementsTextLayout(names, rest);
    ParseEscapedString(names[0], after);
    AfterElementLayout(names[1..], rest);
    if |names| == 1 {
      ParseLastElement(s, names[0], rest);
      assert [names[0]] == names;
    } else {
      var tl := names[1..];
      ElementsTextLayout(tl, rest);
      ParseEncodedElements(tl, rest);
      ParseNextElement(s, names[0], ElementsText(tl, rest), tl, rest);
      assert [names[0]] + tl == names;
    }
  }

  /** Decoding the stored text gives back exactly the list that was encoded. */
  lemma RoundTrip(names: seq<string>)
    ensures DecodeRoundNames(EncodeRoundNames(names)) == Some(names)
  {
    if |names| == 0 {
      DecodeEmptyArray();
    } else {
      var body := ElementsText(names, "");
      EncodedAsElements(names);
      ElementsTextLayout(names, "");
      ParseEncodedElements(names, "");
      DecodeBracketed(body, names);
    }
  }

  /** A non-empty list is written as the bracket and then its elements' text. */
  lemma EncodedAsElements(names: seq<string>)
    requires |names| > 0
    ensures EncodeRoundNames(names) == "[" + ElementsText(names, "")
  {
    var q, m := Quote(names[0]), EncodeMore(names[1..]);
    Regroup("[", q, m, "]", "");
    assert "[" + q + m + "]" + "" == "[" + q + m + "]";
  }

  /** A bracket followed by elements that fill the rest of the text decodes to those elements. */
  lemma DecodeBracketed(body: string, names: seq<string>)
    requires |body| > 0 && body[0] == '"'
    requires ParseElements(body) == Some((names, ""))
    ensures DecodeRoundNames("[" + body) == Some(names)
  {
    var text := "[" + body;
    assert SkipWhiteSpace(text) == text;
    assert text[1..] == body;
    assert SkipWhiteSpace(body) == body;
    assert SkipWhiteSpace("") == "";
  }

  /** The column as written by the store reads back as the list. */
  lemma StoredRoundTrip(names: seq<string>)
    ensures DecodeStored(Some(EncodeRoundNames(names))) == Some(names)
  {
    RoundTrip(names);
  }
}
