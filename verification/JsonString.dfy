/** Quoting of strings by the writers, and their lexing and unescaping by the reader. */
module JsonString {
  import opened JsonValue
  import Utf8

  const BACKSPACE := '\U{0008}'
  const FORM_FEED := '\U{000C}'

  // ---------------------------------------------------------------- writing

  predicate IsControl(c: char) {
    0 < c as int <= 0x1F
  }

  // The letter a short escape uses for c.
  function ShortEscape(c: char): Option<char> {
    if c == '\"' then Some('\"')
    else if c == '\\' then Some('\\')
    else if c == BACKSPACE then Some('b')
    else if c == FORM_FEED then Some('f')
    else if c == '\n' then Some('n')
    else if c == '\r' then Some('r')
    else if c == '\t' then Some('t')
    else None
  }

  function UpperHex(d: nat): (c: char)
    requires d < 16
  {
    if d < 10 then ('0' as int + d) as char else ('A' as int + d - 10) as char
  }

  function EscapedChar(c: char): string {
    if ShortEscape(c).Some? then ['\\', ShortEscape(c).value]
    else if IsControl(c) then ['\\', 'u', '0', '0', UpperHex(c as int / 16), UpperHex(c as int % 16)]
    else [c]
  }

  function Escaped(s: string): string {
    if s == "" then "" else EscapedChar(s[0]) + Escaped(s[1..])
  }

  function Quoted(s: string): string {
    "\"" + Escaped(s) + "\""
  }

  lemma {:induction false} EscapedAppend(s: string, c: char)
    ensures Escaped(s + [c]) == Escaped(s) + EscapedChar(c)
  {
    if s == "" {
      assert s + [c] == [c] && Escaped("") == "";
      assert Escaped([c]) == EscapedChar(c) + Escaped([c][1..]);
    } else {
      assert (s + [c])[1..] == s[1..] + [c];
      EscapedAppend(s[1..], c);
    }
  }

  // Text without special characters is its own escaped form.
  lemma {:induction false} PlainIsEscaped(s: string)
    requires forall i :: 0 <= i < |s| ==> ShortEscape(s[i]) == None && !IsControl(s[i])
    ensures Escaped(s) == s
  {
    if s != "" {
      PlainIsEscaped(s[1..]);
      assert s == [s[0]] + s[1..];
    }
  }

  // One turn of the escaping walk.
  method EscapeCharacter(c: char) returns (piece: string)
    ensures piece == EscapedChar(c)
  {
    match c {
      case '\"' => piece := "\\\"";
      case '\\' => piece := "\\\\";
      case '\U{0008}' => piece := "\\b";
      case '\U{000C}' => piece := "\\f";
      case '\n' => piece := "\\n";
      case '\r' => piece := "\\r";
      case '\t' => piece := "\\t";
      case _ =>
        if IsControl(c) {
          piece := "\\u00" + [UpperHex(c as int / 16), UpperHex(c as int % 16)];
        } else {
          piece := [c];
        }
    }
  }

  // Both paths, the copy of plain text and the escaping walk, give the quoted form.
  method ValueToQuotedString(value: string) returns (result: string)
    requires NulFree(value)
    ensures result == Quoted(value)
  {
    hide EscapedChar, ShortEscape;
    var plain := true;
    for i := 0 to |value|
      invariant plain ==> forall j :: 0 <= j < i ==> ShortEscape(value[j]) == None && !IsControl(value[j])
    {
      if ShortEscape(value[i]).Some? || IsControl(value[i]) {
        plain := false;
      }
    }
    if plain {
      PlainIsEscaped(value);
      return "\"" + value + "\"";
    }
    result := "\"";
    for i := 0 to |value|
      invariant result == "\"" + Escaped(value[..i])
    {
      assert value[..i + 1] == value[..i] + [value[i]];
      EscapedAppend(value[..i], value[i]);
      var piece := EscapeCharacter(value[i]);
      result := result + piece;
    }
    assert value[..|value|] == value;
    result := result + "\"";
  }

  // ---------------------------------------------------------------- lexing

  // Where the string token opened just before pos ends, and whether it was closed.
  function ScanString(doc: string, pos: nat): (r: (bool, nat))
    requires pos <= |doc|
    ensures pos <= r.1 <= |doc|
    ensures r.0 ==> pos < r.1 && doc[r.1 - 1] == '\"'
    decreases |doc| - pos
  {
    if pos == |doc| then (false, pos)
    else if doc[pos] == '\\' then
      if pos + 1 == |doc| then (false, pos + 1) else ScanString(doc, pos + 2)
    else if doc[pos] == '\"' then (true, pos + 1)
    else ScanString(doc, pos + 1)
  }

  // ---------------------------------------------------------------- unescaping

  datatype ErrorText =
    | ValueExpected
    | MissingColon
    | MissingCommaOrBrace
    | MissingBraceOrName
    | MissingCommaOrBracket
    | NotANumber
    | EmptyEscape
    | BadEscape
    | SurrogateTooShort
    | SurrogateExpected
    | FourDigitsExpected
    | HexDigitExpected
    | RootNotContainer

  datatype StringResult = Decoded(text: string) | BadString(message: ErrorText, extra: nat)
  datatype UnicodeResult = CodePoint(cp: nat, next: nat) | BadUnicode(message: ErrorText, extra: nat)

  function HexValue(c: char): Option<nat> {
    if '0' <= c <= '9' then Some(c as int - '0' as int)
    else if 'a' <= c <= 'f' then Some(c as int - 'a' as int + 10)
    else if 'A' <= c <= 'F' then Some(c as int - 'A' as int + 10)
    else None
  }

  function HexDigits(doc: string, pos: nat, count: nat, value: nat): (r: UnicodeResult)
    requires pos + count <= |doc|
    ensures r.CodePoint? ==> r.next == pos + count
    decreases count
  {
    if count == 0 then CodePoint(value, pos)
    else match HexValue(doc[pos])
      case Some(d) => HexDigits(doc, pos + 1, count - 1, value * 16 + d)
      case None => BadUnicode(HexDigitExpected, pos + 1)
  }

  function DecodeUnicodeEscape(doc: string, pos: nat, end: nat): (r: UnicodeResult)
    requires pos <= end <= |doc|
    ensures r.CodePoint? ==> r.next == pos + 4 <= end
  {
    if end - pos < 4 then BadUnicode(FourDigitsExpected, pos) else HexDigits(doc, pos, 4, 0)
  }

  function DecodeCodePoint(doc: string, pos: nat, end: nat): (r: UnicodeResult)
    requires pos <= end <= |doc|
    ensures r.CodePoint? ==> pos < r.next <= end
  {
    match DecodeUnicodeEscape(doc, pos, end)
    case BadUnicode(m, x) => BadUnicode(m, x)
    case CodePoint(unit, next) =>
      if !(0xD800 <= unit <= 0xDBFF) then CodePoint(unit, next)
      else if end - next < 6 then BadUnicode(SurrogateTooShort, next)
      else if doc[next] != '\\' then BadUnicode(SurrogateExpected, next + 1)
      else if doc[next + 1] != 'u' then BadUnicode(SurrogateExpected, next + 2)
      else match DecodeUnicodeEscape(doc, next + 2, end)
        case BadUnicode(m, x) => BadUnicode(m, x)
        case CodePoint(second, after) =>
          CodePoint(0x1_0000 + (unit % 0x400) * 0x400 + second % 0x400, after)
  }

  function ShortUnescape(c: char): Option<char> {
    match c
    case '\"' => Some('\"')
    case '/' => Some('/')
    case '\\' => Some('\\')
    case 'b' => Some(BACKSPACE)
    case 'f' => Some(FORM_FEED)
    case 'n' => Some('\n')
    case 'r' => Some('\r')
    case 't' => Some('\t')
    case _ => None
  }

  function Prepend(prefix: string, r: StringResult): StringResult {
    match r
    case Decoded(text) => Decoded(prefix + text)
    case BadString(_, _) => r
  }

  // The meaning of the string body between pos and end.
  function DecodeBody(doc: string, pos: nat, end: nat): StringResult
    requires pos <= end <= |doc|
    decreases end - pos
  {
    if pos == end || doc[pos] == '\"' then Decoded("")
    else if doc[pos] != '\\' then Prepend([doc[pos]], DecodeBody(doc, pos + 1, end))
    else if pos + 1 == end then BadString(EmptyEscape, pos + 1)
    else if doc[pos + 1] == 'u' then
      match DecodeCodePoint(doc, pos + 2, end)
      case CodePoint(cp, next) => Prepend(Utf8.Encode(cp), DecodeBody(doc, next, end))
      case BadUnicode(m, x) => BadString(m, x)
    else
      match ShortUnescape(doc[pos + 1])
      case Some(c) => Prepend([c], DecodeBody(doc, pos + 2, end))
      case None => BadString(BadEscape, pos + 2)
  }

  lemma PrependTwice(a: string, b: string, r: StringResult)
    ensures Prepend(a, Prepend(b, r)) == Prepend(a + b, r)
  {
    if r.Decoded? {
      assert a + (b + r.text) == (a + b) + r.text;
    }
  }

  // ---------------------------------------------------------------- round trip

  // The document carries text at pos.
  predicate At(doc: string, pos: nat, text: string) {
    pos + |text| <= |doc| && forall i :: 0 <= i < |text| ==> doc[pos + i] == text[i]
  }

  lemma AtConcat(doc: string, pos: nat, a: string, b: string)
    requires At(doc, pos, a + b)
    ensures At(doc, pos, a) && At(doc, pos + |a|, b)
  {
    forall i | 0 <= i < |a| ensures doc[pos + i] == a[i] {
      assert (a + b)[i] == a[i];
    }
    forall i | 0 <= i < |b| ensures doc[pos + |a| + i] == b[i] {
      assert (a + b)[|a| + i] == b[i];
    }
  }

  lemma ControlEscapeDecodes(doc: string, pos: nat, end: nat, c: char)
    requires IsControl(c) && pos + 6 <= end <= |doc|
    requires doc[pos] == '\\' && doc[pos + 1] == 'u' && doc[pos + 2] == '0' && doc[pos + 3] == '0'
    requires doc[pos + 4] == UpperHex(c as int / 16) && doc[pos + 5] == UpperHex(c as int % 16)
    ensures ScanString(doc, pos) == ScanString(doc, pos + 6)
    ensures DecodeCodePoint(doc, pos + 2, end) == CodePoint(c as int, pos + 6)
  {
    assert HexValue(doc[pos + 4]) == Some(c as int / 16) && HexValue(doc[pos + 5]) == Some(c as int % 16);
    assert HexDigits(doc, pos + 4, 2, 0) == HexDigits(doc, pos + 5, 1, c as int / 16);
    assert HexDigits(doc, pos + 2, 4, 0) == HexDigits(doc, pos + 3, 3, 0);
    assert ScanString(doc, pos) == ScanString(doc, pos + 2);
    assert ScanString(doc, pos + 2) == ScanString(doc, pos + 3) == ScanString(doc, pos + 4);
    assert ScanString(doc, pos + 4) == ScanString(doc, pos + 5) == ScanString(doc, pos + 6);
  }

  // One escaped character: skipped whole by the lexer, decoded to itself.
  lemma EscapedCharReadsBack(doc: string, pos: nat, end: nat, c: char)
    requires At(doc, pos, EscapedChar(c)) && pos + |EscapedChar(c)| <= end <= |doc|
    ensures var next := pos + |EscapedChar(c)|;
      ScanString(doc, pos) == ScanString(doc, next) &&
      DecodeBody(doc, pos, end) == Prepend([c], DecodeBody(doc, next, end))
  {
    var e := EscapedChar(c);
    if ShortEscape(c).Some? {
      assert doc[pos] == e[0] && doc[pos + 1] == e[1];
    } else if IsControl(c) {
      assert doc[pos] == e[0] && doc[pos + 1] == e[1] && doc[pos + 2] == e[2];
      assert doc[pos + 3] == e[3] && doc[pos + 4] == e[4] && doc[pos + 5] == e[5];
      ControlEscapeDecodes(doc, pos, end, c);
    } else {
      assert doc[pos] == e[0];
    }
  }

  // A quoted string is one token for the lexer and unescapes to the original text.
  lemma {:induction false} QuotedReadsBack(doc: string, pos: nat, end: nat, s: string)
    requires At(doc, pos, Escaped(s)) && end == pos + |Escaped(s)| < |doc| && doc[end] == '\"'
    ensures ScanString(doc, pos) == (true, end + 1)
    ensures DecodeBody(doc, pos, end) == Decoded(s)
    decreases s
  {
    if s != "" {
      var first, rest := EscapedChar(s[0]), Escaped(s[1..]);
      AtConcat(doc, pos, first, rest);
      QuotedReadsBack(doc, pos + |first|, end, s[1..]);
      EscapedCharReadsBack(doc, pos, end, s[0]);
      PrependFirst(s);
    }
  }

  lemma PrependFirst(s: string)
    requires s != ""
    ensures Prepend([s[0]], Decoded(s[1..])) == Decoded(s)
  {
    assert s == [s[0]] + s[1..];
  }

  // ---------------------------------------------------------------- Unicode escapes

  // Four hexadecimal digits, in either case, spelling a code unit.
  predicate SpellsUnit(h: string, unit: nat) {
    && |h| == 4 && (forall i :: 0 <= i < 4 ==> HexValue(h[i]).Some?)
    && unit == ((HexValue(h[0]).value * 16 + HexValue(h[1]).value) * 16 + HexValue(h[2]).value) * 16
               + HexValue(h[3]).value
  }

  // Section 2.5 of RFC 4627: a six-character escape for the basic plane, a pair of them
  // carrying UTF-16 surrogates beyond it.
  predicate EscapeSpells(e: string, cp: nat) {
    Utf8.IsScalarValue(cp) &&
    if cp <= 0xFFFF then
      |e| == 6 && e[..2] == "\\u" && SpellsUnit(e[2..], cp)
    else
      |e| == 12 && e[..2] == "\\u" && SpellsUnit(e[2..6], 0xD800 + (cp - 0x1_0000) / 0x400)
      && e[6..8] == "\\u" && SpellsUnit(e[8..], 0xDC00 + (cp - 0x1_0000) % 0x400)
  }

  lemma SpelledUnitDecodes(doc: string, pos: nat, end: nat, h: string, unit: nat)
    requires SpellsUnit(h, unit) && At(doc, pos, h) && pos + 4 <= end <= |doc|
    ensures DecodeUnicodeEscape(doc, pos, end) == CodePoint(unit, pos + 4)
  {
    var a, b := HexValue(h[0]).value, HexValue(h[1]).value;
    assert HexDigits(doc, pos + 2, 2, a * 16 + b) ==
      HexDigits(doc, pos + 3, 1, (a * 16 + b) * 16 + HexValue(h[2]).value);
    assert HexDigits(doc, pos, 4, 0) == HexDigits(doc, pos + 1, 3, a);
  }

  lemma SpelledPairDecodes(doc: string, pos: nat, end: nat, e: string, cp: nat)
    requires 0xFFFF < cp <= 0x10_FFFF && EscapeSpells(e, cp)
    requires At(doc, pos, e) && pos + 12 <= end <= |doc|
    ensures DecodeCodePoint(doc, pos + 2, end) == CodePoint(cp, pos + 12)
  {
    hide HexDigits, HexValue;
    var high, low := (cp - 0x1_0000) / 0x400, (cp - 0x1_0000) % 0x400;
    assert e[6] == e[6..8][0] && e[7] == e[6..8][1];
    assert At(doc, pos + 2, e[2..6]) && At(doc, pos + 8, e[8..]);
    SpelledUnitDecodes(doc, pos + 2, end, e[2..6], 0xD800 + high);
    SpelledUnitDecodes(doc, pos + 8, end, e[8..], 0xDC00 + low);
    SurrogateArithmetic(high, low);
  }

  lemma SurrogateArithmetic(high: nat, low: nat)
    requires high < 0x400 && low < 0x400
    ensures (0xD800 + high) % 0x400 == high && (0xDC00 + low) % 0x400 == low
  {
  }

  // However a scalar value is escaped, its escape contributes exactly the well-formed
  // UTF-8 encoding of that value, from which the value can be read back.
  lemma EscapedScalarBecomesUtf8(doc: string, pos: nat, end: nat, e: string, cp: nat)
    requires EscapeSpells(e, cp) && At(doc, pos, e) && pos + |e| <= end <= |doc|
    ensures DecodeBody(doc, pos, end) == Prepend(Utf8.Encode(cp), DecodeBody(doc, pos + |e|, end))
    ensures Utf8.IsWellFormed(Utf8.Encode(cp)) && Utf8.Decode(Utf8.Encode(cp)) == cp
  {
    hide HexDigits, HexValue, DecodeUnicodeEscape, Utf8.Encode;
    Utf8.EncodeIsWellFormed(cp);
    assert e[0] == e[..2][0] && e[1] == e[..2][1];
    if cp <= 0xFFFF {
      assert At(doc, pos + 2, e[2..]);
      SpelledUnitDecodes(doc, pos + 2, end, e[2..], cp);
    } else {
      SpelledPairDecodes(doc, pos, end, e, cp);
    }
  }

  // ---------------------------------------------------------------- the forms of escapes

  const SHORT_ESCAPES: string := "\"\\/bfnrt"
  const ESCAPED_BY_THEM: string := ['\"', '\\', '/', BACKSPACE, FORM_FEED, '\n', '\r', '\t']

  // A backslash and one of these letters stand for the character at the same place of the
  // other list (section 2.5 of RFC 4627); a backslash and any other letter but u for none.
  lemma ShortEscapesDecode(doc: string, pos: nat, end: nat, k: nat)
    requires pos + 2 <= end <= |doc| && doc[pos] == '\\'
    ensures k < |SHORT_ESCAPES| && doc[pos + 1] == SHORT_ESCAPES[k] ==>
      DecodeBody(doc, pos, end) == Prepend([ESCAPED_BY_THEM[k]], DecodeBody(doc, pos + 2, end))
    ensures doc[pos + 1] != 'u' && doc[pos + 1] !in SHORT_ESCAPES ==>
      DecodeBody(doc, pos, end) == BadString(BadEscape, pos + 2)
  {
    hide DecodeCodePoint;
    var c := doc[pos + 1];
    assert ShortUnescape(c).Some? ==> c in SHORT_ESCAPES by {
      var s := SHORT_ESCAPES;
      assert s[0] == '\"' && s[1] == '\\' && s[2] == '/' && s[3] == 'b' && s[4] == 'f' && s[5] == 'n' && s[6] == 'r';
      assert s[7] == 't';
    }
  }

  // Only what must be escaped is: quotes, backslashes and control characters, by a letter
  // where there is one and by upper-case hexadecimal digits otherwise.
  lemma EscapedCharForms(c: char)
    ensures c != '\"' && c != '\\' && !(1 <= c as int <= 0x1F) ==> EscapedChar(c) == [c]
    ensures c in ESCAPED_BY_THEM && c != '/' ==> |EscapedChar(c)| == 2
    ensures 1 <= c as int <= 0x1F && c !in ESCAPED_BY_THEM ==>
      && |EscapedChar(c)| == 6 && EscapedChar(c)[..4] == "\\u00"
      && EscapedChar(c)[4] in "01" && EscapedChar(c)[5] in "0123456789ABCDEF"
  {
    var hex := "0123456789ABCDEF";
    if 1 <= c as int <= 0x1F {
      var d := c as int % 16;
      assert hex[0] == '0' && hex[10] == 'A' && UpperHex(d) == hex[d] && UpperHex(c as int / 16) == "01"[c as int / 16];
    }
  }

  // The number of backslashes immediately before i, not counting any before pos.
  function BackslashesBefore(doc: string, pos: nat, i: nat): nat
    requires pos <= i <= |doc|
    decreases i
  {
    if i > pos && doc[i - 1] == '\\' then 1 + BackslashesBefore(doc, pos, i - 1) else 0
  }

  // A quote closes the string opened just before pos unless it is escaped itself.
  predicate ClosesString(doc: string, pos: nat, i: nat)
    requires pos <= i < |doc|
  {
    doc[i] == '\"' && BackslashesBefore(doc, pos, i) % 2 == 0
  }

  lemma {:induction false} SkippedBackslashes(doc: string, pos: nat, i: nat)
    requires pos + 2 <= i <= |doc| && doc[pos] == '\\'
    ensures BackslashesBefore(doc, pos, i) % 2 == BackslashesBefore(doc, pos + 2, i) % 2
    decreases i
  {
    if i == pos + 2 {
      assert BackslashesBefore(doc, pos, pos + 1) == 1;
    } else {
      SkippedBackslashes(doc, pos, i - 1);
    }
  }

  lemma {:induction false} SkippedCharacter(doc: string, pos: nat, i: nat)
    requires pos + 1 <= i <= |doc| && doc[pos] != '\\'
    ensures BackslashesBefore(doc, pos, i) == BackslashesBefore(doc, pos + 1, i)
    decreases i
  {
    if i > pos + 1 {
      SkippedCharacter(doc, pos, i - 1);
    }
  }

  // A string token ends at the first quote that closes it; without one it takes the rest
  // of the document, and is no string.
  lemma {:induction false} StringEndsAtQuote(doc: string, pos: nat)
    requires pos <= |doc|
    ensures var (closed, end) := ScanString(doc, pos);
      if closed then
        && pos < end && ClosesString(doc, pos, end - 1)
        && forall i :: pos <= i < end - 1 ==> !ClosesString(doc, pos, i)
      else end == |doc| && forall i :: pos <= i < |doc| ==> !ClosesString(doc, pos, i)
    decreases |doc| - pos
  {
    if pos < |doc| && doc[pos] == '\\' {
      if pos + 1 < |doc| {
        StringEndsAtQuote(doc, pos + 2);
        assert BackslashesBefore(doc, pos, pos + 1) == 1;
        forall i | pos + 2 <= i < |doc| ensures ClosesString(doc, pos, i) == ClosesString(doc, pos + 2, i) {
          SkippedBackslashes(doc, pos, i);
        }
      }
    } else if pos < |doc| && doc[pos] != '\"' {
      StringEndsAtQuote(doc, pos + 1);
      forall i | pos + 1 <= i < |doc| ensures ClosesString(doc, pos, i) == ClosesString(doc, pos + 1, i) {
        SkippedCharacter(doc, pos, i);
      }
    }
  }

  // Two escapes in a row make one character whenever the first is a high surrogate,
  // whatever the second one spells; alone, a unit stands for itself.
  lemma AnySecondUnitPairs(doc: string, pos: nat, end: nat, first: string, second: string, unit: nat, other: nat)
    requires SpellsUnit(first, unit) && At(doc, pos, "\\u" + first) && pos + 6 <= end <= |doc|
    ensures !(0xD800 <= unit <= 0xDBFF) ==>
      DecodeBody(doc, pos, end) == Prepend(Utf8.Encode(unit), DecodeBody(doc, pos + 6, end))
    ensures 0xD800 <= unit <= 0xDBFF && SpellsUnit(second, other) && At(doc, pos + 6, "\\u" + second) &&
            pos + 12 <= end ==>
      DecodeBody(doc, pos, end) ==
        Prepend(Utf8.Encode(0x1_0000 + (unit - 0xD800) * 0x400 + other % 0x400), DecodeBody(doc, pos + 12, end))
  {
    hide HexDigits, HexValue, DecodeUnicodeEscape, Utf8.Encode, SpellsUnit;
    AtConcat(doc, pos, "\\u", first);
    assert doc[pos] == "\\u"[0] && doc[pos + 1] == "\\u"[1];
    SpelledUnitDecodes(doc, pos + 2, end, first, unit);
    if 0xD800 <= unit <= 0xDBFF && SpellsUnit(second, other) && At(doc, pos + 6, "\\u" + second) && pos + 12 <= end {
      AtConcat(doc, pos + 6, "\\u", second);
      assert doc[pos + 6] == "\\u"[0] && doc[pos + 7] == "\\u"[1];
      SpelledUnitDecodes(doc, pos + 8, end, second, other);
      assert unit % 0x400 == unit - 0xD800;
    }
  }

  // A `\u` without four hexadecimal digits, and a high surrogate without another escape
  // behind it, are errors.
  lemma BadUnicodeEscapes(doc: string, pos: nat, end: nat, unit: nat)
    requires pos + 2 <= end <= |doc| && doc[pos] == '\\' && doc[pos + 1] == 'u'
    ensures end < pos + 6 ==> DecodeBody(doc, pos, end) == BadString(FourDigitsExpected, pos + 2)
    ensures forall k :: pos + 2 <= k < pos + 6 <= end && HexValue(doc[k]).None? ==>
      DecodeBody(doc, pos, end).BadString? && DecodeBody(doc, pos, end).message == HexDigitExpected
    ensures pos + 6 <= end && 0xD800 <= unit <= 0xDBFF && SpellsUnit(doc[pos + 2..pos + 6], unit) ==>
      && (end < pos + 12 ==> DecodeBody(doc, pos, end) == BadString(SurrogateTooShort, pos + 6))
      && (pos + 12 <= end && doc[pos + 6..pos + 8] != "\\u" ==>
            DecodeBody(doc, pos, end).BadString? && DecodeBody(doc, pos, end).message == SurrogateExpected)
  {
    hide HexValue, Utf8.Encode;
    if pos + 6 <= end {
      assert HexDigits(doc, pos + 2, 4, 0).CodePoint? ==> forall k :: pos + 2 <= k < pos + 6 ==> HexValue(doc[k]).Some?
      by {
        FourHexDigits(doc, pos + 2);
      }
      if SpellsUnit(doc[pos + 2..pos + 6], unit) {
        SpelledUnitDecodes(doc, pos + 2, end, doc[pos + 2..pos + 6], unit);
      }
      assert pos + 12 <= end ==> doc[pos + 6..pos + 8] == [doc[pos + 6], doc[pos + 7]];
    }
  }

  lemma FourHexDigits(doc: string, pos: nat)
    requires pos + 4 <= |doc|
    ensures HexDigits(doc, pos, 4, 0).CodePoint? <==> forall k :: pos <= k < pos + 4 ==> HexValue(doc[k]).Some?
    ensures HexDigits(doc, pos, 4, 0).BadUnicode? ==> HexDigits(doc, pos, 4, 0).message == HexDigitExpected
  {
    HexDigitsMean(doc, pos, 4, 0);
  }

  lemma {:induction false} HexDigitsMean(doc: string, pos: nat, count: nat, value: nat)
    requires pos + count <= |doc|
    ensures HexDigits(doc, pos, count, value).CodePoint? <==>
      forall k :: pos <= k < pos + count ==> HexValue(doc[k]).Some?
    ensures HexDigits(doc, pos, count, value).BadUnicode? ==>
      HexDigits(doc, pos, count, value).message == HexDigitExpected
    decreases count
  {
    if count > 0 && HexValue(doc[pos]).Some? {
      HexDigitsMean(doc, pos + 1, count - 1, value * 16 + HexValue(doc[pos]).value);
    }
  }
}
