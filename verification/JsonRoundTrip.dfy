/** The parser undoes both printers: any layout of the tokens of a tree, its members in any
    order, parses without an error to a value holding that tree. */
module JsonRoundTrip {
  import opened JsonValue
  import opened JsonNumber
  import opened JsonString
  import opened JsonLexer
  import opened JsonParser
  import opened JsonPrinter
  import opened JsonLayout
  import StringOrder

  // ---------------------------------------------------------------- what can be printed

  function NumberText(j: Json, printer: RealPrinter): string
    requires j.JInt? || j.JReal?
  {
    if j.JInt? then IntText(j.n) else printer(j.r)
  }

  // Trees whose strings are NUL-free and whose numerals the reader accepts as numbers.
  predicate Printable(j: Json, printer: RealPrinter, scan: RealScanner)
    decreases j, 1
  {
    match j
    case JInt(n) => NumeralValue(IntText(n), scan).Some?
    case JReal(r) => IsNumberText(printer(r)) && NumeralValue(printer(r), scan).Some?
    case JStr(s) => NulFree(s)
    case JArr(es) => forall i :: 0 <= i < |es| ==> Printable(es[i], printer, scan)
    case JObj(ms) => forall i :: 0 <= i < |ms| ==> PrintableMember(ms[i], printer, scan)
    case _ => true
  }

  predicate PrintableMember(m: Member, printer: RealPrinter, scan: RealScanner)
    decreases m, 0
  {
    NulFree(m.name) && Printable(m.value, printer, scan)
  }

  // ... and whatever the reader makes of their numerals.
  predicate Writable(j: Json, printer: RealPrinter)
    decreases j, 1
  {
    match j
    case JReal(r) => IsNumberText(printer(r))
    case JStr(s) => NulFree(s)
    case JArr(es) => forall i :: 0 <= i < |es| ==> Writable(es[i], printer)
    case JObj(ms) => forall i :: 0 <= i < |ms| ==> WritableMember(ms[i], printer)
    case _ => true
  }

  predicate WritableMember(m: Member, printer: RealPrinter)
    decreases m, 0
  {
    NulFree(m.name) && Writable(m.value, printer)
  }

  // No later member has the name of the one at i.
  predicate IsLast(ms: seq<Member>, i: nat)
    requires i < |ms|
  {
    forall k :: i < k < |ms| ==> ms[k].name != ms[i].name
  }

  predicate IsNamed(ms: seq<Member>, k: CZString) {
    k.Name? && exists i :: 0 <= i < |ms| && ms[i].name == k.cstr
  }

  // The value holds the tree as laid out: its leaves with their numerals as the reader
  // takes them, under every index the element at it, and under every member name the last
  // member of that name.
  predicate Holds(v: Value, j: Json, printer: RealPrinter, scan: RealScanner)
    decreases j, 1
  {
    match j
    case JNull => v == Null
    case JInt(n) => Some(v) == NumeralValue(IntText(n), scan)
    case JReal(r) => Some(v) == NumeralValue(printer(r), scan)
    case JStr(s) => v == Str(s)
    case JBool(b) => v == Bool(b)
    case JArr(es) =>
      && v.Arr? && Size(v) == |es|
      && forall i :: 0 <= i < |es| ==> Holds(FindOrNull(v.entries, Index(i)), es[i], printer, scan)
    case JObj(ms) =>
      && v.Obj? && Sorted(v.entries)
      && (forall i :: 0 <= i < |v.entries| ==> IsNamed(ms, v.entries[i].key))
      && forall i :: 0 <= i < |ms| && IsLast(ms, i) ==>
           HoldsMember(Find(v.entries, Name(ms[i].name)), ms[i], printer, scan)
  }

  predicate HoldsMember(found: Option<Value>, m: Member, printer: RealPrinter, scan: RealScanner)
    decreases m, 0
  {
    found.Some? && Holds(found.value, m.value, printer, scan)
  }

  // ---------------------------------------------------------------- reading one token

  // A number may be followed by these tokens without absorbing their first character.
  predicate ClosesNumber(rest: seq<string>) {
    rest == [] || (rest[0] != "" && !IsNumberChar(rest[0][0]))
  }

  function PunctuationKind(c: char): TokenType {
    match c
    case '{' => ObjectBegin
    case '}' => ObjectEnd
    case '[' => ArrayBegin
    case ']' => ArrayEnd
    case ',' => ArraySeparator
    case _ => MemberSeparator
  }

  // The next token is t, of the given kind, and reading it leaves the rest laid out.
  predicate Reads(doc: string, pos: nat, t: string, kind: TokenType, rest: seq<string>)
    requires pos <= |doc|
  {
    var token := ReadToken(doc, pos);
    && token.kind == kind
    && token.end - token.start == |t| && At(doc, token.start, t)
    && Layout(doc, token.end, rest)
  }

  lemma ReadPunctuation(doc: string, pos: nat, c: char, rest: seq<string>)
    requires pos <= |doc| && c in "{}[],:" && Layout(doc, pos, [[c]] + rest)
    ensures var p := SkipSpaces(doc, pos);
      p < |doc| && doc[p] == c && Layout(doc, p + 1, rest) &&
      ReadToken(doc, pos) == Token(PunctuationKind(c), p, p + 1) == ReadNonComment(doc, pos)
  {
    FirstOfLayout(doc, pos, [c], rest);
    assert doc[SkipSpaces(doc, pos)] == [c][0];
  }

  lemma FirstOfLayout(doc: string, pos: nat, t: string, rest: seq<string>)
    requires pos <= |doc| && Layout(doc, pos, [t] + rest)
    ensures var p := SkipSpaces(doc, pos);
      At(doc, p, t) && Layout(doc, p + |t|, rest)
  {
    assert ([t] + rest)[0] == t && ([t] + rest)[1..] == rest;
  }

  lemma ReadKeyword(doc: string, pos: nat, t: string, rest: seq<string>)
    requires pos <= |doc| && t in {"true", "false", "null"} && Layout(doc, pos, [t] + rest)
    ensures Reads(doc, pos, t,
      if t == "true" then TrueToken else if t == "false" then FalseToken else NullToken, rest)
  {
    hide Layout, ScanString, ScanComment, ScanNumber;
    FirstOfLayout(doc, pos, t, rest);
    var p := SkipSpaces(doc, pos);
    assert doc[p] == t[0];
    var tail := if t == "true" then "rue" else if t == "false" then "alse" else "ull";
    assert t == [t[0]] + tail;
    AtConcat(doc, p, [t[0]], tail);
  }

  lemma ReadNumber(doc: string, pos: nat, t: string, rest: seq<string>)
    requires pos <= |doc| && IsNumberText(t) && ClosesNumber(rest) && Layout(doc, pos, [t] + rest)
    ensures Reads(doc, pos, t, NumberToken, rest)
  {
    FirstOfLayout(doc, pos, t, rest);
    var p := SkipSpaces(doc, pos);
    var end := p + |t|;
    assert doc[p] == t[0];
    var q := SkipSpaces(doc, end);
    assert end < |doc| && rest != [] && q == end ==> doc[end] == rest[0][0];
    assert end < |doc| ==> !IsNumberChar(doc[end]);
    var stop := ScanNumber(doc, p + 1);
    forall i | p < i < end ensures IsNumberChar(doc[i]) {
      assert doc[p + (i - p)] == t[i - p];
    }
    assert stop == end;
  }

  lemma ReadQuoted(doc: string, pos: nat, s: string, rest: seq<string>)
    requires pos <= |doc| && Layout(doc, pos, [Quoted(s)] + rest)
    ensures Reads(doc, pos, Quoted(s), StringToken, rest)
    ensures var t := ReadToken(doc, pos); DecodeBody(doc, t.start + 1, t.end - 1) == Decoded(s)
    ensures ReadNonComment(doc, pos) == ReadToken(doc, pos)
  {
    hide DecodeBody, Escaped;
    FirstOfLayout(doc, pos, Quoted(s), rest);
    var p := SkipSpaces(doc, pos);
    var body := p + 1 + |Escaped(s)|;
    AtConcat(doc, p, "\"" + Escaped(s), "\"");
    AtConcat(doc, p, "\"", Escaped(s));
    assert doc[p] == "\""[0] && doc[body] == "\""[0];
    QuotedReadsBack(doc, p + 1, body, s);
  }

  lemma TextAt(doc: string, t: Token, text: string)
    requires At(doc, t.start, text) && t.end - t.start == |text|
    ensures Text(doc, t) == text
  {
  }

  // ---------------------------------------------------------------- reading a tree

  lemma ReadLeafOnLayout(src: Source, pos: nat, current: Value, j: Json, rest: seq<string>, printer: RealPrinter)
    requires pos <= |src.doc| && IsLeaf(j) && Printable(j, printer, src.scan)
    requires Layout(src.doc, pos, [LeafText(j, printer)] + rest) && ClosesNumber(rest)
    ensures var r := ReadValue(src, pos, current);
      r.ok && Holds(r.value, j, printer, src.scan) && Layout(src.doc, r.pos, rest)
  {
    hide Layout, DecodeBody, DecodeNumber, NumeralValue, Quoted, ReadToken, SkipSpaces, ReadMembers, ReadElements;
    var t := ReadToken(src.doc, pos);
    if j.JInt? || j.JReal? {
      var text := NumberText(j, printer);
      if j.JInt? {
        IntTextIsNumberText(j.n);
      }
      ReadNumber(src.doc, pos, text, rest);
      TextAt(src.doc, t, text);
      NumeralMeans(text, src.scan);
    } else if j.JStr? {
      ReadQuoted(src.doc, pos, j.s, rest);
    } else {
      ReadKeyword(src.doc, pos, LeafText(j, printer), rest);
    }
    assert ReadValueToken(src, pos) == t;
  }

  lemma {:induction false} ReadValueOnLayout(
      src: Source, pos: nat, current: Value, j: Json, rest: seq<string>, printer: RealPrinter)
    requires pos <= |src.doc| && Printable(j, printer, src.scan)
    requires Layout(src.doc, pos, Tokens(j, printer) + rest) && ClosesNumber(rest)
    ensures var r := ReadValue(src, pos, current);
      r.ok && Holds(r.value, j, printer, src.scan) && Layout(src.doc, r.pos, rest)
    decreases j, 1
  {
    match j {
      case JArr(es) => ReadArrayOnLayout(src, pos, current, es, rest, printer);
      case JObj(ms) => ReadObjectOnLayout(src, pos, current, ms, rest, printer);
      case _ => ReadLeafOnLayout(src, pos, current, j, rest, printer);
    }
  }

  lemma Bracketed(open: string, inner: seq<string>, close: string, rest: seq<string>)
    ensures [open] + inner + [close] + rest == [open] + (inner + ([close] + rest))
  {
  }

  lemma Unbracketed(rest: seq<string>, close: string)
    ensures [] + ([close] + rest) == [close] + rest
  {
  }

  // The entries an array loop has stored for the elements read so far.
  predicate HoldsElements(m: ObjectValues, es: seq<Json>, printer: RealPrinter, scan: RealScanner) {
    |m| == |es| &&
    forall i :: 0 <= i < |m| ==> m[i].key == Index(i) && Holds(m[i].value, es[i], printer, scan)
  }

  lemma HoldsOneMoreElement(m: ObjectValues, es: seq<Json>, e: Json, v: Value, printer: RealPrinter, scan: RealScanner)
    requires HoldsElements(m, es, printer, scan) && Holds(v, e, printer, scan)
    ensures HoldsElements(m + [Entry(Index(|m|), v)], es + [e], printer, scan)
  {
  }

  lemma ArrayHolds(m: ObjectValues, es: seq<Json>, printer: RealPrinter, scan: RealScanner)
    requires HoldsElements(m, es, printer, scan)
    ensures Holds(Arr(m), JArr(es), printer, scan)
  {
    assert Size(Arr(m)) == |m|;
    forall i | 0 <= i < |m| ensures Holds(FindOrNull(m, Index(i)), es[i], printer, scan) {
      FindIsLookup(m, Index(i), i);
    }
  }

  lemma {:induction false} ReadArrayOnLayout(
      src: Source, pos: nat, current: Value, es: seq<Json>, rest: seq<string>, printer: RealPrinter)
    requires pos <= |src.doc| && Printable(JArr(es), printer, src.scan)
    requires Layout(src.doc, pos, Tokens(JArr(es), printer) + rest)
    ensures var r := ReadValue(src, pos, current);
      r.ok && Holds(r.value, JArr(es), printer, src.scan) && Layout(src.doc, r.pos, rest)
    decreases es, 4
  {
    hide Layout, Holds, Printable, ReadToken, ReadArray, ReadNonComment, SkipSpaces, DecodeBody, DecodeNumber;
    var inner := ElementTokens(es, printer) + (["]"] + rest);
    Bracketed("[", ElementTokens(es, printer), "]", rest);
    ReadPunctuation(src.doc, pos, '[', inner);
    AfterBracketOnLayout(src, ReadToken(src.doc, pos).end, es, rest, printer);
  }

  lemma {:induction false} AfterBracketOnLayout(
      src: Source, pos: nat, es: seq<Json>, rest: seq<string>, printer: RealPrinter)
    requires pos <= |src.doc| && Printable(JArr(es), printer, src.scan)
    requires Layout(src.doc, pos, ElementTokens(es, printer) + (["]"] + rest))
    ensures var r := ReadArray(src, pos);
      r.ok && Holds(r.value, JArr(es), printer, src.scan) && Layout(src.doc, r.pos, rest)
    decreases es, 3
  {
    hide Layout, Holds, ReadToken, ReadElements, ReadNonComment, SkipSpaces, DecodeBody, DecodeNumber, Tokens;
    if es == [] {
      Unbracketed(rest, "]");
      ReadPunctuation(src.doc, pos, ']', rest);
      ArrayHolds([], es, printer, src.scan);
    } else {
      WritableAndAccepted(es[0], printer, src.scan);
      ElementsStart(src.doc, pos, es, ["]"] + rest, printer);
      ReadElementsOnLayout(src, SkipSpaces(src.doc, pos), [], [], es, es, rest, printer);
    }
  }

  // No value starts with a closing bracket.
  lemma ElementsStart(doc: string, pos: nat, es: seq<Json>, rest: seq<string>, printer: RealPrinter)
    requires pos <= |doc| && es != [] && Writable(es[0], printer)
    requires Layout(doc, pos, ElementTokens(es, printer) + rest)
    ensures var p := SkipSpaces(doc, pos);
      p < |doc| && doc[p] != ']' && Layout(doc, p, ElementTokens(es, printer) + rest)
  {
    WritableIsShaped(es[0], printer);
    SkipTwice(doc, pos);
    LayoutAfterSpaces(doc, pos, SkipSpaces(doc, pos), ElementTokens(es, printer) + rest);
    var toks := ElementTokens(es, printer) + rest;
    var t := Tokens(es[0], printer)[0];
    assert toks[0] == t;
    TokensAreTokens(es[0], printer);
    assert t != "" && t[0] != ']' by {
      if es[0].JInt? {
        IntTextIsNumberText(es[0].n);
      }
    }
    assert doc[SkipSpaces(doc, pos) + 0] == t[0];
  }

  lemma {:induction false} WritableIsShaped(j: Json, printer: RealPrinter)
    requires Writable(j, printer)
    ensures RealsShaped(j, printer)
    decreases j, 1
  {
    match j {
      case JArr(es) =>
        forall i | 0 <= i < |es| ensures RealsShaped(es[i], printer) {
          WritableIsShaped(es[i], printer);
        }
      case JObj(ms) =>
        forall i | 0 <= i < |ms| ensures MemberRealsShaped(ms[i], printer) {
          WritableMemberIsShaped(ms[i], printer);
        }
      case _ =>
    }
  }

  lemma {:induction false} WritableMemberIsShaped(m: Member, printer: RealPrinter)
    requires WritableMember(m, printer)
    ensures MemberRealsShaped(m, printer)
    decreases m, 0
  {
    WritableIsShaped(m.value, printer);
  }

  // The tokens of the first element, of what follows it, and of what remains then.
  lemma FirstElementTokens(es: seq<Json>, rest: seq<string>, printer: RealPrinter)
    requires es != []
    ensures var more := ElementTokens(es[1..], printer) + (["]"] + rest);
      var next := Comma(|es|) + more;
      && ElementTokens(es, printer) + (["]"] + rest) == Tokens(es[0], printer) + next
      && ClosesNumber(next)
      && (|es| == 1 ==> next == ["]"] + rest)
      && (|es| > 1 ==> next == [[',']] + more)
  {
    hide Tokens, ElementTokens, ClosesNumber;
    ElementTokensFirst(es, printer);
    var tail := ["]"] + rest;
    var more := ElementTokens(es[1..], printer) + tail;
    Regrouped(Tokens(es[0], printer), Comma(|es|), ElementTokens(es[1..], printer), tail);
    if |es| == 1 {
      assert Comma(|es|) + more == tail;
    } else {
      assert Comma(|es|) + more == [[',']] + more;
    }
    assert ClosesNumber(Comma(|es|) + more) by { ClosedBy(if |es| > 1 then "," else "]", Comma(|es|) + more); }
  }

  lemma ElementTokensFirst(es: seq<Json>, printer: RealPrinter)
    requires es != []
    ensures ElementTokens(es, printer) == Tokens(es[0], printer) + Comma(|es|) + ElementTokens(es[1..], printer)
    ensures |es| == 1 ==> ElementTokens(es[1..], printer) == []
  {
    hide Tokens;
  }

  lemma Regrouped(a: seq<string>, b: seq<string>, c: seq<string>, d: seq<string>)
    ensures (a + b + c) + d == a + (b + (c + d))
  {
  }

  lemma ClosedBy(t: string, toks: seq<string>)
    requires toks != [] && toks[0] == t && t in {",", "]", "}"}
    ensures ClosesNumber(toks)
  {
  }

  // The array loop from the point where m holds the elements before es.
  lemma {:induction false} ReadElementsOnLayout(
      src: Source, pos: nat, m: ObjectValues, before: seq<Json>, es: seq<Json>, all: seq<Json>,
      rest: seq<string>, printer: RealPrinter)
    requires pos <= |src.doc| && es != [] && all == before + es
    requires forall i :: 0 <= i < |es| ==> Printable(es[i], printer, src.scan)
    requires HoldsElements(m, before, printer, src.scan)
    requires Layout(src.doc, pos, ElementTokens(es, printer) + (["]"] + rest))
    ensures var r := ReadElements(src, pos, |before|, m);
      r.ok && Holds(r.value, JArr(all), printer, src.scan) && Layout(src.doc, r.pos, rest)
    decreases es, 2
  {
    hide Layout, Holds, Printable, ReadToken, ReadValue, Tokens, ElementTokens, Comma, ClosesNumber,
         Store, Find, ReadNonComment, Recover, SkipSpaces;
    FirstElementTokens(es, rest, printer);
    var more := ElementTokens(es[1..], printer) + (["]"] + rest);
    var next := Comma(|es|) + more;
    var index := |before|;
    ReadValueOnLayout(src, pos, Null, es[0], next, printer);
    StoreAppends(m, Index(index), Null);
    var r := ReadValue(src, pos, Null);
    StoreAppends(m, Index(index), r.value);
    var m' := Store(m, Index(index), r.value);
    HoldsOneMoreElement(m, before, es[0], r.value, printer, src.scan);
    if |es| == 1 {
      ReadPunctuation(src.doc, r.pos, ']', rest);
      assert before + [es[0]] == all;
      ArrayHolds(m', all, printer, src.scan);
    } else {
      ReadPunctuation(src.doc, r.pos, ',', more);
      var t := ReadToken(src.doc, r.pos);
      assert all == before + [es[0]] + es[1..];
      ReadElementsOnLayout(src, t.end, m', before + [es[0]], es[1..], all, rest, printer);
    }
  }

  // ---------------------------------------------------------------- separators

  // A token other than a number, a comment and the closing bracket.
  ghost predicate CanSeparate(t: string) {
    (|t| == 1 && t[0] in "{}[,:") || t in {"true", "false", "null"} || exists s :: t == Quoted(s)
  }

  lemma ReadSeparator(doc: string, pos: nat, t: string, rest: seq<string>)
    requires pos <= |doc| && CanSeparate(t) && Layout(doc, pos, [t] + rest)
    ensures var token := ReadNonComment(doc, pos); token.kind != ArrayEnd && Layout(doc, token.end, rest)
    ensures ClosesNumber([t] + rest)
  {
    hide Layout, ReadToken, Quoted;
    if |t| == 1 && t[0] in "{}[,:" {
      assert t == [t[0]];
      ReadPunctuation(doc, pos, t[0], rest);
    } else if t in {"true", "false", "null"} {
      ReadKeyword(doc, pos, t, rest);
    } else {
      var s :| t == Quoted(s);
      ReadQuoted(doc, pos, s, rest);
      assert t[0] == '"' by { QuotedOpens(s); }
    }
  }

  lemma QuotedOpens(s: string)
    ensures Quoted(s) != "" && Quoted(s)[0] == '"'
  {
  }

  // The elements of an array with any tokens between them.
  function Separated(es: seq<Json>, seps: seq<string>, printer: RealPrinter): seq<string>
    requires es != [] && |seps| == |es| - 1
    decreases es
  {
    if |es| == 1 then Tokens(es[0], printer)
    else Tokens(es[0], printer) + ([seps[0]] + Separated(es[1..], seps[1..], printer))
  }

  function AfterFirst(es: seq<Json>, seps: seq<string>, close: seq<string>, printer: RealPrinter): seq<string>
    requires es != [] && |seps| == |es| - 1
  {
    if |es| == 1 then close else [seps[0]] + (Separated(es[1..], seps[1..], printer) + close)
  }

  lemma FirstSeparated(es: seq<Json>, seps: seq<string>, close: seq<string>, printer: RealPrinter)
    requires es != [] && |seps| == |es| - 1 && close != [] && close[0] == "]"
    requires forall i :: 0 <= i < |seps| ==> CanSeparate(seps[i])
    ensures Separated(es, seps, printer) + close == Tokens(es[0], printer) + AfterFirst(es, seps, close, printer)
    ensures ClosesNumber(AfterFirst(es, seps, close, printer))
  {
    hide Tokens, ClosesNumber, CanSeparate;
    if |es| == 1 {
      ClosedBy("]", close);
    } else {
      SeparatorCloses(seps[0], AfterFirst(es, seps, close, printer));
    }
  }

  // The test for a bad separator never fires: whichever of these stand between the elements
  // of an array in place of the commas, it is read without an error, as if it had them.
  lemma {:induction false} AnySeparatorIsAccepted(
      src: Source, pos: nat, m: ObjectValues, before: seq<Json>, es: seq<Json>, all: seq<Json>,
      seps: seq<string>, rest: seq<string>, printer: RealPrinter)
    requires pos <= |src.doc| && es != [] && all == before + es && |seps| == |es| - 1
    requires forall i :: 0 <= i < |es| ==> Printable(es[i], printer, src.scan)
    requires forall i :: 0 <= i < |seps| ==> CanSeparate(seps[i])
    requires HoldsElements(m, before, printer, src.scan)
    requires Layout(src.doc, pos, Separated(es, seps, printer) + (["]"] + rest))
    ensures var r := ReadElements(src, pos, |before|, m);
      r.ok && r.errors == [] && Holds(r.value, JArr(all), printer, src.scan) && Layout(src.doc, r.pos, rest)
    decreases es, 2
  {
    hide Layout, Holds, Printable, ReadToken, ReadValue, Tokens, Store, Find, ReadNonComment, Recover,
         SkipSpaces,
         ClosesNumber, CanSeparate, Separated;
    var index, close := |before|, ["]"] + rest;
    var next := AfterFirst(es, seps, close, printer);
    FirstSeparated(es, seps, close, printer);
    ReadValueOnLayout(src, pos, Null, es[0], next, printer);
    StoreAppends(m, Index(index), Null);
    var r := ReadValue(src, pos, Null);
    StoreAppends(m, Index(index), r.value);
    var m' := Store(m, Index(index), r.value);
    HoldsOneMoreElement(m, before, es[0], r.value, printer, src.scan);
    if |es| == 1 {
      ReadPunctuation(src.doc, r.pos, ']', rest);
      assert before + [es[0]] == all;
      assert next == close;
      ArrayHolds(m', all, printer, src.scan);
    } else {
      assert next == [seps[0]] + (Separated(es[1..], seps[1..], printer) + close);
      ReadSeparator(src.doc, r.pos, seps[0], Separated(es[1..], seps[1..], printer) + close);
      var t := ReadNonComment(src.doc, r.pos);
      assert all == before + [es[0]] + es[1..];
      AnySeparatorIsAccepted(src, t.end, m', before + [es[0]], es[1..], all, seps[1..], rest, printer);
    }
  }

  lemma SeparatorCloses(t: string, toks: seq<string>)
    requires toks != [] && toks[0] == t && CanSeparate(t)
    ensures ClosesNumber(toks)
  {
    hide Quoted;
    if s :| t == Quoted(s) {
      QuotedOpens(s);
    }
  }

  // ---------------------------------------------------------------- objects

  // The entries an object loop has stored for the members read so far.
  predicate HoldsMembers(m: ObjectValues, ms: seq<Member>, printer: RealPrinter, scan: RealScanner) {
    && Sorted(m)
    && (forall i :: 0 <= i < |m| ==> IsNamed(ms, m[i].key))
    && forall i :: 0 <= i < |ms| && IsLast(ms, i) ==>
         HoldsMember(Find(m, Name(ms[i].name)), ms[i], printer, scan)
  }

  // A member stored takes the place of an earlier one of its name.
  lemma HoldsOneMoreMember(
      m: ObjectValues, ms: seq<Member>, member: Member, v: Value, printer: RealPrinter, scan: RealScanner)
    requires HoldsMembers(m, ms, printer, scan) && Holds(v, member.value, printer, scan)
    ensures HoldsMembers(Store(m, Name(member.name), v), ms + [member], printer, scan)
  {
    hide Holds, Store, Find, Sorted;
    var k, all := Name(member.name), ms + [member];
    StoreKeepsSorted(m, k, v);
    StoredKeys(m, k, v);
    forall i | 0 <= i < |Store(m, k, v)| ensures IsNamed(all, Store(m, k, v)[i].key) {
      StillNamed(ms, member, Store(m, k, v)[i].key);
    }
    forall i | 0 <= i < |all| && IsLast(all, i)
      ensures HoldsMember(Find(Store(m, k, v), Name(all[i].name)), all[i], printer, scan)
    {
      StoreThenFind(m, k, v, Name(all[i].name));
      if i < |ms| {
        assert all[|ms|] == member && all[i] == ms[i];
        assert forall j :: i < j < |ms| ==> all[j] == ms[j];
        assert IsLast(ms, i);
      }
    }
  }

  lemma StoredKeys(m: ObjectValues, k: CZString, v: Value)
    ensures forall i :: 0 <= i < |Store(m, k, v)| ==>
      Store(m, k, v)[i].key == k || exists j :: 0 <= j < |m| && m[j].key == Store(m, k, v)[i].key
  {
    var p := LowerBound(m, k);
    forall i | 0 <= i < |Store(m, k, v)| && Store(m, k, v)[i].key != k
      ensures exists j :: 0 <= j < |m| && m[j].key == Store(m, k, v)[i].key
    {
      assert Store(m, k, v)[i] == if i < p || Find(m, k).Some? then m[i] else m[i - 1];
    }
  }

  lemma StillNamed(ms: seq<Member>, member: Member, k: CZString)
    requires IsNamed(ms, k) || k == Name(member.name)
    ensures IsNamed(ms + [member], k)
  {
    var all := ms + [member];
    if IsNamed(ms, k) {
      var i :| 0 <= i < |ms| && ms[i].name == k.cstr;
      assert all[i].name == k.cstr;
    } else {
      assert all[|ms|].name == k.cstr;
    }
  }

  lemma ObjectHolds(m: ObjectValues, ms: seq<Member>, printer: RealPrinter, scan: RealScanner)
    requires HoldsMembers(m, ms, printer, scan)
    ensures Holds(Obj(m), JObj(ms), printer, scan)
  {
  }

  lemma {:induction false} ReadObjectOnLayout(
      src: Source, pos: nat, current: Value, ms: seq<Member>, rest: seq<string>, printer: RealPrinter)
    requires pos <= |src.doc| && Printable(JObj(ms), printer, src.scan)
    requires Layout(src.doc, pos, Tokens(JObj(ms), printer) + rest)
    ensures var r := ReadValue(src, pos, current);
      r.ok && Holds(r.value, JObj(ms), printer, src.scan) && Layout(src.doc, r.pos, rest)
    decreases ms, 5
  {
    hide Layout, Holds, ReadToken, MemberTokens, AfterName, ReadMembers, ReadMember, ReadNonComment, Recover,
         SkipSpaces;
    var inner := MembersTokens(ms, printer) + (["}"] + rest);
    Bracketed("{", MembersTokens(ms, printer), "}", rest);
    ReadPunctuation(src.doc, pos, '{', inner);
    var t := ReadToken(src.doc, pos);
    if ms == [] {
      Unbracketed(rest, "}");
      ReadNoMembers(src, t.end, rest, printer);
    } else {
      ReadMembersOnLayout(src, t.end, "", [], [], ms, ms, rest, printer);
    }
    assert ReadValue(src, pos, current) == ReadMembers(src, t.end, "", []);
  }

  lemma ReadNoMembers(src: Source, pos: nat, rest: seq<string>, printer: RealPrinter)
    requires pos <= |src.doc| && Layout(src.doc, pos, ["}"] + rest)
    ensures var r := ReadMembers(src, pos, "", []);
      r.ok && Holds(r.value, JObj([]), printer, src.scan) && Layout(src.doc, r.pos, rest)
  {
    hide Layout, Holds, ReadToken, ReadNonComment, Recover, SkipSpaces;
    ReadPunctuation(src.doc, pos, '}', rest);
    assert ReadMember(src, pos, "", []) == Leave(Outcome(true, SkipSpaces(src.doc, pos) + 1, Obj([]), []));
    ObjectHolds([], [], printer, src.scan);
  }

  lemma ReadsGives(doc: string, pos: nat, t: string, kind: TokenType, rest: seq<string>)
    requires pos <= |doc| && Reads(doc, pos, t, kind, rest)
    ensures var token := ReadToken(doc, pos); token.kind == kind && Layout(doc, token.end, rest)
  {
  }

  lemma FirstMemberTokens(ms: seq<Member>, rest: seq<string>, printer: RealPrinter)
    requires ms != []
    ensures var more := MembersTokens(ms[1..], printer) + (["}"] + rest);
      var next := Comma(|ms|) + more;
      && MembersTokens(ms, printer) + (["}"] + rest) == MemberTokens(ms[0], printer) + next
      && ClosesNumber(next)
      && (|ms| == 1 ==> next == ["}"] + rest)
      && (|ms| > 1 ==> next == [[',']] + more)
  {
    hide MemberTokens, MembersTokens, ClosesNumber;
    MembersTokensFirst(ms, printer);
    var tail := ["}"] + rest;
    var more := MembersTokens(ms[1..], printer) + tail;
    Regrouped(MemberTokens(ms[0], printer), Comma(|ms|), MembersTokens(ms[1..], printer), tail);
    if |ms| == 1 {
      assert Comma(|ms|) + more == tail;
    } else {
      assert Comma(|ms|) + more == [[',']] + more;
    }
    assert ClosesNumber(Comma(|ms|) + more) by { ClosedBy(if |ms| > 1 then "," else "}", Comma(|ms|) + more); }
  }

  lemma MembersTokensFirst(ms: seq<Member>, printer: RealPrinter)
    requires ms != []
    ensures MembersTokens(ms, printer) == MemberTokens(ms[0], printer) + Comma(|ms|) + MembersTokens(ms[1..], printer)
    ensures |ms| == 1 ==> MembersTokens(ms[1..], printer) == []
  {
    hide MemberTokens;
  }

  // The object loop from the point where m holds the members before ms.
  lemma {:induction false} ReadMembersOnLayout(
      src: Source, pos: nat, name: string, m: ObjectValues, before: seq<Member>, ms: seq<Member>, all: seq<Member>,
      rest: seq<string>, printer: RealPrinter)
    requires pos <= |src.doc| && ms != [] && all == before + ms
    requires forall i :: 0 <= i < |ms| ==> PrintableMember(ms[i], printer, src.scan)
    requires HoldsMembers(m, before, printer, src.scan)
    requires Layout(src.doc, pos, MembersTokens(ms, printer) + (["}"] + rest))
    ensures var r := ReadMembers(src, pos, name, m);
      r.ok && Holds(r.value, JObj(all), printer, src.scan) && Layout(src.doc, r.pos, rest)
    decreases ms, 4
  {
    hide Layout, Holds, ReadMember, PrintableMember, MemberTokens, MembersTokens, Comma, ClosesNumber,
         ReadToken, ReadNonComment, Recover, SkipSpaces, FailAndRecover, HoldsMembers, Store;
    FirstMemberTokens(ms, rest, printer);
    var more := MembersTokens(ms[1..], printer) + (["}"] + rest);
    var next := Comma(|ms|) + more;
    assert WritableMember(ms[0], printer) by { MemberWritableAndAccepted(ms[0], printer, src.scan); }
    var r := MemberTurn(src, pos, name, m, ms[0], next, printer);
    var m' := Store(m, Name(ms[0].name), r.value);
    HoldsOneMoreMember(m, before, ms[0], r.value, printer, src.scan);
    if |ms| == 1 {
      ReadPunctuation(src.doc, r.pos, '}', rest);
      assert before + [ms[0]] == all;
      ObjectHolds(m', all, printer, src.scan);
    } else {
      ReadPunctuation(src.doc, r.pos, ',', more);
      var t := ReadToken(src.doc, r.pos);
      assert all == before + [ms[0]] + ms[1..];
      assert ReadMember(src, pos, name, m) == Again(t.end, ms[0].name, m');
      ReadMembersOnLayout(src, t.end, ms[0].name, m', before + [ms[0]], ms[1..], all, rest, printer);
    }
  }

  // Of the members of one name the last is kept, wherever it stands, and a name none of
  // them has is not found.
  lemma LastMemberIsKept(
      src: Source, pos: nat, current: Value, ms: seq<Member>, rest: seq<string>, printer: RealPrinter, n: string)
    requires pos <= |src.doc| && Printable(JObj(ms), printer, src.scan)
    requires Layout(src.doc, pos, Tokens(JObj(ms), printer) + rest)
    ensures var r := ReadValue(src, pos, current);
      && r.ok && r.errors == [] && r.value.Obj?
      && (forall i :: 0 <= i < |ms| && IsLast(ms, i) && ms[i].name == n ==>
            var found := Find(r.value.entries, Name(n));
            found.Some? && Holds(found.value, ms[i].value, printer, src.scan))
      && ((forall i :: 0 <= i < |ms| ==> ms[i].name != n) ==> Find(r.value.entries, Name(n)) == None)
  {
    hide ReadValue, Layout, Tokens, Printable;
    ReadObjectOnLayout(src, pos, current, ms, rest, printer);
    var v := ReadValue(src, pos, current).value;
    forall i | 0 <= i < |ms| && IsLast(ms, i) && ms[i].name == n
      ensures var found := Find(v.entries, Name(n));
        found.Some? && Holds(found.value, ms[i].value, printer, src.scan)
    {
      assert HoldsMember(Find(v.entries, Name(ms[i].name)), ms[i], printer, src.scan);
    }
    if Find(v.entries, Name(n)).Some? {
      assert IsNamed(ms, v.entries[LowerBound(v.entries, Name(n))].key);
    }
  }

  // A comma behind the last member is refused, unless the name of that member is empty.
  lemma TrailingComma(
      src: Source, pos: nat, name: string, m: ObjectValues, member: Member, rest: seq<string>, printer: RealPrinter)
    requires pos <= |src.doc| && PrintableMember(member, printer, src.scan)
    requires Layout(src.doc, pos, MemberTokens(member, printer) + ([",", "}"] + rest))
    ensures ReadMembers(src, pos, name, m).ok <==> member.name == ""
  {
    hide Layout, Holds, ReadMember, PrintableMember, MemberTokens, ReadToken, ReadNonComment, Recover, SkipSpaces,
         FailAndRecover, Store;
    var next := [",", "}"] + rest;
    assert WritableMember(member, printer) by { MemberWritableAndAccepted(member, printer, src.scan); }
    assert ClosesNumber(next) by { ClosedBy(",", next); }
    var r := MemberTurn(src, pos, name, m, member, next, printer);
    var m' := Store(m, Name(member.name), r.value);
    assert next == [[',']] + ([['}']] + rest);
    ReadPunctuation(src.doc, r.pos, ',', [['}']] + rest);
    var comma := ReadToken(src.doc, r.pos);
    ReadPunctuation(src.doc, comma.end, '}', rest);
    assert ReadMember(src, pos, name, m) == Again(comma.end, member.name, m');
    ClosingTurn(src, comma.end, member.name, m');
  }

  lemma ClosingTurn(src: Source, pos: nat, name: string, m: ObjectValues)
    requires pos <= |src.doc| && ReadNonComment(src.doc, pos).kind == ObjectEnd
    ensures ReadMembers(src, pos, name, m).ok <==> name == ""
  {
    hide ReadToken, ReadNonComment, Recover;
  }

  // ---------------------------------------------------------------- refused numbers

  // On a layout of a tree with a number the reader refuses, reading that tree fails.
  lemma {:induction false} RefusedValueFails(
      src: Source, pos: nat, current: Value, j: Json, rest: seq<string>, printer: RealPrinter)
    requires pos <= |src.doc| && Writable(j, printer) && !Printable(j, printer, src.scan)
    requires Layout(src.doc, pos, Tokens(j, printer) + rest) && ClosesNumber(rest)
    ensures !ReadValue(src, pos, current).ok
    decreases j, 1
  {
    match j {
      case JArr(es) => RefusedArrayFails(src, pos, current, es, rest, printer);
      case JObj(ms) => RefusedObjectFails(src, pos, current, ms, rest, printer);
      case _ => RefusedNumberFails(src, pos, current, j, rest, printer);
    }
  }

  lemma RefusedNumberFails(src: Source, pos: nat, current: Value, j: Json, rest: seq<string>, printer: RealPrinter)
    requires pos <= |src.doc| && IsLeaf(j) && Writable(j, printer) && !Printable(j, printer, src.scan)
    requires Layout(src.doc, pos, Tokens(j, printer) + rest) && ClosesNumber(rest)
    ensures !ReadValue(src, pos, current).ok
  {
    hide Layout, DecodeBody, DecodeNumber, ReadToken, SkipSpaces, ReadMembers, ReadElements;
    var t := ReadToken(src.doc, pos);
    var text := NumberText(j, printer);
    if j.JInt? {
      IntTextIsNumberText(j.n);
    }
    ReadNumber(src.doc, pos, text, rest);
    TextAt(src.doc, t, text);
    NumeralMeans(text, src.scan);
    assert ReadValueToken(src, pos) == t;
  }

  lemma {:induction false} RefusedArrayFails(
      src: Source, pos: nat, current: Value, es: seq<Json>, rest: seq<string>, printer: RealPrinter)
    requires pos <= |src.doc| && Writable(JArr(es), printer) && !Printable(JArr(es), printer, src.scan)
    requires Layout(src.doc, pos, Tokens(JArr(es), printer) + rest)
    ensures !ReadValue(src, pos, current).ok
    decreases es, 4
  {
    hide Layout, ReadToken, ReadElements, ReadNonComment, SkipSpaces, DecodeBody, DecodeNumber;
    var inner := ElementTokens(es, printer) + (["]"] + rest);
    Bracketed("[", ElementTokens(es, printer), "]", rest);
    ReadPunctuation(src.doc, pos, '[', inner);
    var start := ReadToken(src.doc, pos).end;
    ElementsStart(src.doc, start, es, ["]"] + rest, printer);
    RefusedElementsFail(src, SkipSpaces(src.doc, start), 0, [], es, rest, printer);
  }

  lemma {:induction false} RefusedElementsFail(
      src: Source, pos: nat, index: nat, m: ObjectValues, es: seq<Json>, rest: seq<string>, printer: RealPrinter)
    requires pos <= |src.doc| && Writable(JArr(es), printer) && !Printable(JArr(es), printer, src.scan)
    requires Layout(src.doc, pos, ElementTokens(es, printer) + (["]"] + rest))
    ensures !ReadElements(src, pos, index, m).ok
    decreases es, 2
  {
    hide Layout, ReadToken, ReadValue, Tokens, ElementTokens, Comma, ClosesNumber, Printable, Writable,
         Store, Find, ReadNonComment, Recover, SkipSpaces;
    RefusedElement(es, printer, src.scan);
    FirstElementTokens(es, rest, printer);
    var more := ElementTokens(es[1..], printer) + (["]"] + rest);
    var next := Comma(|es|) + more;
    var current := FindOrNull(m, Index(index));
    if !Printable(es[0], printer, src.scan) {
      RefusedValueFails(src, pos, current, es[0], next, printer);
    } else {
      ReadValueOnLayout(src, pos, current, es[0], next, printer);
      var r := ReadValue(src, pos, current);
      var m' := Store(m, Index(index), r.value);
      ReadPunctuation(src.doc, r.pos, ',', more);
      RefusedElementsFail(src, ReadToken(src.doc, r.pos).end, index + 1, m', es[1..], rest, printer);
    }
  }

  lemma RefusedElement(es: seq<Json>, printer: RealPrinter, scan: RealScanner)
    requires Writable(JArr(es), printer) && !Printable(JArr(es), printer, scan)
    ensures es != [] && Writable(es[0], printer) && Writable(JArr(es[1..]), printer)
    ensures Printable(es[0], printer, scan) ==> |es| > 1 && !Printable(JArr(es[1..]), printer, scan)
  {
    var i :| 0 <= i < |es| && !Printable(es[i], printer, scan);
    if i > 0 {
      assert es[1..][i - 1] == es[i];
    }
  }

  lemma {:induction false} RefusedObjectFails(
      src: Source, pos: nat, current: Value, ms: seq<Member>, rest: seq<string>, printer: RealPrinter)
    requires pos <= |src.doc| && Writable(JObj(ms), printer) && !Printable(JObj(ms), printer, src.scan)
    requires Layout(src.doc, pos, Tokens(JObj(ms), printer) + rest)
    ensures !ReadValue(src, pos, current).ok
    decreases ms, 5
  {
    hide Layout, ReadToken, MemberTokens, AfterName, ReadMembers, ReadMember, ReadNonComment, Recover, SkipSpaces;
    var inner := MembersTokens(ms, printer) + (["}"] + rest);
    Bracketed("{", MembersTokens(ms, printer), "}", rest);
    ReadPunctuation(src.doc, pos, '{', inner);
    RefusedMembersFail(src, ReadToken(src.doc, pos).end, "", [], ms, rest, printer);
  }

  lemma {:induction false} RefusedMembersFail(
      src: Source, pos: nat, name: string, m: ObjectValues, ms: seq<Member>, rest: seq<string>, printer: RealPrinter)
    requires pos <= |src.doc|
    requires forall i :: 0 <= i < |ms| ==> WritableMember(ms[i], printer)
    requires exists i :: 0 <= i < |ms| && !PrintableMember(ms[i], printer, src.scan)
    requires Layout(src.doc, pos, MembersTokens(ms, printer) + (["}"] + rest))
    ensures !ReadMembers(src, pos, name, m).ok
    decreases ms, 4
  {
    hide Layout, ReadMember, PrintableMember, MemberTokens, MembersTokens, Comma, ClosesNumber,
         ReadToken, ReadNonComment, Recover, SkipSpaces, FailAndRecover;
    FirstMemberTokens(ms, rest, printer);
    var more := MembersTokens(ms[1..], printer) + (["}"] + rest);
    var next := Comma(|ms|) + more;
    var r := MemberTurn(src, pos, name, m, ms[0], next, printer);
    var m' := Store(m, Name(ms[0].name), r.value);
    if PrintableMember(ms[0], printer, src.scan) {
      var i :| 0 <= i < |ms| && !PrintableMember(ms[i], printer, src.scan);
      assert ms[1..][i - 1] == ms[i];
      ReadPunctuation(src.doc, r.pos, ',', more);
      RefusedMembersFail(src, ReadToken(src.doc, r.pos).end, ms[0].name, m', ms[1..], rest, printer);
    }
  }

  // One turn of the object loop on a laid-out member, whatever was stored before: first
  // its name, ...
  lemma {:induction false} MemberTurn(
      src: Source, pos: nat, name: string, m: ObjectValues, member: Member, next: seq<string>, printer: RealPrinter)
    returns (r: Outcome)
    requires pos <= |src.doc| && WritableMember(member, printer)
    requires Layout(src.doc, pos, MemberTokens(member, printer) + next) && ClosesNumber(next)
    ensures r.pos <= |src.doc| && (r.ok <==> r.errors == [])
    ensures ReadMember(src, pos, name, m) == AfterMember(src, r, member.name, Store(m, Name(member.name), r.value))
    ensures r.ok <==> PrintableMember(member, printer, src.scan)
    ensures r.ok ==> Holds(r.value, member.value, printer, src.scan) && Layout(src.doc, r.pos, next)
    decreases member, 1
  {
    hide Layout, Holds, DecodeBody, Quoted, AfterMember, AfterName, Reads, ReadToken, Tokens, ReadNonComment, Recover,
         Store;
    var afterName := [":"] + (Tokens(member.value, printer) + next);
    assert MemberTokens(member, printer) + next == [Quoted(member.name)] + afterName;
    ReadQuoted(src.doc, pos, member.name, afterName);
    ReadsGives(src.doc, pos, Quoted(member.name), StringToken, afterName);
    r := NamedTurn(src, ReadToken(src.doc, pos).end, m, member, next, printer);
  }

  // ... then the colon and its value, which is read exactly when its numbers are accepted.
  lemma {:induction false} NamedTurn(
      src: Source, pos: nat, m: ObjectValues, member: Member, next: seq<string>, printer: RealPrinter)
    returns (r: Outcome)
    requires pos <= |src.doc| && WritableMember(member, printer)
    requires Layout(src.doc, pos, [":"] + (Tokens(member.value, printer) + next)) && ClosesNumber(next)
    ensures r.pos <= |src.doc| && (r.ok <==> r.errors == [])
    ensures AfterName(src, pos, member.name, m) ==
      AfterMember(src, r, member.name, Store(m, Name(member.name), r.value))
    ensures r.ok <==> PrintableMember(member, printer, src.scan)
    ensures r.ok ==> Holds(r.value, member.value, printer, src.scan) && Layout(src.doc, r.pos, next)
    decreases member, 0
  {
    hide Layout, Holds, AfterMember, ReadToken, ReadValue, Tokens, ReadNonComment, Recover, Printable, Writable, Store;
    ReadPunctuation(src.doc, pos, ':', Tokens(member.value, printer) + next);
    var colon := ReadToken(src.doc, pos);
    var key := Name(member.name);
    r := ReadValue(src, colon.end, FindOrNull(m, key));
    if Printable(member.value, printer, src.scan) {
      ReadValueOnLayout(src, colon.end, FindOrNull(m, key), member.value, next, printer);
    } else {
      RefusedValueFails(src, colon.end, FindOrNull(m, key), member.value, next, printer);
    }
  }

  // ---------------------------------------------------------------- whole documents

  // A document that lays out the tokens of a tree is read to its end, whatever the value
  // parsed into held before; a strict reader goes on to refuse any root but a container or
  // null.
  lemma ParseOfLayout(src: Source, root: Value, j: Json, printer: RealPrinter)
    requires LaysOut(src.doc, Tokens(j, printer)) && Printable(j, printer, src.scan)
    ensures var r := Parse(src, root);
      && Holds(r.value, j, printer, src.scan) && r.pos == |src.doc|
      && (if src.strictRoot && !j.JNull? && !j.JArr? && !j.JObj?
          then !r.ok && |r.errors| == 1 && r.errors[0].message == RootNotContainer
          else r.ok && r.errors == [])
  {
    hide Tokens, Printable, ReadValue;
    var toks := Tokens(j, printer);
    assert toks + [] == toks;
    ReadValueOnLayout(src, 0, root, j, [], printer);
    assert ReadToken(src.doc, ReadValue(src, 0, root).pos).kind == EndOfStream;
  }

  // What stands behind a value and its comments is not looked at.
  lemma TrailingTextIsIgnored(src: Source, root: Value, j: Json, rest: seq<string>, printer: RealPrinter)
    requires LaysOut(src.doc, Tokens(j, printer) + rest) && ClosesNumber(rest)
    requires Printable(j, printer, src.scan) && !src.strictRoot
    ensures Parse(src, root).ok && Holds(Parse(src, root).value, j, printer, src.scan)
  {
    hide Tokens, Printable, ReadValue;
    ReadValueOnLayout(src, 0, root, j, rest, printer);
  }

  lemma ParseOfRefused(src: Source, root: Value, j: Json, printer: RealPrinter)
    requires LaysOut(src.doc, Tokens(j, printer)) && Writable(j, printer) && !Printable(j, printer, src.scan)
    ensures !Parse(src, root).ok
  {
    hide Tokens, Printable, Writable, ReadValue;
    var toks := Tokens(j, printer);
    assert toks + [] == toks;
    RefusedValueFails(src, 0, root, j, [], printer);
  }

  // Every integer is within the limit of its sign, and every real is printed as a numeral
  // that spells no such integer and that the foreign scanner takes for just that real.
  predicate Faithful(j: Json, printer: RealPrinter, scan: RealScanner)
    decreases j, 1
  {
    match j
    case JInt(n) => -Limit(true) <= n <= Limit(false)
    case JReal(r) => IsNumberText(printer(r)) && !SpellsInteger(printer(r)) && scan(printer(r)) == Some(r)
    case JArr(es) => forall i :: 0 <= i < |es| ==> Faithful(es[i], printer, scan)
    case JObj(ms) => forall i :: 0 <= i < |ms| ==> FaithfulMember(ms[i], printer, scan)
    case _ => true
  }

  predicate FaithfulMember(m: Member, printer: RealPrinter, scan: RealScanner)
    decreases m, 0
  {
    Faithful(m.value, printer, scan)
  }

  // The members of every object are listed in the order of their names, each once.
  ghost predicate Ascending(j: Json)
    decreases j, 1
  {
    match j
    case JArr(es) => forall i :: 0 <= i < |es| ==> Ascending(es[i])
    case JObj(ms) => AscendingNames(ms) && forall i :: 0 <= i < |ms| ==> AscendingMember(ms[i])
    case _ => true
  }

  ghost predicate AscendingMember(m: Member)
    decreases m, 0
  {
    Ascending(m.value)
  }

  ghost predicate AscendingNames(ms: seq<Member>) {
    forall i, j :: 0 <= i < j < |ms| ==> StringOrder.Precedes(ms[i].name, ms[j].name)
  }

  predicate HasKey(m: ObjectValues, k: CZString) {
    exists i :: 0 <= i < |m| && m[i].key == k
  }

  // Sorted entries under the names of ascending members stand in the same order.
  lemma {:induction false} SameNames(m: ObjectValues, ms: seq<Member>)
    requires Sorted(m) && AscendingNames(ms)
    requires forall i :: 0 <= i < |m| ==> IsNamed(ms, m[i].key)
    requires forall i :: 0 <= i < |ms| ==> HasKey(m, Name(ms[i].name))
    ensures |m| == |ms| && forall i :: 0 <= i < |m| ==> m[i].key == Name(ms[i].name)
    decreases ms
  {
    hide StringOrder.Precedes, StringOrder.Less;
    if ms != [] {
      FirstNames(m, ms);
      assert AscendingNames(ms[1..]) && Sorted(m[1..]);
      forall i | 0 <= i < |m[1..]| ensures IsNamed(ms[1..], m[1..][i].key) {
        var k :| 0 <= k < |ms| && ms[k].name == m[i + 1].key.cstr;
        StringOrder.Trichotomy(m[0].key.cstr, m[i + 1].key.cstr);
        assert KeyLess(m[0].key, m[i + 1].key) && ms[1..][k - 1] == ms[k];
      }
      forall i | 0 <= i < |ms[1..]| ensures HasKey(m[1..], Name(ms[1..][i].name)) {
        assert HasKey(m, Name(ms[i + 1].name));
        var k :| 0 <= k < |m| && m[k].key == Name(ms[i + 1].name);
        StringOrder.LessMeans(ms[0].name, ms[i + 1].name);
        StringOrder.Trichotomy(ms[0].name, ms[i + 1].name);
        assert m[1..][k - 1] == m[k];
      }
      SameNames(m[1..], ms[1..]);
    } else {
      NoneNamed(m);
    }
  }

  lemma NoneNamed(m: ObjectValues)
    ensures m != [] ==> !IsNamed([], m[0].key)
  {
  }

  lemma FirstNames(m: ObjectValues, ms: seq<Member>)
    requires Sorted(m) && AscendingNames(ms) && ms != []
    requires forall i :: 0 <= i < |m| ==> IsNamed(ms, m[i].key)
    requires forall i :: 0 <= i < |ms| ==> HasKey(m, Name(ms[i].name))
    ensures m != [] && m[0].key == Name(ms[0].name)
  {
    hide StringOrder.Precedes, StringOrder.Less;
    assert HasKey(m, Name(ms[0].name));
    var k :| 0 <= k < |m| && m[k].key == Name(ms[0].name);
    assert IsNamed(ms, m[0].key);
    var i :| 0 <= i < |ms| && ms[i].name == m[0].key.cstr;
    if k > 0 && i > 0 {
      assert KeyLess(m[0].key, m[k].key);
      StringOrder.LessMeans(ms[0].name, ms[i].name);
      StringOrder.Trichotomy(ms[0].name, ms[i].name);
      assert false;
    } else if k > 0 {
      assert KeyLess(m[0].key, m[k].key);
      StringOrder.Trichotomy(ms[0].name, ms[0].name);
      assert false;
    }
  }

  // A value holding a tree whose members ascend has that very tree for its view exactly
  // when the numbers of the tree are faithful.
  lemma {:induction false} HeldViewIsFaithful(v: Value, j: Json, printer: RealPrinter, scan: RealScanner)
    requires Holds(v, j, printer, scan) && Ascending(j) && RealsShaped(j, printer)
    ensures View(v) == j <==> Faithful(j, printer, scan)
    decreases j, 1
  {
    match j {
      case JArr(es) => HeldElements(v.entries, es, printer, scan);
      case JObj(ms) => HeldMembers(v.entries, ms, printer, scan);
      case _ => HeldLeaf(v, j, printer, scan);
    }
  }

  lemma HeldLeaf(v: Value, j: Json, printer: RealPrinter, scan: RealScanner)
    requires IsLeaf(j) && Holds(v, j, printer, scan) && RealsShaped(j, printer)
    ensures View(v) == j <==> Faithful(j, printer, scan)
  {
    if j.JInt? {
      IntTextSpells(j.n);
    } else if j.JReal? {
      assert IsNumberText(printer(j.r));
    }
  }

  lemma {:induction false} HeldElements(m: ObjectValues, es: seq<Json>, printer: RealPrinter, scan: RealScanner)
    requires Holds(Arr(m), JArr(es), printer, scan) && Ascending(JArr(es)) && RealsShaped(JArr(es), printer)
    ensures View(Arr(m)) == JArr(es) <==> Faithful(JArr(es), printer, scan)
    decreases es, 0
  {
    var fs := View(Arr(m)).elems;
    forall i | 0 <= i < |es| ensures fs[i] == es[i] <==> Faithful(es[i], printer, scan) {
      SlotViewIsFind(m, i);
      HeldViewIsFaithful(FindOrNull(m, Index(i)), es[i], printer, scan);
    }
    assert fs == es <==> forall i :: 0 <= i < |es| ==> fs[i] == es[i];
  }

  lemma {:induction false} HeldMembers(m: ObjectValues, ms: seq<Member>, printer: RealPrinter, scan: RealScanner)
    requires Holds(Obj(m), JObj(ms), printer, scan) && Ascending(JObj(ms)) && RealsShaped(JObj(ms), printer)
    ensures View(Obj(m)) == JObj(ms) <==> Faithful(JObj(ms), printer, scan)
    decreases ms, 0
  {
    hide StringOrder.Precedes;
    forall i | 0 <= i < |ms|
      ensures HoldsMember(Find(m, Name(ms[i].name)), ms[i], printer, scan)
      ensures HasKey(m, Name(ms[i].name))
    {
      AscendingIsLast(ms, i);
      assert m[LowerBound(m, Name(ms[i].name))].key == Name(ms[i].name);
    }
    SameNames(m, ms);
    var ns := View(Obj(m)).members;
    forall i | 0 <= i < |ms| ensures ns[i] == ms[i] <==> FaithfulMember(ms[i], printer, scan) {
      FindIsLookup(m, Name(ms[i].name), i);
      assert ns[i] == Member(ms[i].name, EntryView(m[i])) && EntryView(m[i]) == View(m[i].value);
      HeldMember(m[i].value, ms[i], printer, scan);
    }
    assert ns == ms <==> forall i :: 0 <= i < |ms| ==> ns[i] == ms[i];
  }

  lemma {:induction false} HeldMember(v: Value, m: Member, printer: RealPrinter, scan: RealScanner)
    requires Holds(v, m.value, printer, scan) && AscendingMember(m) && MemberRealsShaped(m, printer)
    ensures View(v) == m.value <==> FaithfulMember(m, printer, scan)
    decreases m, 0
  {
    HeldViewIsFaithful(v, m.value, printer, scan);
  }

  lemma AscendingIsLast(ms: seq<Member>, i: nat)
    requires AscendingNames(ms) && i < |ms|
    ensures IsLast(ms, i)
  {
    hide StringOrder.Precedes;
    forall k | i < k < |ms| ensures ms[k].name != ms[i].name {
      StringOrder.LessMeans(ms[i].name, ms[k].name);
      StringOrder.Trichotomy(ms[i].name, ms[k].name);
    }
  }

  // Every integer is within the limit of its sign, and every real is printed as a numeral
  // that spells such an integer, or else the foreign scanner takes the numeral for a real.
  predicate NumbersAccepted(j: Json, printer: RealPrinter, scan: RealScanner)
    decreases j, 1
  {
    match j
    case JInt(n) => -Limit(true) <= n <= Limit(false) || scan(IntText(n)).Some?
    case JReal(r) => IsNumberText(printer(r)) && (SpellsInteger(printer(r)) || scan(printer(r)).Some?)
    case JArr(es) => forall i :: 0 <= i < |es| ==> NumbersAccepted(es[i], printer, scan)
    case JObj(ms) => forall i :: 0 <= i < |ms| ==> NumbersAcceptedInMember(ms[i], printer, scan)
    case _ => true
  }

  predicate NumbersAcceptedInMember(m: Member, printer: RealPrinter, scan: RealScanner)
    decreases m, 0
  {
    NumbersAccepted(m.value, printer, scan)
  }

  lemma {:induction false} FaithfulIsAccepted(j: Json, printer: RealPrinter, scan: RealScanner)
    requires Faithful(j, printer, scan)
    ensures NumbersAccepted(j, printer, scan)
    decreases j, 1
  {
    match j {
      case JArr(es) =>
        forall i | 0 <= i < |es| ensures NumbersAccepted(es[i], printer, scan) {
          FaithfulIsAccepted(es[i], printer, scan);
        }
      case JObj(ms) =>
        forall i | 0 <= i < |ms| ensures NumbersAcceptedInMember(ms[i], printer, scan) {
          FaithfulMemberIsAccepted(ms[i], printer, scan);
        }
      case _ =>
    }
  }

  lemma {:induction false} FaithfulMemberIsAccepted(m: Member, printer: RealPrinter, scan: RealScanner)
    requires FaithfulMember(m, printer, scan)
    ensures NumbersAcceptedInMember(m, printer, scan)
    decreases m, 0
  {
    FaithfulIsAccepted(m.value, printer, scan);
  }

  // The invariant of `Value` supplies the rest: sorted NUL-free names, NUL-free strings.
  lemma {:induction false} ValidIsWritable(v: Value, printer: RealPrinter)
    requires Valid(v) && RealsShaped(View(v), printer)
    ensures Writable(View(v), printer)
    decreases v, 1
  {
    if v.Arr? {
      var es := View(v).elems;
      forall i | 0 <= i < |es| ensures Writable(es[i], printer) {
        assert RealsShaped(es[i], printer) && es[i] == SlotView(v.entries, i);
        var p := LowerBound(v.entries, Index(i));
        if p < |v.entries| && v.entries[p].key == Index(i) {
          assert es[i] == EntryView(v.entries[p]) && ValidEntry(v.entries[p]);
          EntryIsWritable(v.entries[p], printer);
        } else {
          assert es[i] == JNull;
        }
      }
    } else if v.Obj? {
      var ms := View(v).members;
      forall i | 0 <= i < |ms| ensures WritableMember(ms[i], printer) {
        assert MemberRealsShaped(ms[i], printer) && ms[i].value == EntryView(v.entries[i]) && ValidEntry(v.entries[i]);
        EntryIsWritable(v.entries[i], printer);
      }
    }
  }

  lemma {:induction false} EntryIsWritable(e: Entry, printer: RealPrinter)
    requires Valid(e.value) && RealsShaped(EntryView(e), printer)
    ensures Writable(EntryView(e), printer)
    decreases e, 0
  {
    ValidIsWritable(e.value, printer);
  }

  // Printable is what is writable and has its numbers accepted.
  lemma {:induction false} WritableAndAccepted(j: Json, printer: RealPrinter, scan: RealScanner)
    ensures Printable(j, printer, scan) <==> Writable(j, printer) && NumbersAccepted(j, printer, scan)
    decreases j, 1
  {
    match j {
      case JInt(n) => IntTextSpells(n);
      case JArr(es) =>
        forall i | 0 <= i < |es|
          ensures Printable(es[i], printer, scan) <==> Writable(es[i], printer) && NumbersAccepted(es[i], printer, scan)
        {
          WritableAndAccepted(es[i], printer, scan);
        }
      case JObj(ms) =>
        forall i | 0 <= i < |ms|
          ensures PrintableMember(ms[i], printer, scan) <==>
            WritableMember(ms[i], printer) && NumbersAcceptedInMember(ms[i], printer, scan)
        {
          MemberWritableAndAccepted(ms[i], printer, scan);
        }
      case _ =>
    }
  }

  lemma {:induction false} MemberWritableAndAccepted(m: Member, printer: RealPrinter, scan: RealScanner)
    ensures PrintableMember(m, printer, scan) <==>
      WritableMember(m, printer) && NumbersAcceptedInMember(m, printer, scan)
    decreases m, 0
  {
    WritableAndAccepted(m.value, printer, scan);
  }

  // The two documents a tree is written to.
  function CompactDocument(v: Value, yaml: bool, printer: RealPrinter): string {
    Compact(Tokens(View(v), printer), yaml) + "\n"
  }

  function StyledDocument(v: Value, printer: RealPrinter): string {
    Styled("", "", View(v), printer) + "\n"
  }

  lemma DocumentsLayOut(v: Value, yaml: bool, printer: RealPrinter)
    requires RealsShaped(View(v), printer)
    ensures LaysOut(CompactDocument(v, yaml, printer), Tokens(View(v), printer))
    ensures LaysOut(StyledDocument(v, printer), Tokens(View(v), printer))
  {
    hide LaysOut, Styled, Tokens, Compact;
    var toks := Tokens(View(v), printer);
    TokensAreTokens(View(v), printer);
    CompactLaysOut(toks, yaml);
    AppendSpaces(Compact(toks, yaml), toks, "\n");
    SpacesLayOutNothing("");
    StyledLaysOut("", [], "", View(v), printer);
    assert [] + toks == toks;
    AppendSpaces(Styled("", "", View(v), printer), toks, "\n");
  }

  // The members of a valid tree are listed in order.
  lemma {:induction false} ValidIsAscending(v: Value)
    requires Valid(v)
    ensures Ascending(View(v))
    decreases v, 1
  {
    hide StringOrder.Precedes;
    if v.Arr? {
      var es := View(v).elems;
      forall i | 0 <= i < |es| ensures Ascending(es[i]) {
        assert es[i] == SlotView(v.entries, i);
        var p := LowerBound(v.entries, Index(i));
        if p < |v.entries| && v.entries[p].key == Index(i) {
          assert es[i] == EntryView(v.entries[p]) && ValidEntry(v.entries[p]);
          EntryIsAscending(v.entries[p]);
        } else {
          assert es[i] == JNull;
        }
      }
    } else if v.Obj? {
      var ms := View(v).members;
      forall i, j | 0 <= i < j < |ms| ensures StringOrder.Precedes(ms[i].name, ms[j].name) {
        MembersAscend(v.entries, i, j);
      }
      forall i | 0 <= i < |ms| ensures AscendingMember(ms[i]) {
        assert ms[i].value == EntryView(v.entries[i]) && ValidEntry(v.entries[i]);
        EntryIsAscending(v.entries[i]);
      }
    }
  }

  lemma {:induction false} EntryIsAscending(e: Entry)
    requires Valid(e.value)
    ensures Ascending(EntryView(e))
    decreases e, 0
  {
    ValidIsAscending(e.value);
  }

  // The round trip of both writers: what they write for a valid tree, its reals printed as
  // numerals, is read to its very end, and without an error if and only if the reader
  // accepts every numeral, and the kind of the root if it is strict; the view is then that
  // of the tree if and only if the numbers of the tree are faithful.
  lemma RoundTrip(v: Value, root: Value, src: Source, yaml: bool, printer: RealPrinter)
    requires Valid(v) && RealsShaped(View(v), printer)
    requires src.doc == CompactDocument(v, yaml, printer) || src.doc == StyledDocument(v, printer)
    ensures var r := Parse(src, root);
      && (r.ok <==> NumbersAccepted(View(v), printer, src.scan) && (src.strictRoot ==> CountsAsContainer(v)))
      && (r.ok ==> r.errors == [] && r.pos == |src.doc|)
      && (r.ok && View(r.value) == View(v) <==>
            Faithful(View(v), printer, src.scan) && (src.strictRoot ==> CountsAsContainer(v)))
  {
    hide LaysOut, Parse, Tokens, Holds, Valid, Ascending, RealsShaped;
    ValidIsWritable(v, printer);
    ValidIsAscending(v);
    DocumentsLayOut(v, yaml, printer);
    WritableAndAccepted(View(v), printer, src.scan);
    if NumbersAccepted(View(v), printer, src.scan) {
      ParseOfLayout(src, root, View(v), printer);
      HeldViewIsFaithful(Parse(src, root).value, View(v), printer, src.scan);
    } else {
      ParseOfRefused(src, root, View(v), printer);
      if Faithful(View(v), printer, src.scan) {
        FaithfulIsAccepted(View(v), printer, src.scan);
        assert false;
      }
    }
  }

  predicate RealFree(j: Json)
    decreases j, 1
  {
    match j
    case JReal(_) => false
    case JInt(n) => -Limit(true) <= n <= Limit(false)
    case JArr(es) => forall i :: 0 <= i < |es| ==> RealFree(es[i])
    case JObj(ms) => forall i :: 0 <= i < |ms| ==> RealFreeMember(ms[i])
    case _ => true
  }

  predicate RealFreeMember(m: Member)
    decreases m, 0
  {
    RealFree(m.value)
  }

  lemma {:induction false} RealFreeIsFaithful(j: Json, printer: RealPrinter, scan: RealScanner)
    requires RealFree(j)
    ensures Faithful(j, printer, scan)
    decreases j, 1
  {
    match j {
      case JArr(es) =>
        forall i | 0 <= i < |es| ensures Faithful(es[i], printer, scan) {
          RealFreeIsFaithful(es[i], printer, scan);
        }
      case JObj(ms) =>
        forall i | 0 <= i < |ms| ensures FaithfulMember(ms[i], printer, scan) {
          RealFreeMemberIsFaithful(ms[i], printer, scan);
        }
      case _ =>
    }
  }

  lemma {:induction false} RealFreeMemberIsFaithful(m: Member, printer: RealPrinter, scan: RealScanner)
    requires RealFreeMember(m)
    ensures FaithfulMember(m, printer, scan)
    decreases m, 0
  {
    RealFreeIsFaithful(m.value, printer, scan);
  }

  // Without reals nothing foreign is involved: with integers in range, both documents
  // read back to the view that was written, and so to one another's.
  lemma RealFreeRoundTrip(v: Value, root: Value, compact: Source, styled: Source, yaml: bool, printer: RealPrinter)
    requires Valid(v) && RealFree(View(v))
    requires compact.doc == CompactDocument(v, yaml, printer) && styled.doc == StyledDocument(v, printer)
    requires compact.strictRoot || styled.strictRoot ==> CountsAsContainer(v)
    ensures Parse(compact, root).ok && Parse(styled, root).ok
    ensures View(Parse(compact, root).value) == View(v) == View(Parse(styled, root).value)
  {
    RealFreeIsFaithful(View(v), printer, compact.scan);
    RealFreeIsFaithful(View(v), printer, styled.scan);
    FaithfulIsShaped(View(v), printer, compact.scan);
    RoundTrip(v, root, compact, yaml, printer);
    RoundTrip(v, root, styled, yaml, printer);
  }

  lemma {:induction false} FaithfulIsShaped(j: Json, printer: RealPrinter, scan: RealScanner)
    requires Faithful(j, printer, scan)
    ensures RealsShaped(j, printer)
    decreases j, 1
  {
    match j {
      case JArr(es) =>
        forall i | 0 <= i < |es| ensures RealsShaped(es[i], printer) {
          FaithfulIsShaped(es[i], printer, scan);
        }
      case JObj(ms) =>
        forall i | 0 <= i < |ms| ensures MemberRealsShaped(ms[i], printer) {
          FaithfulMemberIsShaped(ms[i], printer, scan);
        }
      case _ =>
    }
  }

  lemma {:induction false} FaithfulMemberIsShaped(m: Member, printer: RealPrinter, scan: RealScanner)
    requires FaithfulMember(m, printer, scan)
    ensures MemberRealsShaped(m, printer)
    decreases m, 0
  {
    FaithfulIsShaped(m.value, printer, scan);
  }
}
