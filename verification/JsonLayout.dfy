/** A text lays out a sequence of tokens when it consists of them, in order, with nothing
    but white space between and around them. Both printers lay out the tokens of the tree. */
module JsonLayout {
  import opened JsonValue
  import opened JsonNumber
  import opened JsonString
  import opened JsonLexer
  import opened JsonPrinter

  predicate Layout(doc: string, pos: nat, toks: seq<string>)
    requires pos <= |doc|
    decreases toks
  {
    var p := SkipSpaces(doc, pos);
    if toks == [] then p == |doc|
    else At(doc, p, toks[0]) && Layout(doc, p + |toks[0]|, toks[1..])
  }

  predicate LaysOut(text: string, toks: seq<string>) {
    Layout(text, 0, toks)
  }

  predicate IsToken(t: string) {
    t != "" && !IsSpace(t[0])
  }

  predicate AllTokens(toks: seq<string>) {
    forall i :: 0 <= i < |toks| ==> IsToken(toks[i])
  }

  predicate AllSpaces(s: string) {
    forall i :: 0 <= i < |s| ==> IsSpace(s[i])
  }

  // ---------------------------------------------------------------- concatenation

  lemma {:induction false} SkipSpacesPrefix(a: string, b: string, pos: nat)
    requires pos <= |a|
    ensures SkipSpaces(a + b, pos) ==
      (if SkipSpaces(a, pos) < |a| then SkipSpaces(a, pos) else SkipSpaces(a + b, |a|))
    decreases |a| - pos
  {
    if pos < |a| && IsSpace(a[pos]) {
      SkipSpacesPrefix(a, b, pos + 1);
    }
  }

  lemma {:induction false} SkipSpacesShift(a: string, b: string, pos: nat)
    requires pos <= |b|
    ensures SkipSpaces(a + b, |a| + pos) == |a| + SkipSpaces(b, pos)
    decreases |b| - pos
  {
    if pos < |b| && IsSpace(b[pos]) {
      SkipSpacesShift(a, b, pos + 1);
    }
  }

  lemma {:induction false} LayoutShift(a: string, b: string, pos: nat, toks: seq<string>)
    requires pos <= |b| && Layout(b, pos, toks)
    ensures Layout(a + b, |a| + pos, toks)
    decreases toks
  {
    SkipSpacesShift(a, b, pos);
    if toks != [] {
      var p := SkipSpaces(b, pos);
      LayoutShift(a, b, p + |toks[0]|, toks[1..]);
    }
  }

  // Only the white space at pos is skipped: starting after it makes no difference.
  lemma LayoutAfterSpaces(doc: string, pos: nat, p: nat, toks: seq<string>)
    requires pos <= |doc| && p <= |doc| && SkipSpaces(doc, pos) == SkipSpaces(doc, p)
    ensures Layout(doc, pos, toks) == Layout(doc, p, toks)
  {
  }

  lemma {:induction false} LayoutConcat(a: string, b: string, pos: nat, s: seq<string>, t: seq<string>)
    requires pos <= |a| && Layout(a, pos, s) && LaysOut(b, t) && AllTokens(s)
    ensures Layout(a + b, pos, s + t)
    decreases s
  {
    SkipSpacesPrefix(a, b, pos);
    if s == [] {
      LayoutShift(a, b, 0, t);
      assert s + t == t;
      LayoutAfterSpaces(a + b, pos, |a|, t);
    } else {
      var p := SkipSpaces(a, pos);
      assert IsToken(s[0]);
      LayoutConcat(a, b, p + |s[0]|, s[1..], t);
      assert (s + t)[0] == s[0] && (s + t)[1..] == s[1..] + t;
    }
  }

  lemma LaysOutConcat(a: string, b: string, s: seq<string>, t: seq<string>)
    requires LaysOut(a, s) && LaysOut(b, t) && AllTokens(s) && AllTokens(t)
    ensures LaysOut(a + b, s + t) && AllTokens(s + t)
  {
    LayoutConcat(a, b, 0, s, t);
  }

  lemma SpacesLayOutNothing(s: string)
    requires AllSpaces(s)
    ensures LaysOut(s, [])
  {
    SkipAllSpaces(s, 0);
  }

  lemma {:induction false} SkipAllSpaces(s: string, pos: nat)
    requires pos <= |s| && AllSpaces(s)
    ensures SkipSpaces(s, pos) == |s|
    decreases |s| - pos
  {
    if pos < |s| {
      SkipAllSpaces(s, pos + 1);
    }
  }

  lemma TokenLaysOutItself(t: string)
    requires IsToken(t)
    ensures LaysOut(t, [t])
  {
    assert SkipSpaces(t, 0) == 0;
    assert Layout(t, |t|, []);
    assert [t][1..] == [];
  }

  lemma AppendToken(text: string, toks: seq<string>, t: string)
    requires LaysOut(text, toks) && AllTokens(toks) && IsToken(t)
    ensures LaysOut(text + t, toks + [t]) && AllTokens(toks + [t])
  {
    TokenLaysOutItself(t);
    LayoutConcat(text, t, 0, toks, [t]);
  }

  lemma AppendSpaces(text: string, toks: seq<string>, s: string)
    requires LaysOut(text, toks) && AllTokens(toks) && AllSpaces(s)
    ensures LaysOut(text + s, toks)
  {
    SpacesLayOutNothing(s);
    LayoutConcat(text, s, 0, toks, []);
    assert toks + [] == toks;
  }

  // ---------------------------------------------------------------- tokens of a tree

  // The real printer gives number-shaped text for the reals of the tree.
  predicate RealsShaped(j: Json, printer: RealPrinter)
    decreases j, 1
  {
    match j
    case JReal(r) => IsNumberText(printer(r))
    case JArr(es) => forall i :: 0 <= i < |es| ==> RealsShaped(es[i], printer)
    case JObj(ms) => forall i :: 0 <= i < |ms| ==> MemberRealsShaped(ms[i], printer)
    case _ => true
  }

  predicate MemberRealsShaped(m: Member, printer: RealPrinter)
    decreases m, 0
  {
    RealsShaped(m.value, printer)
  }

  lemma IntTextIsNumberText(n: int)
    ensures IsNumberText(IntText(n))
  {
  }

  lemma LeafTextIsToken(j: Json, printer: RealPrinter)
    requires RealsShaped(j, printer)
    ensures IsToken(LeafText(j, printer))
  {
    if j.JInt? {
      IntTextIsNumberText(j.n);
    }
  }

  // ---------------------------------------------------------------- compact text

  lemma {:induction false} CompactLaysOut(toks: seq<string>, yaml: bool)
    requires AllTokens(toks)
    ensures LaysOut(Compact(toks, yaml), toks)
  {
    if toks == [] {
      SpacesLayOutNothing("");
    } else {
      CompactLaysOut(toks[1..], yaml);
      var first := if yaml && toks[0] == ":" then ": " else toks[0];
      TokenLaysOutItself(toks[0]);
      if yaml && toks[0] == ":" {
        AppendSpaces(":", [":"], " ");
        assert ":" + " " == first;
      }
      LayoutConcat(first, Compact(toks[1..], yaml), 0, [toks[0]], toks[1..]);
      assert toks == [toks[0]] + toks[1..];
    }
  }

  // ---------------------------------------------------------------- indented text

  lemma NewLineLaysOut(text: string, toks: seq<string>, indent: string)
    requires LaysOut(text, toks) && AllTokens(toks) && AllSpaces(indent)
    ensures LaysOut(NewLine(text, indent), toks)
  {
    if text == "" {
      AppendSpaces(text, toks, indent);
      assert text + indent == indent;
    } else {
      AppendSpaces(text, toks, indent);
      AppendSpaces(text, toks, "\n" + indent);
      assert text + ("\n" + indent) == text + "\n" + indent;
    }
  }

  // The single-line form of a childless value is its text.
  lemma ChildlessTokens(j: Json, printer: RealPrinter)
    requires RealsShaped(j, printer) && !HasChildren(j)
    ensures LaysOut(LeafText(j, printer), Tokens(j, printer)) && AllTokens(Tokens(j, printer))
  {
    if IsLeaf(j) {
      LeafTextIsToken(j, printer);
      TokenLaysOutItself(LeafText(j, printer));
    } else {
      var open, close := if j.JArr? then "[" else "{", if j.JArr? then "]" else "}";
      assert Tokens(j, printer) == [open] + [close];
      TokenLaysOutItself(open);
      AppendToken(open, [open], close);
      assert LeafText(j, printer) == open + close;
    }
  }

  lemma {:induction false} ElementTokensSnoc(es: seq<Json>, e: Json, printer: RealPrinter)
    ensures ElementTokens(es + [e], printer) ==
      ElementTokens(es, printer) + (if es == [] then [] else [","]) + Tokens(e, printer)
  {
    hide Tokens;
    var all := es + [e];
    if es == [] {
      assert all[1..] == [];
      assert ElementTokens(all, printer) == Tokens(e, printer) + [] + [];
    } else {
      assert all[0] == es[0] && all[1..] == es[1..] + [e];
      ElementTokensSnoc(es[1..], e, printer);
      if |es| == 1 {
        assert ElementTokens(es[1..], printer) == [];
      }
    }
  }

  lemma {:induction false} JoinTextsLaysOut(es: seq<Json>, printer: RealPrinter)
    requires forall i :: 0 <= i < |es| ==> RealsShaped(es[i], printer) && !HasChildren(es[i])
    ensures LaysOut(JoinTexts(es, printer), ElementTokens(es, printer)) && AllTokens(ElementTokens(es, printer))
  {
    hide LaysOut, Tokens, LeafText;
    if es == [] {
      SpacesLayOutNothing("");
    } else {
      var init, last := es[..|es| - 1], es[|es| - 1];
      assert es == init + [last];
      JoinTextsLaysOut(init, printer);
      ElementTokensSnoc(init, last, printer);
      ChildlessTokens(last, printer);
      var text, toks := JoinTexts(init, printer), ElementTokens(init, printer);
      if init == [] {
        assert ElementTokens(es, printer) == Tokens(last, printer);
      } else {
        AppendToken(text, toks, ",");
        AppendSpaces(text + ",", toks + [","], " ");
        assert text + "," + " " == text + ", ";
        LaysOutConcat(text + ", ", LeafText(last, printer), toks + [","], Tokens(last, printer));
      }
    }
  }

  // Writing a tree in the indented form appends its tokens to what was laid out before.
  lemma {:induction false} StyledLaysOut(text: string, toks: seq<string>, indent: string, j: Json, printer: RealPrinter)
    requires LaysOut(text, toks) && AllTokens(toks) && AllSpaces(indent) && RealsShaped(j, printer)
    ensures LaysOut(Styled(text, indent, j, printer), toks + Tokens(j, printer))
    ensures AllTokens(toks + Tokens(j, printer))
    decreases j, 1
  {
    hide LaysOut, AllTokens, StyledElements, StyledMembers, ElementTokens, MembersTokens, NewLine, FitsOnLine,
         JoinTexts;
    if !HasChildren(j) {
      ChildlessTokens(j, printer);
      LaysOutConcat(text, LeafText(j, printer), toks, Tokens(j, printer));
    } else if j.JArr? && FitsOnLine(j.elems, printer) {
      OneLineLaysOut(text, toks, j.elems, printer);
    } else {
      var open, close := if j.JArr? then "[" else "{", if j.JArr? then "]" else "}";
      NewLineLaysOut(text, toks, indent);
      AppendToken(NewLine(text, indent), toks, open);
      var start := NewLine(text, indent) + open;
      if j.JArr? {
        StyledElementsLaysOut(start, toks + [open], indent + INDENT, j.elems, printer);
        var inner := toks + [open] + ElementTokens(j.elems, printer);
        var body := StyledElements(start, indent + INDENT, j.elems, printer);
        NewLineLaysOut(body, inner, indent);
        AppendToken(NewLine(body, indent), inner, close);
        assert inner + [close] == toks + Tokens(j, printer);
      } else {
        StyledMembersLaysOut(start, toks + [open], indent + INDENT, j.members, printer);
        var inner := toks + [open] + MembersTokens(j.members, printer);
        var body := StyledMembers(start, indent + INDENT, j.members, printer);
        NewLineLaysOut(body, inner, indent);
        AppendToken(NewLine(body, indent), inner, close);
        assert inner + [close] == toks + Tokens(j, printer);
      }
    }
  }

  lemma OneLineLaysOut(text: string, toks: seq<string>, es: seq<Json>, printer: RealPrinter)
    requires LaysOut(text, toks) && AllTokens(toks)
    requires es != [] && FitsOnLine(es, printer) && RealsShaped(JArr(es), printer)
    ensures var all := toks + Tokens(JArr(es), printer);
      LaysOut(text + "[ " + JoinTexts(es, printer) + " ]", all) && AllTokens(all)
  {
    hide LaysOut, AllTokens, JoinTexts, ElementTokens;
    var body, inner := JoinTexts(es, printer), ElementTokens(es, printer);
    AppendToken(text, toks, "[");
    AppendSpaces(text + "[", toks + ["["], " ");
    assert text + "[" + " " == text + "[ ";
    JoinTextsLaysOut(es, printer);
    LaysOutConcat(text + "[ ", body, toks + ["["], inner);
    AppendSpaces(text + "[ " + body, toks + ["["] + inner, " ");
    AppendToken(text + "[ " + body + " ", toks + ["["] + inner, "]");
    assert text + "[ " + body + " " + "]" == text + "[ " + body + " ]";
    assert toks + ["["] + inner + ["]"] == toks + Tokens(JArr(es), printer);
  }

  lemma {:induction false} StyledElementsLaysOut(
      text: string, toks: seq<string>, indent: string, es: seq<Json>, printer: RealPrinter)
    requires LaysOut(text, toks) && AllTokens(toks) && AllSpaces(indent)
    requires forall i :: 0 <= i < |es| ==> RealsShaped(es[i], printer)
    ensures LaysOut(StyledElements(text, indent, es, printer), toks + ElementTokens(es, printer))
    ensures AllTokens(toks + ElementTokens(es, printer))
    decreases es, 0
  {
    hide LaysOut, AllTokens, AllSpaces, Styled, Tokens, NewLine;
    if es == [] {
      assert toks + ElementTokens(es, printer) == toks;
    } else {
      NewLineLaysOut(text, toks, indent);
      StyledLaysOut(NewLine(text, indent), toks, indent, es[0], printer);
      var first := Styled(NewLine(text, indent), indent, es[0], printer);
      var toks1 := toks + Tokens(es[0], printer);
      AppendComma(first, toks1, |es|);
      StyledElementsLaysOut(first + CommaText(|es|), toks1 + Comma(|es|), indent, es[1..], printer);
      assert toks1 + Comma(|es|) + ElementTokens(es[1..], printer) == toks + ElementTokens(es, printer);
    }
  }

  lemma AppendComma(text: string, toks: seq<string>, remaining: nat)
    requires LaysOut(text, toks) && AllTokens(toks)
    ensures LaysOut(text + CommaText(remaining), toks + Comma(remaining))
    ensures AllTokens(toks + Comma(remaining))
  {
    if remaining > 1 {
      AppendToken(text, toks, ",");
    } else {
      assert text + "" == text && toks + [] == toks;
    }
  }

  lemma {:induction false} StyledMembersLaysOut(
      text: string, toks: seq<string>, indent: string, ms: seq<Member>, printer: RealPrinter)
    requires LaysOut(text, toks) && AllTokens(toks) && AllSpaces(indent)
    requires forall i :: 0 <= i < |ms| ==> MemberRealsShaped(ms[i], printer)
    ensures LaysOut(StyledMembers(text, indent, ms, printer), toks + MembersTokens(ms, printer))
    ensures AllTokens(toks + MembersTokens(ms, printer))
    decreases ms, 0
  {
    hide LaysOut, AllTokens, AllSpaces, StyledMember, MemberTokens;
    if ms == [] {
      assert toks + MembersTokens(ms, printer) == toks;
    } else {
      StyledMemberLaysOut(text, toks, indent, ms[0], printer);
      var first := StyledMember(text, indent, ms[0], printer);
      var toks1 := toks + MemberTokens(ms[0], printer);
      AppendComma(first, toks1, |ms|);
      StyledMembersLaysOut(first + CommaText(|ms|), toks1 + Comma(|ms|), indent, ms[1..], printer);
      assert toks1 + Comma(|ms|) + MembersTokens(ms[1..], printer) == toks + MembersTokens(ms, printer);
    }
  }

  lemma {:induction false} StyledMemberLaysOut(
      text: string, toks: seq<string>, indent: string, m: Member, printer: RealPrinter)
    requires LaysOut(text, toks) && AllTokens(toks) && AllSpaces(indent) && MemberRealsShaped(m, printer)
    ensures LaysOut(StyledMember(text, indent, m, printer), toks + MemberTokens(m, printer))
    ensures AllTokens(toks + MemberTokens(m, printer))
    decreases m, 0
  {
    hide LaysOut, AllTokens, Styled, Tokens, NewLine;
    var start := NewLine(text, indent);
    NewLineLaysOut(text, toks, indent);
    AppendToken(start, toks, Quoted(m.name));
    AppendSpaces(start + Quoted(m.name), toks + [Quoted(m.name)], " ");
    AppendToken(start + Quoted(m.name) + " ", toks + [Quoted(m.name)], ":");
    var named := toks + [Quoted(m.name)] + [":"];
    AppendSpaces(start + Quoted(m.name) + " " + ":", named, " ");
    assert start + Quoted(m.name) + " " + ":" + " " == start + Quoted(m.name) + " : ";
    StyledLaysOut(start + Quoted(m.name) + " : ", named, indent, m.value, printer);
    assert named + Tokens(m.value, printer) == toks + MemberTokens(m, printer);
  }

  // The tokens of a tree never start with white space.
  lemma TokensAreTokens(j: Json, printer: RealPrinter)
    requires RealsShaped(j, printer)
    ensures AllTokens(Tokens(j, printer))
  {
    SpacesLayOutNothing("");
    StyledLaysOut("", [], "", j, printer);
    assert [] + Tokens(j, printer) == Tokens(j, printer);
  }

  // ---------------------------------------------------------------- how much white space

  function TotalLength(toks: seq<string>): nat {
    if toks == [] then 0 else |toks[0]| + TotalLength(toks[1..])
  }

  function Colons(toks: seq<string>): nat {
    if toks == [] then 0 else (if toks[0] == ":" then 1 else 0) + Colons(toks[1..])
  }

  lemma {:induction false} CompactLength(toks: seq<string>, yaml: bool)
    ensures |Compact(toks, yaml)| == TotalLength(toks) + if yaml then Colons(toks) else 0
  {
    if toks != [] {
      CompactLength(toks[1..], yaml);
    }
  }

  lemma {:induction false} LayoutIsLong(doc: string, pos: nat, toks: seq<string>)
    requires pos <= |doc| && Layout(doc, pos, toks)
    ensures TotalLength(toks) <= |doc| - pos
    decreases toks
  {
    if toks != [] {
      LayoutIsLong(doc, SkipSpaces(doc, pos) + |toks[0]|, toks[1..]);
    }
  }

  // The compact text wastes nothing: no layout of the same tokens is shorter. For YAML
  // readers it is longer by one space for every colon.
  lemma CompactIsShortest(toks: seq<string>, doc: string)
    requires LaysOut(doc, toks)
    ensures |Compact(toks, false)| <= |doc|
    ensures |Compact(toks, true)| == |Compact(toks, false)| + Colons(toks)
  {
    LayoutIsLong(doc, 0, toks);
    CompactLength(toks, false);
    CompactLength(toks, true);
  }
}
