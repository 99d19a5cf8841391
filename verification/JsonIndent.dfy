/** The indented text line by line: what stands on each line, how far it is indented, and
    that the indentation of every line of the finished document is that of its brackets. */
module JsonIndent {
  import opened JsonValue
  import opened JsonNumber
  import opened JsonString
  import opened JsonPrinter
  import opened JsonLayout

  // ---------------------------------------------------------------- the lines of a tree

  datatype Line = Line(depth: nat, text: string)

  function Spaces(n: nat): string {
    seq(n, _ => ' ')
  }

  function LineText(line: Line): string {
    Spaces(3 * line.depth) + line.text + "\n"
  }

  function Joined(lines: seq<Line>): string {
    if lines == [] then "" else LineText(lines[0]) + Joined(lines[1..])
  }

  // The texts of childless elements, separated by commas.
  function Listed(es: seq<Json>, printer: RealPrinter): string {
    if es == [] then ""
    else if |es| == 1 then LeafText(es[0], printer)
    else LeafText(es[0], printer) + ", " + Listed(es[1..], printer)
  }

  function OneLine(es: seq<Json>, printer: RealPrinter): string {
    "[ " + Listed(es, printer) + " ]"
  }

  // What takes more than one line: an object with members, and an array that has an
  // element with children, or too many elements, or would reach the margin.
  predicate TakesLines(j: Json, printer: RealPrinter) {
    match j
    case JArr(es) =>
      es != [] && ((exists i :: 0 <= i < |es| && HasChildren(es[i])) || 3 * |es| >= 74 || |OneLine(es, printer)| >= 74)
    case JObj(ms) => ms != []
    case _ => false
  }

  function SingleLine(j: Json, printer: RealPrinter): string {
    if j.JArr? && j.elems != [] then OneLine(j.elems, printer) else LeafText(j, printer)
  }

  // A value at a depth, between what stands before and behind it on its first and its last
  // line. The children of a multi-line container each start a line, one level deeper, and
  // its closing bracket starts one too.
  function Lines(j: Json, depth: nat, head: string, tail: string, printer: RealPrinter): seq<Line>
    decreases j, 1
  {
    if !TakesLines(j, printer) then [Line(depth, head + SingleLine(j, printer) + tail)]
    else if j.JArr? then
      [Line(depth, head + "[")] + ElementLines(j.elems, depth + 1, printer) + [Line(depth, "]" + tail)]
    else
      [Line(depth, head + "{")] + MemberLines(j.members, depth + 1, printer) + [Line(depth, "}" + tail)]
  }

  function ElementLines(es: seq<Json>, depth: nat, printer: RealPrinter): seq<Line>
    decreases es, 0
  {
    if es == [] then []
    else Lines(es[0], depth, "", if |es| > 1 then "," else "", printer) + ElementLines(es[1..], depth, printer)
  }

  function MemberLines(ms: seq<Member>, depth: nat, printer: RealPrinter): seq<Line>
    decreases ms, 0
  {
    if ms == [] then []
    else LinesOfMember(ms[0], depth, if |ms| > 1 then "," else "", printer) + MemberLines(ms[1..], depth, printer)
  }

  function LinesOfMember(m: Member, depth: nat, tail: string, printer: RealPrinter): seq<Line>
    decreases m, 0
  {
    Lines(m.value, depth, Quoted(m.name) + " : ", tail, printer)
  }

  lemma {:induction false} JoinedConcat(a: seq<Line>, b: seq<Line>)
    ensures Joined(a + b) == Joined(a) + Joined(b)
  {
    hide LineText;
    if a == [] {
      assert a + b == b;
    } else {
      assert (a + b)[0] == a[0] && (a + b)[1..] == a[1..] + b;
      JoinedConcat(a[1..], b);
    }
  }

  lemma JoinedOne(line: Line)
    ensures Joined([line]) == LineText(line)
  {
    hide LineText;
    assert [line][1..] == [] && Joined([]) == "";
  }

  // ---------------------------------------------------------------- one line

  lemma {:induction false} ListedSnoc(es: seq<Json>, e: Json, printer: RealPrinter)
    ensures Listed(es + [e], printer) == Listed(es, printer) + (if es == [] then "" else ", ") + LeafText(e, printer)
  {
    hide LeafText;
    var all := es + [e];
    if es != [] {
      assert all[0] == es[0] && all[1..] == es[1..] + [e];
      ListedSnoc(es[1..], e, printer);
    }
  }

  lemma {:induction false} JoinedTexts(es: seq<Json>, printer: RealPrinter)
    ensures JoinTexts(es, printer) == Listed(es, printer)
    ensures es != [] ==> |Listed(es, printer)| == (|es| - 1) * 2 + TextLength(es, printer)
  {
    hide LeafText;
    if es != [] {
      var init, last := es[..|es| - 1], es[|es| - 1];
      assert es == init + [last];
      JoinedTexts(init, printer);
      ListedSnoc(init, last, printer);
    }
  }

  lemma FitsMeans(es: seq<Json>, printer: RealPrinter)
    requires es != []
    ensures FitsOnLine(es, printer) <==> !TakesLines(JArr(es), printer)
    ensures "[ " + JoinTexts(es, printer) + " ]" == OneLine(es, printer)
  {
    hide LeafText, HasChildren;
    JoinedTexts(es, printer);
  }

  // ---------------------------------------------------------------- the text is its lines

  predicate StartsLine(text: string) {
    text == "" || text[|text| - 1] == '\n'
  }

  // The text ends in something to be seen.
  predicate EndsInk(text: string) {
    text != "" && text[|text| - 1] != ' ' && text[|text| - 1] != '\n'
  }

  // A text standing at the place where a value is to be written.
  predicate IsHead(head: string) {
    head == "" || head[|head| - 1] == ' '
  }

  lemma LeafEndsInk(j: Json, printer: RealPrinter)
    requires RealsShaped(j, printer)
    ensures EndsInk(LeafText(j, printer))
  {
    if j.JInt? {
      IntTextIsNumberText(j.n);
    }
  }

  lemma AppendedEndsInk(text: string, end: string)
    requires EndsInk(end)
    ensures EndsInk(text + end)
  {
  }

  lemma StyledEndsInk(text: string, indent: string, j: Json, printer: RealPrinter)
    requires RealsShaped(j, printer)
    ensures EndsInk(Styled(text, indent, j, printer))
  {
    hide StyledElements, StyledMembers, NewLine, FitsOnLine, JoinTexts, LeafText;
    if IsLeaf(j) {
      LeafEndsInk(j, printer);
      AppendedEndsInk(text, LeafText(j, printer));
    }
  }

  lemma NewLineAtHead(base: string, depth: nat, head: string)
    requires StartsLine(base) && IsHead(head)
    ensures var text := base + Spaces(3 * depth) + head; NewLine(text, Spaces(3 * depth)) == text
  {
    var text := base + Spaces(3 * depth) + head;
    if depth == 0 {
      assert text == base + head && text + Spaces(0) == text;
    }
  }

  lemma NewLineAfterInk(text: string, depth: nat)
    requires EndsInk(text)
    ensures NewLine(text, Spaces(3 * depth)) == text + "\n" + Spaces(3 * depth) + ""
  {
  }

  lemma Deeper(depth: nat)
    ensures Spaces(3 * depth) + INDENT == Spaces(3 * (depth + 1))
  {
    assert INDENT == [' ', ' ', ' '];
  }

  // Writing a value where a line stands at its head completes the lines of that value.
  lemma {:induction false} StyledIsLines(
      base: string, depth: nat, head: string, j: Json, tail: string, printer: RealPrinter)
    requires StartsLine(base) && IsHead(head) && RealsShaped(j, printer)
    ensures Styled(base + Spaces(3 * depth) + head, Spaces(3 * depth), j, printer) + tail + "\n" ==
      base + Joined(Lines(j, depth, head, tail, printer))
    decreases j, 1
  {
    hide StyledElements, StyledMembers, ElementLines, MemberLines, NewLine, Spaces, FitsOnLine, JoinTexts, TakesLines,
         Joined, OneLine, LeafText, EndsInk;
    var text, indent := base + Spaces(3 * depth) + head, Spaces(3 * depth);
    if j.JArr? && j.elems != [] {
      FitsMeans(j.elems, printer);
    }
    if !TakesLines(j, printer) {
      SingleIsLine(base, depth, head, j, tail, printer);
    } else {
      assert HasChildren(j) by { LinesHaveChildren(j, printer); }
      NewLineAtHead(base, depth, head);
      Deeper(depth);
      var open, close := if j.JArr? then "[" else "{", if j.JArr? then "]" else "}";
      var start := text + open;
      assert EndsInk(start) by { BracketEndsInk(text, open); }
      var inner := if j.JArr? then ElementLines(j.elems, depth + 1, printer)
        else MemberLines(j.members, depth + 1, printer);
      var body := if j.JArr? then StyledElements(start, indent + INDENT, j.elems, printer)
        else StyledMembers(start, indent + INDENT, j.members, printer);
      if j.JArr? {
        ElementsAreLines(start, depth + 1, j.elems, printer);
      } else {
        MembersAreLines(start, depth + 1, j.members, printer);
      }
      NewLineAfterInk(body, depth);
      Enclosed(base, depth, head + open, inner, body, close + tail);
      assert Styled(text, indent, j, printer) == body + "\n" + indent + "" + close;
      assert body + "\n" + indent + "" + close + tail + "\n" == body + "\n" + indent + (close + tail) + "\n";
      assert text + open == base + Spaces(3 * depth) + (head + open);
    }
  }

  lemma LinesHaveChildren(j: Json, printer: RealPrinter)
    requires TakesLines(j, printer)
    ensures HasChildren(j)
  {
  }

  lemma BracketEndsInk(text: string, bracket: string)
    requires bracket == "[" || bracket == "{"
    ensures EndsInk(text + bracket)
  {
  }

  lemma SingleIsLine(base: string, depth: nat, head: string, j: Json, tail: string, printer: RealPrinter)
    requires !TakesLines(j, printer)
    ensures Styled(base + Spaces(3 * depth) + head, Spaces(3 * depth), j, printer) + tail + "\n" ==
      base + Joined([Line(depth, head + SingleLine(j, printer) + tail)])
  {
    hide StyledElements, StyledMembers, NewLine, Spaces, FitsOnLine, JoinTexts, OneLine, Joined;
    var text, single := base + Spaces(3 * depth) + head, SingleLine(j, printer);
    if j.JArr? && j.elems != [] {
      FitsMeans(j.elems, printer);
      assert text + "[ " + JoinTexts(j.elems, printer) + " ]" == text + ("[ " + JoinTexts(j.elems, printer) + " ]");
    }
    assert Styled(text, Spaces(3 * depth), j, printer) == text + single;
    JoinedOne(Line(depth, head + single + tail));
    Regrouped(base, Spaces(3 * depth), head, single, tail);
  }

  lemma Regrouped(a: string, b: string, c: string, d: string, e: string)
    ensures a + b + c + d + e + "\n" == a + (b + (c + d + e) + "\n")
  {
  }

  // An opening line, the lines within, and a closing line.
  lemma Enclosed(base: string, depth: nat, open: string, inner: seq<Line>, body: string, close: string)
    requires body + "\n" == base + Spaces(3 * depth) + open + "\n" + Joined(inner)
    ensures body + "\n" + Spaces(3 * depth) + close + "\n" ==
      base + Joined([Line(depth, open)] + inner + [Line(depth, close)])
  {
    hide Spaces;
    JoinedConcat([Line(depth, open)] + inner, [Line(depth, close)]);
    JoinedConcat([Line(depth, open)], inner);
    JoinedOne(Line(depth, open));
    JoinedOne(Line(depth, close));
    Associated(base, Spaces(3 * depth), open, Joined(inner), close);
  }

  lemma Associated(a: string, b: string, c: string, d: string, e: string)
    ensures a + b + c + "\n" + d + b + e + "\n" == a + ((b + c + "\n") + d + (b + e + "\n"))
  {
  }

  lemma {:induction false} ElementsAreLines(text: string, depth: nat, es: seq<Json>, printer: RealPrinter)
    requires EndsInk(text) && forall i :: 0 <= i < |es| ==> RealsShaped(es[i], printer)
    ensures var body := StyledElements(text, Spaces(3 * depth), es, printer);
      body + "\n" == text + "\n" + Joined(ElementLines(es, depth, printer)) && EndsInk(body)
    decreases es, 0
  {
    hide Styled, Lines, NewLine, Spaces, Joined, EndsInk, RealsShaped;
    if es == [] {
      assert Joined([]) == "" by { NoLines(); }
    } else {
      var tail := if |es| > 1 then "," else "";
      var at := NewLine(text, Spaces(3 * depth));
      NewLineAfterInk(text, depth);
      assert StartsLine(text + "\n");
      StyledIsLines(text + "\n", depth, "", es[0], tail, printer);
      StyledEndsInk(at, Spaces(3 * depth), es[0], printer);
      var first := Styled(at, Spaces(3 * depth), es[0], printer);
      CommaEndsInk(first, |es|);
      ElementsAreLines(first + CommaText(|es|), depth, es[1..], printer);
      JoinedConcat(Lines(es[0], depth, "", tail, printer), ElementLines(es[1..], depth, printer));
    }
  }

  lemma NoLines()
    ensures Joined([]) == ""
  {
  }

  lemma CommaEndsInk(text: string, remaining: nat)
    requires EndsInk(text)
    ensures EndsInk(text + CommaText(remaining))
  {
    assert text + "" == text;
  }

  lemma {:induction false} MembersAreLines(text: string, depth: nat, ms: seq<Member>, printer: RealPrinter)
    requires EndsInk(text) && forall i :: 0 <= i < |ms| ==> MemberRealsShaped(ms[i], printer)
    ensures var body := StyledMembers(text, Spaces(3 * depth), ms, printer);
      body + "\n" == text + "\n" + Joined(MemberLines(ms, depth, printer)) && EndsInk(body)
    decreases ms, 0
  {
    hide StyledMember, LinesOfMember, NewLine, Spaces, Joined, EndsInk, MemberRealsShaped;
    if ms == [] {
      assert Joined([]) == "" by { NoLines(); }
    } else {
      var tail := if |ms| > 1 then "," else "";
      MemberIsLines(text, depth, ms[0], tail, printer);
      var first := StyledMember(text, Spaces(3 * depth), ms[0], printer);
      CommaEndsInk(first, |ms|);
      MembersAreLines(first + CommaText(|ms|), depth, ms[1..], printer);
      JoinedConcat(LinesOfMember(ms[0], depth, tail, printer), MemberLines(ms[1..], depth, printer));
    }
  }

  lemma {:induction false} MemberIsLines(text: string, depth: nat, m: Member, tail: string, printer: RealPrinter)
    requires EndsInk(text) && MemberRealsShaped(m, printer)
    ensures var first := StyledMember(text, Spaces(3 * depth), m, printer);
      first + tail + "\n" == text + "\n" + Joined(LinesOfMember(m, depth, tail, printer)) && EndsInk(first)
    decreases m, 0
  {
    hide Styled, Lines, NewLine, Spaces, Joined, EndsInk, Quoted;
    var head := Quoted(m.name) + " : ";
    var at := NewLine(text, Spaces(3 * depth));
    NewLineAfterInk(text, depth);
    assert at + Quoted(m.name) + " : " == text + "\n" + Spaces(3 * depth) + head;
    StyledIsLines(text + "\n", depth, head, m.value, tail, printer);
    StyledEndsInk(at + Quoted(m.name) + " : ", Spaces(3 * depth), m.value, printer);
  }

  // The indented document of a tree is its lines: each indented by three spaces a level.
  lemma DocumentIsLines(j: Json, printer: RealPrinter)
    requires RealsShaped(j, printer)
    ensures Styled("", "", j, printer) + "\n" == Joined(Lines(j, 0, "", "", printer))
  {
    hide Styled, Lines, Joined;
    StyledIsLines("", 0, "", j, "", printer);
    assert "" + Spaces(3 * 0) + "" == "" && Spaces(3 * 0) == "";
    assert Styled("", "", j, printer) + "" + "\n" == Styled("", "", j, printer) + "\n";
    assert "" + Joined(Lines(j, 0, "", "", printer)) == Joined(Lines(j, 0, "", "", printer));
  }

  // ---------------------------------------------------------------- brackets

  // Reading a text character by character: how many brackets are open, and whether a
  // string is, and within it an escape.
  datatype Scan = Scan(depth: int, inside: bool, escaped: bool)

  function Outside(depth: int): Scan {
    Scan(depth, false, false)
  }

  predicate IsOpening(c: char) {
    c == '[' || c == '{'
  }

  predicate IsClosing(c: char) {
    c == ']' || c == '}'
  }

  function Next(s: Scan, c: char): Scan {
    if s.inside then
      if s.escaped then s.(escaped := false)
      else if c == '\\' then s.(escaped := true)
      else s.(inside := c != '\"')
    else if c == '\"' then s.(inside := true)
    else s.(depth := s.depth + if IsOpening(c) then 1 else if IsClosing(c) then -1 else 0)
  }

  function After(s: Scan, text: string): Scan
    decreases text
  {
    if text == "" then s else After(Next(s, text[0]), text[1..])
  }

  lemma {:induction false} AfterConcat(s: Scan, a: string, b: string)
    ensures After(s, a + b) == After(After(s, a), b)
    decreases a
  {
    hide Next;
    if a == "" {
      assert a + b == b;
    } else {
      assert (a + b)[0] == a[0] && (a + b)[1..] == a[1..] + b;
      AfterConcat(Next(s, a[0]), a[1..], b);
    }
  }

  // Text after which as many brackets are open as before, on one line.
  ghost predicate Balanced(text: string) {
    (forall i :: 0 <= i < |text| ==> text[i] != '\n') && forall k :: After(Outside(k), text) == Outside(k)
  }

  lemma BalancedConcat(a: string, b: string)
    requires Balanced(a) && Balanced(b)
    ensures Balanced(a + b)
  {
    forall k ensures After(Outside(k), a + b) == Outside(k) {
      AfterConcat(Outside(k), a, b);
    }
  }

  predicate IsPlain(text: string) {
    forall i :: 0 <= i < |text| ==> !IsOpening(text[i]) && !IsClosing(text[i]) && text[i] != '\"' && text[i] != '\n'
  }

  lemma {:induction false} PlainAfter(text: string, k: int)
    requires IsPlain(text)
    ensures After(Outside(k), text) == Outside(k)
    decreases text
  {
    if text != "" {
      PlainAfter(text[1..], k);
    }
  }

  lemma PlainIsBalanced(text: string)
    requires IsPlain(text)
    ensures Balanced(text)
  {
    forall k ensures After(Outside(k), text) == Outside(k) {
      PlainAfter(text, k);
    }
  }

  lemma EscapedCharStaysInside(c: char, k: int)
    ensures After(Scan(k, true, false), EscapedChar(c)) == Scan(k, true, false)
    ensures '\n' !in EscapedChar(c)
  {
    var e, s := EscapedChar(c), Scan(k, true, false);
    if |e| == 6 {
      assert e[1..] == [e[1], e[2], e[3], e[4], e[5]] && After(s, e) == After(s.(escaped := true), e[1..]);
      assert e[2..] == [e[2], e[3], e[4], e[5]] && After(s.(escaped := true), e[1..]) == After(s, e[2..]);
      PlainInside(e[2..], k);
    } else if |e| == 2 {
      assert e[1..] == [e[1]] && e[1..][1..] == "";
      assert After(s, e) == After(s.(escaped := true), e[1..]) == After(s, "");
    } else {
      assert e[1..] == "";
    }
  }

  lemma {:induction false} PlainInside(text: string, k: int)
    requires forall i :: 0 <= i < |text| ==> text[i] != '\\' && text[i] != '\"'
    ensures After(Scan(k, true, false), text) == Scan(k, true, false)
    decreases text
  {
    if text != "" {
      PlainInside(text[1..], k);
    }
  }

  lemma {:induction false} EscapedStaysInside(s: string, k: int)
    ensures After(Scan(k, true, false), Escaped(s)) == Scan(k, true, false) && '\n' !in Escaped(s)
  {
    hide EscapedChar, Next;
    if s != "" {
      EscapedCharStaysInside(s[0], k);
      EscapedStaysInside(s[1..], k);
      AfterConcat(Scan(k, true, false), EscapedChar(s[0]), Escaped(s[1..]));
    }
  }

  lemma QuotedIsBalanced(s: string)
    ensures Balanced(Quoted(s))
  {
    hide Escaped;
    var body := Escaped(s);
    forall k ensures After(Outside(k), Quoted(s)) == Outside(k) {
      EscapedStaysInside(s, k);
      AfterConcat(Outside(k), "\"" + body, "\"");
      AfterConcat(Outside(k), "\"", body);
      assert "\""[1..] == "";
    }
    EscapedStaysInside(s, 0);
  }

  lemma EmptyBrackets(open: string, close: string)
    requires (open == "[" && close == "]") || (open == "{" && close == "}")
    ensures Balanced(open + close)
  {
    var text := open + close;
    forall k ensures After(Outside(k), text) == Outside(k) {
      assert text[0] == open[0] && text[1..] == close && close[1..] == "";
      assert After(Outside(k), text) == After(Outside(k + 1), close) == After(Outside(k), "");
    }
  }

  lemma LeafIsBalanced(j: Json, printer: RealPrinter)
    requires RealsShaped(j, printer)
    ensures Balanced(LeafText(j, printer))
  {
    hide Balanced, Quoted;
    match j {
      case JStr(s) => QuotedIsBalanced(s);
      case JArr(_) => EmptyBrackets("[", "]"); assert "[" + "]" == "[]";
      case JObj(_) => EmptyBrackets("{", "}"); assert "{" + "}" == "{}";
      case JInt(n) =>
        IntTextIsNumberText(n);
        PlainIsBalanced(IntText(n));
      case _ => PlainIsBalanced(LeafText(j, printer));
    }
  }

  lemma {:induction false} ListedIsBalanced(es: seq<Json>, printer: RealPrinter)
    requires forall i :: 0 <= i < |es| ==> RealsShaped(es[i], printer)
    ensures Balanced(Listed(es, printer))
  {
    hide Balanced, LeafText, RealsShaped;
    if es == [] {
      PlainIsBalanced("");
    } else {
      LeafIsBalanced(es[0], printer);
      if |es| > 1 {
        PlainIsBalanced(", ");
        BalancedConcat(LeafText(es[0], printer), ", ");
        ListedIsBalanced(es[1..], printer);
        BalancedConcat(LeafText(es[0], printer) + ", ", Listed(es[1..], printer));
      }
    }
  }

  lemma OneLineIsBalanced(es: seq<Json>, printer: RealPrinter)
    requires forall i :: 0 <= i < |es| ==> RealsShaped(es[i], printer)
    ensures Balanced(OneLine(es, printer))
  {
    hide Next, Listed;
    ListedIsBalanced(es, printer);
    var text := OneLine(es, printer);
    forall k ensures After(Outside(k), text) == Outside(k) {
      AfterConcat(Outside(k), "[ " + Listed(es, printer), " ]");
      AfterConcat(Outside(k), "[ ", Listed(es, printer));
      OpeningAndClosing(k);
    }
  }

  lemma OpeningAndClosing(k: int)
    ensures After(Outside(k), "[ ") == Outside(k + 1) && After(Outside(k + 1), " ]") == Outside(k)
  {
    assert "[ "[1..] == " " && " "[1..] == "" && " ]"[1..] == "]" && "]"[1..] == "";
    assert After(Outside(k), "[ ") == After(Outside(k + 1), " ") == After(Outside(k + 1), "");
    assert After(Outside(k + 1), " ]") == After(Outside(k + 1), "]") == After(Outside(k), "");
  }

  lemma SingleIsBalanced(j: Json, printer: RealPrinter)
    requires RealsShaped(j, printer)
    ensures Balanced(SingleLine(j, printer))
  {
    hide Balanced, LeafText, OneLine;
    if j.JArr? && j.elems != [] {
      OneLineIsBalanced(j.elems, printer);
    } else {
      LeafIsBalanced(j, printer);
    }
  }

  // ---------------------------------------------------------------- lines and brackets

  // A line met while k brackets are open: something to be seen, indented by as many levels,
  // one less if it closes one.
  predicate IsIndentedLine(line: Line, k: int) {
    && line.text != "" && line.text[0] != ' ' && '\n' !in line.text
    && line.depth == k - (if IsClosing(line.text[0]) then 1 else 0)
    && var s := After(Outside(k), line.text); s == Outside(s.depth)
  }

  function DepthAfter(lines: seq<Line>, k: int): int {
    if lines == [] then k else DepthAfter(lines[1..], After(Outside(k), lines[0].text).depth)
  }

  predicate AreIndented(lines: seq<Line>, k: int) {
    lines == [] || (IsIndentedLine(lines[0], k) && AreIndented(lines[1..], After(Outside(k), lines[0].text).depth))
  }

  lemma {:induction false} IndentedConcat(a: seq<Line>, b: seq<Line>, k: int)
    requires AreIndented(a, k) && AreIndented(b, DepthAfter(a, k))
    ensures AreIndented(a + b, k) && DepthAfter(a + b, k) == DepthAfter(b, DepthAfter(a, k))
    decreases a
  {
    hide IsIndentedLine, After;
    if a == [] {
      assert a + b == b;
    } else {
      assert (a + b)[0] == a[0] && (a + b)[1..] == a[1..] + b;
      IndentedConcat(a[1..], b, After(Outside(k), a[0].text).depth);
    }
  }

  // What may stand before a value on its line.
  ghost predicate IsName(head: string) {
    Balanced(head) && (head != "" ==> head[0] != ' ' && !IsClosing(head[0]))
  }

  lemma OneIndented(line: Line, k: int)
    requires IsIndentedLine(line, k)
    ensures AreIndented([line], k) && DepthAfter([line], k) == After(Outside(k), line.text).depth
  {
    hide IsIndentedLine, After;
    assert [line][1..] == [];
  }

  lemma SingleIsIndented(depth: nat, head: string, j: Json, tail: string, printer: RealPrinter)
    requires IsName(head) && Balanced(tail) && RealsShaped(j, printer)
    ensures var lines := [Line(depth, head + SingleLine(j, printer) + tail)];
      AreIndented(lines, depth) && DepthAfter(lines, depth) == depth
  {
    hide SingleLine;
    var single := SingleLine(j, printer);
    SingleIsBalanced(j, printer);
    BalancedConcat(head, single);
    BalancedConcat(head + single, tail);
    assert single != "" && single[0] != ' ' && !IsClosing(single[0]) by { SingleStarts(j, printer); }
    OneIndented(Line(depth, head + single + tail), depth);
  }

  lemma SingleStarts(j: Json, printer: RealPrinter)
    requires RealsShaped(j, printer)
    ensures var single := SingleLine(j, printer); single != "" && single[0] != ' ' && !IsClosing(single[0])
  {
    if j.JInt? {
      IntTextIsNumberText(j.n);
    }
  }

  lemma OpeningIndented(depth: nat, head: string, open: string)
    requires IsName(head) && (open == "[" || open == "{")
    ensures var lines := [Line(depth, head + open)];
      AreIndented(lines, depth) && DepthAfter(lines, depth) == depth + 1
  {
    AfterConcat(Outside(depth), head, open);
    assert open[1..] == "" && After(Outside(depth), open) == Outside(depth + 1);
    OneIndented(Line(depth, head + open), depth);
  }

  lemma ClosingIndented(depth: nat, close: string, tail: string)
    requires Balanced(tail) && (close == "]" || close == "}")
    ensures var lines := [Line(depth, close + tail)];
      AreIndented(lines, depth + 1) && DepthAfter(lines, depth + 1) == depth
  {
    AfterConcat(Outside(depth + 1), close, tail);
    assert close[1..] == "" && After(Outside(depth + 1), close) == Outside(depth);
    OneIndented(Line(depth, close + tail), depth + 1);
  }

  // The lines of a value are indented by the brackets open before them, and close all the
  // brackets they open.
  lemma {:induction false} LinesAreIndented(j: Json, depth: nat, head: string, tail: string, printer: RealPrinter)
    requires IsName(head) && Balanced(tail) && RealsShaped(j, printer)
    ensures var lines := Lines(j, depth, head, tail, printer);
      AreIndented(lines, depth) && DepthAfter(lines, depth) == depth
    decreases j, 1
  {
    hide AreIndented, DepthAfter, TakesLines, SingleLine, ElementLines, MemberLines, IsName, Balanced;
    if !TakesLines(j, printer) {
      SingleIsIndented(depth, head, j, tail, printer);
    } else {
      assert HasChildren(j) by { LinesHaveChildren(j, printer); }
      var open, close := if j.JArr? then "[" else "{", if j.JArr? then "]" else "}";
      var inner := if j.JArr? then ElementLines(j.elems, depth + 1, printer)
        else MemberLines(j.members, depth + 1, printer);
      OpeningIndented(depth, head, open);
      if j.JArr? {
        ElementLinesAreIndented(j.elems, depth + 1, printer);
      } else {
        MemberLinesAreIndented(j.members, depth + 1, printer);
      }
      ClosingIndented(depth, close, tail);
      IndentedConcat([Line(depth, head + open)], inner, depth);
      IndentedConcat([Line(depth, head + open)] + inner, [Line(depth, close + tail)], depth);
    }
  }

  lemma CommaIsBalanced(remaining: nat)
    ensures Balanced(if remaining > 1 then "," else "")
  {
    PlainIsBalanced(",");
    PlainIsBalanced("");
  }

  lemma {:induction false} ElementLinesAreIndented(es: seq<Json>, depth: nat, printer: RealPrinter)
    requires forall i :: 0 <= i < |es| ==> RealsShaped(es[i], printer)
    ensures var lines := ElementLines(es, depth, printer);
      AreIndented(lines, depth) && DepthAfter(lines, depth) == depth
    decreases es, 0
  {
    hide Lines, IsIndentedLine, After, RealsShaped;
    if es != [] {
      assert IsName("") by { PlainIsBalanced(""); }
      CommaIsBalanced(|es|);
      LinesAreIndented(es[0], depth, "", if |es| > 1 then "," else "", printer);
      ElementLinesAreIndented(es[1..], depth, printer);
      IndentedConcat(Lines(es[0], depth, "", if |es| > 1 then "," else "", printer),
                     ElementLines(es[1..], depth, printer), depth);
    }
  }

  lemma {:induction false} MemberLinesAreIndented(ms: seq<Member>, depth: nat, printer: RealPrinter)
    requires forall i :: 0 <= i < |ms| ==> MemberRealsShaped(ms[i], printer)
    ensures var lines := MemberLines(ms, depth, printer);
      AreIndented(lines, depth) && DepthAfter(lines, depth) == depth
    decreases ms, 0
  {
    hide LinesOfMember, IsIndentedLine, After, MemberRealsShaped;
    if ms != [] {
      CommaIsBalanced(|ms|);
      MemberIsIndented(ms[0], depth, if |ms| > 1 then "," else "", printer);
      MemberLinesAreIndented(ms[1..], depth, printer);
      IndentedConcat(LinesOfMember(ms[0], depth, if |ms| > 1 then "," else "", printer),
                     MemberLines(ms[1..], depth, printer), depth);
    }
  }

  lemma {:induction false} MemberIsIndented(m: Member, depth: nat, tail: string, printer: RealPrinter)
    requires Balanced(tail) && MemberRealsShaped(m, printer)
    ensures var lines := LinesOfMember(m, depth, tail, printer);
      AreIndented(lines, depth) && DepthAfter(lines, depth) == depth
    decreases m, 0
  {
    hide Lines, Balanced, AreIndented, DepthAfter;
    NameIsName(m.name);
    LinesAreIndented(m.value, depth, Quoted(m.name) + " : ", tail, printer);
  }

  lemma NameIsName(name: string)
    ensures IsName(Quoted(name) + " : ")
  {
    hide Balanced, Escaped;
    QuotedIsBalanced(name);
    PlainIsBalanced(" : ");
    BalancedConcat(Quoted(name), " : ");
    assert (Quoted(name) + " : ")[0] == '"';
  }

  // ---------------------------------------------------------------- the finished text

  // The line starting at i: spaces, three for every bracket open before it, less three if
  // it starts by closing one, and then something to be seen.
  predicate IsIndentedAt(text: string, i: nat)
    requires i < |text|
  {
    var s := After(Outside(0), text[..i]);
    && s == Outside(s.depth)
    && exists p :: i <= p < |text| && (forall q :: i <= q < p ==> text[q] == ' ')
         && text[p] != ' ' && text[p] != '\n' && p - i == 3 * (s.depth - if IsClosing(text[p]) then 1 else 0)
  }

  predicate IsLineStart(text: string, i: nat)
    requires i < |text|
  {
    i == 0 || text[i - 1] == '\n'
  }

  lemma FirstLineIndented(before: string, line: Line, rest: string, k: int)
    requires After(Outside(0), before) == Outside(k) && IsIndentedLine(line, k)
    ensures var text := before + LineText(line) + rest;
      && IsIndentedAt(text, |before|)
      && forall i :: |before| < i < |before| + |LineText(line)| ==> !IsLineStart(text, i)
  {
    hide After;
    var text := before + LineText(line) + rest;
    var p := |before| + 3 * line.depth;
    assert text[..|before|] == before;
    assert text[p] == line.text[0];
    assert forall q :: |before| <= q < p ==> text[q] == ' ';
    forall i | |before| < i < |before| + |LineText(line)| ensures !IsLineStart(text, i) {
      assert text[i - 1] == LineText(line)[i - 1 - |before|];
      if i - 1 >= p {
        assert text[i - 1] == line.text[i - 1 - p];
      }
    }
  }

  lemma SpacesKeepScan(line: Line, k: int)
    requires IsIndentedLine(line, k)
    ensures After(Outside(k), LineText(line)) == Outside(After(Outside(k), line.text).depth)
  {
    hide Spaces;
    var indent := Spaces(3 * line.depth);
    assert After(Outside(k), indent) == Outside(k) by { SpacesPlain(3 * line.depth); PlainAfter(indent, k); }
    AfterConcat(Outside(k), indent, line.text);
    AfterConcat(Outside(k), indent + line.text, "\n");
    assert "\n"[1..] == "";
  }

  lemma SpacesPlain(n: nat)
    ensures IsPlain(Spaces(n))
  {
  }

  lemma {:induction false} JoinedIsIndented(before: string, lines: seq<Line>, k: int)
    requires After(Outside(0), before) == Outside(k) && AreIndented(lines, k)
    ensures var text := before + Joined(lines);
      && (forall i :: |before| <= i < |text| && IsLineStart(text, i) && StartsLine(before) ==> IsIndentedAt(text, i))
      && After(Outside(0), text) == Outside(DepthAfter(lines, k))
    decreases lines
  {
    hide IsIndentedAt, IsIndentedLine, After, LineText;
    var text := before + Joined(lines);
    if lines == [] {
      assert text == before;
    } else {
      var first := LineText(lines[0]);
      var next := before + first;
      assert text == next + Joined(lines[1..]);
      FirstLineIndented(before, lines[0], Joined(lines[1..]), k);
      AfterConcat(Outside(0), before, first);
      SpacesKeepScan(lines[0], k);
      assert StartsLine(next) by { LineEnds(before, lines[0]); }
      JoinedIsIndented(next, lines[1..], After(Outside(k), lines[0].text).depth);
    }
  }

  lemma LineEnds(before: string, line: Line)
    ensures StartsLine(before + LineText(line))
  {
  }

  // In the indented document of a tree every line is indented by three spaces for every
  // bracket open before it, less three if it starts with a closing one; no line is empty;
  // and every bracket is closed at the end. Brackets within strings do not count.
  lemma DocumentIsIndented(j: Json, printer: RealPrinter)
    requires RealsShaped(j, printer)
    ensures var text := Styled("", "", j, printer) + "\n";
      && (forall i :: 0 <= i < |text| && IsLineStart(text, i) ==> IsIndentedAt(text, i))
      && After(Outside(0), text) == Outside(0)
  {
    hide Styled, Lines, Joined, IsIndentedAt, AreIndented, DepthAfter, Balanced;
    DocumentIsLines(j, printer);
    assert IsName("") by { PlainIsBalanced(""); }
    PlainIsBalanced("");
    LinesAreIndented(j, 0, "", "", printer);
    JoinedIsIndented("", Lines(j, 0, "", "", printer), 0);
    assert "" + Joined(Lines(j, 0, "", "", printer)) == Joined(Lines(j, 0, "", "", printer));
  }
}
