/** What the writers print, as a function of the abstract view: the tokens of a tree, the
    compact text that is their concatenation, and the indented text. */
module JsonPrinter {
  import opened JsonValue
  import opened JsonNumber
  import opened JsonString
  import opened JsonLexer

  // `sprintf` of a double, with its trailing zeros cut, is a foreign function. All that is
  // asked of it is that no number prints as a colon.
  type RealPrinter = p: real -> string | forall r: real :: p(r) != ":" witness _ => "0.0"

  predicate IsLeaf(j: Json) {
    !j.JArr? && !j.JObj?
  }

  // The text of a childless value.
  function LeafText(j: Json, printer: RealPrinter): string {
    match j
    case JNull => "null"
    case JInt(n) => IntText(n)
    case JReal(r) => printer(r)
    case JStr(s) => Quoted(s)
    case JBool(b) => if b then "true" else "false"
    case JArr(_) => "[]"
    case JObj(_) => "{}"
  }

  function Tokens(j: Json, printer: RealPrinter): seq<string>
    decreases j, 1
  {
    match j
    case JArr(es) => ["["] + ElementTokens(es, printer) + ["]"]
    case JObj(ms) => ["{"] + MembersTokens(ms, printer) + ["}"]
    case _ => [LeafText(j, printer)]
  }

  function Comma(remaining: nat): seq<string> {
    if remaining > 1 then [","] else []
  }

  function ElementTokens(es: seq<Json>, printer: RealPrinter): seq<string>
    decreases es, 0
  {
    if es == [] then []
    else Tokens(es[0], printer) + Comma(|es|) + ElementTokens(es[1..], printer)
  }

  function MembersTokens(ms: seq<Member>, printer: RealPrinter): seq<string>
    decreases ms, 0
  {
    if ms == [] then []
    else MemberTokens(ms[0], printer) + Comma(|ms|) + MembersTokens(ms[1..], printer)
  }

  function MemberTokens(m: Member, printer: RealPrinter): seq<string>
    decreases m, 0
  {
    [Quoted(m.name), ":"] + Tokens(m.value, printer)
  }

  // ---------------------------------------------------------------- compact text

  // The concatenation of the tokens; for YAML readers a colon is followed by a space.
  function Compact(toks: seq<string>, yaml: bool): string {
    if toks == [] then ""
    else (if yaml && toks[0] == ":" then ": " else toks[0]) + Compact(toks[1..], yaml)
  }

  lemma {:induction false} CompactConcat(a: seq<string>, b: seq<string>, yaml: bool)
    ensures Compact(a + b, yaml) == Compact(a, yaml) + Compact(b, yaml)
  {
    if a == [] {
      assert a + b == b;
    } else {
      assert (a + b)[0] == a[0] && (a + b)[1..] == a[1..] + b;
      CompactConcat(a[1..], b, yaml);
    }
  }

  // ---------------------------------------------------------------- indented text

  const RIGHT_MARGIN: int := 74
  const INDENT: string := "   "

  // Starts a new indented line unless the text already stands at one.
  function NewLine(text: string, indent: string): string {
    if text == "" then indent
    else if text[|text| - 1] == ' ' then text
    else if text[|text| - 1] == '\n' then text + indent
    else text + "\n" + indent
  }

  predicate HasChildren(j: Json) {
    match j
    case JArr(es) => es != []
    case JObj(ms) => ms != []
    case _ => false
  }

  function TextLength(es: seq<Json>, printer: RealPrinter): nat {
    if es == [] then 0
    else TextLength(es[..|es| - 1], printer) + |LeafText(es[|es| - 1], printer)|
  }

  // A nonempty array goes on one line when all its elements are childless and the line
  // stays within the margin.
  predicate FitsOnLine(es: seq<Json>, printer: RealPrinter) {
    && |es| * 3 < RIGHT_MARGIN
    && (forall i :: 0 <= i < |es| ==> !HasChildren(es[i]))
    && 4 + (|es| - 1) * 2 + TextLength(es, printer) < RIGHT_MARGIN
  }

  function JoinTexts(es: seq<Json>, printer: RealPrinter): string {
    if es == [] then ""
    else if |es| == 1 then LeafText(es[0], printer)
    else JoinTexts(es[..|es| - 1], printer) + ", " + LeafText(es[|es| - 1], printer)
  }

  // The text after writing j at the end of text.
  function Styled(text: string, indent: string, j: Json, printer: RealPrinter): string
    decreases j, 1
  {
    match j
    case JArr(es) =>
      if es == [] then text + "[]"
      else if FitsOnLine(es, printer) then text + "[ " + JoinTexts(es, printer) + " ]"
      else
        var body := StyledElements(NewLine(text, indent) + "[", indent + INDENT, es, printer);
        NewLine(body, indent) + "]"
    case JObj(ms) =>
      if ms == [] then text + "{}"
      else
        var body := StyledMembers(NewLine(text, indent) + "{", indent + INDENT, ms, printer);
        NewLine(body, indent) + "}"
    case _ => text + LeafText(j, printer)
  }

  function CommaText(remaining: nat): string {
    if remaining > 1 then "," else ""
  }

  function StyledElements(text: string, indent: string, es: seq<Json>, printer: RealPrinter): string
    decreases es, 0
  {
    if es == [] then text
    else
      var first := Styled(NewLine(text, indent), indent, es[0], printer);
      StyledElements(first + CommaText(|es|), indent, es[1..], printer)
  }

  function StyledMembers(text: string, indent: string, ms: seq<Member>, printer: RealPrinter): string
    decreases ms, 0
  {
    if ms == [] then text
    else
      var first := StyledMember(text, indent, ms[0], printer);
      StyledMembers(first + CommaText(|ms|), indent, ms[1..], printer)
  }

  function StyledMember(text: string, indent: string, m: Member, printer: RealPrinter): string
    decreases m, 0
  {
    Styled(NewLine(text, indent) + Quoted(m.name) + " : ", indent, m.value, printer)
  }
}
