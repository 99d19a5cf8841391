/** `FastWriter` and `StyledWriter`: recursive printers appending to a document in place,
    each refining the text `JsonPrinter` gives for the view of the value. */
module JsonWriter {
  import opened JsonValue
  import opened JsonNumber
  import opened JsonString
  import opened JsonPrinter
  import opened JsonLayout
  import opened JsonRoundTrip
  import JsonIndent

  // `value[index]` and `value[name]` on a constant value.
  function Element(v: Value, index: nat): Value
    requires v.Arr?
  {
    FindOrNull(v.entries, Index(index))
  }

  function MemberNames(v: Value): seq<string>
    requires v.Obj? && Valid(v)
  {
    seq(|v.entries|, i requires 0 <= i < |v.entries| => v.entries[i].key.cstr)
  }

  lemma {:induction false} EntryIsLighter(m: ObjectValues, i: nat)
    requires i < |m|
    ensures Weight(m[i].value) < WeightAll(m)
  {
    if i > 0 {
      EntryIsLighter(m[1..], i - 1);
    }
  }

  lemma ElementFacts(v: Value, index: nat)
    requires v.Arr? && Valid(v) && index < Size(v)
    ensures Weight(Element(v, index)) < Weight(v) && Valid(Element(v, index))
    ensures View(Element(v, index)) == View(v).elems[index]
  {
    var p := LowerBound(v.entries, Index(index));
    assert v.entries != [];
    if p < |v.entries| {
      EntryIsLighter(v.entries, p);
      assert ValidEntry(v.entries[p]);
    }
    SlotViewIsFind(v.entries, index);
  }

  lemma MemberFacts(v: Value, i: nat)
    requires v.Obj? && Valid(v) && i < |v.entries|
    ensures var name := MemberNames(v)[i];
      var child := FindOrNull(v.entries, Name(name));
      Weight(child) < Weight(v) && Valid(child) && NulFree(name) &&
      View(v).members[i] == Member(name, View(child))
  {
    EntryIsLighter(v.entries, i);
    FindIsLookup(v.entries, Name(MemberNames(v)[i]), i);
    assert ValidEntry(v.entries[i]);
  }

  // ---------------------------------------------------------------- FastWriter

  lemma {:induction false} MembersTokensSnoc(ms: seq<Member>, m: Member, printer: RealPrinter)
    ensures MembersTokens(ms + [m], printer) ==
      MembersTokens(ms, printer) + (if ms == [] then [] else [","]) + MemberTokens(m, printer)
  {
    hide MemberTokens;
    var all := ms + [m];
    if ms == [] {
      assert all[1..] == [];
      assert MembersTokens(all, printer) == MemberTokens(m, printer) + [] + [];
    } else {
      assert all[0] == ms[0] && all[1..] == ms[1..] + [m];
      MembersTokensSnoc(ms[1..], m, printer);
      if |ms| == 1 {
        assert MembersTokens(ms[1..], printer) == [];
      }
    }
  }

  // The compact text grows by a comma, unless it is the first, and the next child.
  lemma CompactElementsStep(es: seq<Json>, i: nat, yaml: bool, printer: RealPrinter)
    requires i < |es|
    ensures Compact(ElementTokens(es[..i + 1], printer), yaml) ==
      Compact(ElementTokens(es[..i], printer), yaml) + (if i > 0 then "," else "")
      + Compact(Tokens(es[i], printer), yaml)
  {
    hide Tokens, ElementTokens;
    var comma := if i > 0 then [","] else [];
    assert es[..i + 1] == es[..i] + [es[i]];
    ElementTokensSnoc(es[..i], es[i], printer);
    CompactConcat(ElementTokens(es[..i], printer) + comma, Tokens(es[i], printer), yaml);
    CompactConcat(ElementTokens(es[..i], printer), comma, yaml);
    assert Compact(comma, yaml) == if i > 0 then "," else "";
  }

  lemma CompactMembersStep(ms: seq<Member>, i: nat, yaml: bool, printer: RealPrinter)
    requires i < |ms|
    ensures Compact(MembersTokens(ms[..i + 1], printer), yaml) ==
      Compact(MembersTokens(ms[..i], printer), yaml) + (if i > 0 then "," else "")
      + Quoted(ms[i].name) + (if yaml then ": " else ":") + Compact(Tokens(ms[i].value, printer), yaml)
  {
    hide Tokens, MembersTokens, MemberTokens, Quoted, Compact;
    var comma := if i > 0 then [","] else [];
    assert ms[..i + 1] == ms[..i] + [ms[i]];
    MembersTokensSnoc(ms[..i], ms[i], printer);
    CompactConcat(MembersTokens(ms[..i], printer) + comma, MemberTokens(ms[i], printer), yaml);
    CompactConcat(MembersTokens(ms[..i], printer), comma, yaml);
    assert Compact(comma, yaml) == (if i > 0 then "," else "") by { CompactComma(yaml); }
    CompactMember(ms[i], yaml, printer);
  }

  lemma CompactComma(yaml: bool)
    ensures Compact([","], yaml) == "," && Compact([], yaml) == ""
  {
    OneToken(",", yaml);
  }

  lemma CompactMember(m: Member, yaml: bool, printer: RealPrinter)
    ensures Compact(MemberTokens(m, printer), yaml) ==
      Quoted(m.name) + (if yaml then ": " else ":") + Compact(Tokens(m.value, printer), yaml)
  {
    hide Tokens, Escaped;
    var toks := Tokens(m.value, printer);
    var quoted := Quoted(m.name);
    assert quoted[0] == '\"';
    assert ([quoted, ":"] + toks)[1..] == [":"] + toks && ([":"] + toks)[1..] == toks;
    assert Compact([":"] + toks, yaml) == (if yaml then ": " else ":") + Compact(toks, yaml);
  }

  class FastWriter {
    var document: string
    var yamlCompatibility: bool
    const printReal: RealPrinter

    constructor (printReal: RealPrinter)
      ensures !yamlCompatibility && this.printReal == printReal
    {
      document, yamlCompatibility := "", false;
      this.printReal := printReal;
    }

    method EnableYamlCompatibility()
      modifies this`yamlCompatibility
      ensures yamlCompatibility
    {
      yamlCompatibility := true;
    }

    method Write(root: Value) returns (text: string)
      requires Valid(root)
      modifies this`document
      ensures text == document == CompactDocument(root, yamlCompatibility, printReal)
    {
      document := "";
      WriteValue(root);
      document := document + "\n";
      text := document;
    }

    method WriteValue(value: Value)
      requires Valid(value)
      modifies this`document
      ensures document == old(document) + Compact(Tokens(View(value), printReal), yamlCompatibility)
      decreases Weight(value), 1
    {
      hide Escaped;
      match value {
        case Null => document := document + "null";
        case Int(i) =>
          var text := IntValueToString(i);
          document := document + text;
        case UInt(u) =>
          var text := UIntValueToString(u);
          document := document + text;
        case Real(r) => document := document + printReal(r);
        case Str(s) =>
          var text := ValueToQuotedString(s);
          document := document + text;
        case Bool(b) => document := document + if b then "true" else "false";
        case Arr(_) => WriteArray(value);
        case Obj(_) => WriteObject(value);
      }
      if !value.Arr? && !value.Obj? {
        LeafTextIsNoColon(View(value), printReal);
        OneToken(LeafText(View(value), printReal), yamlCompatibility);
      }
    }

    method WriteArray(value: Value)
      requires value.Arr? && Valid(value)
      modifies this`document
      ensures document == old(document) + Compact(Tokens(View(value), printReal), yamlCompatibility)
      decreases Weight(value), 0
    {
      hide Tokens, View, Compact, ElementTokens;
      ViewSize(value);
      ghost var es := View(value).elems;
      CompactArray(es, yamlCompatibility, printReal);
      document := document + "[";
      var size := Size(value);
      assert es[..0] == [];
      for index := 0 to size
        invariant document == old(document) + "[" + Compact(ElementTokens(es[..index], printReal), yamlCompatibility)
      {
        CompactElementsStep(es, index, yamlCompatibility, printReal);
        ElementFacts(value, index);
        if index > 0 {
          document := document + ",";
        }
        WriteValue(Element(value, index));
      }
      assert es[..size] == es;
      document := document + "]";
    }

    method WriteObject(value: Value)
      requires value.Obj? && Valid(value)
      modifies this`document
      ensures document == old(document) + Compact(Tokens(View(value), printReal), yamlCompatibility)
      decreases Weight(value), 0
    {
      hide Tokens, View, Compact, MembersTokens, Quoted, Valid, Find;
      ViewSize(value);
      ghost var ms := View(value).members;
      CompactObject(ms, yamlCompatibility, printReal);
      var members := MemberNames(value);
      assert ms[..0] == [];
      document := document + "{";
      for it := 0 to |members|
        invariant document == old(document) + "{" + Compact(MembersTokens(ms[..it], printReal), yamlCompatibility)
      {
        CompactMembersStep(ms, it, yamlCompatibility, printReal);
        MemberFacts(value, it);
        var name := members[it];
        if it != 0 {
          document := document + ",";
        }
        var quoted := ValueToQuotedString(name);
        document := document + quoted;
        document := document + if yamlCompatibility then ": " else ":";
        WriteValue(FindOrNull(value.entries, Name(name)));
        Associated(
          old(document) + "{", Compact(MembersTokens(ms[..it], printReal), yamlCompatibility),
          if it > 0 then "," else "", quoted, if yamlCompatibility then ": " else ":",
          Compact(Tokens(ms[it].value, printReal), yamlCompatibility));
      }
      assert ms[..|members|] == ms;
      document := document + "}";
    }
  }

  lemma Associated(a: string, b: string, c: string, d: string, e: string, f: string)
    ensures a + b + c + d + e + f == a + (b + c + d + e + f)
    ensures a + b + "" == a + b
  {
  }

  lemma ViewSize(v: Value)
    ensures v.Arr? ==> View(v).JArr? && |View(v).elems| == Size(v)
    ensures v.Obj? ==> View(v).JObj? && |View(v).members| == |v.entries|
  {
  }

  lemma LeafTextIsNoColon(j: Json, printer: RealPrinter)
    ensures LeafText(j, printer) != ":"
  {
    if j.JInt? {
      var text := IntText(j.n);
      assert IsDigit(text[0]) || text[0] == '-';
    }
  }

  lemma OneToken(t: string, yaml: bool)
    requires t != ":"
    ensures Compact([t], yaml) == t
  {
    assert Compact([t], yaml) == t + Compact([t][1..], yaml);
  }

  lemma CompactArray(es: seq<Json>, yaml: bool, printer: RealPrinter)
    ensures Compact(Tokens(JArr(es), printer), yaml) == "[" + Compact(ElementTokens(es, printer), yaml) + "]"
    ensures Compact(ElementTokens([], printer), yaml) == ""
  {
    hide ElementTokens;
    CompactConcat(["["] + ElementTokens(es, printer), ["]"], yaml);
    CompactConcat(["["], ElementTokens(es, printer), yaml);
    OneToken("[", yaml);
    OneToken("]", yaml);
    assert ElementTokens([], printer) == [] by { NoTokens(printer); }
  }

  lemma NoTokens(printer: RealPrinter)
    ensures ElementTokens([], printer) == [] && MembersTokens([], printer) == []
  {
  }

  lemma CompactObject(ms: seq<Member>, yaml: bool, printer: RealPrinter)
    ensures Compact(Tokens(JObj(ms), printer), yaml) == "{" + Compact(MembersTokens(ms, printer), yaml) + "}"
    ensures Compact(MembersTokens([], printer), yaml) == ""
  {
    hide MembersTokens;
    CompactConcat(["{"] + MembersTokens(ms, printer), ["}"], yaml);
    CompactConcat(["{"], MembersTokens(ms, printer), yaml);
    OneToken("{", yaml);
    OneToken("}", yaml);
    assert MembersTokens([], printer) == [] by { NoTokens(printer); }
  }

  // ---------------------------------------------------------------- StyledWriter

  lemma TextLengthStep(es: seq<Json>, i: nat, printer: RealPrinter)
    requires i < |es|
    ensures TextLength(es[..i + 1], printer) == TextLength(es[..i], printer) + |LeafText(es[i], printer)|
  {
    assert es[..i + 1][..i] == es[..i];
  }

  lemma JoinTextsStep(es: seq<Json>, i: nat, printer: RealPrinter)
    requires i < |es|
    ensures JoinTexts(es[..i + 1], printer) ==
      JoinTexts(es[..i], printer) + (if i > 0 then ", " else "") + LeafText(es[i], printer)
  {
    assert es[..i + 1][..i] == es[..i];
  }

  function Texts(es: seq<Json>, printer: RealPrinter): seq<string> {
    seq(|es|, i requires 0 <= i < |es| => LeafText(es[i], printer))
  }

  // The loop over the remaining children, one turn unrolled.
  lemma StyledElementsStep(text: string, indent: string, es: seq<Json>, i: nat, printer: RealPrinter)
    requires i < |es|
    ensures StyledElements(text, indent, es[i..], printer) ==
      StyledElements(Styled(NewLine(text, indent), indent, es[i], printer) + CommaText(|es| - i),
                     indent, es[i + 1..], printer)
  {
    assert es[i..][1..] == es[i + 1..];
  }

  lemma StyledMembersStep(text: string, indent: string, ms: seq<Member>, i: nat, printer: RealPrinter)
    requires i < |ms|
    ensures StyledMembers(text, indent, ms[i..], printer) ==
      StyledMembers(StyledMember(text, indent, ms[i], printer) + CommaText(|ms| - i), indent, ms[i + 1..], printer)
  {
    assert ms[i..][1..] == ms[i + 1..];
  }

  // What the array test of the source asks of a child.
  predicate HasSize(v: Value) {
    (v.Null? || v.Arr? || v.Obj?) && Size(v) > 0
  }

  lemma HasSizeIsHasChildren(v: Value)
    requires Valid(v)
    ensures HasSize(v) <==> HasChildren(View(v))
  {
  }

  class StyledWriter {
    var document: string
    // The texts of the elements of the array being measured. The recursion shares and
    // overwrites it.
    var childValues: seq<string>
    var addChildValues: bool
    var indentString: string
    const printReal: RealPrinter

    constructor (printReal: RealPrinter)
      ensures this.printReal == printReal
    {
      document, childValues, addChildValues, indentString := "", [], false, "";
      this.printReal := printReal;
    }

    method Write(root: Value) returns (text: string)
      requires Valid(root)
      modifies this
      ensures text == document == StyledDocument(root, printReal)
      ensures RealsShaped(View(root), printReal) ==>
        && text == JsonIndent.Joined(JsonIndent.Lines(View(root), 0, "", "", printReal))
        && forall i :: 0 <= i < |text| && JsonIndent.IsLineStart(text, i) ==> JsonIndent.IsIndentedAt(text, i)
    {
      hide JsonIndent.Joined, JsonIndent.Lines, JsonIndent.IsIndentedAt, JsonIndent.IsLineStart, Styled, RealsShaped;
      document := "";
      addChildValues := false;
      indentString := "";
      WriteValue(root);
      document := document + "\n";
      text := document;
      if RealsShaped(View(root), printReal) {
        JsonIndent.DocumentIsLines(View(root), printReal);
        JsonIndent.DocumentIsIndented(View(root), printReal);
      }
    }

    method PushValue(value: string)
      modifies this`document, this`childValues
      ensures if addChildValues then childValues == old(childValues) + [value] && document == old(document)
        else document == old(document) + value && childValues == old(childValues)
    {
      if addChildValues {
        childValues := childValues + [value];
      } else {
        document := document + value;
      }
    }

    method WriteIndent()
      modifies this`document
      ensures document == NewLine(old(document), indentString)
    {
      if document != "" {
        var last := document[|document| - 1];
        if last == ' ' {
          return;
        }
        if last != '\n' {
          document := document + "\n";
        }
      }
      document := document + indentString;
    }

    method WriteWithIndent(value: string)
      modifies this`document
      ensures document == NewLine(old(document), indentString) + value
    {
      WriteIndent();
      document := document + value;
    }

    method IndentMore()
      modifies this`indentString
      ensures indentString == old(indentString) + INDENT
    {
      indentString := indentString + seq(3, _ => ' ');
    }

    method Unindent()
      requires |indentString| >= |INDENT|
      modifies this`indentString
      ensures indentString == old(indentString)[..|old(indentString)| - |INDENT|]
    {
      indentString := indentString[..|indentString| - 3];
    }

    // While texts are being collected only childless values are written, and each adds
    // its one text; otherwise the value is appended to the document, and the collected
    // texts are left to whatever the recursion made of them.
    method WriteValue(value: Value)
      requires Valid(value) && (addChildValues ==> !HasChildren(View(value)))
      modifies this
      ensures addChildValues == old(addChildValues) && indentString == old(indentString)
      ensures if addChildValues then
          document == old(document) && childValues == old(childValues) + [LeafText(View(value), printReal)]
        else document == Styled(old(document), indentString, View(value), printReal)
      decreases Weight(value), 2
    {
      match value {
        case Null => PushValue("null");
        case Int(i) =>
          var text := IntValueToString(i);
          PushValue(text);
        case UInt(u) =>
          var text := UIntValueToString(u);
          PushValue(text);
        case Real(r) => PushValue(printReal(r));
        case Str(s) =>
          var text := ValueToQuotedString(s);
          PushValue(text);
        case Bool(b) => PushValue(if b then "true" else "false");
        case Arr(_) => WriteArrayValue(value);
        case Obj(_) => WriteObjectValue(value);
      }
    }

    method WriteObjectValue(value: Value)
      requires value.Obj? && Valid(value) && (addChildValues ==> !HasChildren(View(value)))
      modifies this
      ensures addChildValues == old(addChildValues) && indentString == old(indentString)
      ensures if addChildValues then
          document == old(document) && childValues == old(childValues) + [LeafText(View(value), printReal)]
        else document == Styled(old(document), indentString, View(value), printReal)
      decreases Weight(value), 1
    {
      hide Quoted, StyledMembers, StyledMember, Find, Valid;
      ViewSize(value);
      var members := MemberNames(value);
      if |members| == 0 {
        PushValue("{}");
        return;
      }
      ghost var ms := View(value).members;
      ghost var indent := indentString + INDENT;
      WriteWithIndent("{");
      IndentMore();
      var it := 0;
      assert ms[0..] == ms;
      ghost var body := StyledMembers(document, indent, ms, printReal);
      while true
        invariant it < |members| == |ms|
        invariant !addChildValues && indentString == indent
        invariant StyledMembers(document, indent, ms[it..], printReal) == body
        decreases |members| - it
      {
        StyledMembersStep(document, indent, ms, it, printReal);
        MemberFacts(value, it);
        var name := members[it];
        var childValue := FindOrNull(value.entries, Name(name));
        WriteMember(name, childValue);
        it := it + 1;
        if it == |members| {
          break;
        }
        document := document + ",";
      }
      LastChild(document, indent, [], ms, printReal);
      Unindent();
      WriteWithIndent("}");
    }

    method WriteMember(name: string, value: Value)
      requires Valid(value) && NulFree(name) && !addChildValues
      modifies this
      ensures !addChildValues && indentString == old(indentString)
      ensures document == StyledMember(old(document), indentString, Member(name, View(value)), printReal)
      decreases Weight(value), 3
    {
      hide Quoted, Styled, NewLine, Valid, View;
      var quoted := ValueToQuotedString(name);
      WriteWithIndent(quoted);
      document := document + " : ";
      WriteValue(value);
    }

    method WriteArrayValue(value: Value)
      requires value.Arr? && Valid(value) && (addChildValues ==> !HasChildren(View(value)))
      modifies this
      ensures addChildValues == old(addChildValues) && indentString == old(indentString)
      ensures if addChildValues then
          document == old(document) && childValues == old(childValues) + [LeafText(View(value), printReal)]
        else document == Styled(old(document), indentString, View(value), printReal)
      decreases Weight(value), 1
    {
      ViewSize(value);
      if Size(value) == 0 {
        PushValue("[]");
        return;
      }
      var isArrayMultiLine := IsMultilineArray(value);
      if isArrayMultiLine {
        WriteMultilineArray(value);
      } else {
        WriteOneLineArray(value);
      }
    }

    // Measures an array; unless a child rules the single line out beforehand, the texts of
    // all its elements are collected on the way.
    method IsMultilineArray(value: Value) returns (isMultiLine: bool)
      requires value.Arr? && Valid(value) && !addChildValues && Size(value) > 0
      requires View(value).JArr? && |View(value).elems| == Size(value)
      modifies this
      ensures !addChildValues && document == old(document) && indentString == old(indentString)
      ensures isMultiLine == !FitsOnLine(View(value).elems, printReal)
      ensures (isMultiLine && childValues == []) || HoldsTexts(View(value).elems)
      decreases Weight(value), 0
    {
      hide View, LeafText;
      ghost var es := View(value).elems;
      var size := Size(value);
      isMultiLine := size * 3 >= RIGHT_MARGIN;
      childValues := [];
      var index := 0;
      while index < size && !isMultiLine
        invariant 0 <= index <= size && (isMultiLine || size * 3 < RIGHT_MARGIN)
        invariant !addChildValues && childValues == []
        invariant document == old(document) && indentString == old(indentString)
        invariant isMultiLine ==> !FitsOnLine(es, printReal)
        invariant !isMultiLine ==> forall i :: 0 <= i < index ==> !HasChildren(es[i])
      {
        ElementFacts(value, index);
        HasSizeIsHasChildren(Element(value, index));
        isMultiLine := HasSize(Element(value, index));
        index := index + 1;
      }
      if isMultiLine {
        return;
      }
      addChildValues := true;
      var lineLength := 4 + (size - 1) * 2;
      index := 0;
      assert es[..0] == [] && es[..size] == es;
      while index < size
        invariant 0 <= index <= size && addChildValues
        invariant document == old(document) && indentString == old(indentString)
        invariant childValues == Texts(es, printReal)[..index]
        invariant lineLength == 4 + (size - 1) * 2 + TextLength(es[..index], printReal)
      {
        ElementFacts(value, index);
        TextLengthStep(es, index, printReal);
        WriteValue(Element(value, index));
        lineLength := lineLength + |childValues[index]|;
        index := index + 1;
      }
      addChildValues := false;
      isMultiLine := lineLength >= RIGHT_MARGIN;
    }

    // One text per element, and no element with children of its own.
    ghost predicate HoldsTexts(es: seq<Json>)
      reads this
    {
      childValues == Texts(es, printReal) && forall i :: 0 <= i < |es| ==> !HasChildren(es[i])
    }

    method WriteOneLineArray(value: Value)
      requires value.Arr? && !addChildValues && View(value).JArr? && View(value).elems != []
      requires HoldsTexts(View(value).elems) && FitsOnLine(View(value).elems, printReal)
      requires Size(value) == |View(value).elems|
      modifies this`document
      ensures document == Styled(old(document), indentString, View(value), printReal)
    {
      hide View, LeafText;
      ghost var es := View(value).elems;
      var size := Size(value);
      assert |childValues| == size && es[..0] == [] && es[..size] == es;
      document := document + "[ ";
      for index := 0 to size
        invariant document == old(document) + "[ " + JoinTexts(es[..index], printReal)
      {
        JoinTextsStep(es, index, printReal);
        if index > 0 {
          document := document + ", ";
        }
        document := document + childValues[index];
      }
      document := document + " ]";
    }

    method WriteMultilineArray(value: Value)
      requires value.Arr? && Valid(value) && !addChildValues && View(value).JArr? && View(value).elems != []
      requires Size(value) == |View(value).elems| && !FitsOnLine(View(value).elems, printReal)
      requires childValues == [] || HoldsTexts(View(value).elems)
      modifies this
      ensures !addChildValues && indentString == old(indentString)
      ensures document == Styled(old(document), indentString, View(value), printReal)
      decreases Weight(value), 0
    {
      hide StyledElements, View, LeafText, Valid, FitsOnLine, NewLine, HasChildren, JoinTexts, Find, FindOrNull;
      ghost var es := View(value).elems;
      ghost var indent := indentString + INDENT;
      var size := Size(value);
      WriteWithIndent("[");
      IndentMore();
      var hasChildValue := childValues != [];
      var index := 0;
      assert es[0..] == es;
      ghost var body := StyledElements(document, indent, es, printReal);
      while true
        invariant 0 <= index < size && !addChildValues && indentString == indent
        invariant hasChildValue ==> HoldsTexts(es)
        invariant StyledElements(document, indent, es[index..], printReal) == body
        decreases size - index
      {
        StyledElementsStep(document, indent, es, index, printReal);
        ElementFacts(value, index);
        if hasChildValue {
          ChildlessStyled(NewLine(document, indent), indent, es[index], printReal);
          WriteWithIndent(childValues[index]);
        } else {
          WriteIndent();
          WriteValue(Element(value, index));
        }
        index := index + 1;
        if index == size {
          break;
        }
        document := document + ",";
      }
      LastChild(document, indent, es, [], printReal);
      Unindent();
      WriteWithIndent("]");
    }
  }

  lemma ChildlessStyled(text: string, indent: string, j: Json, printer: RealPrinter)
    requires !HasChildren(j)
    ensures Styled(text, indent, j, printer) == text + LeafText(j, printer)
  {
  }

  lemma LastChild(text: string, indent: string, es: seq<Json>, ms: seq<Member>, printer: RealPrinter)
    ensures StyledElements(text, indent, es[|es|..], printer) == text
    ensures StyledMembers(text, indent, ms[|ms|..], printer) == text
    ensures text + CommaText(1) == text
  {
  }
}
