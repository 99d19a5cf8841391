/** The recursive descent of `Reader` as a function of the document: what is read from a
    position, where reading stops, and which errors are recorded. */
module JsonParser {
  import opened JsonValue
  import opened JsonNumber
  import opened JsonString
  import opened JsonLexer

  // The document, the reader features that matter to it, and the foreign real scanner.
  datatype Source = Source(doc: string, allowComments: bool, strictRoot: bool, scan: RealScanner)

  datatype ErrorInfo = ErrorInfo(token: Token, message: ErrorText, extra: Option<nat>)

  datatype Outcome = Outcome(ok: bool, pos: nat, value: Value, errors: seq<ErrorInfo>)

  function Text(doc: string, t: Token): string
    requires t.start <= t.end <= |doc|
  {
    doc[t.start..t.end]
  }

  function ReadValueToken(src: Source, pos: nat): (t: Token)
    requires pos <= |src.doc|
    ensures pos <= t.start <= t.end <= |src.doc|
    ensures t.kind != EndOfStream ==> t.start < t.end
    ensures t.kind == StringToken ==> t.start + 2 <= t.end
  {
    if src.allowComments then ReadNonComment(src.doc, pos) else ReadToken(src.doc, pos)
  }

  function Succeed(t: Token, v: Value): Outcome {
    Outcome(true, t.end, v, [])
  }

  function Fail(pos: nat, v: Value, t: Token, message: ErrorText, extra: Option<nat>): Outcome {
    Outcome(false, pos, v, [ErrorInfo(t, message, extra)])
  }

  function FailAndRecover(src: Source, v: Value, t: Token, message: ErrorText, kind: TokenType): Outcome
    requires t.end <= |src.doc|
  {
    Fail(Recover(src.doc, t.end, kind), v, t, message, None)
  }

  // What every read guarantees, on every document: the cursor stays inside it and moves
  // on success, and success is the absence of recorded errors.
  predicate Progress(src: Source, pos: nat, r: Outcome) {
    && pos <= r.pos <= |src.doc|
    && (r.ok ==> pos < r.pos)
    && (r.ok <==> r.errors == [])
  }

  function ReadValue(src: Source, pos: nat, current: Value): (r: Outcome)
    requires pos <= |src.doc|
    ensures Progress(src, pos, r)
    decreases |src.doc| - pos, 2
  {
    var t := ReadValueToken(src, pos);
    match t.kind
    case ObjectBegin => ReadMembers(src, t.end, "", [])
    case ArrayBegin => ReadArray(src, t.end)
    case NumberToken =>
      (match DecodeNumber(Text(src.doc, t), src.scan)
       case Some(v) => Succeed(t, v)
       case None => Fail(t.end, current, t, NotANumber, None))
    case StringToken =>
      (match DecodeBody(src.doc, t.start + 1, t.end - 1)
       case Decoded(text) => Succeed(t, Str(CString(text)))
       case BadString(m, x) => Fail(t.end, current, t, m, Some(x)))
    case TrueToken => Succeed(t, Bool(true))
    case FalseToken => Succeed(t, Bool(false))
    case NullToken => Succeed(t, Null)
    case _ => Fail(t.end, current, t, ValueExpected, None)
  }

  // One turn of the object loop either leaves it or has stored one more member.
  datatype Turn = Leave(r: Outcome) | Again(pos: nat, name: string, m: ObjectValues)

  // The object loop: name is the last member name read, m the members so far.
  function ReadMembers(src: Source, pos: nat, name: string, m: ObjectValues): (r: Outcome)
    requires pos <= |src.doc|
    ensures pos <= r.pos <= |src.doc|
    ensures r.ok <==> r.errors == []
    decreases |src.doc| - pos, 4
  {
    match ReadMember(src, pos, name, m)
    case Leave(r) => r
    case Again(next, newName, m') => ReadMembers(src, next, newName, m')
  }

  function ReadMember(src: Source, pos: nat, name: string, m: ObjectValues): (turn: Turn)
    requires pos <= |src.doc|
    ensures turn.Leave? ==> pos <= turn.r.pos <= |src.doc| && (turn.r.ok <==> turn.r.errors == [])
    ensures turn.Again? ==> pos < turn.pos <= |src.doc|
    decreases |src.doc| - pos, 3
  {
    var t := ReadNonComment(src.doc, pos);
    if t.kind == ObjectEnd && name == "" then Leave(Outcome(true, t.end, Obj(m), []))
    else if t.kind != StringToken then Leave(FailAndRecover(src, Obj(m), t, MissingBraceOrName, ObjectEnd))
    else
      var newName := DecodeBody(src.doc, t.start + 1, t.end - 1);
      if newName.Decoded? then AfterName(src, t.end, newName.text, m)
      else Leave(Fail(Recover(src.doc, t.end, ObjectEnd), Obj(m), t, newName.message, Some(newName.extra)))
  }

  // The middle of a turn, once the member name has been read.
  function AfterName(src: Source, pos: nat, name: string, m: ObjectValues): (turn: Turn)
    requires pos <= |src.doc|
    ensures turn.Leave? ==> pos <= turn.r.pos <= |src.doc| && (turn.r.ok <==> turn.r.errors == [])
    ensures turn.Again? ==> pos < turn.pos <= |src.doc|
    decreases |src.doc| - pos, 3
  {
    var colon := ReadToken(src.doc, pos);
    if colon.kind != MemberSeparator then Leave(FailAndRecover(src, Obj(m), colon, MissingColon, ObjectEnd))
    else
      var key := Name(CString(name));
      var r := ReadValue(src, colon.end, FindOrNull(m, key));
      AfterMember(src, r, name, Store(m, key, r.value))
  }

  // The end of a turn, once the member value has been read.
  function AfterMember(src: Source, r: Outcome, name: string, m: ObjectValues): (turn: Turn)
    requires r.pos <= |src.doc| && (r.ok <==> r.errors == [])
    ensures turn.Leave? ==> r.pos <= turn.r.pos <= |src.doc| && (turn.r.ok <==> turn.r.errors == [])
    ensures turn.Leave? ==> turn.r.value == Obj(m)
    ensures turn.Again? ==> r.ok && r.pos <= turn.pos <= |src.doc| && turn.m == m
  {
    if !r.ok then Leave(Outcome(false, Recover(src.doc, r.pos, ObjectEnd), Obj(m), r.errors))
    else
      var comma := ReadToken(src.doc, r.pos);
      if comma.kind !in {ObjectEnd, ArraySeparator, CommentToken} then
        Leave(FailAndRecover(src, Obj(m), comma, MissingCommaOrBrace, ObjectEnd))
      else
        var last := if comma.kind == CommentToken then ReadNonComment(src.doc, comma.end) else comma;
        if last.kind == ObjectEnd then Leave(Outcome(true, last.end, Obj(m), []))
        else Again(last.end, name, m)
  }

  function ReadArray(src: Source, pos: nat): (r: Outcome)
    requires pos <= |src.doc|
    ensures pos <= r.pos <= |src.doc|
    ensures r.ok <==> r.errors == []
    decreases |src.doc| - pos, 4
  {
    var first := SkipSpaces(src.doc, pos);
    if first < |src.doc| && src.doc[first] == ']' then Outcome(true, first + 1, Arr([]), [])
    else ReadElements(src, first, 0, [])
  }

  // The array loop. Any token but the closing bracket is taken for a separator: the test
  // of the source for a bad one is a conjunction that never holds.
  function ReadElements(src: Source, pos: nat, index: nat, m: ObjectValues): (r: Outcome)
    requires pos <= |src.doc|
    ensures pos <= r.pos <= |src.doc|
    ensures r.ok <==> r.errors == []
    decreases |src.doc| - pos, 3
  {
    var r := ReadValue(src, pos, FindOrNull(m, Index(index)));
    var m' := Store(m, Index(index), r.value);
    if !r.ok then Outcome(false, Recover(src.doc, r.pos, ArrayEnd), Arr(m'), r.errors)
    else
      var t := ReadNonComment(src.doc, r.pos);
      if t.kind == ArrayEnd then Outcome(true, t.end, Arr(m'), [])
      else ReadElements(src, t.end, index + 1, m')
  }

  predicate CountsAsContainer(v: Value) {
    v.Null? || v.Arr? || v.Obj?
  }

  // The whole parse: one value, then any comments; what follows them is not looked at.
  function Parse(src: Source, root: Value): (r: Outcome)
    ensures r.pos <= |src.doc|
    ensures r.ok <==> r.errors == []
  {
    var r := ReadValue(src, 0, root);
    var t := ReadValueToken(src, r.pos);
    if src.strictRoot && !CountsAsContainer(r.value) then
      Outcome(false, t.end, r.value,
        r.errors + [ErrorInfo(Token(ErrorToken, 0, |src.doc|), RootNotContainer, None)])
    else Outcome(r.ok, t.end, r.value, r.errors)
  }

  // ---------------------------------------------------------------- validity

  // Whatever the document, and whether or not it is well-formed, the tree left behind
  // satisfies the invariant of `Value`.
  lemma {:induction false} ReadValueKeepsValid(src: Source, pos: nat, current: Value)
    requires pos <= |src.doc| && Valid(current)
    ensures Valid(ReadValue(src, pos, current).value)
    decreases |src.doc| - pos, 2
  {
    var t := ReadValueToken(src, pos);
    match t.kind {
      case ObjectBegin => ReadMembersKeepsValid(src, t.end, "", []);
      case ArrayBegin => ReadElementsKeepsValid(src, SkipSpaces(src.doc, t.end), 0, []);
      case NumberToken => DecodedNumberIsValid(Text(src.doc, t), src.scan);
      case _ =>
    }
  }

  lemma {:induction false} ReadMembersKeepsValid(src: Source, pos: nat, name: string, m: ObjectValues)
    requires pos <= |src.doc| && Valid(Obj(m))
    ensures Valid(ReadMembers(src, pos, name, m).value)
    decreases |src.doc| - pos, 4
  {
    ReadMemberKeepsValid(src, pos, name, m);
    match ReadMember(src, pos, name, m) {
      case Leave(_) =>
      case Again(next, newName, m') => ReadMembersKeepsValid(src, next, newName, m');
    }
  }

  predicate ValidTurn(turn: Turn) {
    if turn.Leave? then Valid(turn.r.value) else Valid(Obj(turn.m))
  }

  lemma {:induction false} ReadMemberKeepsValid(src: Source, pos: nat, name: string, m: ObjectValues)
    requires pos <= |src.doc| && Valid(Obj(m))
    ensures ValidTurn(ReadMember(src, pos, name, m))
    decreases |src.doc| - pos, 3
  {
    hide ReadToken, Recover, DecodeBody, AfterName;
    var t := ReadNonComment(src.doc, pos);
    if t.kind == StringToken && DecodeBody(src.doc, t.start + 1, t.end - 1).Decoded? {
      AfterNameKeepsValid(src, t.end, DecodeBody(src.doc, t.start + 1, t.end - 1).text, m);
    }
  }

  lemma {:induction false} AfterNameKeepsValid(src: Source, pos: nat, name: string, m: ObjectValues)
    requires pos <= |src.doc| && Valid(Obj(m))
    ensures ValidTurn(AfterName(src, pos, name, m))
    decreases |src.doc| - pos, 3
  {
    var colon := ReadToken(src.doc, pos);
    if colon.kind == MemberSeparator {
      var key := Name(CString(name));
      FindOrNullIsValid(m, key);
      ReadValueKeepsValid(src, colon.end, FindOrNull(m, key));
      StoreMemberIsValid(m, CString(name), ReadValue(src, colon.end, FindOrNull(m, key)).value);
    }
  }

  lemma {:induction false} ReadElementsKeepsValid(src: Source, pos: nat, index: nat, m: ObjectValues)
    requires pos <= |src.doc| && Valid(Arr(m))
    ensures Valid(ReadElements(src, pos, index, m).value)
    decreases |src.doc| - pos, 3
  {
    FindOrNullIsValid(m, Index(index));
    ReadValueKeepsValid(src, pos, FindOrNull(m, Index(index)));
    var r := ReadValue(src, pos, FindOrNull(m, Index(index)));
    StoreElementIsValid(m, index, r.value);
    if r.ok {
      var t := ReadNonComment(src.doc, r.pos);
      ReadElementsKeepsValid(src, t.end, index + 1, Store(m, Index(index), r.value));
    }
  }

  lemma FindOrNullIsValid(m: ObjectValues, k: CZString)
    requires ValidAll(m)
    ensures Valid(FindOrNull(m, k))
  {
    var p := LowerBound(m, k);
    assert p < |m| ==> ValidEntry(m[p]);
  }

  lemma StoreIsValid(m: ObjectValues, k: CZString, v: Value)
    requires ValidAll(m) && Sorted(m) && AllSameKind(m, k) && Valid(v)
    ensures ValidAll(Store(m, k, v)) && Sorted(Store(m, k, v))
  {
    StoreKeepsSorted(m, k, v);
    assert ValidEntry(Entry(k, v));
  }

  lemma StoreMemberIsValid(m: ObjectValues, name: string, v: Value)
    requires Valid(Obj(m)) && NulFree(name) && Valid(v)
    ensures Valid(Obj(Store(m, Name(name), v)))
  {
    StoreIsValid(m, Name(name), v);
  }

  lemma StoreElementIsValid(m: ObjectValues, index: nat, v: Value)
    requires Valid(Arr(m)) && Valid(v)
    ensures Valid(Arr(Store(m, Index(index), v)))
  {
    StoreIsValid(m, Index(index), v);
  }

  lemma DecodedNumberIsValid(t: string, scan: RealScanner)
    ensures DecodeNumber(t, scan).Some? ==> Valid(DecodeNumber(t, scan).value)
  {
    var digits := Unsigned(t);
    AccumulatorNeverOverflows(digits, 0, Threshold(IsNegative(t)), |digits|);
    assert digits[..|digits|] == digits;
  }

  lemma ParseIsValid(src: Source, root: Value)
    requires Valid(root)
    ensures Valid(Parse(src, root).value)
  {
    ReadValueKeepsValid(src, 0, root);
  }

  // ---------------------------------------------------------------- what is refused

  // A comment before a value is skipped if comments are allowed; otherwise it is no value.
  lemma CommentBeforeValue(src: Source, pos: nat, end: nat, current: Value)
    requires pos <= |src.doc| && SkipSpaces(src.doc, pos) + 2 <= end <= |src.doc|
    requires IsComment(src.doc, SkipSpaces(src.doc, pos), end)
    ensures ReadValue(src, pos, current) ==
      if src.allowComments then ReadValue(src, end, current)
      else Fail(end, current, Token(CommentToken, SkipSpaces(src.doc, pos), end), ValueExpected, None)
  {
    hide ReadToken, ReadNonComment, SkipSpaces, DecodeNumber, DecodeBody, ReadMembers, ReadArray;
    CommentIsToken(src.doc, pos, end);
  }

  lemma ClosingTokens(doc: string, pos: nat)
    requires pos <= |doc|
    ensures var t := ReadToken(doc, pos);
      (t.kind == ObjectEnd ==> doc[t.end - 1] == '}') && (t.kind == ArrayEnd ==> doc[t.end - 1] == ']')
  {
  }

  lemma {:induction false} ClosingNonComment(doc: string, pos: nat)
    requires pos <= |doc|
    ensures var t := ReadNonComment(doc, pos);
      (t.kind == ObjectEnd ==> doc[t.end - 1] == '}') && (t.kind == ArrayEnd ==> doc[t.end - 1] == ']')
    decreases |doc| - pos
  {
    hide ReadToken;
    ClosingTokens(doc, pos);
    var t := ReadToken(doc, pos);
    if t.kind == CommentToken {
      ClosingNonComment(doc, t.end);
    }
  }

  // An object that is read ends at its closing brace, ...
  lemma {:induction false} ObjectEndsAtBrace(src: Source, pos: nat, name: string, m: ObjectValues)
    requires pos <= |src.doc| && ReadMembers(src, pos, name, m).ok
    ensures var end := ReadMembers(src, pos, name, m).pos; pos < end && src.doc[end - 1] == '}'
    decreases |src.doc| - pos
  {
    hide ReadMember;
    TurnEnds(src, pos, name, m);
    match ReadMember(src, pos, name, m) {
      case Again(next, newName, m') => ObjectEndsAtBrace(src, next, newName, m');
      case Leave(_) =>
    }
  }

  lemma TurnEnds(src: Source, pos: nat, name: string, m: ObjectValues)
    requires pos <= |src.doc|
    ensures var turn := ReadMember(src, pos, name, m);
      turn.Leave? && turn.r.ok ==> pos < turn.r.pos && src.doc[turn.r.pos - 1] == '}'
  {
    hide ReadToken, ReadNonComment, DecodeBody, ReadValue, Recover, Store, Find, AfterName, AfterMember;
    ClosingNonComment(src.doc, pos);
    var t := ReadNonComment(src.doc, pos);
    if t.kind == StringToken && DecodeBody(src.doc, t.start + 1, t.end - 1).Decoded? {
      NamedTurnEnds(src, t.end, DecodeBody(src.doc, t.start + 1, t.end - 1).text, m);
    }
  }

  lemma NamedTurnEnds(src: Source, pos: nat, name: string, m: ObjectValues)
    requires pos <= |src.doc|
    ensures var turn := AfterName(src, pos, name, m);
      turn.Leave? && turn.r.ok ==> pos < turn.r.pos && src.doc[turn.r.pos - 1] == '}'
  {
    hide ReadToken, ReadNonComment, ReadValue, Recover, Store, Find, AfterMember;
    var colon := ReadToken(src.doc, pos);
    if colon.kind == MemberSeparator {
      var key := Name(CString(name));
      var r := ReadValue(src, colon.end, FindOrNull(m, key));
      MemberEnds(src, r, name, Store(m, key, r.value));
    }
  }

  lemma MemberEnds(src: Source, r: Outcome, name: string, m: ObjectValues)
    requires r.pos <= |src.doc| && (r.ok <==> r.errors == [])
    ensures var turn := AfterMember(src, r, name, m);
      turn.Leave? && turn.r.ok ==> r.pos < turn.r.pos && src.doc[turn.r.pos - 1] == '}'
  {
    hide ReadToken, ReadNonComment, Recover;
    ClosingTokens(src.doc, r.pos);
    ClosingNonComment(src.doc, ReadToken(src.doc, r.pos).end);
  }

  // ... and an array at its closing bracket.
  lemma {:induction false} ArrayEndsAtBracket(src: Source, pos: nat, index: nat, m: ObjectValues)
    requires pos <= |src.doc| && ReadElements(src, pos, index, m).ok
    ensures var end := ReadElements(src, pos, index, m).pos; pos < end && src.doc[end - 1] == ']'
    decreases |src.doc| - pos
  {
    hide ReadToken, ReadNonComment, ReadValue, Recover, Store, Find;
    var r := ReadValue(src, pos, FindOrNull(m, Index(index)));
    var t := ReadNonComment(src.doc, r.pos);
    ClosingNonComment(src.doc, r.pos);
    if t.kind != ArrayEnd {
      ArrayEndsAtBracket(src, t.end, index + 1, Store(m, Index(index), r.value));
    }
  }

  // So a document cut off inside an object or an array is refused.
  lemma TruncatedIsRefused(src: Source, pos: nat, current: Value)
    requires pos <= |src.doc|
    requires var t := ReadValueToken(src, pos);
      || (t.kind == ObjectBegin && forall i :: t.end <= i < |src.doc| ==> src.doc[i] != '}')
      || (t.kind == ArrayBegin && forall i :: t.end <= i < |src.doc| ==> src.doc[i] != ']')
    ensures !ReadValue(src, pos, current).ok
  {
    hide ReadToken, ReadNonComment, SkipSpaces, ReadMember, ReadElements;
    var t := ReadValueToken(src, pos);
    if ReadValue(src, pos, current).ok {
      assert t.kind == ArrayBegin ==> ReadValue(src, pos, current) == ReadArray(src, t.end);
      if t.kind == ObjectBegin {
        ObjectEndsAtBrace(src, t.end, "", []);
      } else {
        var first := SkipSpaces(src.doc, t.end);
        if first == |src.doc| || src.doc[first] != ']' {
          ArrayEndsAtBracket(src, first, 0, []);
        }
      }
    }
  }

  // Within an object a name is expected first, unless it is closed at once; then a colon,
  // and behind the value a comma, the closing brace or a comment. Whatever else stands
  // there is the one error reported, and the object is not read.
  lemma ObjectSyntax(src: Source, pos: nat, name: string, m: ObjectValues)
    requires pos <= |src.doc|
    ensures var t := ReadNonComment(src.doc, pos);
      var r := ReadMembers(src, pos, name, m);
      && (t.kind != StringToken && !(t.kind == ObjectEnd && name == "") ==>
            !r.ok && r.errors == [ErrorInfo(t, MissingBraceOrName, None)])
      && (t.kind == StringToken && DecodeBody(src.doc, t.start + 1, t.end - 1).Decoded? ==>
            var colon := ReadToken(src.doc, t.end);
            var key := Name(CString(DecodeBody(src.doc, t.start + 1, t.end - 1).text));
            && (colon.kind != MemberSeparator ==> !r.ok && r.errors == [ErrorInfo(colon, MissingColon, None)])
            && (colon.kind == MemberSeparator ==>
                  var v := ReadValue(src, colon.end, FindOrNull(m, key));
                  var comma := ReadToken(src.doc, v.pos);
                  && (!v.ok ==> !r.ok && r.errors == v.errors)
                  && (v.ok && comma.kind !in {ObjectEnd, ArraySeparator, CommentToken} ==>
                        !r.ok && r.errors == [ErrorInfo(comma, MissingCommaOrBrace, None)])))
  {
    hide ReadToken, ReadNonComment, DecodeBody, ReadValue, Recover, Store, Find, AfterName;
    var t := ReadNonComment(src.doc, pos);
    if t.kind == StringToken && DecodeBody(src.doc, t.start + 1, t.end - 1).Decoded? {
      var text := DecodeBody(src.doc, t.start + 1, t.end - 1).text;
      assert ReadMember(src, pos, name, m) == AfterName(src, t.end, text, m);
      MemberSyntax(src, t.end, text, m);
    }
  }

  lemma MemberSyntax(src: Source, pos: nat, name: string, m: ObjectValues)
    requires pos <= |src.doc|
    ensures var colon := ReadToken(src.doc, pos);
      var turn := AfterName(src, pos, name, m);
      && (colon.kind != MemberSeparator ==>
            turn.Leave? && !turn.r.ok && turn.r.errors == [ErrorInfo(colon, MissingColon, None)])
      && (colon.kind == MemberSeparator ==>
            var v := ReadValue(src, colon.end, FindOrNull(m, Name(CString(name))));
            var comma := ReadToken(src.doc, v.pos);
            && (!v.ok ==> turn.Leave? && !turn.r.ok && turn.r.errors == v.errors)
            && (v.ok && comma.kind !in {ObjectEnd, ArraySeparator, CommentToken} ==>
                  turn.Leave? && !turn.r.ok && turn.r.errors == [ErrorInfo(comma, MissingCommaOrBrace, None)]))
  {
    hide ReadToken, ReadNonComment, ReadValue, Recover, Store, Find;
  }

  // A failed read reports a single error, however deep it happened and whatever recovery
  // went past.
  lemma {:induction false} OneError(src: Source, pos: nat, current: Value)
    requires pos <= |src.doc| && !ReadValue(src, pos, current).ok
    ensures |ReadValue(src, pos, current).errors| == 1
    decreases |src.doc| - pos, 2
  {
    hide ReadToken, ReadNonComment, SkipSpaces, DecodeNumber, DecodeBody, ReadMember, ReadElements;
    var t := ReadValueToken(src, pos);
    match t.kind {
      case ObjectBegin => OneErrorInObject(src, t.end, "", []);
      case ArrayBegin =>
        var first := SkipSpaces(src.doc, t.end);
        if first == |src.doc| || src.doc[first] != ']' {
          OneErrorInArray(src, first, 0, []);
        }
      case _ =>
    }
  }

  lemma {:induction false} OneErrorInObject(src: Source, pos: nat, name: string, m: ObjectValues)
    requires pos <= |src.doc| && !ReadMembers(src, pos, name, m).ok
    ensures |ReadMembers(src, pos, name, m).errors| == 1
    decreases |src.doc| - pos, 4
  {
    hide ReadMember;
    OneErrorInMember(src, pos, name, m);
    match ReadMember(src, pos, name, m) {
      case Again(next, newName, m') => OneErrorInObject(src, next, newName, m');
      case Leave(_) =>
    }
  }

  lemma {:induction false} OneErrorInMember(src: Source, pos: nat, name: string, m: ObjectValues)
    requires pos <= |src.doc|
    ensures var turn := ReadMember(src, pos, name, m); turn.Leave? && !turn.r.ok ==> |turn.r.errors| == 1
    decreases |src.doc| - pos, 3
  {
    hide ReadToken, ReadNonComment, DecodeBody, Recover, AfterName;
    var t := ReadNonComment(src.doc, pos);
    if t.kind == StringToken && DecodeBody(src.doc, t.start + 1, t.end - 1).Decoded? {
      OneErrorAfterName(src, t.end, DecodeBody(src.doc, t.start + 1, t.end - 1).text, m);
    }
  }

  lemma {:induction false} OneErrorAfterName(src: Source, pos: nat, name: string, m: ObjectValues)
    requires pos <= |src.doc|
    ensures var turn := AfterName(src, pos, name, m); turn.Leave? && !turn.r.ok ==> |turn.r.errors| == 1
    decreases |src.doc| - pos, 2
  {
    hide ReadToken, ReadNonComment, Recover, ReadValue, Store, Find;
    var colon := ReadToken(src.doc, pos);
    if colon.kind == MemberSeparator {
      var slot := FindOrNull(m, Name(CString(name)));
      if !ReadValue(src, colon.end, slot).ok {
        OneError(src, colon.end, slot);
      }
    }
  }

  lemma {:induction false} OneErrorInArray(src: Source, pos: nat, index: nat, m: ObjectValues)
    requires pos <= |src.doc| && !ReadElements(src, pos, index, m).ok
    ensures |ReadElements(src, pos, index, m).errors| == 1
    decreases |src.doc| - pos, 3
  {
    hide ReadToken, ReadNonComment, Recover, ReadValue, Store, Find;
    var slot := FindOrNull(m, Index(index));
    var r := ReadValue(src, pos, slot);
    if !r.ok {
      OneError(src, pos, slot);
    } else {
      OneErrorInArray(src, ReadNonComment(src.doc, r.pos).end, index + 1, Store(m, Index(index), r.value));
    }
  }

  // Recovery ends behind the bracket it looks for, or at the end of the document, for
  // which a NUL is taken too.
  lemma {:induction false} RecoveryEnds(doc: string, pos: nat, kind: TokenType)
    requires pos <= |doc| && kind in {ObjectEnd, ArrayEnd}
    ensures var end := Recover(doc, pos, kind);
      end == |doc| || (pos < end && doc[end - 1] in {'\0', if kind == ObjectEnd then '}' else ']'})
    decreases |doc| - pos
  {
    hide ScanString, ScanComment, ScanNumber;
    ClosingTokens(doc, pos);
    var t := ReadToken(doc, pos);
    if t.kind != kind && t.kind != EndOfStream {
      RecoveryEnds(doc, t.end, kind);
    }
  }

  // What is no value is reported as such, where it stands.
  lemma ValueSyntax(src: Source, pos: nat, current: Value)
    requires pos <= |src.doc|
    ensures var t, r := ReadValueToken(src, pos), ReadValue(src, pos, current);
      && (t.kind in {EndOfStream, ObjectEnd, ArrayEnd, ArraySeparator, MemberSeparator, CommentToken, ErrorToken} ==>
            r == Fail(t.end, current, t, ValueExpected, None))
      && (t.kind == NumberToken && DecodeNumber(Text(src.doc, t), src.scan).None? ==>
            r == Fail(t.end, current, t, NotANumber, None))
      && (t.kind == StringToken && DecodeBody(src.doc, t.start + 1, t.end - 1).BadString? ==>
            var bad := DecodeBody(src.doc, t.start + 1, t.end - 1);
            r == Fail(t.end, current, t, bad.message, Some(bad.extra)))
  {
    hide ReadToken, ReadNonComment, DecodeNumber, DecodeBody, ReadMembers, ReadArray;
  }

  // Within objects and arrays comments are skipped before names and behind values, even
  // where the reader is not to allow them.
  lemma CommentsWithin(src: Source, pos: nat, end: nat, name: string, m: ObjectValues, value: Value)
    requires pos <= |src.doc| && SkipSpaces(src.doc, pos) + 2 <= end <= |src.doc|
    requires IsComment(src.doc, SkipSpaces(src.doc, pos), end)
    ensures ReadMembers(src, pos, name, m) == ReadMembers(src, end, name, m)
    ensures ReadToken(src.doc, end).kind in {ObjectEnd, ArraySeparator, CommentToken} ==>
      AfterMember(src, Outcome(true, pos, value, []), name, m) ==
      AfterMember(src, Outcome(true, end, value, []), name, m)
  {
    hide ReadToken, SkipSpaces, DecodeBody, AfterName;
    CommentIsToken(src.doc, pos, end);
    assert ReadMember(src, pos, name, m) == ReadMember(src, end, name, m);
  }

  lemma CommentBehindElement(src: Source, pos: nat, end: nat, index: nat, m: ObjectValues)
    requires pos <= |src.doc|
    requires var r := ReadValue(src, pos, FindOrNull(m, Index(index)));
      && r.ok && SkipSpaces(src.doc, r.pos) + 2 <= end <= |src.doc|
      && IsComment(src.doc, SkipSpaces(src.doc, r.pos), end)
    ensures var r := ReadValue(src, pos, FindOrNull(m, Index(index)));
      var m' := Store(m, Index(index), r.value);
      var t := ReadNonComment(src.doc, end);
      ReadElements(src, pos, index, m) ==
        if t.kind == ArrayEnd then Outcome(true, t.end, Arr(m'), []) else ReadElements(src, t.end, index + 1, m')
  {
    hide ReadToken, SkipSpaces, ReadValue, Store, Find;
    CommentIsToken(src.doc, ReadValue(src, pos, FindOrNull(m, Index(index))).pos, end);
  }

  // An array with nothing but a comment in it is refused.
  lemma CommentIsNoElement(src: Source, pos: nat, end: nat)
    requires pos <= |src.doc| && SkipSpaces(src.doc, pos) + 2 <= end <= |src.doc|
    requires IsComment(src.doc, SkipSpaces(src.doc, pos), end)
    requires ReadNonComment(src.doc, end).kind == ArrayEnd
    ensures !ReadArray(src, pos).ok && ReadArray(src, pos).errors[0].message == ValueExpected
  {
    hide ReadToken, ReadNonComment, Recover, Store, Find;
    var first := SkipSpaces(src.doc, pos);
    SkipTwice(src.doc, pos);
    CommentIsToken(src.doc, first, end);
    ValueSyntax(src, first, FindOrNull([], Index(0)));
  }

  lemma {:induction false} SkipTwice(doc: string, pos: nat)
    requires pos <= |doc|
    ensures SkipSpaces(doc, SkipSpaces(doc, pos)) == SkipSpaces(doc, pos)
    decreases |doc| - pos
  {
    if pos < |doc| && IsSpace(doc[pos]) {
      SkipTwice(doc, pos + 1);
    }
  }
}
