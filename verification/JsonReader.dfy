/** `Json::Reader` itself: a cursor, a node stack and an error list advanced in place by
    mutually recursive methods, each refining the corresponding function of `JsonParser`. */
module JsonReader {
  import opened JsonValue
  import opened JsonNumber
  import opened JsonString
  import opened JsonLexer
  import opened JsonParser
  import Utf8

  class Reader {
    var document: string
    var current: nat
    // The values being filled, innermost last. The source stacks pointers into the tree;
    // here a value is stored back into its parent when it is popped.
    var nodes: seq<Value>
    var errors: seq<ErrorInfo>
    const allowComments: bool
    const strictRoot: bool
    const scan: RealScanner

    constructor (allowComments: bool, strictRoot: bool, scan: RealScanner)
      ensures Valid() && this.allowComments == allowComments && this.strictRoot == strictRoot && this.scan == scan
    {
      document, current, nodes, errors := "", 0, [], [];
      this.allowComments, this.strictRoot, this.scan := allowComments, strictRoot, scan;
    }

    ghost predicate Valid()
      reads this
    {
      current <= |document|
    }

    function Src(): Source
      reads this
    {
      Source(document, allowComments, strictRoot, scan)
    }

    function Top(): Value
      requires nodes != []
      reads this
    {
      nodes[|nodes| - 1]
    }

    // The stack with its top replaced.
    function WithTop(v: Value): seq<Value>
      requires nodes != []
      reads this
    {
      nodes[|nodes| - 1 := v]
    }

    // ---------------------------------------------------------------- characters and tokens

    method GetNextChar() returns (c: char)
      requires Valid()
      modifies this`current
      ensures Valid()
      ensures if old(current) == |document| then c == '\0' && current == old(current)
        else c == document[old(current)] && current == old(current) + 1
    {
      if current == |document| {
        return '\0';
      }
      c := document[current];
      current := current + 1;
    }

    method SkipSpaces()
      requires Valid()
      modifies this`current
      ensures Valid() && current == JsonLexer.SkipSpaces(document, old(current))
    {
      while current != |document|
        invariant Valid()
        invariant JsonLexer.SkipSpaces(document, old(current)) == JsonLexer.SkipSpaces(document, current)
        decreases |document| - current
      {
        if !IsSpace(document[current]) {
          break;
        }
        current := current + 1;
      }
    }

    method Match(pattern: string) returns (matched: bool)
      requires Valid()
      modifies this`current
      ensures Valid() && matched == At(document, old(current), pattern)
      ensures current == old(current) + if matched then |pattern| else 0
    {
      if |document| - current < |pattern| {
        return false;
      }
      var index := |pattern|;
      while index != 0
        invariant 0 <= index <= |pattern| && current == old(current)
        invariant forall i :: index <= i < |pattern| ==> document[current + i] == pattern[i]
      {
        index := index - 1;
        if document[current + index] != pattern[index] {
          return false;
        }
      }
      current := current + |pattern|;
      matched := true;
    }

    method ReadString() returns (closed: bool)
      requires Valid()
      modifies this`current
      ensures Valid() && (closed, current) == ScanString(document, old(current))
    {
      var c := '\0';
      while current != |document|
        invariant Valid()
        invariant c != '\"'
        invariant ScanString(document, old(current)) == ScanString(document, current)
        decreases |document| - current
      {
        c := GetNextChar();
        if c == '\\' {
          var _ := GetNextChar();
        } else if c == '\"' {
          break;
        }
      }
      closed := c == '\"';
    }

    method ReadNumber()
      requires Valid()
      modifies this`current
      ensures Valid() && current == ScanNumber(document, old(current))
    {
      while current != |document|
        invariant Valid()
        invariant ScanNumber(document, old(current)) == ScanNumber(document, current)
        decreases |document| - current
      {
        if !IsNumberChar(document[current]) {
          break;
        }
        current := current + 1;
      }
    }

    method ReadComment() returns (complete: bool)
      requires Valid()
      modifies this`current
      ensures Valid() && (complete, current) == ScanComment(document, old(current))
    {
      var c := GetNextChar();
      complete := false;
      if c == '*' {
        complete := ReadCStyleComment();
      } else if c == '/' {
        complete := ReadCppStyleComment();
      }
    }

    // The character after the last one of the document is the terminating NUL.
    function Peek(pos: nat): char
      reads this
    {
      if pos < |document| then document[pos] else '\0'
    }

    method ReadCStyleComment() returns (complete: bool)
      requires Valid()
      modifies this`current
      ensures Valid() && (complete, current) == ScanBlockComment(document, old(current))
    {
      while current != |document|
        invariant Valid()
        invariant ScanBlockComment(document, old(current)) == ScanBlockComment(document, current)
        decreases |document| - current
      {
        var c := GetNextChar();
        if c == '*' && Peek(current) == '/' {
          var slash := GetNextChar();
          return slash == '/';
        }
      }
      var c := GetNextChar();
      complete := c == '/';
    }

    method ReadCppStyleComment() returns (complete: bool)
      requires Valid()
      modifies this`current
      ensures Valid() && complete && current == ScanLineComment(document, old(current))
    {
      while current != |document|
        invariant Valid()
        invariant ScanLineComment(document, old(current)) == ScanLineComment(document, current)
        decreases |document| - current
      {
        var c := GetNextChar();
        if c == '\r' || c == '\n' {
          return true;
        }
      }
      complete := true;
    }

    method ReadToken() returns (token: Token)
      requires Valid()
      modifies this`current
      ensures Valid() && token == JsonLexer.ReadToken(document, old(current)) && current == token.end
    {
      hide ScanString, ScanComment, ScanNumber, At;
      SkipSpaces();
      var start := current;
      var c := GetNextChar();
      var ok, kind := true, ErrorToken;
      if IsDigit(c) || c == '-' {
        kind := NumberToken;
        ReadNumber();
      } else {
        match c {
          case '{' => kind := ObjectBegin;
          case '}' => kind := ObjectEnd;
          case '[' => kind := ArrayBegin;
          case ']' => kind := ArrayEnd;
          case '\"' =>
            kind := StringToken;
            ok := ReadString();
          case '/' =>
            kind := CommentToken;
            ok := ReadComment();
          case 't' =>
            kind := TrueToken;
            ok := Match("rue");
          case 'f' =>
            kind := FalseToken;
            ok := Match("alse");
          case 'n' =>
            kind := NullToken;
            ok := Match("ull");
          case ',' => kind := ArraySeparator;
          case ':' => kind := MemberSeparator;
          case '\0' => kind := EndOfStream;
          case _ => ok := false;
        }
      }
      token := Token(if ok then kind else ErrorToken, start, current);
    }

    // Reads on while the token is a comment.
    method SkipComments(first: Token) returns (token: Token)
      requires Valid() && current == first.end <= |document|
      modifies this`current
      ensures Valid() && current == token.end
      ensures token == if first.kind == CommentToken then ReadNonComment(document, first.end) else first
    {
      token := first;
      while token.kind == CommentToken
        invariant Valid() && current == token.end <= |document|
        invariant (if first.kind == CommentToken then ReadNonComment(document, first.end) else first) ==
          if token.kind == CommentToken then ReadNonComment(document, token.end) else token
        decreases |document| - current, token.kind == CommentToken
      {
        token := ReadToken();
      }
    }

    method SkipCommentTokens() returns (token: Token)
      requires Valid()
      modifies this`current
      ensures Valid() && token == ReadValueToken(Src(), old(current)) && current == token.end
    {
      token := ReadToken();
      if allowComments {
        token := SkipComments(token);
      }
    }

    // ---------------------------------------------------------------- errors

    method AddError(message: ErrorText, token: Token, extra: Option<nat>) returns (ok: bool)
      modifies this`errors
      ensures !ok && errors == old(errors) + [ErrorInfo(token, message, extra)]
    {
      errors := errors + [ErrorInfo(token, message, extra)];
      ok := false;
    }

    method RecoverFromError(skipUntil: TokenType) returns (ok: bool)
      requires Valid()
      modifies this`current, this`errors
      ensures Valid() && !ok && current == Recover(document, old(current), skipUntil)
      ensures errors == old(errors)
    {
      var errorCount := |errors|;
      var skip := ReadToken();
      while !(skip.kind == skipUntil || skip.kind == EndOfStream)
        invariant Valid() && current == skip.end && errors == old(errors)
        invariant Recover(document, old(current), skipUntil) ==
          if skip.kind == skipUntil || skip.kind == EndOfStream then skip.end
          else Recover(document, skip.end, skipUntil)
        decreases |document| - current, skip.kind != EndOfStream
      {
        skip := ReadToken();
      }
      errors := errors[..errorCount];
      ok := false;
    }

    method AddErrorAndRecover(message: ErrorText, token: Token, skipUntil: TokenType) returns (ok: bool)
      requires Valid()
      modifies this`current, this`errors
      ensures Valid() && !ok && current == Recover(document, old(current), skipUntil)
      ensures errors == old(errors) + [ErrorInfo(token, message, None)]
    {
      ok := AddError(message, token, None);
      ok := RecoverFromError(skipUntil);
    }

    // ---------------------------------------------------------------- numbers and strings

    predicate IsSpan(token: Token)
      reads this
    {
      token.start <= token.end <= |document|
    }

    method DecodeNumber(token: Token) returns (ok: bool)
      requires Valid() && IsSpan(token) && nodes != []
      modifies this`nodes, this`errors
      ensures match JsonNumber.DecodeNumber(Text(document, token), scan)
        case Some(v) => ok && nodes == old(WithTop(v)) && errors == old(errors)
        case None => !ok && nodes == old(nodes) && errors == old(errors) + [ErrorInfo(token, NotANumber, None)]
    {
      var text := Text(document, token);
      var isDouble := false;
      for inspect := token.start to token.end
        invariant isDouble <==>
          exists i :: 0 <= i < inspect - token.start && (text[i] in ".eE+" || (text[i] == '-' && i > 0))
        invariant nodes == old(nodes) && errors == old(errors)
      {
        assert document[inspect] == text[inspect - token.start];
        isDouble := isDouble || document[inspect] in ".eE+" || (document[inspect] == '-' && inspect != token.start);
      }
      assert isDouble <==> LooksReal(text);
      if isDouble {
        ok := DecodeDouble(token);
        return;
      }
      var cursor := token.start;
      var isNegative := cursor < token.end && document[cursor] == '-';
      if isNegative {
        cursor := cursor + 1;
      }
      var threshold := Threshold(isNegative);
      var value: UInt32 := 0;
      assert document[cursor..token.end] == Unsigned(text);
      while cursor < token.end
        invariant token.start <= cursor <= token.end
        invariant value < threshold * 10 <= MAX_UINT
        invariant ScanDigits(Unsigned(text), 0, threshold) == ScanDigits(document[cursor..token.end], value, threshold)
        invariant nodes == old(nodes) && errors == old(errors)
      {
        var c := document[cursor];
        assert document[cursor..token.end] == [c] + document[cursor + 1..token.end];
        cursor := cursor + 1;
        if !IsDigit(c) {
          ok := AddError(NotANumber, token, None);
          return;
        }
        if value >= threshold {
          ok := DecodeDouble(token);
          return;
        }
        value := value * 10 + DigitValue(c);
      }
      nodes := WithTop(IntegerValue(isNegative, value));
      ok := true;
    }

    method DecodeDouble(token: Token) returns (ok: bool)
      requires Valid() && IsSpan(token) && nodes != []
      modifies this`nodes, this`errors
      ensures match DecodeReal(Text(document, token), scan)
        case Some(v) => ok && nodes == old(WithTop(v)) && errors == old(errors)
        case None => !ok && nodes == old(nodes) && errors == old(errors) + [ErrorInfo(token, NotANumber, None)]
    {
      match scan(Text(document, token)) {
        case Some(r) =>
          nodes := WithTop(Real(r));
          ok := true;
        case None =>
          ok := AddError(NotANumber, token, None);
      }
    }

    method DecodeUnicodeEscapeSequence(token: Token, start: nat, end: nat) returns (ok: bool, cursor: nat, unicode: nat)
      requires start <= end <= |document|
      modifies this`errors
      ensures match DecodeUnicodeEscape(document, start, end)
        case CodePoint(cp, next) => ok && unicode == cp && cursor == next && errors == old(errors)
        case BadUnicode(m, x) => !ok && errors == old(errors) + [ErrorInfo(token, m, Some(x))]
    {
      cursor, unicode := start, 0;
      if end - cursor < 4 {
        ok := AddError(FourDigitsExpected, token, Some(cursor));
        return;
      }
      for index := 0 to 4
        invariant cursor == start + index && errors == old(errors)
        invariant HexDigits(document, start, 4, 0) == HexDigits(document, cursor, 4 - index, unicode)
      {
        var c := document[cursor];
        cursor := cursor + 1;
        match HexValue(c) {
          case Some(d) => unicode := unicode * 16 + d;
          case None =>
            ok := AddError(HexDigitExpected, token, Some(cursor));
            return;
        }
      }
      ok := true;
    }

    method DecodeUnicodeCodePoint(token: Token, start: nat, end: nat) returns (ok: bool, cursor: nat, unicode: nat)
      requires start <= end <= |document|
      modifies this`errors
      ensures match DecodeCodePoint(document, start, end)
        case CodePoint(cp, next) => ok && unicode == cp && cursor == next && errors == old(errors)
        case BadUnicode(m, x) => !ok && errors == old(errors) + [ErrorInfo(token, m, Some(x))]
    {
      hide DecodeUnicodeEscape;
      ok, cursor, unicode := DecodeUnicodeEscapeSequence(token, start, end);
      if !ok {
        return;
      }
      if 0xD800 <= unicode <= 0xDBFF {
        if end - cursor < 6 {
          ok := AddError(SurrogateTooShort, token, Some(cursor));
          return;
        }
        cursor := cursor + 1;
        var isEscape := document[cursor - 1] == '\\';
        if isEscape {
          cursor := cursor + 1;
          isEscape := document[cursor - 1] == 'u';
        }
        if !isEscape {
          ok := AddError(SurrogateExpected, token, Some(cursor));
          return;
        }
        var surrogatePair: nat;
        ok, cursor, surrogatePair := DecodeUnicodeEscapeSequence(token, cursor, end);
        if !ok {
          return;
        }
        unicode := 0x1_0000 + (unicode % 0x400) * 0x400 + surrogatePair % 0x400;
      }
    }

    method DecodeStringText(token: Token) returns (ok: bool, decoded: string)
      requires Valid() && IsSpan(token) && token.start + 2 <= token.end
      modifies this`errors
      ensures match DecodeBody(document, token.start + 1, token.end - 1)
        case Decoded(text) => ok && decoded == text && errors == old(errors)
        case BadString(m, x) => !ok && errors == old(errors) + [ErrorInfo(token, m, Some(x))]
    {
      hide Utf8.Encode, DecodeCodePoint;
      decoded := "";
      var cursor := token.start + 1;
      var end := token.end - 1;
      ghost var whole := DecodeBody(document, cursor, end);
      while cursor != end
        invariant cursor <= end && errors == old(errors)
        invariant whole == Prepend(decoded, DecodeBody(document, cursor, end))
        decreases end - cursor
      {
        ghost var here := cursor;
        var piece: string;
        var c := document[cursor];
        cursor := cursor + 1;
        if c == '\"' {
          break;
        } else if c == '\\' {
          if cursor == end {
            ok := AddError(EmptyEscape, token, Some(cursor));
            return;
          }
          var escape := document[cursor];
          cursor := cursor + 1;
          if escape == 'u' {
            var unicode: nat;
            ok, cursor, unicode := DecodeUnicodeCodePoint(token, cursor, end);
            if !ok {
              return;
            }
            piece := Utf8.CodePointToUtf8(unicode);
          } else {
            match ShortUnescape(escape) {
              case Some(plain) => piece := [plain];
              case None =>
                ok := AddError(BadEscape, token, Some(cursor));
                return;
            }
          }
        } else {
          piece := [c];
        }
        PrependTwice(decoded, piece, DecodeBody(document, cursor, end));
        assert DecodeBody(document, here, end) == Prepend(piece, DecodeBody(document, cursor, end));
        decoded := decoded + piece;
      }
      ok := true;
    }

    method DecodeString(token: Token) returns (ok: bool)
      requires Valid() && IsSpan(token) && token.start + 2 <= token.end && nodes != []
      modifies this`nodes, this`errors
      ensures match DecodeBody(document, token.start + 1, token.end - 1)
        case Decoded(text) => ok && nodes == old(WithTop(Str(CString(text)))) && errors == old(errors)
        case BadString(m, x) => !ok && nodes == old(nodes) && errors == old(errors) + [ErrorInfo(token, m, Some(x))]
    {
      var decoded: string;
      ok, decoded := DecodeStringText(token);
      if ok {
        nodes := WithTop(Str(CString(decoded)));
      }
    }

    // ---------------------------------------------------------------- values

    // The state is the one the outcome describes: its cursor, its value on top of the
    // otherwise unchanged stack, its errors after those already recorded.
    twostate predicate Yields(ok: bool, r: Outcome)
      requires old(nodes) != []
      reads this
    {
      && document == old(document)
      && ok == r.ok && current == r.pos
      && nodes == old(WithTop(r.value))
      && errors == old(errors) + r.errors
    }

    method ReadValue() returns (ok: bool)
      requires Valid() && nodes != []
      modifies this
      ensures Valid() && Yields(ok, JsonParser.ReadValue(old(Src()), old(current), old(Top())))
      decreases |document| - current, 2
    {
      hide ReadMembers, JsonParser.ReadArray, JsonNumber.DecodeNumber, DecodeBody, JsonLexer.ReadToken, ReadNonComment;
      var token := SkipCommentTokens();
      match token.kind {
        case ObjectBegin => ok := ReadObject(token);
        case ArrayBegin => ok := ReadArray(token);
        case NumberToken => ok := DecodeNumber(token);
        case StringToken => ok := DecodeString(token);
        case TrueToken =>
          nodes := WithTop(Bool(true));
          ok := true;
        case FalseToken =>
          nodes := WithTop(Bool(false));
          ok := true;
        case NullToken =>
          nodes := WithTop(Null);
          ok := true;
        case _ =>
          ok := AddError(ValueExpected, token, None);
      }
    }

    // Resolves the slot of a key in the container on top, reads a value into it, and goes
    // back to the container.
    method ReadIntoSlot(key: CZString) returns (ok: bool)
      requires Valid() && nodes != [] && (Top().Arr? || Top().Obj?)
      modifies this
      ensures Valid() && document == old(document)
      ensures var r := JsonParser.ReadValue(old(Src()), old(current), FindOrNull(old(Top()).entries, key));
        Yields(ok, r.(value := WithSlot(old(Top()), key, r.value)))
      decreases |document| - current, 3
    {
      hide JsonParser.ReadValue, Store, Find;
      ghost var container := Top();
      var slot := FindOrNull(Top().entries, key);
      nodes := WithTop(WithSlot(Top(), key, slot)) + [slot];
      ok := ReadValue();
      var value := Top();
      nodes := nodes[..|nodes| - 1];
      StoreTwice(container.entries, key, slot, value);
      nodes := WithTop(WithSlot(Top(), key, value));
    }

    method ReadObject(tokenStart: Token) returns (ok: bool)
      requires Valid() && nodes != [] && current == tokenStart.end
      modifies this
      ensures Valid() && Yields(ok, ReadMembers(old(Src()), old(current), "", []))
      decreases |document| - current, 7
    {
      hide ReadMembers, ReadMember;
      nodes := WithTop(Obj([]));
      var name := "";
      var leave := false;
      ok := true;
      while !leave
        invariant Valid() && document == old(document) && nodes != [] && current >= old(current)
        invariant !leave ==> Top().Obj? && nodes == old(nodes)[|old(nodes)| - 1 := Top()] && errors == old(errors)
        invariant !leave ==>
          ReadMembers(old(Src()), old(current), "", []) == ReadMembers(old(Src()), current, name, Top().entries)
        invariant leave ==> Yields(ok, ReadMembers(old(Src()), old(current), "", []))
        decreases !leave, |document| - current
      {
        UnfoldMembers(Src(), current, name, Top().entries);
        leave, ok, name := ReadNextMember(name);
      }
    }

    // One turn of the loop of `readObject`.
    method ReadNextMember(name: string) returns (leave: bool, ok: bool, newName: string)
      requires Valid() && nodes != [] && Top().Obj?
      modifies this
      ensures Valid() && document == old(document)
      ensures match ReadMember(old(Src()), old(current), name, old(Top()).entries)
        case Leave(r) => leave && Yields(ok, r)
        case Again(pos, n, m) => !leave && newName == n && Yields(ok, Outcome(true, pos, Obj(m), []))
      decreases |document| - current, 6
    {
      hide DecodeBody, JsonLexer.ReadToken, ReadNonComment, Recover, AfterName;
      leave, newName := true, "";
      var tokenName := ReadToken();
      NonCommentOf(document, old(current));
      tokenName := SkipComments(tokenName);
      if tokenName.kind == ObjectEnd && name == "" {
        ok := true;
        return;
      }
      if tokenName.kind != StringToken {
        ok := AddErrorAndRecover(MissingBraceOrName, tokenName, ObjectEnd);
        return;
      }
      ok, newName := DecodeStringText(tokenName);
      if !ok {
        ok := RecoverFromError(ObjectEnd);
        return;
      }
      leave, ok := ReadNamedValue(newName);
    }

    // The rest of the turn, once the member name has been read.
    method ReadNamedValue(name: string) returns (leave: bool, ok: bool)
      requires Valid() && nodes != [] && Top().Obj?
      modifies this
      ensures Valid() && document == old(document)
      ensures match AfterName(old(Src()), old(current), name, old(Top()).entries)
        case Leave(r) => leave && Yields(ok, r)
        case Again(pos, n, m) => !leave && n == name && Yields(ok, Outcome(true, pos, Obj(m), []))
      decreases |document| - current, 5
    {
      hide JsonLexer.ReadToken, Recover, JsonParser.ReadValue, Store, Find, AfterMember, AfterName;
      UnfoldNamed(Src(), current, name, Top().entries);
      var colon := ReadToken();
      if colon.kind != MemberSeparator {
        leave := true;
        ok := AddErrorAndRecover(MissingColon, colon, ObjectEnd);
        return;
      }
      leave, ok := ReadMemberValue(name);
    }

    // The rest of it, once the colon has been read.
    method ReadMemberValue(name: string) returns (leave: bool, ok: bool)
      requires Valid() && nodes != [] && Top().Obj?
      modifies this
      ensures Valid() && document == old(document)
      ensures var key, m := Name(CString(name)), old(Top()).entries;
        var r := JsonParser.ReadValue(old(Src()), old(current), FindOrNull(m, key));
        match AfterMember(old(Src()), r, name, Store(m, key, r.value))
        case Leave(l) => leave && Yields(ok, l)
        case Again(pos, n, m') => !leave && n == name && Yields(ok, Outcome(true, pos, Obj(m'), []))
      decreases |document| - current, 4
    {
      hide JsonLexer.ReadToken, Recover, JsonParser.ReadValue, Store, Find, AfterMember;
      var key := Name(CString(name));
      ghost var r := JsonParser.ReadValue(Src(), current, FindOrNull(Top().entries, key));
      ghost var m := Store(Top().entries, key, r.value);
      ok := ReadIntoSlot(key);
      leave, ok := FinishMember(ok, r, name, old(errors));
      assert old(errors) + [] == old(errors);
    }

    // The separator after a member, or the recovery when its value could not be read; r is
    // the outcome of reading that value, and before the errors recorded until then.
    method FinishMember(read: bool, ghost r: Outcome, ghost name: string, ghost before: seq<ErrorInfo>)
      returns (leave: bool, ok: bool)
      requires Valid() && nodes != [] && Top().Obj?
      requires r.ok == read && r.pos == current && (r.ok <==> r.errors == []) && errors == before + r.errors
      modifies this`current, this`errors
      ensures Valid()
      ensures match AfterMember(Src(), r, name, Top().entries)
        case Leave(l) => leave && ok == l.ok && current == l.pos && errors == before + l.errors
        case Again(pos, n, m) => !leave && ok && n == name && current == pos && errors == before
    {
      hide JsonLexer.ReadToken, ReadNonComment, Recover;
      if !read {
        leave := true;
        ok := RecoverFromError(ObjectEnd);
        return;
      }
      var comma := ReadToken();
      if comma.kind != ObjectEnd && comma.kind != ArraySeparator && comma.kind != CommentToken {
        leave := true;
        ok := AddErrorAndRecover(MissingCommaOrBrace, comma, ObjectEnd);
        return;
      }
      comma := SkipComments(comma);
      leave, ok := comma.kind == ObjectEnd, true;
    }

    method ReadArray(tokenStart: Token) returns (ok: bool)
      requires Valid() && nodes != [] && current == tokenStart.end
      modifies this
      ensures Valid() && Yields(ok, JsonParser.ReadArray(old(Src()), old(current)))
      decreases |document| - current, 5
    {
      hide ReadElements, JsonLexer.ReadToken, ReadNonComment, Recover, JsonParser.ReadValue, Store, Find;
      nodes := WithTop(Arr([]));
      SkipSpaces();
      if Peek(current) == ']' {
        ClosingBracket(document, current);
        var endArray := ReadToken();
        ok := true;
        return;
      }
      ghost var start := current;
      var index := 0;
      var closed := false;
      ok := true;
      while !closed
        invariant Valid() && document == old(document) && nodes != [] && current >= start
        invariant !closed ==>
          ok && Top().Arr? && nodes == old(nodes)[|old(nodes)| - 1 := Top()] && errors == old(errors)
        invariant !closed ==>
          ReadElements(old(Src()), start, 0, []) == ReadElements(old(Src()), current, index, Top().entries)
        invariant closed ==> Yields(ok, ReadElements(old(Src()), start, 0, []))
        decreases !closed, |document| - current
      {
        UnfoldElements(Src(), current, index, Top().entries);
        ok := ReadIntoSlot(Index(index));
        index := index + 1;
        if !ok {
          ok := RecoverFromError(ArrayEnd);
          closed := true;
        } else {
          NonCommentOf(document, current);
          var token := ReadToken();
          token := SkipComments(token);
          // The test for a bad separator asks for a token of two kinds at once, so every
          // token but the closing bracket starts another turn.
          closed := token.kind == ArrayEnd;
        }
      }
    }

    // ---------------------------------------------------------------- documents

    // Parses a document into root, returning what root becomes.
    method Parse(doc: string, root: Value) returns (ok: bool, value: Value)
      modifies this
      ensures Valid() && document == doc
      ensures var r := JsonParser.Parse(Src(), root);
        ok == r.ok && value == r.value && errors == r.errors && current == r.pos
      ensures nodes == [value]
      ensures ok <==> errors == []
    {
      hide JsonParser.ReadValue, JsonLexer.ReadToken, ReadNonComment;
      document := doc;
      current, errors, nodes := 0, [], [];
      nodes := nodes + [root];
      ok := ReadValue();
      var token := SkipCommentTokens();
      value := Top();
      if strictRoot && !CountsAsContainer(value) {
        token := Token(ErrorToken, 0, |doc|);
        ok := AddError(RootNotContainer, token, None);
      }
    }
  }

  function WithSlot(v: Value, key: CZString, slot: Value): (w: Value)
    requires v.Arr? || v.Obj?
    ensures w.Arr? == v.Arr? && w.Obj? == v.Obj?
  {
    v.(entries := Store(v.entries, key, slot))
  }

  lemma UnfoldMembers(src: Source, pos: nat, name: string, m: ObjectValues)
    requires pos <= |src.doc|
    ensures ReadMembers(src, pos, name, m) ==
      match ReadMember(src, pos, name, m) case Leave(r) => r case Again(p, n, m') => ReadMembers(src, p, n, m')
  {
    hide ReadMember;
  }

  lemma UnfoldNamed(src: Source, pos: nat, name: string, m: ObjectValues)
    requires pos <= |src.doc|
    ensures var colon := JsonLexer.ReadToken(src.doc, pos);
      var key := Name(CString(name));
      AfterName(src, pos, name, m) ==
        if colon.kind != MemberSeparator then Leave(FailAndRecover(src, Obj(m), colon, MissingColon, ObjectEnd))
        else
          var r := JsonParser.ReadValue(src, colon.end, FindOrNull(m, key));
          AfterMember(src, r, name, Store(m, key, r.value))
  {
    hide JsonLexer.ReadToken, Recover, JsonParser.ReadValue, Store, Find, AfterMember;
  }

  lemma UnfoldElements(src: Source, pos: nat, index: nat, m: ObjectValues)
    requires pos <= |src.doc|
    ensures var r := JsonParser.ReadValue(src, pos, FindOrNull(m, Index(index)));
      var m' := Store(m, Index(index), r.value);
      ReadElements(src, pos, index, m) ==
        if !r.ok then Outcome(false, Recover(src.doc, r.pos, ArrayEnd), Arr(m'), r.errors)
        else
          var t := ReadNonComment(src.doc, r.pos);
          if t.kind == ArrayEnd then Outcome(true, t.end, Arr(m'), [])
          else ReadElements(src, t.end, index + 1, m')
  {
    hide JsonParser.ReadValue, ReadNonComment, Recover, Store, Find;
  }

  lemma NonCommentOf(doc: string, pos: nat)
    requires pos <= |doc|
    ensures var t := JsonLexer.ReadToken(doc, pos);
      ReadNonComment(doc, pos) == if t.kind == CommentToken then ReadNonComment(doc, t.end) else t
  {
    hide JsonLexer.ReadToken;
  }

  lemma ClosingBracket(doc: string, pos: nat)
    requires pos < |doc| && doc[pos] == ']'
    ensures JsonLexer.ReadToken(doc, pos) == Token(ArrayEnd, pos, pos + 1)
  {
    assert JsonLexer.SkipSpaces(doc, pos) == pos;
  }

  // The second store to a slot is the one that counts.
  lemma StoreTwice(m: ObjectValues, k: CZString, v: Value, w: Value)
    ensures Store(Store(m, k, v), k, w) == Store(m, k, w)
  {
    KeyOrder(k, k, k);
    var p := LowerBound(m, k);
    var r := Store(m, k, v);
    var q := LowerBound(r, k);
    assert r[p].key == k;
    assert q == p;
  }
}
