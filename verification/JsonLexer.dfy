/** The tokens `Reader::readToken` cuts a document into. */
module JsonLexer {
  import opened JsonValue
  import opened JsonNumber
  import opened JsonString

  datatype TokenType =
    | EndOfStream
    | ObjectBegin
    | ObjectEnd
    | ArrayBegin
    | ArrayEnd
    | StringToken
    | NumberToken
    | TrueToken
    | FalseToken
    | NullToken
    | ArraySeparator
    | MemberSeparator
    | CommentToken
    | ErrorToken

  datatype Token = Token(kind: TokenType, start: nat, end: nat)

  predicate IsSpace(c: char) {
    c == ' ' || c == '\t' || c == '\r' || c == '\n'
  }

  function SkipSpaces(doc: string, pos: nat): (p: nat)
    requires pos <= |doc|
    ensures pos <= p <= |doc|
    ensures p < |doc| ==> !IsSpace(doc[p])
    decreases |doc| - pos
  {
    if pos < |doc| && IsSpace(doc[pos]) then SkipSpaces(doc, pos + 1) else pos
  }

  function ScanNumber(doc: string, pos: nat): (p: nat)
    requires pos <= |doc|
    ensures pos <= p <= |doc|
    ensures forall i :: pos <= i < p ==> IsNumberChar(doc[i])
    ensures p < |doc| ==> !IsNumberChar(doc[p])
    decreases |doc| - pos
  {
    if pos < |doc| && IsNumberChar(doc[pos]) then ScanNumber(doc, pos + 1) else pos
  }

  // After `/*`: past the first `*/`, or to the end of the document.
  function ScanBlockComment(doc: string, pos: nat): (r: (bool, nat))
    requires pos <= |doc|
    ensures pos <= r.1 <= |doc|
    decreases |doc| - pos
  {
    if pos == |doc| then (false, pos)
    else if doc[pos] == '*' && pos + 1 < |doc| && doc[pos + 1] == '/' then (true, pos + 2)
    else ScanBlockComment(doc, pos + 1)
  }

  // After `//`: past the end of the line, or to the end of the document.
  function ScanLineComment(doc: string, pos: nat): (p: nat)
    requires pos <= |doc|
    ensures pos <= p <= |doc|
    decreases |doc| - pos
  {
    if pos == |doc| then pos
    else if doc[pos] == '\r' || doc[pos] == '\n' then pos + 1
    else ScanLineComment(doc, pos + 1)
  }

  // After the first slash.
  function ScanComment(doc: string, pos: nat): (r: (bool, nat))
    requires pos <= |doc|
    ensures pos <= r.1 <= |doc|
  {
    if pos == |doc| then (false, pos)
    else if doc[pos] == '*' then ScanBlockComment(doc, pos + 1)
    else if doc[pos] == '/' then (true, ScanLineComment(doc, pos + 1))
    else (false, pos + 1)
  }

  function Keyword(doc: string, start: nat, kind: TokenType, rest: string): Token
    requires start < |doc|
  {
    if At(doc, start + 1, rest) then Token(kind, start, start + 1 + |rest|)
    else Token(ErrorToken, start, start + 1)
  }

  function ReadToken(doc: string, pos: nat): (t: Token)
    requires pos <= |doc|
    ensures pos <= t.start <= t.end <= |doc|
    ensures t.kind != EndOfStream ==> t.start < t.end
    ensures t.kind == StringToken ==> t.start + 2 <= t.end
  {
    var start := SkipSpaces(doc, pos);
    if start == |doc| then Token(EndOfStream, start, start)
    else if IsDigit(doc[start]) || doc[start] == '-' then
      Token(NumberToken, start, ScanNumber(doc, start + 1))
    else match doc[start]
      case '{' => Token(ObjectBegin, start, start + 1)
      case '}' => Token(ObjectEnd, start, start + 1)
      case '[' => Token(ArrayBegin, start, start + 1)
      case ']' => Token(ArrayEnd, start, start + 1)
      case '\"' =>
        var (closed, end) := ScanString(doc, start + 1);
        Token(if closed then StringToken else ErrorToken, start, end)
      case '/' =>
        var (complete, end) := ScanComment(doc, start + 1);
        Token(if complete then CommentToken else ErrorToken, start, end)
      case 't' => Keyword(doc, start, TrueToken, "rue")
      case 'f' => Keyword(doc, start, FalseToken, "alse")
      case 'n' => Keyword(doc, start, NullToken, "ull")
      case ',' => Token(ArraySeparator, start, start + 1)
      case ':' => Token(MemberSeparator, start, start + 1)
      case '\0' => Token(EndOfStream, start, start + 1)
      case _ => Token(ErrorToken, start, start + 1)
  }

  // The first token from pos that is not a comment.
  function ReadNonComment(doc: string, pos: nat): (t: Token)
    requires pos <= |doc|
    ensures pos <= t.start <= t.end <= |doc|
    ensures t.kind != CommentToken
    ensures t.kind != EndOfStream ==> t.start < t.end
    ensures t.kind == StringToken ==> t.start + 2 <= t.end
    decreases |doc| - pos
  {
    var t := ReadToken(doc, pos);
    if t.kind == CommentToken then ReadNonComment(doc, t.end) else t
  }

  // Error recovery: past the next token of the wanted kind, or to the end of the stream.
  function Recover(doc: string, pos: nat, kind: TokenType): (p: nat)
    requires pos <= |doc|
    ensures pos <= p <= |doc|
    decreases |doc| - pos
  {
    var t := ReadToken(doc, pos);
    if t.kind == kind || t.kind == EndOfStream then t.end else Recover(doc, t.end, kind)
  }

  // ---------------------------------------------------------------- comments

  predicate ClosesComment(doc: string, k: nat) {
    k + 1 < |doc| && doc[k] == '*' && doc[k + 1] == '/'
  }

  // A comment opened by `/*` just before pos ends behind the first `*/`; without one the
  // whole rest of the document is taken, and is no comment.
  lemma {:induction false} BlockCommentEnds(doc: string, pos: nat)
    requires pos <= |doc|
    ensures var (complete, end) := ScanBlockComment(doc, pos);
      if complete then
        pos + 2 <= end && ClosesComment(doc, end - 2) && forall k :: pos <= k < end - 2 ==> !ClosesComment(doc, k)
      else end == |doc| && forall k :: pos <= k ==> !ClosesComment(doc, k)
    decreases |doc| - pos
  {
    if pos < |doc| && !ClosesComment(doc, pos) {
      BlockCommentEnds(doc, pos + 1);
    }
  }

  predicate EndsLine(c: char) {
    c == '\r' || c == '\n'
  }

  predicate IsRestOfLine(doc: string, start: nat, end: nat)
    requires start <= end <= |doc|
  {
    && (forall k :: start <= k < end - 1 ==> !EndsLine(doc[k]))
    && (end == |doc| || (start < end && EndsLine(doc[end - 1])))
  }

  // One opened by `//` ends behind the first end of a line, or with the document.
  lemma {:induction false} LineCommentEnds(doc: string, pos: nat)
    requires pos <= |doc|
    ensures IsRestOfLine(doc, pos, ScanLineComment(doc, pos))
    decreases |doc| - pos
  {
    if pos < |doc| && !EndsLine(doc[pos]) {
      LineCommentEnds(doc, pos + 1);
    }
  }

  // The text from start to end is one comment.
  predicate IsComment(doc: string, start: nat, end: nat)
    requires start + 2 <= end <= |doc|
  {
    doc[start] == '/' &&
    if doc[start + 1] == '*' then
      start + 4 <= end && ClosesComment(doc, end - 2) && forall k :: start + 2 <= k < end - 2 ==> !ClosesComment(doc, k)
    else
      doc[start + 1] == '/' && IsRestOfLine(doc, start + 2, end)
  }

  // A comment is one token.
  lemma CommentIsToken(doc: string, pos: nat, end: nat)
    requires pos <= |doc| && SkipSpaces(doc, pos) + 2 <= end <= |doc|
    requires IsComment(doc, SkipSpaces(doc, pos), end)
    ensures ReadToken(doc, pos) == Token(CommentToken, SkipSpaces(doc, pos), end)
    ensures ReadNonComment(doc, pos) == ReadNonComment(doc, end)
  {
    var start := SkipSpaces(doc, pos);
    if doc[start + 1] == '*' {
      BlockCommentEnds(doc, start + 2);
      assert ScanBlockComment(doc, start + 2) == (true, end);
    } else {
      LineCommentEnds(doc, start + 2);
      assert ScanLineComment(doc, start + 2) == end;
    }
  }

  // ---------------------------------------------------------------- which characters count

  // Blanks, tabs and ends of lines are skipped before a token, and nothing else is.
  lemma WhiteSpaceIsSkipped(doc: string, pos: nat, start: nat)
    requires pos <= start <= |doc|
    requires forall i :: pos <= i < start ==> doc[i] in {' ', '\t', '\r', '\n'}
    ensures ReadToken(doc, pos) == ReadToken(doc, start)
    ensures start < |doc| && doc[start] !in {' ', '\t', '\r', '\n'} ==> ReadToken(doc, pos).start == start
  {
    hide ScanString, ScanNumber, ScanComment;
    SkipsSpaces(doc, pos, start);
  }

  lemma {:induction false} SkipsSpaces(doc: string, pos: nat, start: nat)
    requires pos <= start <= |doc| && forall i :: pos <= i < start ==> IsSpace(doc[i])
    ensures SkipSpaces(doc, pos) == SkipSpaces(doc, start)
    decreases start - pos
  {
    if pos < start {
      SkipsSpaces(doc, pos + 1, start);
    }
  }

  // A character no token starts with is an error by itself; a NUL counts as the end.
  lemma OtherCharacters(doc: string, pos: nat)
    requires pos < |doc| && doc[pos] !in {' ', '\t', '\r', '\n'}
    requires !IsDigit(doc[pos]) && doc[pos] !in "-{}[],:\"/tfn"
    ensures ReadToken(doc, pos) == Token(if doc[pos] == '\0' then EndOfStream else ErrorToken, pos, pos + 1)
  {
    hide ScanString, ScanNumber, ScanComment, Keyword;
    var known := "-{}[],:\"/tfn";
    assert known[0] == '-' && known[1] == '{' && known[2] == '}' && known[3] == '[' && known[4] == ']';
    assert known[5] == ',' && known[6] == ':' && known[7] == '\"' && known[8] == '/';
    assert known[9] == 't' && known[10] == 'f' && known[11] == 'n';
  }
}
