# A verified model of the lsd client library

This project models, in Dafny, the three parts of the lsd client library whose correctness
is hardest to see from the code, and proves properties of the models for all inputs, all
reachable states and all runs:

1. **The JSON reader and writers** (the vendored jsoncpp). The parser's recursive descent,
   with its cursor, node stack and error recovery, and the two writers. Main results: any
   layout of a tree is read to a value holding that tree, its members in any order and the
   last of each name kept (`JsonRoundTrip.ReadValueOnLayout`,
   `JsonRoundTrip.LastMemberIsKept`); both writers' documents parse if and only if the
   reader accepts every numeral in them, and parse back to the tree that was written if and
   only if its numbers survive printing (`JsonRoundTrip.RoundTrip`,
   `JsonRoundTrip.RealFreeRoundTrip`); every number token is read as the integer it spells
   or handed to the reader of doubles (`JsonNumber.NumeralMeans`); every line of an indented
   document is indented by its open brackets (`JsonIndent.DocumentIsIndented`); escaped code
   points become well-formed UTF-8 (`JsonString.EscapedScalarBecomesUtf8`); the order on
   trees is a strict total order (`JsonOrder.StrictTotalOrder`).
2. **The life of a message**: admission by the client, the service's waiting queues, the
   handles with their message caches, and the responses. Main results: no message is lost
   or duplicated in any run (`Conservation.NoMessageLost`); which replies finish a message and
   which response each causes (`Replies.RepliesDecide`); responses are chunks and then at
   most one final one, delivered in order (`Responses.ResponsesFollowProtocol`), and what a
   callback can tell of that by their codes (`Responses.CodesFollowProtocol`); a live handle
   sends each message for the first time in the order of acceptance, whatever the server
   sends back (`SendOrder.FirstSendsKeepOrder`); a handle that goes away and comes back
   takes over its messages in a definite order (`HandOff.ReturningHandleQueue`); repeated
   refreshes converge (`Convergence.RefreshesConverge`); sockets follow the hosts, except
   exactly when a refresh that only adds hosts finds a reconnect queued behind a command to
   connect to new ones (`Links.BacklogKeepsStep`, `Connections.HandlesFollowHosts`); the
   account of memory is exact (`Admission.AccountIsRight`); the expiry sweep reports what it
   removes, except exactly what expires while it is at work (`Expiry.SweepReport`).
3. **The reference-counted `data_container`**: counters count the containers sharing a
   buffer, and a buffer is deleted when the last lets go (`DataContainer.Pool.Counted`,
   `DataContainer.Pool.FreedWhenUnreferenced`).

## How it is put together

Each part has a layer of values and a layer of objects. The value layer says what an
operation does, as functions (`JsonParser`, `JsonPrinter`, `Messages`, `Links`,
`Lifecycle`, `Admission`), and the theorems are about it. The object layer has the source's
own form: classes whose fields are changed in place, with the source's loops and its mutual
recursion (`JsonReader.Reader`, `JsonWriter.FastWriter`, `JsonWriter.StyledWriter`,
`MessageCache.MessageCache`, `Handle.Handle`, `Service.Service`, `Client.Client`,
`DataContainer.DataContainer`). The methods of the first seven are proved against the value
layer: the state a method leaves is the one its function gives for the state it found. Those
of containers are proved to keep the invariant of their pool. So `Service.Service.Abs` takes
each method of a service, a turn of a handle's dispatch loop included, to what the steps do
to the state, and `Client.Client.Represents` ties a client and its services to the client of
`Admission`. The theorems over runs are about the states and logs of the value layer; there
is no class for a whole run, whose steps come from several threads.

| file | what it holds |
|---|---|
| `StringOrder`, `Utf8` | the order of `strcmp`; UTF-8 (section 3 of RFC 3629) with its inverse |
| `JsonValue`, `JsonOrder` | trees, member maps, the view of a tree; `operator<` and `operator==` |
| `JsonNumber`, `JsonString`, `JsonLexer` | numerals, string escapes, tokens |
| `JsonParser`, `JsonReader` | the parser as functions, and the `Reader` object |
| `JsonPrinter`, `JsonWriter` | the two printed forms, and the two writer objects |
| `JsonLayout`, `JsonRoundTrip` | texts as layouts of tokens; reading them; printing and parsing cancel |
| `JsonIndent` | the indented text as lines, and the brackets open before each |
| `Messages`, `Expiry`, `MessageCache` | the moves of a message cache, its sweep, and its object |
| `Links`, `Connections` | a handle's connection, and how it follows the hosts of the service |
| `Lifecycle` | the step system of one service and its handles |
| `Conservation`, `Replies`, `Responses`, `SendOrder`, `HandOff`, `Convergence` | its invariants and theorems over runs |
| `Handle`, `Dispatching`, `Service` | the handle and service objects, and how they are steps |
| `Admission`, `Client` | the client's check and account, and its object |
| `DataContainer` | buffers, counters and containers |

Strings are sequences of characters standing for bytes. A tree is compared through its view
(`JsonValue.View`): an integer is a number whether it is held signed or unsigned, and an
array is as long as `size()`, its absent slots null.

## The step system

`Lifecycle.Step` lists what the threads do while they hold the service's lock: a client
thread sends a message; the heartbeat thread begins a refresh, and afterwards creates one
new handle at a time with the lock released in between; a handle's dispatch thread obeys
one command, sends one message or receives one reply; the service's thread delivers one
round of responses; a callback is registered. A run is any sequence of such steps
(`Lifecycle.Run`). The assumptions are those of `Lifecycle.Allowed`: uuids are fresh, and a
refresh starts only when the one before is over. Convergence also asks of a refresh that it
lists distinct names, with the service's own name as theirs. Three more assumptions are
built into the steps:

- Removing a handle is one step: its dispatch thread does nothing more once the refresh has
  taken hold of it.
- A handle binds a control endpoint carrying its name, so constructing a second live handle
  of one name throws, and the rest of that refresh's list is abandoned.
- Commands to a handle form a queue. `disconnect()` (include/details/handle.hpp:828-831)
  writes its code as text where the receiver (include/details/handle.hpp:305) expects an
  integer; the intended command is modelled.

Where the code differs from what one would expect, the model follows the code:

- The test for a bad array separator (foreign/jsoncpp-0.5.0/src/lib_json/json_reader.cpp:566)
  can never be true, so any valid token but a closing bracket or a comment separates elements
  (`JsonRoundTrip.AnySeparatorIsAccepted`).
- Comments before values are skipped only where they are allowed, but those before member
  names and behind values always (`JsonParser.CommentsWithin`).
- An object is taken for empty at a closing brace as long as the last name read is empty, so
  a comma may stand behind a member of empty name (`JsonRoundTrip.TrailingComma`).
- A high surrogate is joined with whatever unit the escape behind it spells
  (`JsonString.AnySecondUnitPairs`).
- A refresh compares a live handle with the list by name, service and port, but a listed
  handle with the live ones by name only; a changed port therefore takes two refreshes.
- Commands a handle has not yet obeyed when a refresh comes stay queued, while the hosts
  they refer to are overwritten or added to; so a listed host can be thrown away with the
  socket it was added to (`Connections.CarelessRunLosesHost`).
- A callback sees the code of a response only; an error carrying the code of a chunk ends a
  message but looks like one more chunk.
- A new handle takes its service name from the service, not from the list.
- `is_sent_` is never set (library/cached_message.cpp:147-154), and nothing relies on it.
- The copy of an unsigned data container leaves its own `signed_` unset
  (library/data_container.cpp:57-60); the copy's mark and digest are arbitrary.
- `register_responder_callback` ends without a return value on success
  (include/details/service.hpp:260-274); it is taken to return true, as its caller expects.

## Model

| member | source | states |
|---|---|---|
| StringOrder.Transitive | foreign/jsoncpp-0.5.0/src/lib_json/json_value.cpp:217-223 | the order of member names is transitive |
| StringOrder.Trichotomy | foreign/jsoncpp-0.5.0/src/lib_json/json_value.cpp:217-231 | of two names exactly one is less, or they are equal |
| StringOrder.LessMeans | foreign/jsoncpp-0.5.0/src/lib_json/json_value.cpp:217-223 | a name is less than another if and only if it is a proper prefix of it or has the smaller character where they first differ |
| JsonValue.LowerBound | foreign/jsoncpp-0.5.0/src/lib_json/json_value.cpp:1031-1033 | where `lower_bound` stops: everything before is less than the key, the next entry is not |
| JsonValue.FindIsLookup | foreign/jsoncpp-0.5.0/src/lib_json/json_value.cpp:1002-1006 | in a sorted member map the search finds an entry exactly where it is, with its value |
| JsonValue.StoreKeepsSorted | foreign/jsoncpp-0.5.0/src/lib_json/json_value.cpp:1022-1038 | resolving a reference and assigning keeps the map sorted and of one kind of key |
| JsonValue.StoreThenFind | foreign/jsoncpp-0.5.0/src/lib_json/json_value.cpp:975-1011 | after storing under a key that key reads back the value and every other key what it read before |
| JsonValue.StoreView | foreign/jsoncpp-0.5.0/src/lib_json/json_value.cpp:974-992 | assigning to any slot of an array, however sparse, sets that element of the dense view, pads skipped slots with nulls up to the new size, and changes nothing else |
| JsonValue.SlotViewIsFind | foreign/jsoncpp-0.5.0/src/lib_json/json_value.cpp:873-904 | the dense view of a sparse array agrees with indexing it: absent slots are null |
| JsonValue.MembersAscend | foreign/jsoncpp-0.5.0/src/lib_json/json_value.cpp:1205-1226 | the members of a valid object are listed in the ascending order of their names |
| JsonOrder.LessTrichotomy | foreign/jsoncpp-0.5.0/src/lib_json/json_value.cpp:565-606 | on valid trees exactly one of a < b, a == b, b < a, through size-then-lexicographic comparison of nested containers |
| JsonOrder.LessTransitive | foreign/jsoncpp-0.5.0/src/lib_json/json_value.cpp:565-606 | `operator<` on trees is transitive |
| JsonOrder.EqualIsIdentity | foreign/jsoncpp-0.5.0/src/lib_json/json_value.cpp:627-668 | `operator==` holds exactly between identical trees |
| JsonOrder.StrictTotalOrder | foreign/jsoncpp-0.5.0/src/lib_json/json_value.cpp:565-668 | both operators together: a strict total order whose ties are the equal trees |
| JsonOrder.ScalarsAscend | foreign/jsoncpp-0.5.0/src/lib_json/json_value.cpp:570-586 | numbers of one type are ordered as their views, strings as `strcmp` orders them, and false comes before true |
| JsonOrder.TypesAscend | foreign/jsoncpp-0.5.0/src/lib_json/json_value.cpp:567-569 | values of different types come in the order null, signed, unsigned, real, string, boolean, array, object |
| JsonOrder.ContainersAscend | foreign/jsoncpp-0.5.0/src/lib_json/json_value.cpp:592-606 | of two arrays or objects the one with fewer entries comes first, and with equally many the first different entry decides, by key and then by value |
| JsonNumber.HornerOfDecimal | foreign/jsoncpp-0.5.0/src/lib_json/json_writer.cpp:30-40 | reading the printed numeral of n digit by digit gives n |
| JsonNumber.NoLeadingZeros | foreign/jsoncpp-0.5.0/src/lib_json/json_writer.cpp:30-40 | the printed numeral has no leading zeros |
| JsonNumber.UIntToString | foreign/jsoncpp-0.5.0/src/lib_json/json_writer.cpp:30-40 | filling the buffer backwards leaves the decimal numeral and its terminator, within the buffer, for every 32-bit value |
| JsonNumber.IntValueToString | foreign/jsoncpp-0.5.0/src/lib_json/json_writer.cpp:42-55 | signed integers print as their numeral, including the least one, whose negation wraps |
| JsonNumber.UIntValueToString | foreign/jsoncpp-0.5.0/src/lib_json/json_writer.cpp:57-63 | unsigned integers print as their numeral |
| JsonNumber.ScanDigitsExact | foreign/jsoncpp-0.5.0/src/lib_json/json_reader.cpp:597-608 | the digit loop yields the exact value, or gives up exactly when the value reaches ten times the threshold |
| JsonNumber.AccumulatorNeverOverflows | foreign/jsoncpp-0.5.0/src/lib_json/json_reader.cpp:597-608 | the digit loop can be cut and resumed after any digit, and what it has accumulated by then fits 32 bits, so no step of it overflows |
| JsonNumber.IntegerExactlyWithinLimit | foreign/jsoncpp-0.5.0/src/lib_json/json_reader.cpp:581-616 | a signed digit string is stored as its exact value if its magnitude is at most 4294967289, or 2147483639 with a minus sign, and is read as a double otherwise |
| JsonNumber.PrintedIntegerReadsBack | foreign/jsoncpp-0.5.0/src/lib_json/json_reader.cpp:581-616 | within these limits reading a printed integer is the identity |
| JsonNumber.BeyondLimitIsNotAnInteger | foreign/jsoncpp-0.5.0/src/lib_json/json_reader.cpp:605-606 | beyond them it never is: the numeral goes to the reader of doubles |
| JsonNumber.NumeralMeans | foreign/jsoncpp-0.5.0/src/lib_json/json_reader.cpp:582-643 | every number token is read as the integer it spells, signed if that fits 32 bits, when it is a digit string within the limit of its sign, and otherwise as exactly what the reader of doubles makes of it, if anything |
| Utf8.CodePointToUtf8 | foreign/jsoncpp-0.5.0/src/lib_json/json_reader.cpp:69-103 | the bytes assigned last to first are the encoding of the code point, empty above 10FFFF |
| Utf8.EncodeIsWellFormed | foreign/jsoncpp-0.5.0/src/lib_json/json_reader.cpp:69-103 | scalar values are encoded as well-formed UTF-8 and decode to themselves, so the encoding is injective |
| Utf8.DecodeIsScalar | foreign/jsoncpp-0.5.0/src/lib_json/json_reader.cpp:69-103 | every well-formed sequence is the encoding of the scalar value it decodes to |
| Utf8.EncodeIsWellFormedOnlyForScalars | foreign/jsoncpp-0.5.0/src/lib_json/json_reader.cpp:69-103 | the encoding is well-formed if and only if the number is a scalar value |
| JsonString.ValueToQuotedString | foreign/jsoncpp-0.5.0/src/lib_json/json_writer.cpp:111-172 | the copy of text without special characters and the escaping loop both give the quoted form |
| JsonString.PlainIsEscaped | foreign/jsoncpp-0.5.0/src/lib_json/json_writer.cpp:114-116 | where the fast path applies, the escaped form is the text itself |
| JsonString.EscapedCharReadsBack | foreign/jsoncpp-0.5.0/src/lib_json/json_reader.cpp:463-476 | one escaped character is skipped whole by the lexer and decodes to itself |
| JsonString.EscapedCharForms | foreign/jsoncpp-0.5.0/src/lib_json/json_writer.cpp:122-168 | only quotes, backslashes and control characters are escaped: by a letter where there is one, else by four hexadecimal digits, in upper case |
| JsonString.ShortEscapesDecode | foreign/jsoncpp-0.5.0/src/lib_json/json_reader.cpp:672-696 | a backslash and one of the eight letters, the slash among them, stand for the listed character; any other letter but u is an error |
| JsonString.StringEndsAtQuote | foreign/jsoncpp-0.5.0/src/lib_json/json_reader.cpp:464-476 | a string token ends at the first quote with an even number of backslashes before it; without one it is no string |
| JsonString.QuotedReadsBack | foreign/jsoncpp-0.5.0/src/lib_json/json_reader.cpp:657-701 | the lexer stops at the closing quote the writer wrote, and decoding gives the original text, for every text |
| JsonString.EscapedScalarBecomesUtf8 | foreign/jsoncpp-0.5.0/src/lib_json/json_reader.cpp:703-756 | a scalar value escaped as `\uXXXX` or as a surrogate pair (section 2.5 of RFC 4627), in either case of letters, decodes to its well-formed UTF-8 encoding |
| JsonString.AnySecondUnitPairs | foreign/jsoncpp-0.5.0/src/lib_json/json_reader.cpp:703-730 | a high surrogate pairs with any unit escaped behind it; any other unit stands alone |
| JsonString.BadUnicodeEscapes | foreign/jsoncpp-0.5.0/src/lib_json/json_reader.cpp:703-756 | fewer than four digits, a digit that is none, and a high surrogate with no escape behind it are errors |
| JsonLexer.ReadToken | foreign/jsoncpp-0.5.0/src/lib_json/json_reader.cpp:274-345 | a token lies within the document and, unless it is the end, is not empty; a string token holds both its quotes |
| JsonLexer.ReadNonComment | foreign/jsoncpp-0.5.0/src/lib_json/json_reader.cpp:195-206 | skipping comments ends at a token that is none, further on |
| JsonLexer.BlockCommentEnds | foreign/jsoncpp-0.5.0/src/lib_json/json_reader.cpp:427-436 | a block comment ends behind the first `*/` after its opening; without one it is no comment |
| JsonLexer.LineCommentEnds | foreign/jsoncpp-0.5.0/src/lib_json/json_reader.cpp:439-449 | a line comment ends behind the first end of a line, or with the document |
| JsonLexer.CommentIsToken | foreign/jsoncpp-0.5.0/src/lib_json/json_reader.cpp:375-400 | a comment is one token, and reading past it is reading from its end |
| JsonLexer.WhiteSpaceIsSkipped | foreign/jsoncpp-0.5.0/src/lib_json/json_reader.cpp:349-359 | blanks, tabs and ends of lines before a token make no difference, and any other character starts one |
| JsonLexer.OtherCharacters | foreign/jsoncpp-0.5.0/src/lib_json/json_reader.cpp:335-343 | a character no token starts with is an error token by itself; a NUL is the end of the stream |
| JsonParser.ReadValue | foreign/jsoncpp-0.5.0/src/lib_json/json_reader.cpp:195-242 | reading a value terminates on every document, does not move the cursor past the end, and succeeds exactly when it adds no error |
| JsonParser.ReadMembers | foreign/jsoncpp-0.5.0/src/lib_json/json_reader.cpp:480-535 | so does the loop over members |
| JsonParser.ReadElements | foreign/jsoncpp-0.5.0/src/lib_json/json_reader.cpp:539-578 | so does the loop over elements |
| JsonParser.Parse | foreign/jsoncpp-0.5.0/src/lib_json/json_reader.cpp:151-191 | the result is true exactly when the error list is empty, and the cursor stays within the document |
| JsonParser.ParseIsValid | foreign/jsoncpp-0.5.0/src/lib_json/json_reader.cpp:151-191 | whatever the document, the tree left behind is valid: sorted maps, NUL-free strings, 32-bit integers |
| JsonParser.ValueSyntax | foreign/jsoncpp-0.5.0/src/lib_json/json_reader.cpp:213-233 | what starts no value, a refused numeral and a bad string are each reported where they stand |
| JsonParser.ObjectSyntax | foreign/jsoncpp-0.5.0/src/lib_json/json_reader.cpp:484-535 | in an object a name, a colon behind it and then a comma, a brace or a comment are expected; what stands there instead is the error reported |
| JsonParser.TruncatedIsRefused | foreign/jsoncpp-0.5.0/src/lib_json/json_reader.cpp:480-578 | an object or array with no closing bracket behind its opening one is refused |
| JsonParser.ObjectEndsAtBrace | foreign/jsoncpp-0.5.0/src/lib_json/json_reader.cpp:480-535 | an object that is read ends at a closing brace |
| JsonParser.ArrayEndsAtBracket | foreign/jsoncpp-0.5.0/src/lib_json/json_reader.cpp:539-578 | an array that is read ends at a closing bracket |
| JsonParser.OneError | foreign/jsoncpp-0.5.0/src/lib_json/json_reader.cpp:760-796 | a failed read reports exactly one error, however deep it happened and whatever recovery passed |
| JsonParser.RecoveryEnds | foreign/jsoncpp-0.5.0/src/lib_json/json_reader.cpp:774-787 | recovery ends behind the bracket looked for, behind a NUL or at the end of the document |
| JsonParser.CommentBeforeValue | foreign/jsoncpp-0.5.0/src/lib_json/json_reader.cpp:245-261 | a comment before a value is skipped if comments are allowed and is an error otherwise |
| JsonParser.CommentsWithin | foreign/jsoncpp-0.5.0/src/lib_json/json_reader.cpp:484-531 | comments before member names and behind member values are skipped in any case |
| JsonParser.CommentBehindElement | foreign/jsoncpp-0.5.0/src/lib_json/json_reader.cpp:558-564 | so are comments behind elements |
| JsonParser.CommentIsNoElement | foreign/jsoncpp-0.5.0/src/lib_json/json_reader.cpp:543-557 | an array with nothing but a comment in it is refused |
| JsonReader.Reader.ReadToken | foreign/jsoncpp-0.5.0/src/lib_json/json_reader.cpp:274-345 | the cursor and the token are those of the specification |
| JsonReader.Reader.ReadString | foreign/jsoncpp-0.5.0/src/lib_json/json_reader.cpp:464-476 | the loop over a string stops where the specification says |
| JsonReader.Reader.RecoverFromError | foreign/jsoncpp-0.5.0/src/lib_json/json_reader.cpp:774-787 | recovery moves past the wanted token or to the end, and drops the errors met on the way |
| JsonReader.Reader.DecodeNumber | foreign/jsoncpp-0.5.0/src/lib_json/json_reader.cpp:582-616 | the loop over digits leaves exactly the specified value on the node stack, or an error |
| JsonReader.Reader.DecodeUnicodeCodePoint | foreign/jsoncpp-0.5.0/src/lib_json/json_reader.cpp:704-730 | surrogate pairs are combined as specified, or the error is recorded |
| JsonReader.Reader.DecodeStringText | foreign/jsoncpp-0.5.0/src/lib_json/json_reader.cpp:658-701 | the decoding loop yields the specified text, or the error is recorded |
| JsonReader.Reader.ReadValue | foreign/jsoncpp-0.5.0/src/lib_json/json_reader.cpp:195-242 | refines the specification: the same result, cursor, value and errors, with the rest of the node stack as on entry |
| JsonReader.Reader.ReadObject | foreign/jsoncpp-0.5.0/src/lib_json/json_reader.cpp:480-535 | refines the specification of objects, recovery included |
| JsonReader.Reader.ReadArray | foreign/jsoncpp-0.5.0/src/lib_json/json_reader.cpp:539-578 | refines the specification of arrays |
| JsonReader.Reader.Parse | foreign/jsoncpp-0.5.0/src/lib_json/json_reader.cpp:151-191 | refines the specification of a whole parse: result, value, errors and cursor |
| JsonReader.StoreTwice | foreign/jsoncpp-0.5.0/src/lib_json/json_reader.cpp:557-560 | resolving a slot, reading into it and going back stores the value that was read |
| JsonWriter.FastWriter.Write | foreign/jsoncpp-0.5.0/src/lib_json/json_writer.cpp:197-204 | the document is the compact text of the tree's view and a line end |
| JsonWriter.FastWriter.WriteValue | foreign/jsoncpp-0.5.0/src/lib_json/json_writer.cpp:207-263 | appends to the document exactly the compact text of the value |
| JsonWriter.StyledWriter.Write | foreign/jsoncpp-0.5.0/src/lib_json/json_writer.cpp:276-287 | the document is the indented text of the tree's view and a line end, whatever an earlier write left in the scratch fields; it is the lines of the tree, each indented by the brackets open before it |
| JsonWriter.StyledWriter.WriteValue | foreign/jsoncpp-0.5.0/src/lib_json/json_writer.cpp:290-348 | while texts are being collected only childless values are written, each adding its one text; otherwise the value is appended to the document; indentation and mode are restored |
| JsonWriter.StyledWriter.WriteArrayValue | foreign/jsoncpp-0.5.0/src/lib_json/json_writer.cpp:351-401 | the recursion may clobber the shared texts, yet the array is written as specified |
| JsonWriter.StyledWriter.IsMultilineArray | foreign/jsoncpp-0.5.0/src/lib_json/json_writer.cpp:404-432 | the measure is exact, and afterwards the shared texts are none or one for each element |
| JsonWriter.StyledWriter.WriteIndent | foreign/jsoncpp-0.5.0/src/lib_json/json_writer.cpp:445-457 | starts a new line with the indentation, except at the start of the document and behind a space |
| JsonLayout.LayoutConcat | foreign/jsoncpp-0.5.0/src/lib_json/json_reader.cpp:349-359 | texts that lay out tokens concatenate to one that lays out all of them |
| JsonLayout.CompactLaysOut | foreign/jsoncpp-0.5.0/src/lib_json/json_writer.cpp:207-263 | the compact text lays out the tokens of the tree |
| JsonLayout.CompactIsShortest | foreign/jsoncpp-0.5.0/src/lib_json/json_writer.cpp:207-263 | no layout of the same tokens is shorter than the compact text; for YAML it has one more space for every colon |
| JsonWriter.CompactMember | foreign/jsoncpp-0.5.0/src/lib_json/json_writer.cpp:248-258 | in the compact text a member is its quoted name, a colon, for YAML a space, and its value |
| JsonLayout.StyledLaysOut | foreign/jsoncpp-0.5.0/src/lib_json/json_writer.cpp:290-401 | so does the indented text, at any indentation |
| JsonIndent.DocumentIsLines | foreign/jsoncpp-0.5.0/src/lib_json/json_writer.cpp:289-457 | the indented document is a list of lines: every child of a container that takes more than one line starts a line one level deeper, its closing bracket starts one too, and an array stays on one line exactly when its elements are childless, thrice their number is below 74 and so is the length of the line |
| JsonIndent.DocumentIsIndented | foreign/jsoncpp-0.5.0/src/lib_json/json_writer.cpp:445-487 | in the finished text every line is indented by three spaces for every bracket open before it, less three if it starts with a closing one; none is empty; at the end no bracket is open |
| JsonRoundTrip.ReadValueOnLayout | foreign/jsoncpp-0.5.0/src/lib_json/json_reader.cpp:195-242 | on any layout of a tree's tokens, members in any order, the parser reads a value holding that tree and stops behind it |
| JsonRoundTrip.ReadElementsOnLayout | foreign/jsoncpp-0.5.0/src/lib_json/json_reader.cpp:552-576 | the loop over elements builds the array it is laid out |
| JsonRoundTrip.ReadMembersOnLayout | foreign/jsoncpp-0.5.0/src/lib_json/json_reader.cpp:485-533 | the loop over members holds under each name the last member of that name, and no other names |
| JsonRoundTrip.LastMemberIsKept | foreign/jsoncpp-0.5.0/src/lib_json/json_reader.cpp:505-512 | looking up a name in the object read finds the value of the last member of that name, wherever it stands, and nothing if no member has it |
| JsonRoundTrip.TrailingComma | foreign/jsoncpp-0.5.0/src/lib_json/json_reader.cpp:491-494 | a comma behind the last member of an object is refused, unless the name of that member is empty |
| JsonRoundTrip.ParseOfLayout | foreign/jsoncpp-0.5.0/src/lib_json/json_reader.cpp:151-191 | a document laying out a tree is read to its end, to a value holding that tree, without an error; a strict reader then refuses any root but a container or null |
| JsonRoundTrip.TrailingTextIsIgnored | foreign/jsoncpp-0.5.0/src/lib_json/json_reader.cpp:170-191 | what stands behind the value is not looked at |
| JsonRoundTrip.RefusedValueFails | foreign/jsoncpp-0.5.0/src/lib_json/json_reader.cpp:195-242 | on a layout of a tree with a numeral the reader refuses, however deep, reading the tree fails |
| JsonRoundTrip.AnySeparatorIsAccepted | foreign/jsoncpp-0.5.0/src/lib_json/json_reader.cpp:552-576 | with braces, opening brackets, commas, colons, keywords or strings, in any mixture, in place of its commas, an array is read without an error, as if it had them |
| JsonRoundTrip.HeldViewIsFaithful | foreign/jsoncpp-0.5.0/src/lib_json/json_reader.cpp:582-643 | a value holding a tree with ascending members has just that tree for its view if and only if the numbers are faithful |
| JsonRoundTrip.RoundTrip | foreign/jsoncpp-0.5.0/src/lib_json/json_writer.cpp:197-287 | what either writer writes for a valid tree whose reals print as numerals parses, to its end and without an error, if and only if the reader accepts every numeral and, if strict, the kind of the root; it parses to the same view if and only if moreover every integer is within the limit of its sign and every real prints as a numeral that spells no such integer and scans as that real |
| JsonRoundTrip.RealFreeRoundTrip | foreign/jsoncpp-0.5.0/src/lib_json/json_writer.cpp:197-287 | for trees without reals and with integers in range both documents parse to the view that was written, hence to the same |
| Messages.InUuidOrderIsSorted | library/message_cache.cpp:206-215 | iterating the sent messages lists each exactly once, by ascending uuid: a proper prefix, or the smaller character at the first difference, first |
| Messages.MovesKeepOrder | library/message_cache.cpp:65-191 | what is enqueued, appended or moved to the back goes behind all that is pending, in its own order; only a bounced message goes in front |
| Messages.FrontToSentHolds | library/message_cache.cpp:139-149 | sending loses no message if and only if the uuid is not among the sent ones already |
| Messages.SentMovesHold | library/message_cache.cpp:152-203 | putting a sent message back loses nothing; removing it takes exactly that message |
| Messages.AllNewHolds | library/message_cache.cpp:206-218 | making all messages new keeps them all |
| Messages.BounceAndSendCancel | library/message_cache.cpp:173-191 | a message bounced to the front is sent next, which restores the cache, and a bounce undoes the sending |
| Expiry.SweepReport | library/message_cache.cpp:226-274 | under a monotone clock every reported message was held and is gone, each once; the report is exactly what was removed if and only if the deadline of no pending message falls between its two judgements |
| Expiry.OneReadingReportsAll | library/cached_message.cpp:157-168 | with one reading of the clock the report is exactly what was removed |
| Expiry.SweptHavePassed | library/cached_message.cpp:157-168 | with one reading, what is reported and removed is exactly what has a deadline before that reading, and what stays is the rest |
| Expiry.AliveKeepsOrder | library/message_cache.cpp:270-273 | the survivors keep their order |
| Expiry.ReportInOrder | library/message_cache.cpp:230-266 | the report names sent messages by ascending uuid and then pending ones in their order |
| MessageCache.MessageCache.MoveNewMessageToSent | library/message_cache.cpp:139-149 | refines sending the front message |
| MessageCache.MessageCache.MoveSentMessageToNewFront | library/message_cache.cpp:173-191 | refines the bounce to the front; unknown uuids change nothing |
| MessageCache.MessageCache.MoveSentMessageToNew | library/message_cache.cpp:152-170 | refines the move to the back |
| MessageCache.MessageCache.RemoveMessageFromCache | library/message_cache.cpp:194-203 | refines the removal |
| MessageCache.MessageCache.AppendMessageQueue | library/message_cache.cpp:82-92 | appends the other queue in order; none and an empty one are ignored |
| MessageCache.MessageCache.MakeAllMessagesNew | library/message_cache.cpp:206-218 | the loop leaves the pending messages followed by the sent ones, listed by ascending uuid |
| MessageCache.MessageCache.ProcessExpiredMessages | library/message_cache.cpp:226-274 | the two loops and the removal give the specified report and the specified cache |
| MessageCache.MessageCache.SweepSent | library/message_cache.cpp:230-247 | erasing while iterating removes exactly the expired entries and reports them in order |
| Links.DrainObeysAll | include/details/handle.hpp:275-376 | obeying a whole queue, one command at a time, ends on the hosts of the last reconnect or connect, joined by the hosts to be added unless a reconnect stands behind the command that takes them up |
| Links.ObeyingApproaches | include/details/handle.hpp:327-376 | obeying a command changes nothing about where a handle ends up |
| Links.CreatedWillBeInStep | include/details/service.hpp:579-618 | a new handle ends up connected to the hosts of the service if and only if there are any |
| Links.AddedAreTheNew | include/details/service.hpp:442-447 | the hosts handed on as new are those listed and not known before |
| Links.RefreshKeepsStep | include/details/service.hpp:396-411 | whatever commands are left over, those of a new handle included, a handle bound for hosts of the service stays so through a refresh that lists a host; it ends up on all of them if and only if the refresh removes a host, or it did before and the refresh does not add hosts behind a command to connect to new hosts with a reconnect behind it |
| Links.BacklogKeepsStep | include/details/handle.hpp:770-816 | a handle that would end up on exactly the hosts does so after such a refresh too if and only if it is not one that only adds hosts and finds a reconnect queued behind a command to connect to new hosts |
| Links.EmptyRefreshBreaksStep | include/details/service.hpp:396-411 | a refresh that lists no host leaves the handle connected to hosts that are gone |
| Links.GoingIsDisconnected | include/details/handle.hpp:349-355 | a handle told to disconnect ends up connected to no host, whatever it had still to obey |
| Connections.RefreshKeepsAttended | include/details/service.hpp:369-420 | a refresh keeps all live handles bound for hosts of the service, and decides for each by its queue whether it ends up on all of them |
| Connections.CreateKeepsAttended | include/details/service.hpp:566-622 | so does each creation, and the new handle ends up on all of them |
| Connections.HandlesFollowHosts | include/details/service.hpp:369-455 | in every run whose refreshes list a host, whatever commands these find, a live handle with no command left is connected to hosts of the service only, and to all of them if and only if it misses none: no refresh lost it one that no later refresh made good by a reconnect |
| Connections.CarefulHandlesFollowHosts | include/details/service.hpp:369-455 | so it is connected to exactly the hosts of the service when no refresh that only adds hosts finds a reconnect behind a command to connect to new hosts |
| Connections.CarelessRunLosesHost | include/details/handle.hpp:770-816 | a lawful run from the start in which one does, and the handle ends up without a listed host |
| Lifecycle.HostMap | include/details/service.hpp:449-454 | the host map after a refresh has exactly the listed addresses |
| Lifecycle.HostMapKeepsLast | include/details/service.hpp:451-454 | an address listed twice keeps its last name |
| Lifecycle.ListingAscends | include/details/service.hpp:391-394 | the list made of the host map is in ascending order |
| Lifecycle.Listing | include/details/service.hpp:391-394 | the list made of the host map holds exactly its addresses |
| Lifecycle.RemoveInOrderMeans | include/details/service.hpp:495-560 | removing handles one by one, in the order of names, fails if and only if messages wait under one of the names, and otherwise is the same as removing all at once |
| Conservation.NoConflict | include/details/service.hpp:527-536 | the error of messages waiting beside a live handle cannot occur |
| Conservation.StepPlaced | include/details/service.hpp:521-560 | every step keeps handles and waiting queues apart, filed under their own names, and free of that error |
| Conservation.DispatchPool | include/details/handle.hpp:415-478 | sending a message from a live handle loses none: its uuid cannot be among the sent ones |
| Conservation.TakeHolds | include/details/handle.hpp:481-639 | a reply takes out of the cache exactly the message it finishes, if any |
| Conservation.StepConserves | include/details/service.hpp:485-683 | every step keeps the balance of accepted, held and finished messages |
| Conservation.RunConserves | include/details/service.hpp:485-683 | so does every run |
| Conservation.NoMessageLost | include/details/service.hpp:485-683 | in every reachable state each accepted message is in exactly one of: pending, sent, waiting for its handle, finished; no other message is anywhere; nothing is under a foreign name; the internal error has not occurred |
| Replies.ReplyDecides | include/details/handle.hpp:532-628 | a step finishes a message if and only if it hands its connected handle a reply with its uuid, among the sent ones, that is an error other than a full queue or the end of the answer; it produces a chunk with the data for an unfinished answer, a choke for a finished one, a failure with code and text for an error, and nothing otherwise |
| Replies.ReplyToCache | include/details/handle.hpp:543-628 | a finishing reply takes its message out of the cache, a full queue puts it in front, and any other reply leaves the cache alone |
| Replies.RepliesDecide | include/details/handle.hpp:481-639 | in every run a message is finished if and only if some step was its last reply, and a response is produced if and only if some step was a reply causing it |
| Responses.SentIsUnanswered | include/details/handle.hpp:532-541 | a message still in an index has had no final response |
| Responses.StepKeepsProtocol | include/details/handle.hpp:532-628 | every step keeps the protocol of responses |
| Responses.StepKeepsOrder | include/details/service.hpp:277-323 | every step keeps what a callback was given, followed by what is queued, equal to what was produced since its registration |
| Responses.AllIsDelivered | include/details/service.hpp:174-215 | after as many rounds as responses are queued for it a callback has been given all that was produced since its registration |
| Responses.ForHandleIsWithin | include/details/service.hpp:174-215 | the responses for one handle follow the protocol if all do |
| Responses.ResponsesFollowProtocol | include/details/service.hpp:174-323 | in every run the responses of one uuid are chunks and then at most one final one, which exists exactly for finished messages; what a callback has been given is a prefix of what was produced for it since its registration, and follows the same protocol |
| Responses.CodesFollowProtocol | include/details/handle.hpp:532-628 | told by their codes alone: no response without the code of a chunk is followed by another of its uuid; and one with another code exists for exactly the finished messages if and only if no error carries the code of chunks |
| Responses.ResponsesAnswerAccepted | include/details/handle.hpp:534-628 | in every run each response carries the uuid, service and handle of a message that was accepted |
| HandOff.AwayCollects | include/details/service.hpp:653-680 | while a handle is away its messages wait in the order they were accepted, behind what was left behind |
| HandOff.ReturningHandleQueue | include/details/service.hpp:521-618 | a handle removed and later created again starts with what was pending, then what had been sent, listed by ascending uuid, then what was accepted meanwhile, in order; nothing is marked as sent and nothing stays behind |
| SendOrder.FirstSendsKeepOrder | include/details/handle.hpp:415-628 | while a handle stays, what it sends for the first time, followed by what is pending behind the messages that came back, is what was pending at first followed by what was accepted since, in order; whatever came back had been sent before |
| SendOrder.NoneComesBack | include/details/handle.hpp:543-552 | without a queue-full reply none comes back, and messages are sent just in the order they were accepted |
| SendOrder.BouncedMessageIsSentNext | include/details/handle.hpp:543-552 | a message bounced by a full queue gives no response and is the next one sent, which restores the state before the bounce |
| Convergence.OneRound | include/details/service.hpp:369-483 | after one refresh and its creations every live handle is a listed one, and all listed ones are live if and only if no live handle of a listed name differed from the list |
| Convergence.SettledRefresh | include/details/service.hpp:369-483 | a refresh listing what is live, on the same hosts, changes nothing at all |
| Convergence.RefreshesConverge | include/details/service.hpp:369-483 | after two refreshes with the same list the live handles are exactly the listed ones, whatever else went on; a third changes nothing |
| Convergence.NameInUseEndsCreations | include/details/service.hpp:566-622 | creating a handle of a name in use ends the creations: those before it are live, it and those behind it are given up |
| Handle.Handle.ConnectTo | include/details/handle.hpp:750-768 | refines the command to connect, ignored when stopped, connected or without hosts |
| Handle.Handle.ConnectNewHosts | include/details/handle.hpp:771-792 | refines the command to connect to new hosts |
| Handle.Handle.Reconnect | include/details/handle.hpp:795-816 | refines the command to reconnect |
| Handle.Handle.DispatchControlMessages | include/details/handle.hpp:275-376 | obeys the oldest command as specified |
| Handle.Handle.DispatchNextAvailableMessage | include/details/handle.hpp:415-478 | moves the front message to the sent ones exactly when the socket took it |
| Handle.Handle.DispatchResponse | include/details/handle.hpp:500-628 | the branches on code, completion and whether the message is known do what the specification of a reply says |
| Handle.Handle.DispatchResponses | include/details/handle.hpp:481-639 | the loop takes readable replies in turn and stops at the first unreadable one |
| Handle.Handle.DispatchTurn | include/details/handle.hpp:186-219 | one turn of the dispatch loop: a command, a message, the replies |
| Dispatching.TurnIsSteps | include/details/handle.hpp:186-219 | a turn of the loop is a run of steps of the system, with the same state of the service and the same responses |
| Dispatching.NothingBehindUnreadable | include/details/handle.hpp:487-560 | a reply without an envelope, without a uuid or without its data ends the turn; replies behind it are not taken |
| Dispatching.ReadableAreTaken | include/details/handle.hpp:487-560 | replies that can be read are each taken as one step |
| Service.Service.SendMessage | include/details/service.hpp:625-683 | the message joins its live handle's queue or its name's waiting queue, made if need be, and the size is added in 64-bit arithmetic |
| Service.Service.RegisterResponderCallback | include/details/service.hpp:261-274 | the callback is registered if and only if none is yet |
| Service.Service.EnqueueResponse | include/details/service.hpp:277-323 | the response is queued for its handle, or dropped without a callback |
| Service.Service.DispatchResponses | include/details/service.hpp:174-215 | one round pops the oldest response of every handle with a callback and gives it to that callback |
| Service.Service.DispatchTurn | include/details/handle.hpp:186-219 | a turn of the loop of one of its handles, its responses enqueued, leaves the service in the state of that run of steps |
| Service.Service.RefreshHosts | include/details/service.hpp:423-455 | outstanding and new hosts are computed against the old map, which then is replaced |
| Service.Service.RefreshHandles | include/details/service.hpp:458-483 | the outstanding handles and the new ones, each once |
| Service.Service.RemoveHandle | include/details/service.hpp:495-560 | the deque of the dead cache itself becomes the waiting queue; fails exactly if messages wait already, leaving the handle live with its messages made new |
| Service.Service.RemoveOutstandingHandles | include/details/service.hpp:486-563 | the loop removes them in order, up to the first under whose name messages wait |
| Service.Service.ReconnectAll | include/details/service.hpp:396-402 | every live handle, and nothing else, is told to reconnect |
| Service.Service.ConnectAllToNewHosts | include/details/service.hpp:403-411 | every live handle, and nothing else, is told of the new hosts |
| Service.Service.BeginRefresh | include/details/service.hpp:369-413 | refines the part of a refresh under the lock, the state left by its failure included |
| Service.Service.CreateNext | include/details/service.hpp:575-619 | refines one creation: the waiting queue is appended to the new handle's and dropped, and the handle is told to connect |
| Service.ListHosts | include/details/service.hpp:391-394 | walking the host map gives the specified list |
| Service.DeliverRound | include/details/service.hpp:179-212 | the loop over callbacks pops exactly one response for each that has any |
| Admission.AdmitIsExact | library/client_impl.cpp:150-192 | for paths of realistic length a message is accepted if and only if its service is known, it has at most 2 GiB, and it fits the limit in plain arithmetic, counting data, object, uuid and path; and the verdict names the first check that fails |
| Admission.WrappedSumIsStopped | library/client_impl.cpp:159-192 | every send whose sum wraps around is rejected: by the capacity check if the wrapped sum is over the limit, and otherwise by a later check |
| Admission.SomeWrappedSumPasses | library/client_impl.cpp:159-164 | whatever the account, some wrapped sum passes the capacity check |
| Admission.SendKeepsBalance | library/client_impl.cpp:159-198 | an accepted send keeps the account right if its sum stays below 2 to the 64, and, with data present, only then |
| Admission.AccountIsRight | library/client_impl.cpp:276-297 | in every run with such paths the account equals the sum of the sizes of all accepted messages over all services and is within the limit |
| Client.Client.SendMessage | library/client_impl.cpp:150-202 | the verdict is the specified one; a rejected send changes nothing; an accepted one reaches its service only and updates the account; a client that represents a sound client of `Admission` represents the one after this send |
| Client.Client.UpdateMessagesCacheSize | library/client_impl.cpp:277-297 | the loop adds up the sizes of all services, in 64-bit arithmetic and in any order |
| DataContainer.SignedPartIsAll | library/data_container.cpp:224-256 | the chunk loop, its count kept in 32 bits, signs all the data if and only if there are fewer than 2 to the 32 whole chunks |
| DataContainer.SignData | library/data_container.cpp:224-256 | the digest is that of the part the loop feeds it |
| DataContainer.Pool.Counted | library/data_container.cpp:61-63 | a counter equals the number of live containers on it, is zero exactly for empty ones, and a live container's buffer has not been deleted |
| DataContainer.Pool.FreedWhenUnreferenced | library/data_container.cpp:131-141 | a buffer has been deleted if and only if no live container refers to it |
| DataContainer.DataContainer.constructor | library/data_container.cpp:40-103 | holds the given bytes, signed when large; empty without data |
| DataContainer.DataContainer.Copy | library/data_container.cpp:48-64 | shares the bytes and keeps all counters right |
| DataContainer.DataContainer.Assign | library/data_container.cpp:144-149 | copy and swap, also onto itself: the bytes of the right side, everything kept right, other containers untouched |
| DataContainer.DataContainer.Swap | library/data_container.cpp:210-221 | exchanges contents and counters and keeps all counters right |
| DataContainer.DataContainer.Clear | library/data_container.cpp:183-197 | the container is empty and still live, its share given up |
| DataContainer.DataContainer.Destroy | library/data_container.cpp:131-141 | the container is gone; its buffer is deleted if and only if it was the last |
| DataContainer.DataContainer.Equals | library/data_container.cpp:152-170 | equal bytes compare equal; small containers compare equal only then, big ones when their digests agree |

## Left out

- Doubles: `decodeDouble` and `valueToString(double)` go through `sscanf` and `sprintf`; they are parameters (`RealScanner`, `RealPrinter`), over `real`, assumed never to print a bare colon; the round trip is stated where they print numerals, which a finite double does.
- JSON comments are skipped by the lexer but not collected or written; comment collection is off.
- `StyledStreamWriter`, `Path`, `operator<=` and `resize` of `Value`, and the internal map and array, which are not compiled in.
- The index operators and assignment of `Value` change trees in place; here they are functions on values. The node stack holds values stored back into their parent when popped, not pointers into the tree, so aliasing inside a tree is not captured.
- String values and member names are texts up to their first NUL; null string pointers are not modelled. Arrays have any size, not 32-bit indices.
- JsonRoundTrip.AnySeparatorIsAccepted: leaves out numerals as separators, which stand apart from a neighbouring number only by white space, of which a layout does not tell.
- Line and column numbers of errors; an error is its kind and its token.
- ZeroMQ sockets, polling, threads and mutexes: a step is what happens under the lock. The socket's part is a parameter: whether it took a message, and which replies it holds.
- The moment between inserting a new handle and telling it to connect, in which only its queue can change.
- The msgpack decoding of a reply's data part: whether the part can be read, and its bytes, are a parameter (`Lifecycle.Part`).
- Statistics, logging, heartbeats, configuration, message envelopes and the Python and facade layers.
- The expiry sweep is called nowhere (its call in include/details/handle.hpp:221-242 is commented out), so it is not a step of a run; its properties are proved of the sweep alone.
- What a service does after the internal error of a refresh: the state the error leaves is modelled, and a run stops there. No run gets there.
- Of the service's map of response queues the pointers are not modelled, since nothing shares them.
- SHA-1 is an arbitrary function. Running out of memory is not modelled. `clear` deletes an array with the wrong form of `delete`; both forms count as deleting.
- The size of a `cached_message` object is a parameter.
