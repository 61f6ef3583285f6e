# A verified model of the web server's protocol and data code

The repository is an embedded web server derived from Boa. This project models the parts of it that carry hard
properties, in Dafny, and proves those properties. Each component is a module or a small group of modules; the
imperative C functions are methods over arrays, classes and linked nodes, each proved against a function that says what
it should compute, and the properties of those functions are lemmas.

- **JSON library** (`src/cJSON.c`): `JsonText` (the trees and the text they print as), `JsonGrammar` (what the
  recursive-descent parser accepts, as functions of the unread text), `JsonRoundTrip` (parsing undoes printing),
  `JsonNumerals` (what a numeral is worth), `JsonStrings` (string literals decode to UTF-8), `JsonBounds` (which literals
  are decoded in bounds), `JsonDocuments` (exactly which texts are accepted), `JsonParser` and `JsonTreeParser` (the parser
  over positions, buffers and linked items), `JsonLayout` (the printed text spelled out), `JsonPrinters`, `JsonBuffered` and
  `JsonPieces` (the two printing modes), `JsonItems`, `JsonTrees` and `JsonEdits` (the linked items, their surgery and deep
  copies, the trees they stand for and what the surgery does to those), `JsonMinify` and `JsonMinifyText` (the in-place
  minifier), `JsonEndToEnd` (all of it together), with `Bytes`, `Bits` and `Buffers` below.
- **Configuration parser** (`src/y.tab.c`): `ConfigTables` (the compressed tables), `ConfigGrammar` (derivation trees,
  the language and what a derivation stands for), `ConfigParser` (the driver, its stacks, lexer values and actions).
- **Request scheduler** (`src/queue.c`, `src/request.c`, `src/boa.c`): `RequestQueues`, `Scheduler`.
- **Byte-stream relays** (`src/read.c`, `src/pipe.c`, `process_option_line`): `HeaderScan` (lines and the
  end of the header), `HeaderOptions` (what option lines do), `ContentLength` (what they mean: lengths, names and variables), `HeaderRun` (how reading a header ends, given the bytes and
  how they were cut into reads), `HeaderReader`, `BodySpool`, `PostBody` (header and body together), `CgiRelay`, with
  `Transfers` for partial reads and writes.
- **Hashes** (`src/sha256.c`, `src/md5.c`): `Sha256`, `Md5`, `WordLaws` (laws of their functions on words), `Sha256Known` and
  `Md5Known` (known digests, worked out step by step), with `Octets`.
- **Text transformers and the lease table** (`src/util.c`, `src/get.c`, `src/asp_page.c`, `src/ap_connection.c`):
  `GlobMatch`, `CleanPath`, `PageExpansion`, `Leases`.

What the outside world does is a parameter of the method concerned and ranges over everything it may do: how many bytes
a `read` or `write` moves, whether it blocks or fails, what a request handler returns, what a page handler writes, when
a sweep happens between the steps of an install. A C string is the sequence of its bytes before the terminator; a
pointer into a text or buffer is an index. Integers are unbounded except where the C code depends on their width, and
there the width is written out (`% 2^32`, `% 2^64`, `bv32`).

Where the code does something a reader might not expect, the contracts follow the code:

- With formatting on, the shared-buffer mode of `print_object` reuses the variable that holds its start offset, so the
  pointer it returns is right only for the outermost object. `JsonBuffered.PrintValue` states the returned offset
  exactly; nested calls ignore it.
- `parse_string` accepts a string without a closing quote, and an escape at the end of a literal can carry it over the
  closing quote. `JsonBounds.BoundsExactly` says for which literals it stays within text and buffer: exactly for those
  whose body is not left by the decoder's own steps of 1, 2, 6 and 12 bytes. Literals whose escapes are complete are among
  them, but the four digits may also be missing without harm.
- `read_header` refuses a request for the way it was cut into reads: a round that ends inside a line is refused unless a
  line was eaten in it or its first byte reads as a NUL. `HeaderRun.CutLineExactly` gives the exact condition,
  `HeaderRun.CutsMatter` a request that is accepted in one piece and refused in two, for every place of the cut in its
  first line, and `HeaderRun.LineChunksAreFine` shows that only the bytes count when every read ends with a line end.
- A header name that starts with COOKIE is taken for the cookie (six bytes are compared), and 24 header variables fit into
  the CGI environment, behind the eight common ones and the method.
- A sweep of the lease table that deletes a lease's rule before the adding thread has installed it leaves that rule behind.
  `Leases.LeaseTable.Run` shows that table and kernel agree, whenever both threads are at rest, exactly if no rule was ever
  deleted early, which `Leases.EarlyIn` reads off the schedule; `Leases.InTimeIsNeverEarly` says that this needs a lease to
  expire while it is being installed, and `Leases.Race` is a run in which it happens.
- `parse_number` takes more than RFC 8259 allows: one leading zero before other digits, signs and exponent marks without
  digits. `JsonNumerals.EveryNumberIsANumeral` shows that there is nothing else, and `JsonNumerals.NumeralIsWorth` covers
  these too.
- In `cJSON_Minify` the star that opens a block comment may also close it: `/*/` is a whole comment.

## Model

| member | source | states |
|---|---|---|
| JsonText.Digits | src/cJSON.c:162-162 | decimal digits of `%d`: at least one, all digits, no leading zero |
| JsonText.EmitIsText | src/cJSON.c:371-657 | the printed text in continuation form, in which the printed pieces are followed by what comes after, is the printed text and then that |
| JsonLayout.Escapes | src/cJSON.c:288-302 | the escape of every byte, spelled out |
| JsonLayout.StringIs | src/cJSON.c:286-305 | quotes around the escapes of the bytes, one after the other |
| JsonLayout.ArrayText | src/cJSON.c:452-468 | brackets, and a comma between items, with a blank behind it only when formatted |
| JsonLayout.ObjectText | src/cJSON.c:559-607 | formatted: a line for each member with one tab for each level, the closing brace one level less; an empty object has a line break too |
| JsonLayout.UnformattedObject | src/cJSON.c:559-607 | unformatted: braces, members and commas, nothing else |
| JsonLayout.TextOfMember | src/cJSON.c:576-594 | indentation, quoted name, colon, a tab when formatted, value |
| JsonGrammar.SecondPass | src/cJSON.c:202-245 | the decoding loop never uses more text than there is and only ever adds to what it has written |
| JsonGrammar.ParseString | src/cJSON.c:192-249 | a string that is read uses up at least one byte of text, so every caller makes progress |
| JsonGrammar.ParseValue | src/cJSON.c:356-368 | every value uses up text: the recursive descent ends |
| JsonGrammar.ParseItems | src/cJSON.c:416-429 | every round of the array loop uses up text |
| JsonGrammar.ParseMembers | src/cJSON.c:526-545 | every round of the object loop uses up text |
| JsonNumerals.NumeralIsWorth | src/cJSON.c:96-115 | for every sign, integer digits, fraction and exponent, with or without a sign of its own, the number r that is read is N * 10^k if k >= 0, and r * 10^(-k) = N otherwise, with powers over the naturals, N being the digits without the point, with their sign, and k the exponent less the length of the fraction; reading stops behind the numeral |
| JsonNumerals.NumeralIsText | src/cJSON.c:323-337 | the same for a whole text, with white space around the numeral |
| JsonNumerals.EveryNumberIsANumeral | src/cJSON.c:96-115 | every text that starts like a number starts with such a numeral, so the law covers all numbers that are read |
| JsonDocuments.DocParses | src/cJSON.c:356-546 | every document is parsed to its value: arrays and objects of any shape, with any white space between brackets, commas, colons, names and values |
| JsonDocuments.ParsedExactly | src/cJSON.c:356-546 | a value is read from a text, with a given rest, if and only if the text is that of a document that stands for the value |
| JsonDocuments.AcceptedExactly | src/cJSON.c:323-337 | with the check for the end, exactly the texts of documents with white space around them are accepted |
| JsonDocuments.NumeralStands | src/cJSON.c:96-115 | numerals are numbers of documents, and stand for what they are worth |
| JsonDocuments.LiteralStands | src/cJSON.c:192-249 | literals of well-formed elements are strings of documents, and stand for the UTF-8 of their code points |
| JsonRoundTrip.NumberRoundTrip | src/cJSON.c:96-163 | parsing the text of any 32-bit integer gives that integer and stops behind it |
| JsonRoundTrip.StringRoundTrip | src/cJSON.c:192-306 | parsing the escaped text of any NUL-free string gives the string, and the first pass allots enough for it |
| JsonRoundTrip.ParseEmit | src/cJSON.c:356-657 | for every printable tree, depth and format, and any text behind it that does not start with a digit, dot or exponent mark, the parser reads the printed tree back and stops exactly behind it |
| JsonRoundTrip.ParseEmitArray | src/cJSON.c:405-510 | the same for arrays |
| JsonRoundTrip.ParseEmitObject | src/cJSON.c:513-657 | the same for objects, whose formatted text has line breaks and indentation |
| JsonRoundTrip.TextRoundTrip | src/cJSON.c:323-657 | parsing the printed text of every printable tree, formatted or not, with or without the end check, uses all of it and gives the tree back |
| JsonRoundTrip.TextIsInjective | src/cJSON.c:342-343 | two printable trees with the same printed text are equal, even across formats |
| JsonStrings.EscapeOfPair | src/cJSON.c:221-227 | a surrogate pair decodes to the UTF-8 of the code point it stands for (section 7 of RFC 8259) |
| JsonStrings.SecondPassOfPieces | src/cJSON.c:202-245 | the decoding loop turns any sequence of well-formed literal elements into the concatenation of what they stand for |
| JsonStrings.FirstPassSuffices | src/cJSON.c:197-199 | the length the first pass computes covers the decoded string |
| JsonStrings.LiteralDecodes | src/cJSON.c:192-249 | every well-formed literal without U+0000 or unpaired surrogates decodes to the UTF-8 of its code points (section 3 of RFC 3629), and reading stops behind its closing quote |
| JsonStrings.HexValuesAre | src/cJSON.c:177-188 | the hexadecimal digits in either case have their values, and no other byte has one |
| JsonStrings.Utf8StandsFor | src/cJSON.c:229-237 | the octets written for a code point have it as their free bits put together, and are the shortest form |
| JsonBounds.TextsAreLiterals | src/cJSON.c:195-197 | every text that starts with a quote is a literal: a body that the first pass runs over, then its closing quote or the end; or the first pass itself leaves the text |
| JsonBounds.BoundsExactly | src/cJSON.c:192-249 | an unterminated literal is decoded in bounds if and only if the decoder steps of 1, 2, 6 and 12 bytes do not lead beyond its body; a terminated one is decoded in bounds whatever follows its closing quote if and only if the same holds |
| JsonBounds.WalkFits | src/cJSON.c:202-245 | for every such body, also where the two passes are out of step, decoding stays inside the text and writes at most what the first pass counted |
| JsonBounds.OutsideOverruns | src/cJSON.c:216-242 | for every other body, the end of the text or a long plain text behind the closing quote makes the decoder leave text or buffer |
| JsonBounds.CompleteStaysInside | src/cJSON.c:203-242 | bodies whose escapes are complete are among those the decoder stays inside |
| JsonBounds.CompleteStringsParse | src/cJSON.c:192-249 | a literal whose escapes are complete, with paired surrogates or not, is read without leaving text or buffer |
| JsonBounds.IncompleteEscapeOverruns | src/cJSON.c:216-219 | a `\u` without digits before the closing quote is out of bounds when five letters follow the quote |
| JsonBounds.DigitsMayBeMissing | src/cJSON.c:216-219 | `\uzzzz` is incomplete and decoded in bounds all the same |
| JsonParser.SkipBlanks | src/cJSON.c:320-320 | the pointer loop stops where the functional `Skip` does |
| JsonParser.ReadNumber | src/cJSON.c:96-115 | the pointer loops over sign, integer, fraction and exponent compute the number that `JsonNumerals.NumeralIsWorth` speaks of, and end where it ends |
| JsonParser.ReadHex4 | src/cJSON.c:177-188 | digit by digit, 0 as soon as one is not hexadecimal |
| JsonParser.PutUtf8 | src/cJSON.c:229-237 | the fall-through switch writing backwards with or-ing in 0x80 and masking with 0xBF and the first-byte mark writes exactly the UTF-8 form of section 3 of RFC 3629 |
| JsonParser.MeasureString | src/cJSON.c:197-197 | the first pass computes `FirstPass`, or reports that it left the text |
| JsonParser.DecodeUnit | src/cJSON.c:205-242 | one round of the second pass writes one element's bytes and moves both pointers accordingly, or reports that it leaves text or buffer |
| JsonParser.DecodeString | src/cJSON.c:202-245 | the second pass writes the decoded string and a terminator into the measured buffer exactly when it fits |
| JsonParser.ReadString | src/cJSON.c:192-249 | `parse_string`, both passes and the allocation, agrees with the grammar on every text |
| JsonParser.StartsWith | src/cJSON.c:359-361 | `strncmp` against a keyword is the prefix test, also near the terminator |
| Bits.Pow2gtIsLeast | src/cJSON.c:117-117 | for 1 <= x <= 2^30 the five or-shift steps give the least power of two that is at least x |
| Bits.ContinuationByte | src/cJSON.c:232-234 | or-ing in 0x80 and masking with 0xBF is 0x80 plus the low six bits |
| JsonTreeParser.NextChild | src/cJSON.c:413-422 | a new item is linked behind the last child so that `next` runs through the children and `prev` back |
| JsonTreeParser.ParseInto | src/cJSON.c:356-368 | `parse_value` into an item: it becomes the root of a linked tree, without shared nodes, that stands for the value the grammar reads; it fails exactly when the grammar fails |
| JsonTreeParser.ParseItem | src/cJSON.c:415-424 | one array element: the finished children stand for the values so far followed by the new one |
| JsonTreeParser.ParseMoreItems | src/cJSON.c:418-429 | the comma loop of an array agrees with the grammar's remaining items |
| JsonTreeParser.ParseArrayInto | src/cJSON.c:405-430 | arrays, with the same statement as `ParseInto` |
| JsonTreeParser.ParseName | src/cJSON.c:523-526 | a member's name and colon: the string moves from `valuestring` to `string` |
| JsonTreeParser.ParseMemberInto | src/cJSON.c:521-528 | one object member, name and value |
| JsonTreeParser.ParseMoreMembers | src/cJSON.c:530-545 | the comma loop of an object agrees with the grammar's remaining members |
| JsonTreeParser.ParseObjectInto | src/cJSON.c:513-546 | objects, with the same statement as `ParseInto` |
| JsonTreeParser.ParseWithOpts | src/cJSON.c:323-337 | a new linked tree for the value of the text, or NULL, exactly as the grammar and the end check say |
| JsonTrees.OneTree | src/cJSON.c:356-368 | a linked tree stands for at most one JSON value |
| JsonTrees.ChildTree | src/cJSON.c:457-463 | walking `child` and `next` visits the linked trees of the elements in order |
| JsonTrees.CountChildren | src/cJSON.c:442-442 | the counting loop gives the number of elements |
| JsonPrinters.PrintBuffer.Ensure | src/cJSON.c:121-136 | after `ensure` the request fits, everything printed before is still there, and a grown buffer has the least sufficient power of two as its size |
| JsonPrinters.PrintBuffer.Update | src/cJSON.c:138-144 | the offset moves behind the text printed last |
| JsonPrinters.NeedsEscape | src/cJSON.c:256-256 | when nothing is flagged, the escaped text is the string itself |
| JsonPrinters.MeasureEscaped | src/cJSON.c:279-279 | the length loop computes exactly the length of the escaped text |
| JsonPrinters.FillString | src/cJSON.c:257-306 | both branches of `print_string_ptr` write the quoted escaped text and a terminator within the computed length |
| JsonPrinters.NumberTextShort | src/cJSON.c:147-163 | a 32-bit integer needs at most 11 of the 21 bytes requested, and the text of `valueint` is the number's text |
| JsonPrinters.TextNoNul | src/cJSON.c:371-657 | no printed text contains a NUL, so every `strlen` over it ends at its terminator |
| JsonPrinters.FillEmptyObject | src/cJSON.c:558-566 | braces, line break and `depth - 1` tabs fit into `depth + 4` bytes |
| JsonBuffered.PrintNumber | src/cJSON.c:147-163 | a number behind the text so far |
| JsonBuffered.PrintString | src/cJSON.c:252-306 | a string behind the text so far |
| JsonBuffered.PrintValue | src/cJSON.c:371-389 | in the shared buffer a linked tree prints as its text, terminated, behind everything printed before, with the offset not beyond it; the returned pointer is its start except for a nested non-empty formatted object |
| JsonBuffered.PrintArray | src/cJSON.c:452-468 | arrays in the shared buffer, walking the children |
| JsonBuffered.PrintMember | src/cJSON.c:576-594 | indentation, name, colon and value of one member |
| JsonBuffered.PrintObject | src/cJSON.c:549-612 | objects in the shared buffer, walking the children |
| JsonBuffered.PrintBuffered | src/cJSON.c:345-352 | for any prebuffer size the buffer ends up holding exactly the tree's text, terminated |
| JsonPieces.ItemsRoomSuffices | src/cJSON.c:480-485 | the length added up over the entries covers the array's text |
| JsonPieces.MembersRoomSuffices | src/cJSON.c:618-628 | the length added up over names and entries covers the object's text |
| JsonPieces.ItemPieces | src/cJSON.c:474-485 | every child is printed into a string of its own, and `len` is the room computed for the whole |
| JsonPieces.MemberPieces | src/cJSON.c:617-628 | the same for names and values |
| JsonPieces.JoinItems | src/cJSON.c:497-508 | joining the entries into a buffer of `len` bytes stays within it and gives the array's text |
| JsonPieces.JoinMembers | src/cJSON.c:639-655 | the same for objects |
| JsonPieces.ValuePiece | src/cJSON.c:390-401 | the malloc mode returns a fresh C string with the tree's text |
| JsonPieces.Print | src/cJSON.c:342-343 | `cJSON_Print` and `cJSON_PrintUnformatted` |
| JsonEndToEnd.PrintBothWays | src/cJSON.c:342-353 | the two modes give the same text for every printable tree, format and prebuffer size |
| JsonEndToEnd.PrintAndParse | src/cJSON.c:323-353 | printing a linked tree and parsing the text builds a separate linked tree for the same value and uses up the text |
| JsonEndToEnd.ParseNumeral | src/cJSON.c:96-115 | parsing a numeral builds a number item whose value is what the numeral is worth, and whose integer is that without its fraction |
| JsonEndToEnd.ParseDocument | src/cJSON.c:323-546 | parsing to the end builds a tree if and only if the text is that of a document with white space around it, and the tree, without shared nodes, stands for the value of the document |
| JsonEndToEnd.MinifyText | src/cJSON.c:734-749 | in place: every byte of a literal with its quotes, no byte of a comment, and elsewhere every byte but 32, 9, 13 and 10; carried over the end exactly if a block comment or literal is open there |
| JsonEndToEnd.PrintMinifyAndParse | src/cJSON.c:734-749 | printing with white space, minifying in place and parsing builds a tree for the same value |
| JsonEndToEnd.PrintCopy | src/cJSON.c:707-732 | a deep copy prints like its original |
| JsonMinify.CopyLiteral | src/cJSON.c:745-745 | a string literal is copied byte for byte, escapes included |
| JsonMinify.MinifyToken | src/cJSON.c:737-746 | one round of the main loop, on any text, with comments; what it keeps is what the reader of `JsonMinifyText.KeptOfToken` keeps |
| JsonMinify.MinifyInPlace | src/cJSON.c:734-749 | in place, for every text: the array ends up holding the minified text, which is what `JsonMinifyText.KeepsExactly` says, and a terminator, or the code would leave the text in an unclosed comment or literal; the write pointer never passes the read pointer and nothing behind the terminator changes |
| JsonMinifyText.MinifyOfFormatted | src/cJSON.c:371-749 | minifying a tree's formatted text gives exactly its unformatted text |
| JsonMinifyText.OverrunsExactly | src/cJSON.c:734-749 | the minifier is carried over the end of a text if and only if the text ends inside a block comment or a string literal, as a byte-by-byte reader of comments and literals sees it |
| JsonMinifyText.KeepsExactly | src/cJSON.c:734-749 | for every text that is not overrun, minifying keeps exactly what a byte-by-byte reader of comments and literals keeps: literals whole, nothing of comments, and elsewhere all bytes but 32, 9, 13 and 10 |
| JsonMinifyText.KeptOfToken | src/cJSON.c:737-746 | one round of the main loop keeps what that reader keeps |
| JsonMinifyText.OpenAndClosed | src/cJSON.c:742-745 | an open comment and an open literal overrun, and a comment closed by its own opening star does not |
| JsonItems.AddItemToArray | src/cJSON.c:670-670 | appends: the child chain becomes the old one and the item, `prev` the exact inverse of `next` |
| JsonItems.Walk | src/cJSON.c:676-676 | the indexed walk reaches the child at that index, the first for negative indices, NULL past the end |
| JsonItems.DetachItemFromArray | src/cJSON.c:676-677 | removes exactly the child at the index, with both its links cleared |
| JsonItems.InsertItemInArray | src/cJSON.c:683-684 | inserts before the index, appends past the end |
| JsonItems.ReplaceItemInArray | src/cJSON.c:685-687 | puts the new item in the place of the old one, whose links are cleared |
| JsonEdits.Append | src/cJSON.c:670-670 | the array or object stands for the old entries and the new one, still linked and without shared nodes |
| JsonEdits.AddItemToObject | src/cJSON.c:671-671 | the object gets a last member of the given name and value |
| JsonEdits.Detach | src/cJSON.c:676-677 | the detached item is the tree of the entry at the index, and the rest stands for the other entries in order |
| JsonEdits.Insert | src/cJSON.c:683-684 | the new entry stands at the index, or last, the others in order |
| JsonEdits.Replace | src/cJSON.c:685-687 | the new entry stands in the place of the old one, which is a tree of its own again |
| JsonItems.RootsAreNotBelow | src/cJSON.c:707-732 | in a tree without shared nodes the children are distinct and none lies below another |
| JsonItems.Duplicate | src/cJSON.c:707-732 | the recursive copy has the same content, is linked correctly, and shares no node with the original or within itself; the shallow copy has the same fields and no children |
| JsonItems.AttachCopy | src/cJSON.c:726-728 | a copied child joins the copied chain, which stands for the children copied so far |
| ConfigTables.EntryIsShift | src/y.tab.c:532-566 | decompressing `yypact`, `yytable` and `yycheck` gives exactly nine shifts and nothing else, in particular none of the error token |
| ConfigTables.ShiftStack | src/y.tab.c:1372-1375 | each state determines its whole stack, and a shift extends it by the new state |
| ConfigTables.ReduceStack | src/y.tab.c:499-566 | each default reduction finds its right-hand side on the stack and the goto tables give the state that belongs there |
| ConfigGrammar.RuleIs | src/y.tab.c:452-510 | `yyprhs`, `yyrhs`, `yyr1` and `yyr2` agree on all eighteen rules |
| ConfigGrammar.StatementsRun | src/y.tab.c:452-510 | the tokens of any derivation of the statement list are read as the calls it stands for |
| ConfigGrammar.MimeTypesRun | src/y.tab.c:452-510 | the same for the MIME-type lines |
| ConfigGrammar.DerivationsAreAccepted | src/y.tab.c:452-510 | every derivable file is accepted, and any of its derivations stands for the same calls |
| ConfigGrammar.AcceptedIffDerived | src/y.tab.c:452-510 | a token sequence is in (NOARGS, ONEARG STRING, TWOARGS STRING STRING)* (MIMETYPE STRING*)* if and only if a derivation tree of the tables' grammar yields it |
| ConfigParser.ShiftKeeps | src/y.tab.c:1352-1375 | a shift leads to a state from which exactly the same outcome is due |
| ConfigParser.ReduceKeeps | src/y.tab.c:1391-1502 | the calls of a reduction's action followed by the outcome of its new state are the outcome due before |
| ConfigParser.StuckFails | src/y.tab.c:1381-1385 | where neither shift nor reduction is possible, no continuation is a sentence |
| ConfigParser.Parser.Text | src/y.tab.c:1420-1463 | an action reads a token's text only while the lexer still holds that token |
| ConfigParser.Parser.Act | src/y.tab.c:1407-1470 | the actions make the calls of their rule with the right arguments, held first argument and MIME type included |
| ConfigParser.Parser.Pop | src/y.tab.c:1484-1502 | popping a right-hand side and looking up the goto leaves the stack of the new state |
| ConfigParser.Parser.Recover | src/y.tab.c:1508-1629 | an error is reported once and pops every state, because none can shift the error token |
| ConfigParser.Parser.Step | src/y.tab.c:1317-1502 | one shift or reduction keeps the outcome and gets closer to the next shift |
| ConfigParser.Parser.Parse | src/y.tab.c:1219-1653 | the driver ends on every token sequence, never fills its stacks, returns 0 exactly for sentences, and makes exactly the calls of a left-to-right reading, also before an error |
| ConfigParser.ParseFile | src/y.tab.c:1162-1653 | the result is 0 if and only if a derivation exists, and the calls made are those of any derivation |
| RequestQueues.Enqueue | src/queue.c:123-132 | puts a request at the head of a well-formed doubly linked queue |
| RequestQueues.Dequeue | src/queue.c:103-114 | takes a request from anywhere in the queue and clears its links |
| Scheduler.ConnectionHeader | src/request.c:2120-2127 | in this configuration a `Connection` line can only stop keep-alive, never start it |
| Scheduler.InPool | src/request.c:146-177 | what the partition means: queues without repetition, apart from each other, that cover the pool |
| Scheduler.Server.InitFreeRequests | src/request.c:2196-2209 | a pool of N requests, all on the free list |
| Scheduler.Server.NewRequest | src/request.c:146-177 | the head of the free list, cleared, or NULL exactly when it is empty |
| Scheduler.Server.BlockRequest | src/queue.c:36-61 | moves a request from ready to blocked, marks exactly the descriptor that its state and pending output ask for, to read or to write, and keeps every invariant |
| Scheduler.Server.ReadyRequest | src/queue.c:69-94 | moves a request from blocked to ready and clears exactly the mark of that descriptor |
| Scheduler.Server.FreeRequest | src/request.c:463-613 | a request with pending output stays where it is, any other goes to the free list; keep-alive is never active, so the connection is never taken over by a new request |
| Scheduler.Server.GetSockRequest | src/request.c:2240-2435 | a connection is made exactly when there is room, a free request and an accepted socket; every failure puts the request back |
| Scheduler.Server.Round | src/request.c:648-688 | flush or handler: the status and the pending output afterwards and the value returned, for any reply, output on blocking included |
| Scheduler.Server.Switch | src/request.c:692-725 | what becomes of a request, return value by return value; on an error it is freed at once if the flushed error page leaves nothing pending |
| Scheduler.Server.Dispatch | src/request.c:634-726 | a whole round moves the request where its state and reply say, stamps the time of one that continues, and gives the request that was next before |
| Scheduler.Server.ProcessRequests | src/request.c:623-730 | every initially ready request is visited exactly once and in order; it is then blocked exactly if its handler ran and returned -1, stays ready with a new time stamp exactly if it flushed without being closed or its handler returned 1, and otherwise is freed exactly if no output is left; the order of the three queues is given by these fates; if no handler blocks with output pending, no blocked request has any |
| Scheduler.Server.Review | src/boa.c:2742-2795 | one blocked request: freed after more than 60 seconds unless it has output pending, made ready if its descriptor is marked, else watched; both descriptor sets afterwards |
| Scheduler.Server.FdsetUpdate | src/boa.c:2732-2796 | after the walk a blocked request is free exactly if it waited more than 60 seconds with no output pending, ready exactly if it did not wait so long and its descriptor was marked when the walk came to it, or at the start of the walk when no two requests wait for the same one, and otherwise still blocked; queues and descriptor sets are exactly those of the walk, also when two wait for the same descriptor |
| Scheduler.OwnMarksDecide | src/boa.c:2763-2794 | when no two blocked requests wait for the same descriptor, the fate of each is decided by its own mark before the walk |
| Scheduler.StayersAreWatched | src/boa.c:2763-2794 | then all that stay blocked and have no output pending are watched behind the walk |
| Scheduler.Server.Run | src/boa.c:2555-2631 | in every state reachable by any sequence of these calls, with any effect of `select` and `FD_ZERO` between them, the pool is partitioned and keep-alive is never active; if no handler blocks with output pending, no blocked request ever has any |
| Scheduler.Server.ExactlyOneQueue | src/request.c:146-177 | each request of the pool is on exactly one of the three queues |
| HeaderScan.StatusSays | src/read.c:149-193 | the scanner's status between lines says exactly which line ends were read last |
| HeaderScan.BodyIsBehindFirstBlank | src/read.c:149-193 | the scanner reaches the body at a position if and only if it is behind the first "\n\n" or "\n\r\n" |
| HeaderScan.ScanStays | src/read.c:144-149 | bytes that arrive later do not change what was scanned |
| HeaderScan.LinesStay | src/read.c:149-214 | completed lines stay, and behind the empty line nothing changes any more |
| HeaderScan.WrittenLines | src/read.c:149-214 | the lines of a header written with CRLF or LF, in any mixture, are scanned exactly as they were written, and the empty line behind them completes it |
| HeaderOptions.FieldsStay | src/request.c:2084-2117 | a recorded field keeps its value whatever lines follow, however many |
| ContentLength.AtoiIs | src/read.c:236-236 | for any white space, sign or none, digits and a rest that does not go on with a digit, `atoi` gives the decimal value of the digits with its sign, and 0 without digits |
| ContentLength.EveryTextHasParts | src/request.c:2090-2090 | every text has such parts, so the law covers every value of a field |
| ContentLength.AtoiOfDigits | src/read.c:236-236 | `atoi` reads back what `%d` prints, with white space and a sign before it and any other text behind it |
| ContentLength.NamesLengthExactly | src/request.c:2076-2090 | a line is taken for a length exactly if it starts with the fourteen letters of Content-Length, each in either case, and a colon |
| ContentLength.FirstLengthCounts | src/request.c:2090-2091 | the recorded length has the value that the first line naming a length begins with, behind white space and before anything that is no digit |
| ContentLength.FirstLineCounts | src/request.c:2084-2117 | of the lines with one of the eight kept names, the first one is recorded, with the text behind its blanks |
| ContentLength.OthersAreEaten | src/request.c:2119-2142 | a line with any other name is thrown away and becomes a variable, but for Connection |
| ContentLength.FirstVariablesStay | src/cgi.c:129-142 | the first 24 of the lines that are thrown away become variables, in order, and no others |
| ContentLength.MethodsAre | src/request.c:110-135 | the methods known are exactly GET, POST and HEAD, with a blank behind them |
| HeaderRun.CutLineExactly | src/read.c:284-308 | a round is refused for its cut or its method exactly if neither a refusal nor the empty line came before, it ends inside a line, and either the first five bytes name no method or no line was eaten and the first byte does not read as a NUL |
| HeaderRun.CompleteExactly | src/read.c:149-282 | a round completes the header exactly if the empty line has been received and the request line is accepted, and ends with the request line exactly if that is refused or answered at once |
| HeaderRun.LineEndsAreSafe | src/read.c:284-308 | a round that ends with a line end is never refused for its cut |
| HeaderRun.LineChunksAreFine | src/read.c:64-309 | however a header is cut into reads that each end with a line end, it ends as its bytes alone say |
| HeaderRun.CutsMatter | src/read.c:302-306 | every request line followed by an empty line is complete when read at once and refused when read in two parts cut inside that line |
| HeaderRun.CallsAreRounds | src/read.c:64-309 | a call of `read_header` takes some of the arriving chunks, and calls one after the other end as the sequence of all rounds does |
| HeaderReader.SplitLine | src/request.c:2076-2082 | the line is cut in place into the upper-case name and the value behind its blanks |
| HeaderReader.Reader.Compact | src/request.c:2144-2151 | the `memmove` eats exactly the line, moves the rest down unchanged and leaves recorded fields alone |
| HeaderReader.Reader.ProcessOptionLine | src/request.c:2065-2154 | field, connection or variable: the effect of a line is that of the specification; exactly the eaten lines are removed, the unread rest is unchanged and moved down by the returned count, and recorded fields keep their text |
| HeaderReader.Reader.Switch | src/read.c:150-193 | one byte moves status and line end as the specification says |
| HeaderReader.Reader.EndLine | src/read.c:195-214 | the request line goes on, is answered or is refused as it was judged; an option line is processed; pointers and counts still describe the same unread bytes, even if lines were eaten |
| HeaderReader.Reader.ScanChunk | src/read.c:147-282 | over a whole chunk `buffer + bytes` is the end of the stream; refusal, answer, completion or more to come exactly as the bytes and the judgement of the request line say; `restart` exactly if a line was eaten |
| HeaderReader.Reader.HandOff | src/read.c:215-280 | the body buffer gets exactly the bytes received behind the empty line, and the length is that of the Content-Length field, which `ContentLength.FirstLengthCounts` gives in decimal |
| HeaderReader.Reader.InvalidMethod | src/request.c:121-135 | the table loop finds neither a method nor too few bytes exactly if at least five are there and none of the three methods is their prefix |
| HeaderReader.Reader.Round | src/read.c:117-308 | one read and what is decided behind it end exactly as `RoundEnding` says of the bytes received so far and of where the round began |
| HeaderReader.Reader.Read | src/read.c:64-309 | for every sequence of reads, blocks and failures and any number of eaten lines, the ending and the bytes consumed are exactly those of `CallEnding`; a complete header ends behind the first empty line, with method, fields and body as received; otherwise reading can go on later |
| BodySpool.Spool.ReadBody | src/read.c:331-405 | the state after one call, exactly: appends what was read, never more than the Content-Length allows, and keeps spooled and pending bytes together equal to the body |
| BodySpool.Spool.WriteBody | src/read.c:417-606 | the state after one call, exactly: spools a part of what is pending; hands over only with nothing pending and the body complete or the peer gone; a body within the upload limit is then spooled completely |
| BodySpool.Spool.Run | src/read.c:331-606 | over any run of partial reads and writes, blocks and errors, state and return value are exactly those of `BodyAfter`, and what is received is what was there before and the bytes taken from the reads |
| BodySpool.NoMoreThanAnnounced | src/read.c:337-345 | a run does not take more than the announced length, and nothing once the body has it |
| BodySpool.RunIsSound | src/read.c:331-606 | over any run nothing is lost up to the upload limit, and the body is handed over only complete or after the peer has closed, with nothing pending |
| BodySpool.FileHoldsTheBody | src/read.c:331-606 | once a body of announced length is handed over, what was received is exactly what the peer sent up to that length, what came with the header included; up to the upload limit the file holds all of it |
| BodySpool.Ends | src/read.c:331-606 | from any state, every run of that length whose reads and writes neither block nor fail ends with the body handed over |
| BodySpool.BodyArrives | src/read.c:331-606 | a body of announced length is then in the file exactly as it was sent |
| BodySpool.RunsCooperate | src/read.c:331-606 | such runs exist, of any length and for whatever is still to come |
| PostBody.Receive | src/read.c:64-606 | a POST from its first byte on: the length handed on is n whenever the first line naming a length begins with the digits of n; behind the header the body goes through exactly the run that starts with the bytes behind the empty line and reads and writes what it is given; it never exceeds the announced length, and is in the file completely once it is handed over within the upload limit |
| PostBody.FileIsTheBody | src/read.c:64-606 | the body so far is the bytes behind the empty line followed by those taken from the connection since; once handed over, it is the first bytes of what was sent behind the empty line, as many as announced, or all if the peer closed earlier |
| PostBody.LengthIsNat | src/request.c:2090-2091 | the announced length is never negative, because a negative one is not recorded |
| PostBody.AnnouncedIs | src/read.c:235-236 | the announced length is the number that the first line naming a length begins with, and 0 if no line names one |
| PostBody.BodyArrives | src/read.c:331-606 | when reads and writes neither block nor fail, the body is handed over after at most four calls for each byte to come, three for each byte behind the header and four more, and is then exactly what was sent behind the empty line, as much as announced |
| CgiRelay.Relay.ReadFromPipe | src/pipe.c:43-109 | the state after one call, exactly: appends what was read; the close is requested only at the end of the pipe |
| CgiRelay.Relay.WriteFromPipe | src/pipe.c:121-175 | the state after one call, exactly: sent plus pending bytes are the bytes read; with nothing pending it goes back to reading the pipe, or closes, which happens only when everything was sent |
| CgiRelay.Relay.Run | src/pipe.c:43-175 | over any run of partial reads and writes, blocks and errors, state and return value are exactly those of `FlowAfter`, and what is received is what was there before and the bytes taken from the reads; a run long enough whose reads and writes neither block nor fail closes normally, with everything sent |
| CgiRelay.RunForwards | src/pipe.c:43-175 | nothing is lost, doubled or reordered: sent and pending bytes are those pending at first and then those taken from the pipe |
| CgiRelay.ClientGetsThePipe | src/pipe.c:43-175 | whatever a pipe holds and in whatever portions it is read and written, the client gets a prefix of the first buffer and the pipe, and exactly all of it if the relay closes normally |
| CgiRelay.Ends | src/pipe.c:43-175 | with a buffer of positive size, reads that get at least one byte of what the pipe holds, or nothing at its end, and writes that move at least one byte, every run of a stated length closes normally |
| CgiRelay.ClientGetsEverything | src/pipe.c:43-175 | then the client has got the bytes of the first buffer and all of the pipe |
| CgiRelay.RunsCooperate | src/pipe.c:43-175 | such runs exist, of any length and for whatever the pipe holds |
| CgiRelay.ZeroMeans | src/pipe.c:87-166 | a run returns 0 only after a read error, after a write error, or when everything was sent and the pipe is at its end |
| WordLaws.FSelects | src/md5.c:65-65 | F takes y where x has a one bit, and z elsewhere, for all words |
| WordLaws.GSelects | src/md5.c:66-66 | G takes x where z has a one bit, and y elsewhere |
| WordLaws.HIsParity | src/md5.c:67-67 | next to two equal words H leaves the third one |
| WordLaws.ISelects | src/md5.c:68-68 | I takes y where x has a zero bit and z a one bit, and the opposite of y elsewhere |
| WordLaws.RotateLeftIs | src/md5.c:71-71 | for every word and 0 < n < 32, rotating to the left is x * 2^n modulo 2^32 plus x / 2^(32-n) |
| WordLaws.RotateRightIs | src/sha256.c:22-22 | rotating to the right is x * 2^(32-n) modulo 2^32 plus x / 2^n |
| WordLaws.ChSelects | src/sha256.c:24-24 | Ch takes y where x has a one bit, and z elsewhere |
| WordLaws.MajIsMajority | src/sha256.c:25-25 | Maj takes the bit that two of the words agree on |
| Sha256.Transform | src/sha256.c:44-83 | schedule and rounds in arrays and eight variables are the compression function of section 6.2.2 of FIPS 180-4 |
| Sha256.FewestZeros | src/sha256.c:120-132 | the padding is the shortest that fills a block (section 5.1.1 of FIPS 180-4) |
| Sha256.OneBlock | src/sha256.c:121-125 | with fewer than 56 octets waiting, one final block hashes the padded message |
| Sha256.TwoBlocks | src/sha256.c:126-132 | with 56 or more, two final blocks do |
| Sha256.Context.Update | src/sha256.c:99-112 | any input is appended to the message the context stands for |
| Sha256.Context.Finish | src/sha256.c:114-144 | the context ends with the digest of the padded message, with its length in bits modulo 2^64 |
| Sha256.CopyOut | src/sha256.c:148-157 | the words leave with their highest octet first |
| Sha256.HashChunks | src/sha256.c:85-157 | however a message is cut into chunks, the result is the digest of the whole message |
| Sha256Known.AbcDigest | src/sha256.c:44-157 | the digest of "abc", worked out word by word and round by round, is that of appendix B.1 of FIPS 180-2 |
| Sha256Known.LengthOctetsMean | src/sha256.c:136-143 | the eight octets of the length are those that stand for it, highest first, for every number of bits below 2^64 |
| Md5.FourSteps | src/md5.c:207-295 | after four steps of the indexed form the registers have their names back |
| Md5.Round1 | src/md5.c:209-229 | the sixteen unrolled steps of round 1, with their decimal constants, are steps 0 to 15 of the indexed form |
| Md5.Round2 | src/md5.c:231-251 | the same for round 2 |
| Md5.Round3 | src/md5.c:253-273 | the same for round 3 |
| Md5.Round4 | src/md5.c:275-295 | the same for round 4 |
| Md5.Transform | src/md5.c:203-301 | the unrolled 64 steps are the block function of section 3.4 of RFC 1321 |
| Md5.CountMore | src/md5.c:134-138 | two words with a carry count bits modulo 2^64, also for inputs of 2^29 octets and more |
| Md5.IndexIs | src/md5.c:132-132 | bits 3 to 8 of the low word are the number of octets waiting |
| Md5.Context.Update | src/md5.c:122-155 | any input is appended to the message, buffer and counter included |
| Md5.Context.Finish | src/md5.c:160-186 | padding and the saved length words complete the last block (sections 3.1 and 3.2 of RFC 1321) |
| Md5.CopyOut | src/md5.c:188-198 | the registers leave with their lowest octet first (section 3.5 of RFC 1321) |
| Md5.HashChunks | src/md5.c:105-199 | however a message is cut into chunks, the result is the MD5 digest of the whole message |
| Md5Known.EmptyDigest | src/md5.c:105-199 | the digest of the empty message, worked out step by step, is that of section A.5 of RFC 1321 |
| Md5Known.AbcDigest | src/md5.c:105-199 | the digest of "abc" is that of section A.5 of RFC 1321 |
| Md5Known.LengthWordsMean | src/md5.c:169-170 | the two words of the length are those that stand for it modulo 2^64, the low one first |
| GlobMatch.MatchesIsGlob | src/util.c:108-113 | the byte-by-byte reading of a pattern is membership in its language: the text can be cut into one piece for each pattern byte |
| GlobMatch.StrMatch | src/util.c:114-152 | `strmatch` ends, and returns 1 if and only if the text is in the pattern's language |
| CleanPath.CleanIsClean | src/util.c:67-77 | the result has no "//", "/./" or "/../" before the first '?' |
| CleanPath.Idempotent | src/util.c:79-106 | cleaning a second time changes nothing |
| CleanPath.KeptNames | src/util.c:79-106 | of the names between slashes the first and the last are kept, and of the others exactly those that are not empty, "." or "..", in their order |
| CleanPath.ArgumentsSurvive | src/util.c:85-103 | from the first '?' on nothing changes, and the part before it is cleaned on its own |
| CleanPath.CleanPathname | src/util.c:79-106 | in place, with the write pointer never ahead of the read pointer, the array ends up holding the cleaned path |
| PageExpansion.SegmentsAreThePage | src/get.c:286-338 | static texts and regions, put together in order, are the page |
| PageExpansion.SegmentsAreProper | src/get.c:294-301 | every region runs from "<%" to the first "%>" behind it, and no complete region is left in the static text |
| PageExpansion.Page.AllocNewBuffer | src/asp_page.c:940-950 | twice the size, same contents |
| PageExpansion.Page.WriteBlock | src/asp_page.c:952-975 | doubles until the text fits, then appends it; never writes past the capacity |
| PageExpansion.Page.Expand | src/get.c:280-348 | the loop ends with `filepos == filesize`; the buffer holds the static text with each region replaced by what its handler wrote; each region was handed over once, in order |
| Leases.LeaseTable.constructor | src/ap_connection.c:144-157 | slot i owns port 8081 + i and is free |
| Leases.OnceOnly | src/ap_connection.c:26-54 | no rule belongs to two active slots |
| Leases.FourRules | src/ap_connection.c:26-54 | a lease has four rules: for both protocols one that translates its port and one that lets its address through |
| Leases.SweepEnds | src/ap_connection.c:173-186 | a sweep that is not interrupted ends after a stated number of steps, and has freed exactly the slots whose lease is more than 600 seconds old |
| Leases.LeaseTable.BeginAdd | src/ap_connection.c:88-113 | renews the address's lease, else takes the first free slot, all before it being in use, else reports a full table; no address is ever active in two slots |
| Leases.LeaseTable.InstallNext | src/ap_connection.c:115-118 | one rule at a time, outside the critical section, whatever the sweeping thread does meanwhile |
| Leases.LeaseTable.SweepNext | src/ap_connection.c:173-186 | one step of the sweep: a deletion, the clearing of a slot, or the next slot; behind the last one a slot is as it was when the sweep began if its lease is at most 600 seconds older than the clock that was read, and free if it is older; a deletion is early exactly if it comes before the installation of its rule |
| Leases.LeaseTable.Run | src/ap_connection.c:88-193 | over every schedule of the steps of the two threads, deletion by deletion, the state is exactly that of `After`; slot i owns port 8081 + i and no address is active in two slots; with both threads at rest, the kernel holds exactly four rules for each active slot if and only if none was deleted before it was installed, and how many were is `EarlyIn` of the schedule |
| Leases.InTimeIsNeverEarly | src/ap_connection.c:113-186 | if at no time of a schedule the lease being installed has expired, no rule is deleted early |
| Leases.RaceLeavesRules | src/ap_connection.c:113-186 | the schedule in which a sweep that expires a lease begins and ends before its first rule is installed ends with a free table and its four rules in the kernel |
| Leases.Race | src/ap_connection.c:113-186 | that schedule, run on the table: at rest the kernel holds the four rules of a lease that is not in the table |

## Left out

- JSON numbers other than 32-bit integers: floating-point rounding in `parse_number` and the `%e`, `%f` and `%.0f` branches of `print_number`; `parse_number` itself is modelled over the reals, and its conversion to `int` without overflow.
- ContentLength.AtoiIs: integers are unbounded, so a length beyond 2^31 - 1 has its value, where the result of `atoi` is not defined.
- Failed allocations, and `int` overflow of lengths above 2^30, in the JSON printers and in the page buffer.
- `cJSON_Delete`, item references, constant-string flags, the error pointer `ep`, and lookups by name; the item that a replacement removes is returned instead of released.
- JsonParser.DecodeString: states what it writes only where the second pass stays within text and buffer; elsewhere it reports that it does not.
- ConfigParser.Parser.Parse: the error status counter is not modelled, because every error ends the parse; nor are debug output, destructors and stack relocation.
- The lexer (`src/lex.yy.c`): a token stream is any sequence of positive codes with text.
- Scheduler.Server.Round: what handlers do is given by their replies, which are arbitrary; writing time-outs of `req_flush` are part of `flushed` and `error_left`.
- Scheduler.Server.FreeRequest: the re-issue of a kept-alive connection is shown to be unreachable and not written out; descriptors, memory and counters other than the request's own are not modelled.
- HeaderReader.Reader.Read: a first read that fills the whole client stream, pipelined requests, interrupted reads, and what `process_logline` decides behind its method check and `process_header_end` returns, which are parameters; the two refusals of a cut line differ only in their page.
- HeaderReader.Reader.ProcessOptionLine: models the build with all optional fields and without `Accept` handling.
- BodySpool.Spool.WriteBody: signature checks of firmware images.
- CgiRelay.Relay.Run: the CGI header phase before the relay starts.
- Sha256.Context.Update: inputs of 2^32 octets or more in one call, on which the loop counter would wrap around.
- PageExpansion.Page.Expand: handlers only append to the buffer.
- Leases.LeaseTable.Run: iptables commands are the addition and removal of one rule; address strings longer than 15 characters; the start-up race on the mutex.
- Sockets, TLS, select, files, processes, message queues, device and vendor code, authentication, white lists, URI and base64 coding, date formatting and lookup tables.
