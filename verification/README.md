# The server engine, verified

A Dafny model of the parts of the server engine whose correctness is hardest to see from the code,
with proofs over all inputs, all runs and all interleavings.

* **JSON.** The streaming parser with comments, surrogate pairs, UTF-8 checks and a depth bound
  accepts exactly a grammar of concrete syntax trees and reports their flattening (`JsonTheorems`);
  the writer's frame stack is complete exactly for well formed calls, and the parser gives its calls
  back (`JsonRoundTrip`) exactly when its strings are valid UTF-8 (`JsonUtf8`). What the parts mean is
  stated on its own: how characters can be spelled (`JsonSpellings`), the value of a number
  (`JsonNumbers`), what a fault says (`JsonFaults`).
* **Wire codecs.** Length-prefixed frames reassembled from arbitrary reads (`Framing`,
  `FrameReceiver`), base64 and base64url with a wrapping accumulator (`BaseN`), UTF-8 (`Utf8`).
* **The connection protocol.** Transport threads and the Server thread as interleaved atomic steps
  over a control queue, bounded channels, outstanding ids, reference counts, a registry and a gate
  (`Protocol`), with invariants of every reachable state: lifetimes, request ids, wire output, state
  tracking, admission, and what requests are answered (`ProtocolProject`). The objects are
  `Connections`, `OutboundChannel` and `ConnectionLifetime`; each keeps a view of its part of a
  connection, and `ConnectionViews` proves of which steps every operation on that part is made. A
  Project opened at the start is covered by `ProtocolStart`; beyond the run loop `ProtocolExit` proves
  exactly which registered connections still have a reference.
* **Outbound messages.** The hand-written encoder of responses and actions (`OutboundEncoder`) is
  proved equal to the JSON writer at the fields of the message (`OutboundFields`, `OutboundWriting`),
  its texts are read back (`OutboundTheorems`) and understood by a client that knows nothing of it
  (`OutboundClient`, `OutboundReading`), and `ProtocolTexts` joins this to what is sent and to what the
  client then knows.
* **Preprocessing directives.** An explicit stack of conditional groups with per-file floors
  (`DirectiveExecutor`) refines a recursive evaluator over trees of groups (`DirectiveRefinement`);
  `DirectiveMeaning` says which branch is read, and what is defined and asked for.
* **Project manifests.** Depth-first composition (`ManifestComposer`), its binary codec
  (`ManifestStore`), rebuilding of paths (`PathReplay`) and the choice of replay roots
  (`RootSelection`).
* **Execution lanes.** A barrier of start and done semaphores and a strided split of work (`Lanes`).

Code that works by changing fields, spans or loop variables is a class or a method here, proved
equal to a function of its inputs or of its old state; the theorems are lemmas about those
functions. Concurrent parts are state machines: a step per locked section, atomic operation or
semaphore operation. Paths follow the POSIX branches. SHA-256 is an arbitrary function to 32 bytes,
include resolution, configuration reading, the SourceSave lookups and the semantic dependency closure
are arbitrary functions.

`dafny verify dfyconfig.toml` checks the whole project.

## Model

| member | source | states |
|---|---|---|
| `Utf8.DecodeOneByLoop` | server_engine/json/json_unicode.hpp:108-212 | The decoding loop over continuation bytes finds the character, its length, or which of truncated and ill-formed the text is, as the decoding function defines |
| `Utf8.DecodeUndoesEncode` | server_engine/json/json_unicode.hpp:38-212 | Wherever the encoding of any Unicode scalar stands in a text, decoding there yields that scalar and the length of its encoding |
| `Utf8.DecodeAcceptsOnlyEncodings` | server_engine/json/json_unicode.hpp:108-212 | Whatever decodes is a scalar, and the bytes read are exactly its encoding: no overlong form, surrogate or value above 0x10FFFF |
| `Utf8.ValidUtf8` | server_engine/filesystem_path.cpp:25-83 | The path validator accepts a text exactly when the JSON decoder can walk it from end to end |
| `Utf8.WalksExactlyEncodings` | server_engine/filesystem_path.cpp:25-83 | The texts that can be walked are exactly the concatenations of encodings of scalars |
| `JsonParser.ParseJson` | server_engine/json/json_parser.cpp:742-763 | Parsing a text ends with the outcome the reading functions give: the whole report of the callbacks, or the code, offset and length of the first fault |
| `JsonParser.Parser.Run` | server_engine/json/json_parser.cpp:24-57 | The object's run from a fresh state agrees with the reading of the whole text, callbacks included |
| `JsonParser.Parser.SkipTrivia` | server_engine/json/json_parser.cpp:71-131 | The trivia loop stops at the first byte that starts neither space nor comment, or reports an unclosed block comment from its opening to the end of the text |
| `JsonParser.Parser.ParseValue` | server_engine/json/json_parser.cpp:133-192 | A value moves the position and reports the callbacks its reading gives at this depth, or fails where and how that reading does |
| `JsonParser.Parser.ParseObject` | server_engine/json/json_parser.cpp:194-284 | An object reports its begin, members and end in order; missing keys, colons, commas and closes fail at the offending byte |
| `JsonParser.Parser.ParseArray` | server_engine/json/json_parser.cpp:286-334 | The same for arrays |
| `JsonParser.Parser.ParseDecodedString` | server_engine/json/json_parser.cpp:357-474 | The string loop leaves the decoded text in the scratch buffer, or reports control bytes, ill-formed UTF-8, bad escapes and an unclosed string at their own ranges |
| `JsonParser.Parser.ParseUnicodeEscape` | server_engine/json/json_parser.cpp:476-532 | A \u escape yields one scalar; a high surrogate must be followed by a low one and a lone low one is refused |
| `JsonParser.Parser.ParseHex4` | server_engine/json/json_parser.cpp:534-570 | Four hexadecimal digits yield their value, and the fault says whether one is missing or wrong |
| `JsonParser.Parser.ParseNumber` | server_engine/json/json_parser.cpp:572-673 | A number token ends where its longest reading does and is reported as an integer exactly when it has neither fraction nor exponent |
| `JsonTheorems.ParserCorrect` | server_engine/json/json_parser.cpp:24-57 | Parsing succeeds exactly for the documents of the RFC 8259 grammar with comments and an optional byte order mark, nested at most 64 deep, with well-formed UTF-8 and paired surrogates; the events are then the flattening of the document, positions included |
| `JsonCompleteness.DocumentReads` | server_engine/json/json_parser.cpp:24-57 | Every such document is read whole and reported as its flattening |
| `JsonCompleteness.ValueReads` | server_engine/json/json_parser.cpp:133-192 | Every tree of the grammar, wherever its text stands, is read to its end and reported as its flattening from there |
| `JsonCompleteness.StringReads` | server_engine/json/json_parser.cpp:357-474 | Every sequence of raw characters, short escapes, \u escapes and surrogate pairs is read to the string it means |
| `JsonCompleteness.NumeralReads` | server_engine/json/json_parser.cpp:572-673 | Every numeral of the grammar is read whole, whatever follows that cannot continue it |
| `JsonSoundness.DocumentSound` | server_engine/json/json_parser.cpp:24-57 | Whatever text is accepted is the text of some document of the grammar within the depth bound |
| `JsonSoundness.ValueSound` | server_engine/json/json_parser.cpp:133-192 | Whatever is read as a value is the text of a tree of the grammar, and the events are that tree's flattening |
| `JsonSoundness.StringSound` | server_engine/json/json_parser.cpp:357-474 | Whatever is read as a string is spelled by pieces of the grammar whose meaning is the decoded text |
| `JsonSoundness.NumeralSound` | server_engine/json/json_parser.cpp:572-673 | Whatever is read as a number is a numeral of the grammar |
| `JsonSoundness.TriviaSound` | server_engine/json/json_parser.cpp:71-131 | What is skipped is white space and closed comments, up to a last line comment at the end of the text |
| `JsonTheorems.OneMeaning` | server_engine/json/json_parser.cpp:24-57 | A text has one meaning: two documents with the same text have the same events |
| `JsonTheorems.FaultsPointIntoText` | server_engine/json/json_parser.cpp:715-730 | A text that is no document yields a fault whose range lies in the text and is empty only at its end |
| `JsonFaults.FaultsAreTrue` | server_engine/json/json_parser.cpp:24-730 | What a fault says is true of the range it gives: no character is encoded there, no number that stands there is as long, the comment is never closed, the unit is half of a pair, at least 64 opening brackets stand before it, and so on for every kind |
| `JsonSpellings.SpelledReads` | server_engine/json/json_parser.cpp:357-570 | However the characters of a string are written - as they are, by one of the eight letters, by their number in hexadecimal digits of either case, as one unit or a surrogate pair - the text in quotes is read as those characters |
| `JsonSpellings.StringReadsExactly` | server_engine/json/json_parser.cpp:357-570 | A text is read as one string exactly when it is such a spelling of it |
| `JsonSpellings.GrammarCharacters` | server_engine/json/json_parser.cpp:71-131 | White space, line breaks, digits and exponent marks are the characters of RFC 8259 |
| `JsonWriter.Writer.Clear` | server_engine/json/json_writer.hpp:33-38 | Clearing gives back the state of a new writer |
| `JsonWriter.Writer.IsComplete` | server_engine/json/json_writer.hpp:44-48 | Completeness is a valid state with a finished root and no open container |
| `JsonWriter.Writer.BeginValue` | server_engine/json/json_writer.hpp:244-276 | A value may begin where one is due; a second root or a value where a key is due invalidates the writer, and an array gets its comma |
| `JsonWriter.Writer.FinishValue` | server_engine/json/json_writer.hpp:278-292 | The innermost container has content, and an object then expects a key |
| `JsonWriter.Writer.BeginObject` | server_engine/json/json_writer.hpp:58-72 | Opening an object takes the step of that call and answers as it does |
| `JsonWriter.Writer.EndObject` | server_engine/json/json_writer.hpp:74-87 | Closing is refused, and the writer invalidated, unless an object is innermost and expects a key |
| `JsonWriter.Writer.BeginArray` | server_engine/json/json_writer.hpp:89-103 | Opening an array takes its step |
| `JsonWriter.Writer.EndArray` | server_engine/json/json_writer.hpp:105-117 | Closing is refused unless an array is innermost |
| `JsonWriter.Writer.Key` | server_engine/json/json_writer.hpp:119-148 | A key is written, with its comma and colon, exactly where an object expects one |
| `JsonWriter.Writer.Null` | server_engine/json/json_writer.hpp:150-152 | The null step |
| `JsonWriter.Writer.Boolean` | server_engine/json/json_writer.hpp:154-161 | The boolean step |
| `JsonWriter.Writer.Number` | server_engine/json/json_writer.hpp:164-208 | The integer step writes the decimal spelling |
| `JsonWriter.Writer.String` | server_engine/json/json_writer.hpp:210-222 | The string step writes the escaped spelling |
| `JsonWriter.Writer.WriteEscapedString` | server_engine/json/json_escape.hpp:34-79 | The escaping loop appends the quoted, escaped spelling of the whole text |
| `JsonWriting.DecimalFits` | server_engine/json/json_writer.hpp:164-208 | The spelling of any 64-bit integer, signed or not, fits the conversion buffer |
| `JsonRoundTrip.EscapedStringSpells` | server_engine/json/json_escape.hpp:34-79 | Escaping a valid UTF-8 string spells, in the grammar of strings, that very string |
| `JsonRoundTrip.StepTracks` | server_engine/json/json_writer.hpp:58-304 | One writer call keeps its output equal to the text of the containers drafted so far and its frames in step with them, or invalidates the writer |
| `JsonRoundTrip.RunTracks` | server_engine/json/json_writer.hpp:58-304 | So does any run of calls |
| `JsonRoundTrip.RoundTrip` | server_engine/json/json_writer.hpp:58-304 | Any run of calls since the last clear that is complete, with valid UTF-8 strings and at most 64 open containers, yields a text the parser accepts and reports as exactly those calls |
| `JsonUtf8.ReadsExactly` | server_engine/json/json_writer.hpp:58-304 | The text of a complete run within 64 levels is accepted by the parser if and only if every key and string is valid UTF-8: the writer does not check them |
| `JsonRoundTrip.CompleteExactly` | server_engine/json/json_writer.hpp:44-48 | A run is complete and within 64 levels exactly when its calls are those of one JSON value nested at most 64 deep |
| `JsonNumbers.DecimalMeans` | server_engine/json/json_writer.hpp:164-208 | The decimal text of any integer has, digit by digit and with its sign, the value of that integer |
| `JsonNumbers.RoundTripReports` | server_engine/json/json_writer.hpp:58-304 | For each call of a complete run one event is reported, which says what the call meant; for an integer, a token with its value |
| `DirectiveExecutor.Executor.Reset` | server_engine/project/frontend/directive_executor.hpp:85-90 | Resetting forgets all groups and files and keeps the definitions |
| `DirectiveExecutor.Executor.IsActive` | server_engine/project/frontend/directive_executor.cpp:114-120 | Source is read when no group is open or the innermost branch is active |
| `DirectiveExecutor.Executor.CurrentFileEntry` | server_engine/project/frontend/directive_executor.cpp:122-143 | The conditional floor is found exactly when the file is the one being executed |
| `DirectiveExecutor.Executor.EnterFile` | server_engine/project/frontend/directive_executor.cpp:145-163 | Entering records the number of open groups as the floor, and is refused for no file or at 256 entries, changing nothing |
| `DirectiveExecutor.Executor.BeginConditional` | server_engine/project/frontend/directive_executor.cpp:182-242 | A group is opened with the flags of its parent and its condition, or refused at 256 groups or for an unreadable operand of an active group, changing nothing |
| `DirectiveExecutor.Executor.Execute` | server_engine/project/frontend/directive_executor.cpp:244-509 | Any directive changes the groups, definitions and include request as its function says, or fails with that kind and range and changes nothing |
| `DirectiveExecutor.Executor.FinishFile` | server_engine/project/frontend/directive_executor.cpp:511-561 | A file is left exactly when its own groups are closed; otherwise the innermost open group is reported |
| `Directives.ExecuteKeepsSound` | server_engine/project/frontend/directive_executor.cpp:182-337 | Every directive keeps the cached parent and branch flags equal to the conjunction of all enclosing choices, and the floors in order |
| `Directives.EntriesKeepSound` | server_engine/project/frontend/directive_executor.cpp:145-163 | So do entering and finishing a file |
| `Directives.ActiveIsConjunction` | server_engine/project/frontend/directive_executor.cpp:114-120 | Source is active exactly when every open group is in its chosen branch |
| `DirectiveRefinement.BlockRuns` | server_engine/project/frontend/semantic_input.cpp:811-902 | From any place in any file, the stream machine reads a flattened block and stands behind it with the definitions, words and includes the recursive evaluator gives, all other groups and files untouched; or it stops with the evaluator's error after the same output |
| `DirectiveRefinement.GroupRuns` | server_engine/project/frontend/directive_executor.cpp:182-337 | The same for one conditional group with its optional #else |
| `DirectiveRefinement.LoneRuns` | server_engine/project/frontend/semantic_input.cpp:477-591 | The same for a directive outside groups, reading an included file whole |
| `DirectiveRefinement.ProgramRuns` | server_engine/project/frontend/semantic_input.cpp:811-902 | Every program of nested files ends, and as the tree evaluator says: same definitions, same words with the definitions in force at each, same includes, or the same error, the 256-level bounds included |
| `DirectiveRefinement.RunsInStep` | server_engine/project/frontend/semantic_input.cpp:530-591 | In every reachable state of any program lexical input and executor are in the same files, so the executor never refuses a file that input has entered, and the cached flags are right |
| `DirectiveRefinement.IncludeIsolation` | server_engine/project/frontend/directive_executor.cpp:145-163 | Whatever an entered file contains, nested and self-inclusion included, once it has been left the includer's groups, entries and active flag are as before |
| `DirectiveRefinement.IncludesAreIsolated` | server_engine/project/frontend/directive_executor.cpp:145-561 | In every run over any files, from the step that enters an included file to the step that leaves it, the includer's groups, files and active flag are restored and it goes on behind the directive |
| `DirectiveNesting.CompletedRunsNest` | server_engine/project/frontend/directive_executor.cpp:511-561 | A run that completes has read only files whose groups nest: the root and every included file is the text of some tree of groups |
| `DirectiveNesting.MarkScans` | server_engine/project/frontend/directive_executor.cpp:244-337 | A directive that succeeds moves the open groups of its own file as a nesting scan does and no group below its floor |
| `DirectiveMeaning.IfdefChooses` | server_engine/project/frontend/directive_executor.cpp:182-242 | In an active place a successful #ifdef leaves the place active exactly when the name that stands at its range is defined, and #ifndef exactly when it is not |
| `DirectiveMeaning.IfdefNeedsName` | server_engine/project/frontend/directive_executor.cpp:203-217 | There it is refused for its operand exactly when no name stands at its range |
| `DirectiveMeaning.GroupTurns` | server_engine/project/frontend/directive_executor.cpp:285-337 | The #else of a group goes on exactly where its first branch did not, and its #endif comes back to the groups that were open before |
| `DirectiveMeaning.SkippedStays` | server_engine/project/frontend/directive_executor.cpp:244-509 | Where nothing is read nothing is defined or asked for, and a group begun there is skipped whole |
| `DirectiveMeaning.DefineSets` | server_engine/project/frontend/directive_executor.cpp:357-429 | #define sets exactly that name to exactly that replacement, and is refused exactly when that would change a definition |
| `DirectiveMeaning.DefineNeedsNames` | server_engine/project/frontend/directive_executor.cpp:357-429 | A #define that succeeds in an active place has its name and, unless its range is empty, its replacement in the source |
| `DirectiveMeaning.UndefRemoves` | server_engine/project/frontend/directive_executor.cpp:431-454 | #undef removes exactly that name |
| `DirectiveMeaning.IncludeRequests` | server_engine/project/frontend/directive_executor.cpp:456-478 | A file is asked for exactly by an #include with a form and a locator in an active place, and with just those |
| `DirectiveMeaning.PlainSucceeds` | server_engine/project/frontend/directive_executor.cpp:339-509 | #if and #elif are refused everywhere; any other directive outside groups is passed over where nothing is read, and only #define, #undef and #include can succeed where it is |
| `DirectiveMeaning.GroupSucceeds` | server_engine/project/frontend/directive_executor.cpp:182-337 | #else and #endif succeed exactly in a group opened in the same file since it was entered, #else once; each refusal has its own kind |
| `DirectiveMeaning.GroupReads` | server_engine/project/frontend/directive_executor.cpp:182-337 | A group in an active place that is read to its end means exactly one branch: under #ifdef the first exactly when the name is defined, under #ifndef exactly when it is not |
| `DirectiveMeaning.DefinitionsDecide` | server_engine/project/frontend/directive_executor.cpp:182-454 | Behind a #define the #ifdef branch of that name is read and the #ifndef branch is not; behind an #undef it is the other way round |
| `Framing.EncodeFrame` | server_engine/communication/protocol/json_protocol.cpp:960-991 | A frame is the four-byte length and the payload, and decodes to them |
| `Framing.LengthOfHeader` | server_engine/communication/protocol/json_protocol.cpp:993-1005 | Decoding a written length gives it back, modulo its 32 bits |
| `Framing.HeaderOfLength` | server_engine/communication/protocol/json_protocol.cpp:993-1005 | Writing a decoded length gives back the four bytes |
| `Framing.HeaderIsBigEndian` | server_engine/communication/protocol/json_protocol.cpp:960-991 | A frame begins with the length of its payload in network byte order, and nothing else stands before the payload |
| `Framing.ParseExactly` | server_engine/communication/tcp/tcp_endpoint.cpp:886-944 | Parsing a stream succeeds with some payloads exactly when it is their frames, each of 1 to 1048576 bytes and accepted in turn, followed by less than a frame |
| `Framing.FramesRoundTrip` | server_engine/communication/tcp/tcp_endpoint.cpp:886-944 | A concatenation of frames gives back its payloads with nothing left over |
| `Framing.ParseAppend` | server_engine/communication/tcp/tcp_endpoint.cpp:886-944 | More bytes continue a parse from where it stands, and do not matter once it has failed |
| `Framing.ChunkIndependence` | server_engine/communication/tcp/tcp_endpoint.cpp:843-944 | Two ways of cutting a stream into reads dispatch the same payloads and go on or stop alike, as one read of the whole would |
| `FrameReceiver.Receiver.Receive` | server_engine/communication/tcp/tcp_endpoint.cpp:843-884 | A turn of reads leaves the receiver where feeding those reads to the parse leaves it; it goes on only when the socket would block, and then holds at most 1048576 + 8194 bytes |
| `FrameReceiver.Receiver.ConsumeFrames` | server_engine/communication/tcp/tcp_endpoint.cpp:886-944 | Consuming dispatches and keeps exactly what parsing the unread bytes does, whatever dispatch answers |
| `FrameReceiver.Receiver.CompactReceive` | server_engine/communication/tcp/tcp_endpoint.cpp:946-972 | Compaction keeps the unread bytes and leaves fewer than 8192 consumed ones |
| `Outbound.EnqueueKeeps` | server_engine/communication/connection/outbound_channel.cpp:12-40 | Enqueueing keeps the queued bytes equal to the sum of the queued estimates and within the limit, and the queue equal to what was accepted and not taken |
| `Outbound.NextKeeps` | server_engine/communication/connection/outbound_channel.cpp:68-88 | So does taking, which gives the next sequence to the oldest accepted message not yet taken |
| `Outbound.EstimateIs` | server_engine/communication/connection/communication_connection.cpp:9-22 | A message counts with the bytes of all its strings, 64 for itself and each diagnostic, and 32 more for a response |
| `Outbound.WaitingIsBounded` | server_engine/communication/connection/outbound_channel.cpp:14-40 | The strings that wait in a channel and 64 bytes for each message never exceed its limit |
| `OutboundChannel.ChannelObject.EnqueueMessage` | server_engine/communication/connection/outbound_channel.cpp:12-40 | The message is accepted exactly when the channel is open and it fits; one that does not fit closes and clears the channel |
| `OutboundChannel.ChannelObject.TryNextMessage` | server_engine/communication/connection/outbound_channel.cpp:68-88 | Nothing comes out of a closed or empty channel; otherwise the next accepted message with the next sequence, and the byte count never goes below zero |
| `OutboundChannel.ChannelObject.MarkWritten` | server_engine/communication/connection/outbound_channel.cpp:90-102 | The last written sequence never goes back, whatever sequence is given; marking one that was handed out keeps the channel valid |
| `OutboundChannel.ChannelObject.Close` | server_engine/communication/connection/outbound_channel.cpp:121-137 | Closing is idempotent and discards what is queued |
| `Connections.RequestQueue.Push` | server_engine/communication/request_queue.cpp:14-27 | A request goes to the end of the queue exactly while the queue accepts |
| `Connections.RequestQueue.Pop` | server_engine/communication/request_queue.cpp:60-84 | The oldest request comes out first, as in the step of the Server thread that takes it |
| `Connections.RequestQueue.StopAcceptingAndDiscard` | server_engine/communication/request_queue.cpp:29-39 | Nothing is left and nothing more is accepted |
| `Connections.ConnectionObject.ReserveRequest` | server_engine/communication/connection/communication_connection.cpp:150-166 | An id is reserved exactly when it is valid, the connection is open and the id is not outstanding; this is the reserving step of the transport thread |
| `Connections.ConnectionObject.ReleaseRequest` | server_engine/communication/connection/communication_connection.cpp:168-177 | A released id is no longer outstanding, and no other changes |
| `Connections.ConnectionObject.EnqueueResponse` | server_engine/communication/connection/communication_connection.cpp:198-221 | The response is accepted by the channel, or the connection is closing afterwards; from a transport thread this is its answering step, and the closing steps when it is refused |
| `Connections.ConnectionObject.EnqueueServerState` | server_engine/communication/connection/communication_connection.cpp:223-246 | The same for a state action; a connection not logged in is sent nothing |
| `Connections.ConnectionObject.EnqueueClientAction` | server_engine/communication/connection/communication_connection.cpp:248-271 | The same for a client action |
| `Connections.ConnectionObject.TryNextMessage` | server_engine/communication/connection/communication_connection.cpp:315-333 | The next message comes out, and its id is released exactly when it is a releasing response; these are the steps of dequeueing and of releasing |
| `Connections.ConnectionObject.CommitLogin` | server_engine/communication/connection/communication_connection.cpp:131-148 | A login commits exactly once, on an open connection, with a name of 1 to 128 bytes; this is the committing step of the Server thread |
| `Connections.ConnectionObject.BeginClose` | server_engine/communication/connection/communication_connection.cpp:442-452 | Closing marks the connection and closes its channel; the first call says so; these are the step that sets the flag and the step that closes the channel |
| `Connections.Registry.RegisterConnection` | server_engine/communication/communication.cpp:105-123 | A connection is registered, at the end, exactly when neither it nor its session id is registered yet |
| `Connections.Registry.UnregisterConnection` | server_engine/communication/communication.cpp:125-142 | Exactly the connection with that id leaves the registry and the others keep their order, as in the step of the machine |
| `Connections.Registry.PublishServerState` | server_engine/communication/communication.cpp:144-159 | Every logged-in registered connection is sent the change once, none when nothing changed, and nothing else of any connection changes |
| `Connections.Registry.RouteClient` | server_engine/communication/communication.cpp:161-194 | The action goes once to every logged-in, open connection with the addressed name, or to all when no name is given, nothing else of any connection changes, and the result counts the connections that had room for it |
| `ConnectionViews.DeliverIsSend` | server_engine/communication/connection/communication_connection.cpp:198-271 | An enqueue by the Server thread is one delivery of the machine, and the two closing steps when it is refused |
| `ConnectionViews.PublishIsSend` | server_engine/communication/communication.cpp:144-159 | For every registry the machine has a run from the first publishing step that ends with the views of all registered connections as publishing on the objects leaves them, and with nothing else of any connection changed |
| `ConnectionViews.RouteIsSend` | server_engine/communication/communication.cpp:161-194 | The same for routing a client action, with the answer to the sender due afterwards |
| `ConnectionViews.SentToIsSentEach` | server_engine/communication/communication.cpp:144-194 | Sending to connections one after the other by their ids does to their views what sending to each view once does |
| `ConnectionLifetime.Counted.Hold` | server_engine/communication/connection/communication_connection.cpp:515-525 | A held token adds one reference, as in the holding step of the machine |
| `ConnectionLifetime.Counted.Release` | server_engine/communication/connection/communication_connection.cpp:553-561 | The last release, and only the last, destroys; it is the erasing step of the machine |
| `ConnectionLifetime.Token.FromMove` | server_engine/communication/connection/connection_lifetime.hpp:23-30 | Constructing by move takes the reference and empties the source |
| `ConnectionLifetime.Token.MoveAssign` | server_engine/communication/connection/connection_lifetime.hpp:32-49 | Assigning by move releases what was held and takes over the other's reference; to itself it changes nothing |
| `ConnectionLifetime.Token.Reset` | server_engine/communication/connection/connection_lifetime.hpp:76-86 | Resetting gives up the reference once |
| `ConnectionLifetime.MoveConserves` | server_engine/communication/connection/connection_lifetime.hpp:32-49 | Moving between tokens keeps the reference count equal to the number of holders |
| `ProtocolLifetime.StepKeepsLifetime` | server_engine/communication/tcp/tcp_endpoint.cpp:1232-1269 | Every step of every thread keeps references equal to their holders and each posted close message behind all else its peer sent |
| `ProtocolLifetime.PeerKeepsLifetime` | server_engine/communication/tcp/tcp_endpoint.cpp:974-1142 | So do the transport's own steps, from dispatch to closing a peer |
| `ProtocolLifetime.RegisteredAreAlive` | server_engine/communication/communication.cpp:105-142 | In every state reachable before the run loop ends, every registered connection, every connection of a queued message and that of the message in hand has a reference |
| `ProtocolLifetime.StepsTouchLiving` | server_engine/communication/connection/communication_connection.cpp:515-560 | No step of any run dereferences a connection whose last reference is gone |
| `ProtocolExit.RegisteredAfterDiscard` | server_engine/server.cpp:1208-1218 | After every run that leaves the loop, and every further run of the transport threads, the queue can be dropped without releasing anything twice; from then on a connection has exactly its own peer's references, so a registered one has any if and only if its peer has not been erased |
| `ProtocolExit.RegisteredMayDie` | server_engine/server.cpp:227-301 | Lifetime safety does not extend past the loop: in a run of 19 steps a client logs in and goes, the lease runs out before its close message is served, and dropping the queue leaves the registered connection with no reference |
| `ProtocolExit.EndStepKeeps` | server_engine/communication/request_queue.cpp:14-39 | After the loop every step, a refused push included, keeps each reference with one holder: the peer, or a message still queued |
| `ProtocolRequests.RequestConservation` | server_engine/communication/connection/communication_connection.cpp:150-221 | In every reachable state an id has at most one unit of work, and over an open channel exactly one while it is outstanding: in dispatch, queued, executing, in a queued releasing response, or dequeued and not yet released |
| `ProtocolRequests.OnlyWritingReleases` | server_engine/communication/connection/communication_connection.cpp:315-333 | An outstanding id becomes free again only by the step after its releasing response was taken for writing |
| `ProtocolRequests.IoKeepsConserved` | server_engine/communication/tcp/tcp_endpoint.cpp:974-1142 | Every transport step keeps the balance of units and outstanding ids |
| `ProtocolRequests.ServerKeepsConserved` | server_engine/server.cpp:254-391 | So does every Server step |
| `ProtocolWire.WireOutput` | server_engine/communication/tcp/tcp_endpoint.cpp:1144-1194 | In every reachable state the bytes sent on a connection are the frames of the first accepted messages, in order and numbered from 1, and then part of the next frame; queued bytes are the queued estimates' sum and within 4 MiB; the queue is what was accepted and not taken |
| `ProtocolWire.MessagesArrive` | server_engine/communication/protocol/json_protocol.cpp:899-1005 | End to end: in every reachable state, however the bytes sent are cut into reads, a receiver has dispatched exactly the texts of the accepted messages 1..n, each once and in order, where n is the last one marked written or the one after it, and holds less than one frame more |
| `ProtocolWire.IoKeepsWire` | server_engine/communication/tcp/tcp_endpoint.cpp:1144-1230 | Every transport step keeps every sent byte accounted for |
| `ProtocolWire.ServerStepDisturbs` | server_engine/communication/communication.cpp:144-194 | A Server step changes nothing of what a transport thread is sending, only channels and flags |
| `ProtocolTexts.ClientReads` | server_engine/communication/tcp/tcp_endpoint.cpp:1144-1230 | With the encoder of the engine, in every reachable state and however the bytes sent are cut: the texts a client has been handed are those of the first accepted messages in order; each can be read exactly when its strings are valid UTF-8, and is then taken for that message with its number |
| `ProtocolTexts.ClientFollows` | server_engine/server.cpp:227-304 | What a client knows of the project state from the texts it has been handed is the fold of the readable ones among the accepted messages behind them |
| `ProtocolTexts.ClientKnows` | server_engine/server.cpp:227-304 | Between loop iterations a registered client with an open channel that has been handed, and could read, all that was accepted for it knows the current project state |
| `ProtocolGate.GateBounds` | server_engine/communication/tcp/tcp_endpoint.cpp:388-427 | Admitted connections never exceed the limit, the counter is their exact number, and a release never finds it at zero |
| `ProtocolTracking.StateTracking` | server_engine/server.cpp:227-304 | Between loop iterations every registered connection with an open channel has been told exactly the current project state; at all times every connection's messages agree with the fold of those before them; a Project is present exactly when the state is not unloaded |
| `ProtocolTracking.PublishTracks` | server_engine/communication/communication.cpp:144-159 | Each publication takes one more connection from the old state to the new |
| `ProtocolTracking.RespondTracks` | server_engine/server.cpp:310-349 | A LOGIN or GET_STATE response agrees with what its connection was told |
| `ProtocolTracking.OnlyMembersAsk` | server_engine/communication/tcp/tcp_endpoint.cpp:990-1057 | In every reachable state all that waits for the Server, or is served, but a LOGIN comes from a client that has logged in |
| `ProtocolProject.AnswersAreDue` | server_engine/server.cpp:422-1206 | In every run each request is answered as the answers before it demand - a Project is opened only when there is none, run or unloaded only when loaded or frozen, frozen only when it runs - with the payload that is due, and the project state is the one the answers tell |
| `ProtocolProject.RunUntilFreeze` | server_engine/server.cpp:1105-1206 | After a RUN that succeeded RUN and UNLOAD are refused until a FREEZE succeeds; after that both succeed again where they are allowed |
| `ProtocolProject.LoginIsAnswered` | server_engine/server.cpp:310-349 | A LOGIN succeeds exactly when it registers its connection, and only then says the project state |
| `ProtocolProject.ActionIsAnswered` | server_engine/server.cpp:364-391 | A client action succeeds exactly when its sender is logged in and was not seen closing, and says nothing else |
| `ProtocolProject.RefusalIsAnswered` | server_engine/communication/tcp/tcp_endpoint.cpp:990-1057 | A transport thread refuses an id it knows, which then stays taken, and whoever has not logged in |
| `ProtocolStart.StartupIsReached` | server_engine/server.cpp:60-225 | A Project opened at the start, while transport threads are already at work, leads only to states that the machine reaches without one, so every statement on reachable states holds for them |
| `OutboundEncoder.AppendEscaped` | server_engine/communication/protocol/json_protocol.cpp:375-425 | The loop appends the spelling the JSON writer gives the string |
| `OutboundEncoder.AppendInteger` | server_engine/communication/protocol/json_protocol.cpp:427-446 | Every integer is appended in decimal; the buffer is never too short |
| `OutboundEncoder.AppendDiagnostics` | server_engine/communication/protocol/json_protocol.cpp:465-526 | What is appended is what the JSON writer writes for that member: an array of objects in which empty texts and missing positions are left out, or nothing when there are no diagnostics |
| `OutboundEncoder.AppendResponse` | server_engine/communication/protocol/json_protocol.cpp:528-586 | What is appended is the whole output of the JSON writer for the fields of the response |
| `OutboundEncoder.AppendServerState` | server_engine/communication/protocol/json_protocol.cpp:588-610 | The same for a state action |
| `OutboundEncoder.AppendClientAction` | server_engine/communication/protocol/json_protocol.cpp:612-637 | The same for a client action, its parameters in base64 |
| `OutboundEncoder.EncodeJsonOutbound` | server_engine/communication/protocol/json_protocol.cpp:904-958 | The text is that output, and is refused exactly when it is longer than a frame |
| `OutboundTheorems.MessageReads` | server_engine/communication/protocol/json_protocol.cpp:904-958 | The text of a message is a JSON document if and only if all its strings are valid UTF-8, and the parser then reports the fields of the message and its sequence number and nothing else |
| `OutboundReading.MessageUnderstood` | server_engine/communication/protocol/json_protocol.cpp:448-958 | A client that finds members by the names of the protocol gets back every message whose strings are valid UTF-8 - its number, kind, states, payload, texts, data and diagnostics - and nothing of any other |
| `OutboundReading.ResponseOmits` | server_engine/communication/protocol/json_protocol.cpp:465-586 | A response has a member for a payload, or for diagnostics, exactly when it has some |
| `OutboundReading.TextsShow` | server_engine/communication/protocol/json_protocol.cpp:904-958 | Two messages of which one is readable have the same text if and only if they have the same sequence number, kind and shown fields |
| `LittleEndian.Write` | server_engine/project/project_configuration_manifest_store.cpp:54-102 | The byte loop writes the number's little-endian text in place and touches nothing else, or has no room |
| `LittleEndian.Read` | server_engine/project/project_configuration_manifest_store.cpp:130-184 | The byte loop reads the number whose text stands there |
| `LittleEndian.ValueOfText` | server_engine/project/project_configuration_manifest_store.cpp:54-184 | Reading what was written gives the number back |
| `LittleEndian.TextOfValue` | server_engine/project/project_configuration_manifest_store.cpp:54-184 | Writing what was read gives the bytes back |
| `LittleEndian.DigitAt` | server_engine/project/project_configuration_manifest_store.cpp:54-102 | The byte at each place is that digit of the number to the base 256, the lowest first |
| `ManifestStore.ValidateFile` | server_engine/project/project_configuration_manifest_store.cpp:196-264 | A file proof is accepted exactly when its path, locator and token are valid at that index |
| `ManifestStore.PrepareLayout` | server_engine/project/project_configuration_manifest_store.cpp:265-338 | A layout is given exactly for a valid manifest, with the exact size of its image; a path that cannot be encoded reads as an I/O failure |
| `ManifestStore.Encode` | server_engine/project/project_configuration_manifest_store.cpp:340-502 | The span is filled with the image exactly when the layout matches, every file is valid and the size is the image's |
| `ManifestStore.ReadEntry` | server_engine/project/project_configuration_manifest_store.cpp:599-790 | One entry is read exactly when a valid, normal one stands there |
| `ManifestStore.Decode` | server_engine/project/project_configuration_manifest_store.cpp:504-808 | Decoding succeeds exactly on images of valid manifests with normal tokens, and gives that manifest |
| `Manifest.StandsOnce` | server_engine/project/project_configuration_manifest_store.cpp:599-790 | At most one normal entry stands at an offset |
| `Manifest.DescendsFromRoot` | server_engine/project/project_configuration_manifest_store.cpp:196-264 | Every file of valid ones descends through earlier ones from the first, which nothing declares |
| `ManifestStore.ImageInjective` | server_engine/project/project_configuration_manifest_store.cpp:340-502 | An image is that of one manifest only |
| `ManifestStore.EncodeThenDecode` | server_engine/project/project_configuration_manifest_store.cpp:265-808 | Preparing, encoding and decoding a valid manifest gives it back, tokens marked unavailable reset to the default |
| `ManifestStore.DecodeThenEncode` | server_engine/project/project_configuration_manifest_store.cpp:504-808 | Every image the decoder accepts passes preparation at its exact size and encodes to the identical bytes |
| `ManifestStore.CalculateConfigurationHash` | server_engine/project/project_configuration_manifest.cpp:55-108 | The hash is that of the canonical preimage, and fails exactly when a path is not valid UTF-8 |
| `Preimages.CalculatePreprocessorHash` | server_engine/project/project_configuration_manifest.cpp:110-148 | The hash is that of the canonical preimage of the predefines |
| `Preimages.ConfigurationPreimageInjective` | server_engine/project/project_configuration_manifest.cpp:55-108 | Equal preimages mean the same files, in order, in every field but the change token |
| `Preimages.PreprocessorPreimageInjective` | server_engine/project/project_configuration_manifest.cpp:110-148 | Equal preimages mean the same predefines |
| `Preimages.PreimageExactly` | server_engine/project/project_configuration_manifest.cpp:55-148 | Two hashed preimages are equal if and only if they are of one kind and cover the same fields in the same order |
| `Preimages.PreimagesBegin` | server_engine/project/project_configuration_manifest.cpp:55-148 | A preimage begins with the name and version of its format and the number of its parts |
| `Preimages.FileLayout` | server_engine/project/project_configuration_manifest.cpp:68-98 | For each file come who declared it, the type and size of its path, the path and the hash of its content, each at its place |
| `Preimages.PredefineLayout` | server_engine/project/project_configuration_manifest.cpp:122-140 | For each predefine come the size and text of its name and of its replacement |
| `Paths.NormalIdempotent` | server_engine/project/project_path.cpp:7-40 | Normalising a path twice is normalising it once |
| `Paths.NormalThroughJoin` | server_engine/project/project_configuration_manifest.cpp:713-728 | A relative locator may be normalised before it is joined to a directory |
| `Paths.ParentAndName` | server_engine/project/project_configuration_manifest.cpp:713-728 | A path is its directory joined to its last name, which is empty behind a separator |
| `Paths.NormalDropsDot` | server_engine/project/project_path.cpp:7-40 | A dot anywhere in a path makes no difference, but that a last one leaves a separator |
| `Paths.NormalDropsName` | server_engine/project/project_path.cpp:7-40 | A name and the dot-dot behind it make no difference |
| `Paths.NormalAtRoot` | server_engine/project/project_path.cpp:7-40 | Nothing is above the root |
| `Paths.NormalOfPlain` | server_engine/project/project_path.cpp:7-40 | A path with nothing to take away is its own normal form |
| `Paths.NormalOfNothing` | server_engine/project/project_path.cpp:7-40 | A relative path that comes to nothing is the dot |
| `ManifestComposer.Composer.RegisterKind` | server_engine/project/project_configuration_manifest.cpp:942-969 | A path keeps the kind it was first used with, and a second kind is refused |
| `ManifestComposer.Composer.DeclareDependencies` | server_engine/project/project_configuration_manifest.cpp:713-790 | All dependencies of a file are registered before any is visited; the pending list is its Project references in order |
| `ManifestComposer.Composer.ProcessDependencies` | server_engine/project/project_configuration_manifest.cpp:695-935 | Declaring and then visiting agree with the walk |
| `ManifestComposer.Composer.VisitProject` | server_engine/project/project_configuration_manifest.cpp:402-692 | A visit reaches the state of the walk or fails with its status |
| `ManifestComposer.Composer.Compose` | server_engine/project/project_configuration_manifest.cpp:313-399 | Composition agrees with the walk from nothing, and leaves no files when it fails |
| `CompositionTheorems.VisitMeets` | server_engine/project/project_configuration_manifest.cpp:402-692 | From any state, a visit succeeds exactly when the path's reference tree can be unfolded within the depth bound and nothing in it stands against what is already visited, declared or used; it then adds that tree's part and nothing else |
| `CompositionTheorems.ComposesExactly` | server_engine/project/project_configuration_manifest.cpp:313-969 | Composing succeeds exactly when every reached Project is readable within 256 levels and referenced once, no path has two kinds and no source, assign or Project is declared twice; the files are then the declaration-order preorder |
| `CompositionTheorems.ParentsFirst` | server_engine/project/project_configuration_manifest.cpp:402-692 | Every parent index is below its child's, and inside the tree |
| `CompositionTheorems.ReferencesGrow` | server_engine/project/project_configuration_manifest.cpp:713-790 | The references of a file are the Projects among its dependencies, in the order of declaration |
| `PathReplay.RebuildPaths` | server_engine/project/project_configuration_manifest.cpp:1126-1190 | The loop rebuilds a path for every entry from its parent's, or refuses a wrong root or a link that does not point back |
| `PathReplay.ComposedReplays` | server_engine/project/project_configuration_manifest.cpp:1126-1190 | For every composed manifest the rebuilt path at each index is exactly the path the composer visited |
| `PathReplay.StoredLocator` | server_engine/project/project_configuration_manifest.cpp:638-653 | Storing a locator normalised does not move what it stands for |
| `PathReplay.ResolvesBeside` | server_engine/project/project_configuration_manifest.cpp:713-728 | Names behind k steps up mean, to the composer and when paths are rebuilt, exactly the file with those names k directories above the one that names it |
| `PathReplay.ResolvesAbsolute` | server_engine/project/project_configuration_manifest.cpp:1146-1163 | A normal absolute path is where it says, whichever file names it |
| `PathReplay.ComposedRecords` | server_engine/project/project_configuration_manifest.cpp:604-660 | Every entry of a composed manifest holds the content read at the path visited at its place and the normal form of how it was named |
| `RootSelection.NormalizeFileIds` | server_engine/project/project_build.cpp:175-188 | The result is ascending and has the same members |
| `RootSelection.AscendingUnique` | server_engine/project/project_build.cpp:175-188 | One set has one ascending sequence |
| `RootSelection.ContainsFileId` | server_engine/project/project_build.cpp:190-199 | Binary search finds a value exactly when it is there |
| `RootSelection.AppendFileIdDifference` | server_engine/project/project_build.cpp:201-227 | The sorted merge appends exactly the values of the left that are not in the right, in order |
| `RootSelection.CollectPersistedConfigurationRoots` | server_engine/project/project_build.cpp:229-374 | The roots are the headers and sources of the current Projects at exactly the replayed paths, ascending; otherwise the first entry that cannot be rebuilt, resolved, looked up or used decides whether an invalid artifact, an I/O error or the status of the lookup is reported |
| `RootSelection.SelectRoots` | server_engine/project/project_build.cpp:757-818 | The invalidated and replay roots as set expressions over affected, old, current and dependent roots |
| `RootSelection.SelectionCovers` | server_engine/project/project_build.cpp:757-968 | After a configuration change replay roots are current roots, contain every invalidated root still current and every new root, and are the current roots when the preprocessor changed |
| `BaseN.AppendBase64` | server_engine/communication/protocol/json_protocol.cpp:320-373 | The group loop appends the padded text of the data |
| `BaseN.DecodeBase64` | server_engine/communication/protocol/json_protocol.cpp:228-318 | The group loop accepts and decodes exactly as the reference decoder: padding only at the end, unused bits zero |
| `BaseN.Base64Url` | server_engine/server_identity/microsoft_entra_server_identity_windows.cpp:238-298 | The loop and its tail give the unpadded text of the data |
| `BaseN.DecodeBase64Url` | server_engine/authentication/entra_jwt.cpp:19-90 | The streaming decoder with its wrapping 32-bit accumulator accepts and decodes exactly as the reference decoder, and refuses the empty text |
| `BaseN.DecodesExactly` | server_engine/communication/protocol/json_protocol.cpp:228-373 | A text decodes to some data exactly when it is that data's encoding, in both alphabets |
| `BaseN.AlphabetIs` | server_engine/communication/protocol/json_protocol.cpp:320-373 | Each digit is written as the character at its place in the table of its alphabet |
| `BaseN.GroupIsNumber` | server_engine/communication/protocol/json_protocol.cpp:320-373 | Three bytes and the four digits written for them are one number of 24 bits |
| `BaseN.Base64RoundTrip` | server_engine/communication/protocol/json_protocol.cpp:228-373 | Decode undoes encode, encode undoes decode on accepted texts, and the accepted texts are the encodings |
| `BaseN.Base64UrlRoundTrip` | server_engine/authentication/entra_jwt.cpp:19-90 | The same for base64url on data that is not empty |
| `Lanes.RunsCallEachLaneOnce` | server_engine/project/construction/execution_lanes_posix.cpp:277-361 | When a run returns, its function has been called with its context exactly once on each of its lanes and on no other, every call has ended and every semaphore is zero |
| `Lanes.NoReadWhileWriting` | server_engine/project/construction/execution_lanes_posix.cpp:56-94 | While the owner writes a shared field no worker reads one or can wake to read one |
| `Lanes.SomethingCanStep` | server_engine/project/construction/execution_lanes_posix.cpp:56-94 | No deadlock: while the owner is busy, it or the worker it waits for can take a step |
| `Lanes.StepLowers` | server_engine/project/construction/execution_lanes_posix.cpp:56-361 | Every step of the owner or a worker lowers a natural number computed from the program counters and the start semaphores |
| `Lanes.RunsEnd` | server_engine/project/construction/execution_lanes_posix.cpp:277-361 | Every run on k lanes ends under every schedule: at most 8k steps follow its beginning, and when no more can be taken it has returned |
| `Lanes.DestructionEnds` | server_engine/project/construction/execution_lanes_posix.cpp:96-154 | So does every destruction, after at most eight steps for each worker and three more |
| `Lanes.DestroyJoinsAll` | server_engine/project/construction/execution_lanes_posix.cpp:96-154 | A destroyed pool has no worker left |
| `Lanes.WorkerKeeps` | server_engine/project/construction/execution_lanes_posix.cpp:56-94 | Every worker step keeps the state of each lane in step with what the owner has started and waited for |
| `Lanes.PersistLane` | server_engine/project/project_full_construction.cpp:463-511 | A lane fills exactly its own stride of results and no other slot |
| `Lanes.LanesCoverOnce` | server_engine/project/project_full_construction.cpp:463-511 | However the turns of the lanes are interleaved, no slot is written twice or with another's result, and when all lanes are done each slot has been written exactly once, with its own result |

## Left out

- Sockets, polling, memory mapping, consoles and file reads: a read is an arbitrary chunk, a send an arbitrary prefix.
- Allocation failure, and the internal failures the code reports for it, in every component.
- JSON numbers with a fraction or exponent are kept as tokens; their conversion to floating point, and the writer's floating-point overload, are not modelled.
- JsonWriter.Writer.Number: the branch for a failed integer conversion is not modelled, because the longest spelling fits the buffer (`JsonWriting.DecimalFits`).
- The handlers of inbound requests: decoding happens before `Reserve`. The machine's own invariants hold for an arbitrary encoder; only `ProtocolTexts` fixes it.
- Sequence numbers are unbounded in the machine; the encoder writes them modulo 2 to the 64, as the counter in the engine shows them.
- A startup Project that cannot be opened ends the program before the loop; that path is not modelled.
- The diagnostics and the value a request answers with are arbitrary arguments of the step that executes it.
- Base64 output bytes left behind by a decoder that fails: only accepted output is stated.
- Written-response waits at shutdown: they match by request id only, which says nothing when ids repeat.
- Subscription data and the subscription registry: nothing in the engine calls `enqueue_subscription_data` or `add_subscription`.
- Connections.Registry.UnregisterConnection: the teardown of the subscriptions of the connection that leaves is not modelled, because there are none.
- After the run loop exits only the references of connections are followed (`ProtocolExit`); the other invariants are stated up to that point, and so is a refused push to the control queue, which only happens afterwards.
- The compare-and-swap retry loop of the gate is one step, and session ids do not wrap at 64 bits.
- Memory order: a step sees all steps before it; semaphore and thread-creation failures are not modelled.
- Macro expansion of identifiers and hash collisions of the macro table: definitions are a map by spelling, and a word carries the definitions in force at it.
- Directive decoding and lexing: a file is the sequence of its words and decoded directives.
- ManifestComposer.Composer.ProcessDependencies: the branch with a file context, which prefetches the files in parallel, is not modelled, because `file_context` is not part of this model.
- ManifestComposer.Composer.VisitProject: with a file context the semantic roots and the replacement of dependencies are not modelled, for the same reason; without one the branch is complete.
- ManifestComposer.Composer.Compose: the file-context branch is not modelled, for the same reason; the two hashes stored at the end are `ManifestStore.CalculateConfigurationHash` and `Preimages.CalculatePreprocessorHash` of the result.
- Change-token and content checks of the manifest verifier: only its path reconstruction is modelled.
- Splitting path text into names: a path is its root, names and trailing separator.
- BUILD beyond the choice of roots, the compiled project, the graph and the lexical replacement files.
- Windows branches, apart from the base64url encoder that only exists there.
- Server policy, license, lease and authentication handlers: each check reads off one branch.
