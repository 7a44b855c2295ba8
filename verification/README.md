# Verified model of iperf3

iperf3 measures throughput between a client and a server. The two processes talk over a control connection on which
one-byte states and JSON messages follow each other; data flows over separate streams. This project models the parts
of that program in which mistakes are easy to make and hard to see, and proves what they are for.

* **JSON.** `JsonPrint` writes into a growing or a fixed buffer and is proved against a pure rendering function
  (`JsonTree`), with an exact condition for success in a fixed buffer; `JsonLayout` says byte by byte what its texts look
  like. The recursive-descent parser (`JsonParse`, `JsonNodes`, `Utf8`, `JsonTwoPass`) advances an offset and a depth,
  builds linked nodes, and is proved against pure functions (`JsonGrammar`); `JsonText` says byte by byte what a JSON text
  is, and `JsonStrings`, `JsonReading`, `JsonExact` and `JsonStuck` prove that the parser accepts exactly these texts, as
  the trees that they show, and gives up on all others exactly where they stop being one. Printing and parsing are
  inverse (`JsonRoundTrip`, `JsonCopy`) on all trees of C strings and exactly representable integers, up to the nesting
  limit and not beyond. Comparison (`JsonCompare`) is equality of meaning, with and without regard to case. Child lists
  (`ItemList`) and deep copies (`JsonDuplicate`) are linked nodes too.
* **Messages and parameters (`Wire`, `Params`, `ParamText`, `ParamReading`).** Framing of JSON on the control connection,
  the text that the client sends, what a fresh server makes of it, composed with the JSON round trip, and what any
  server makes of any object.
* **The control protocol (`Streams`, `Control`, `ControlProofs`, `ControlRuns`, `ControlHistory`, `ParamRuns`,
  `ControlBytes`, `ControlTests`).** Client and server as two processes joined by two first-in-first-out channels,
  with every operation that may block as a place where a process stands, any number of streams, parameters that the
  server may refuse, and connections of third parties. An inductive joint invariant gives safety, a measure gives
  termination, and together they give freedom from deadlock, over every schedule. `ParamRuns` ties the protocol to the
  parameters and their bytes, `ControlBytes` ties all its messages to the two streams of bytes that carry them.
  `ControlTests` has the two tests as objects whose handlers update fields in place, and makes the steps of the model
  with them.
* **Timers (`Times`, `TimerList`, `Timers`).** A sorted doubly linked list with a free list, modelled on the heap, and
  the walk that fires callbacks while it re-sorts the list under itself.
* **QUIC buffering (`QuicReceive`, `QuicSend`, `QuicAccept`).** Each critical section is one atomic method; what the
  methods keep holds for every interleaving.
* **UDP accounting (`Udp`)** and **rate pacing (`Pacing`).**
* **What several of them use (`Bytes`, `Wrappers`, `Sequences`, `Widths`).**

`dafny verify dfyconfig.toml` checks all files.

## Where the code falls short of what one expects

* Over TCP and SCTP a server with a TOS value gives up the test when a stranger connects while streams are created:
  the accept function closes the socket of a connection with a wrong cookie and returns it, and setting the TOS option
  on it fails. UDP takes its streams from another socket and QUIC sets no option, so that there a stranger does no
  harm. Parameters that the server cannot take end the test too: a text of more than 8192 bytes, which a long title or
  extra data make, UDP over a disk file, or a test that has no end or a later one than the server's cap.
  `ControlRuns.FailsExactlyWhenHarmed` states exactly when a run can fail, and `ParamRuns.TestFailsExactlyWhen` says
  it of the client's parameters.
* Comparing numbers with a relative tolerance of 2^-52 confuses 2^52 - 1 with 2^52 and all neighbouring integers above
  (`JsonCompare.ToldApartExactlyWhen`); as soon as numbers above 2^52 occur it is not transitive either
  (`JsonCompare.TransitiveExactlyWhen`).
* A block size or pacing timer of 0 is not sent, so the server keeps its default (`Params.UnchangedExactlyWhen`).
* A send that the QUIC transport rejects keeps its place in the pending counter. It is the last send of its stream,
  whose worker ends, so that only the counter shows it (`QuicSend.CounterIsExact`, `QuicSend.RejectedIsLast`).
* A run of the timers may leave a periodic timer due: one that goes back in front of the neighbour noted for the next
  turn, or behind which there is none, is not looked at again. `TimerList.NothingDueExactlyWhen` gives the exact
  condition; it suffices, but is not necessary, that no due periodic timer is a whole period late
  (`TimerList.OnePeriodSuffices`, `TimerList.OnePeriodIsNotNecessary`), and for a lone timer it is both
  (`TimerList.MayStayDue`).
* With 32-bit counters UDP numbers repeat after 2^32 packets (`Udp.WideEnough`).
* A `\u` escape with a bad digit in its first group is read as code 0 instead of being refused (`Utf8.BadDigitIsNul`);
  with four digits there an escape is accepted exactly when it is one (`Utf8.AcceptedExactlyEscapes`). The two passes
  over a string may then disagree on where escapes begin, and the size computed by the first one is still enough
  (`JsonTwoPass.TwoPassesFit`).
* What the parser takes for JSON is wider than section 2 of RFC 8259: every byte up to 32 is white space, the NUL within a
  buffer included, control characters may stand in strings as they are, and a number is whatever strtod makes of up to 63
  characters. `JsonExact.TextParsesExactly` states the language that is accepted, `JsonStuck.TextFailsExactly` where all
  other texts are refused.
* JSON messages from 2^31 bytes on cannot be read: the count of bytes comes back as an int (`Wire.FrameRoundTrip`).

## Model

| member | source | states |
|---|---|---|
| `JsonPrint.PrintBuffer.Ensure` | src/cjson.c:450-533 | room for the bytes asked for and a terminating one; refused exactly when the buffer may not be replaced and is too short; bytes already written survive a reallocation |
| `JsonPrint.PrintBuffer.UpdateOffset` | src/cjson.c:536-546 | moves to the end of the text written last, wherever in it the offset stood |
| `JsonPrint.PrintBuffer.PrintLiteral` | src/cjson.c:1387-1413 | the literal and its NUL stand behind what was there; without reallocation it succeeds exactly when length leaves two bytes more than the text |
| `JsonPrint.PrintBuffer.PrintNumber` | src/cjson.c:556-623 | the decimal text of an integer, always short enough for the number buffer, and the same exact success condition |
| `JsonPrint.PrintBuffer.PutEscaped` | src/cjson.c:974-1023 | one byte becomes its escape of section 7 of RFC 8259, in place, without touching what stands before it |
| `JsonPrint.PrintBuffer.CountEscapes` | src/cjson.c:937-961 | the counting pass predicts the length of the copying pass exactly |
| `JsonPrint.PrintBuffer.CopyQuoted` | src/cjson.c:969-1029 | both branches, plain copy and escaping copy, produce the same quoted text and its NUL |
| `JsonPrint.PrintBuffer.PrintStringPtr` | src/cjson.c:913-1032 | the quoted text with its NUL, within the bytes that were requested |
| `JsonPrint.PrintBuffer.PrintArray` | src/cjson.c:1550-1609 | an array of any depth is written as the pure text of the array; depth is restored; the success condition is exact |
| `JsonPrint.PrintBuffer.PrintMember` | src/cjson.c:1761-1817 | indentation, key, colon, value and separator of one member, formatted or not |
| `JsonPrint.PrintBuffer.PrintMembers` | src/cjson.c:1755-1819 | all members in order; success exactly when two bytes beyond the text remain |
| `JsonPrint.PrintBuffer.PrintObject` | src/cjson.c:1725-1836 | an object is written as the pure text of the object, with the exact success condition |
| `JsonPrint.PrintBuffer.PrintValue` | src/cjson.c:1378-1449 | every tree is written as its pure text and a NUL; without reallocation success is equivalent to length >= text length + 2 at the current offset |
| `JsonPrint.Print` | src/cjson.c:1198-1271 | the returned block holds exactly the pure text and its NUL, and that text is laid out as JsonLayout.Laid says byte by byte: in formatted text each member and each closing brace on a line of its own behind as many tabs as containers are open, a tab behind each colon and a blank behind each comma of an array, and in unformatted text nothing between the tokens |
| `JsonPrint.PrintBuffered` | src/cjson.c:1273-1301 | for every starting capacity, 0 included, the text and its NUL, laid out in the same way; NULL exactly for a negative size |
| `JsonPrint.PrintPreallocated` | src/cjson.c:1303-1320 | succeeds if and only if the length is at least text length + 2, so the header's advice of five spare bytes is enough; then the text and its NUL stand in the buffer, laid out in the same way |
| `JsonLayout.RenderIsLaid` | src/cjson.c:1378-1836 | every printed value, formatted or not, at any depth, is laid out as a reference in literal bytes says; it names none of the functions that print |
| `JsonLayout.EscapeIsPrinted` | src/cjson.c:974-1023 | a byte between quotes is printed as it is, with its letter of section 7 of RFC 8259, or with two lower-case digits |
| `JsonTree.RenderNulFree` | src/cjson.c:1378-1449 | a printed text is never empty and holds no NUL, so strlen finds its end |
| `Utf8.DecodeInvertsEncode` | src/cjson.c:733-772 | section 3 of RFC 3629: the standard decoder gives every scalar value back, whatever follows |
| `Utf8.LiteralIsScalar` | src/cjson.c:663-731 | no accepted escape denotes a surrogate or anything above 0x10FFFF, and its bytes take at most half as many places as the escape |
| `Utf8.EscapeReadsBack` | src/cjson.c:663-781 | the escape that section 7 of RFC 8259 prescribes for a scalar value is read as that value, and its bytes decode to it |
| `Utf8.RefusedExactlyLoneSurrogates` | src/cjson.c:681-726 | whatever its characters, an escape is refused if and only if its first group counts as a surrogate without its partner |
| `Utf8.AcceptedExactlyEscapes` | src/cjson.c:626-731 | acceptance agrees with section 7 of RFC 8259, that is, an escape is accepted if and only if it is one of some scalar value, exactly when the four characters behind its u are hexadecimal digits |
| `Utf8.BadDigitIsNul` | src/cjson.c:654-730 | with a bad digit in the first group the escape is read as code 0, six characters long, which puts a NUL into the text |
| `Utf8.ParseHex4` | src/cjson.c:626-660 | four digits of either case give their value, and 0 where one of them is no digit |
| `Utf8.ReadCodepoint` | src/cjson.c:674-731 | the code point and length of an escape; the branch for code points above the range is dead |
| `Utf8.Utf16LiteralToUtf8` | src/cjson.c:663-781 | the output grows by exactly the UTF-8 bytes of the code point, and not at all for a malformed escape |
| `Utf8.EncodeInto` | src/cjson.c:733-772 | the loop from the last byte to the first writes the table's encoding |
| `JsonParse.ParseBuffer.SkipBlanks` | src/cjson.c:1049-1072 | stops at the first byte above 32, or at the last byte of the input |
| `JsonParse.ParseBuffer.FindEnd` | src/cjson.c:797-821 | finds the closing quote of the first pass and counts the escapes it skips |
| `JsonParse.ParseBuffer.UnescapeInto` | src/cjson.c:834-888 | the second pass writes what the pure decoder yields, inside the block that the first pass sized |
| `JsonParse.ParseBuffer.ReadString` | src/cjson.c:784-910 | offset, result and failure position of string parsing for every content |
| `JsonParse.ParseBuffer.ReadNumber` | src/cjson.c:316-390 | at most 63 characters go to strtod; offset advances by what it used; nothing used is a failure |
| `JsonParse.ParseBuffer.ReadScalar` | src/cjson.c:1323-1362 | null, false, true, strings and numbers: same value, same end and same failure position as in the grammar |
| `JsonNodes.ReadValue` | src/cjson.c:1323-1375 | the recursive descent builds new linked nodes, well linked all the way down, that hold exactly the value which the grammar reads; same end, same failure position, depth restored on success; it terminates for every input that ends in NUL |
| `JsonNodes.ReadElement` | src/cjson.c:1510-1517 | the white space around an element and its node, in no list yet |
| `JsonNodes.NextItem` | src/cjson.c:1478-1523 | one element of an array and whether a comma follows it, as in the grammar |
| `JsonNodes.ReadItems` | src/cjson.c:1478-1523 | the loop over array elements links exactly the elements that the grammar reads, in their order |
| `JsonNodes.FinishArray` | src/cjson.c:1470-1547 | the finished array: first prev at the last, last next NULL, the empty array included, and the depth one lower |
| `JsonNodes.ReadArray` | src/cjson.c:1452-1547 | arrays of any content, the nesting limit included |
| `JsonNodes.ReadKeyed` | src/cjson.c:1668-1693 | a key, its colon, and the value as a node that carries the key |
| `JsonNodes.ReadMembers` | src/cjson.c:1638-1700 | the loop over members links exactly the members that the grammar reads, in their order |
| `JsonNodes.FinishObject` | src/cjson.c:1630-1722 | the finished object, the empty one included |
| `JsonNodes.ReadObject` | src/cjson.c:1612-1722 | objects of any content, the nesting limit included |
| `JsonNodes.LinkKid` | src/cjson.c:1496-1508 | one finished node more behind the last child: all links, and what the nodes hold, stay right |
| `JsonNodes.CloseNode` | src/cjson.c:1526-1538 | the first child's prev becomes the last one, and the container holds its children |
| `JsonNodes.Parse` | src/cjson.c:1090-1184 | a whole C string: byte order mark, leading and trailing white space, stop position, and new nodes that hold the value; NULL exactly where the grammar fails, and a failure behind the last byte is reported at the last byte |
| `JsonNodes.NodeOfValue` | src/cjson.h:91-98 | the type of a node is the bit of its kind of value, and its fields are the value's |
| `JsonNodes.TreeShows` | src/cjson.c:1378-1449 | what the printer shows of such nodes is the value that was parsed, under any key |
| `JsonCopy.CopyThroughText` | src/cjson.c:1090-1271 | printing a tree of nodes and parsing the text gives nodes that show the same value and print the same text, formatted or not |
| `JsonGrammar.ParseValue` | src/cjson.c:1323-1375 | whatever is read ends behind its start and before the last byte of the input |
| `JsonTwoPass.TwoPassesFit` | src/cjson.c:797-888 | for every content, bad escapes included, the size from the first pass covers what the second pass writes and the NUL |
| `JsonTwoPass.UnescapeFits` | src/cjson.c:834-888 | the bound holds from every position of the second pass, wherever the first pass stopped nearby |
| `JsonRoundTrip.StringRoundTrip` | src/cjson.c:784-910 | a printed string is read back as the same bytes, up to its closing quote |
| `JsonRoundTrip.NumberRoundTrip` | src/cjson.c:316-390 | a printed integer of magnitude at most 2^53 is read back |
| `JsonRoundTrip.ReadsIntegersIsMet` | src/cjson.c:316-390 | a function that reads the decimal text of every such integer exactly exists, so what the round trips ask of strtod can be met |
| `JsonStrings.EncodeIsTheTable` | src/cjson.c:733-772 | the bytes of a code point are those of the table of section 3 of RFC 3629, and no others |
| `JsonStrings.FindClosingExactly` | src/cjson.c:797-821 | the first pass finds the first quote behind an even number of backslashes |
| `JsonStrings.StringParsesExactly` | src/cjson.c:784-910 | a quoted text is read as the string that its pieces spell, raw bytes, escapes of two letters and code points of one or two groups of digits, whatever the spelling; a group with a bad digit spells NUL, behind which nothing counts; and nothing else is read |
| `JsonStrings.NumberParsesExactly` | src/cjson.c:316-390 | a number is what strtod makes of the characters that may belong to one, at most 63 of them, and ends where strtod stopped |
| `JsonReading.LayoutRoundTrip` | src/cjson.c:1090-1184 | any text that shows a tree, with any white space between tokens, any spelling of its strings and any numbers that strtod reads, and maybe a byte order mark in front, is read as that tree to its end, if and only if containers nest no deeper than 1000; deeper ones are refused |
| `JsonExact.ValueParsesExactly` | src/cjson.c:1323-1722 | a value is read, with this end, if and only if the text shows it there, after a reference in literal bytes, and it nests no deeper than is left of the 1000 containers |
| `JsonExact.TextParsesExactly` | src/cjson.c:1090-1184 | a text is accepted, as this tree and up to this place, if and only if it is a JSON text with this value: the grammar of the parser is the reference, and lets nothing else pass |
| `JsonStuck.ValueFailsExactly` | src/cjson.c:1323-1722 | reading gives up at a place if and only if that is where no value can go on: at a byte that begins none, at a bad escape, at the missing comma, colon or bracket, or at the bracket of one container too many |
| `JsonStuck.TextFailsExactly` | src/cjson.c:1127-1184 | the position that is reported of a refused text |
| `JsonRoundTrip.RenderShows` | src/cjson.c:1378-1449 | the printed text of exactly representable numbers and C strings, formatted or not, shows the tree wherever it stands |
| `JsonRoundTrip.TextRoundTrip` | src/cjson.c:1090-1271 | parsing a printed tree gives the same tree and stops exactly at the end of the text, if and only if it nests no deeper than 1000 |
| `JsonRoundTrip.TextsDiffer` | src/cjson.c:1198-1271 | different trees print differently |
| `JsonCompare.Compare` | src/cjson.c:2997-3120 | the comparison, its loops over elements and both directions over members included, decides the relation that the following rows are about |
| `JsonCompare.SameArraysExactlyWhen` | src/cjson.c:3055-3077 | on all trees: arrays are the same if and only if they are so element by element and equally long |
| `JsonCompare.SameObjectsExactlyWhen` | src/cjson.c:3079-3114 | on all trees, repeated keys included: objects are the same if and only if each member of either one is the same as the first one of its name in the other |
| `JsonCompare.SameNameExactlyWhen` | src/cjson.c:144-164 | without regard to case two keys count as one if and only if they differ in nothing but letters that are 32 apart |
| `JsonCompare.SameIsEqual` | src/cjson.c:2997-3120 | on trees whose sibling keys are told apart and with integers below 2^52, comparison holds exactly for trees of equal meaning: arrays as sequences, objects as maps from their keys, or, if case does not count, from their keys in lower case |
| `JsonCompare.SameNameIsFolded` | src/cjson.c:144-164 | two keys count as one without regard to case exactly if they are equal in lower case |
| `JsonCompare.SameIsEquivalence` | src/cjson.c:2997-3120 | there it is an equivalence relation, with and without regard to case |
| `JsonCompare.FindMeans` | src/cjson.c:1891-1921 | looking a key up, with or without regard to case, finds exactly what the object maps it to |
| `JsonCompare.ToldApartExactlyWhen` | src/cjson.c:549-553 | an integer is told apart from every other one if and only if its magnitude is below 2^52 - 1 |
| `JsonCompare.TransitiveExactlyWhen` | src/cjson.c:549-553 | on integers of magnitude at most n comparison is transitive if and only if n is at most 2^52 |
| `JsonCompare.NotTransitive` | src/cjson.c:549-553 | three numbers, the largest one above 2^52, for which the comparison of the trees is not transitive |
| `JsonDuplicate.Duplicate` | src/cjson.c:2717-2798 | only new nodes, each well linked to its children with the first prev at the last, no node twice, and the returned one on top; with recursion the copy holds the same tree, so it prints the same text, formatted or not; without, the same node and no children |
| `JsonDuplicate.ShownAlone` | src/cjson.c:2717-2758 | what a copy without recursion shows: an empty container in place of a container, and any other value unchanged |
| `JsonDuplicate.CopyChildren` | src/cjson.c:2759-2783 | the loop copies the children in order and crosswires the copies |
| `JsonDuplicate.LinkCopy` | src/cjson.c:2766-2777 | the links after one more copy, the first one included |
| `JsonDuplicate.CloseList` | src/cjson.c:2785-2788 | the first copy's prev becomes the last copy, and nothing underneath changes |
| `ItemList.Item.constructor` | src/cjson.c:252-261 | a new node is in no list and has no children |
| `ItemList.Item.GetArrayItem` | src/cjson.c:1862-1879 | following next from the first child reaches the element of that index, or the end |
| `ItemList.Item.GetArraySize` | src/cjson.c:1839-1860 | the list is finite and its length is counted |
| `ItemList.Item.AddItemToArray` | src/cjson.c:1967-1998 | appends to the sequence of children; the list stays doubly linked with the first prev at the last |
| `ItemList.Item.DetachItemViaPointer` | src/cjson.c:2198-2232 | removes one element from the sequence and unlinks the node; the same links hold afterwards |
| `ItemList.Item.DetachItemFromArray` | src/cjson.c:2234-2242 | detaches the element of that index, or nothing |
| `ItemList.Item.InsertItemInArray` | src/cjson.c:2274-2301 | inserts at the index, or appends behind the end; negative indices are refused |
| `ItemList.Item.ReplaceItemViaPointer` | src/cjson.c:2303-2350 | replaces one element in the sequence, also the only, the first and the last one; the replaced node is unlinked |
| `ItemList.Item.ReplaceItemInArray` | src/cjson.c:2352-2360 | replaces the element of that index, or fails |
| `ItemList.InsertThenDetach` | src/cjson.c:2198-2301 | detaching takes back an insertion at the same place |
| `ItemList.ReplaceIsDetachThenInsert` | src/cjson.c:2198-2350 | replacing is detaching and inserting at the same place |
| `Wire.Connection.JsonWrite` | src/iperf_api.c:3075-3096 | the connection grows by four bytes of length in network order and the unformatted text; success is reported exactly for lengths below 2^31 |
| `Wire.Connection.JsonRead` | src/iperf_api.c:3100-3156 | takes length and text off the connection and parses the text into new linked nodes that hold what the frame says; every failure branch yields no tree: short reads, lengths that are not allowed, and lengths from 2^31 on, for which the count does not fit an int |
| `Wire.LengthInNetworkOrder` | src/iperf_api.c:3075-3096 | byte k of a frame is the length of its text divided by the power 3 - k of 256, modulo 256, and behind four such bytes stands the text |
| `Wire.FrameIsTaken` | src/iperf_api.c:3100-3156 | what the bytes on a connection are taken for, their length being the number that the first four denote, the most significant one first |
| `Wire.FrameRoundTrip` | src/iperf_api.c:3075-3156 | a written message is read back as the same tree and nothing behind it is touched, if and only if its text is no longer than allowed and shorter than 2^31 bytes; otherwise there is no tree |
| `Wire.MessagesInOrder` | src/iperf_api.c:3075-3156 | any sequence of messages shorter than 2^31 bytes each is read back one by one, in order |
| `Params.Test.GetParameters` | src/iperf_api.c:2645-2762 | the new state of every field and the mode, field by field, and the exact condition for success |
| `Params.Test.GetShape` | src/iperf_api.c:2694-2703 | streams and flags, and the mode that reverse and bidirectional lead to, in their order |
| `Params.Test.GetProtocol` | src/iperf_api.c:2662-2680 | the last protocol named wins, and UDP is not taken over a disk file |
| `Params.Test.Server` | src/iperf_api.c:3381-3440 | a fresh server has the default parameters and receives |
| `Params.NamesDiffer` | src/iperf_api.c:2541-2627 | no two keys of the parameters object are equal, even without regard to case |
| `Params.FindsSent` | src/iperf_api.c:2531-2642 | looking any key up in the object that the client builds gives what was put there, or nothing if it was left out |
| `Params.ParametersArrive` | src/iperf_api.c:2531-2762 | a fresh server ends up with the client's protocol, goals, streams, sizes, rates, texts and flags, and the complementary mode; a block size or pacing timer of 0 leaves the default |
| `ParamText.ParametersAreWritten` | src/iperf_api.c:2531-2642 | the text that the client writes, parameter by parameter: which keys in which order, what stands behind each, and when it is left out |
| `ParamReading.NumbersAreTaken` | src/iperf_api.c:2681-2762 | every number that is there is taken as it is, 0 and negative ones included, whatever the server had before |
| `ParamReading.FlagsSwitchOn` | src/iperf_api.c:2661-2762 | flags only switch something on; false does so too, and 0 where the flag is a count; and which protocol and mode they lead to |
| `ParamReading.TextsAreTaken` | src/iperf_api.c:2720-2740 | texts that are there replace those that were |
| `ParamReading.AnyValueIsTaken` | src/iperf_api.c:2645-2762 | the one key whose value is taken whatever its type |
| `ParamReading.OnlyTypedValuesCount` | src/iperf_api.c:2645-2762 | a value of a type that does not count for its key is as good as none |
| `ParamReading.NothingIsKept` | src/iperf_api.c:2645-2762 | an object without any of the keys leaves everything as it was but the two goals that are reset |
| `ParamReading.RefusedExactlyWhen` | src/iperf_api.c:2645-2762 | what a server refuses: a text of more than 8192 bytes, UDP over a disk file, a test that has no end or a later one than the cap |
| `ParamReading.DefaultsRemain` | src/iperf_api.c:3381-3440 | what a fresh server keeps where its client sends nothing: 131072 bytes, 1000 microseconds, port 0 |
| `Params.UnchangedExactlyWhen` | src/iperf_api.c:2531-2762 | all parameters arrive unchanged if and only if block size and pacing timer are not 0, the QUIC port is not negative and the three flags are 0 or 1 |
| `Params.ParametersCross` | src/iperf_api.c:2531-2762 | through print, frame, read and parse the server gets the object that was sent if its text has at most 8192 bytes, and refuses it otherwise |
| `Params.ParametersTaken` | src/iperf_api.c:2645-2762 | from the fields of the client through object, text, frame, read and parse to the fields of a fresh server and the complementary mode; nothing is taken exactly if the text has more than 8192 bytes, UDP meets a disk file, or the server has a cap and the test is longer or has no end |
| `Streams.AcceptOrderIsCreateOrder` | src/iperf_server_api.c:797-806 | the streams that the server takes on, receiving ones first, are the client's in the client's order and with the opposite direction |
| `Streams.PairedNumbers` | src/iperf_api.c:2976-2981 | paired sides have strictly increasing identifiers, and each finds the stream of every identifier that the other reports |
| `Streams.OppositeIsPaired` | src/iperf_api.c:5182-5207 | adding the planned streams on one side and their opposites on the other gives the same identifiers 1, 3, 4 and so on, with exactly one sender each |
| `Streams.PlanIsAsAsked` | src/iperf_client_api.c:107-160 | the client sends on all its streams, or with reverse receives on all, or with bidirectional has twice as many and sends on the first half |
| `ControlProofs.InitInv` | src/iperf_client_api.c:423-490 | the joint invariant holds before the first message |
| `ControlProofs.ClientLoopKeepsInv` | src/iperf_client_api.c:310-414 | every one-byte state that the client reads is legal for it, and the invariant survives the handler |
| `ControlProofs.CreateStreamKeepsInv` | src/iperf_client_api.c:107-160 | each connection that the client opens is the next stream of the plan |
| `ControlProofs.ClientResultsKeepsInv` | src/iperf_api.c:2509-2520 | where the client reads results, results come, and every identifier in them is known |
| `ControlProofs.ClientMovesKeepsInv` | src/iperf_client_api.c:310-577 | all moves of the client keep the invariant, the handshakes that may block in between included |
| `ControlProofs.ClientRunsKeepsInv` | src/iperf_client_api.c:717-806 | the end condition outside the omit period sends TEST_END and nothing else does |
| `ControlProofs.ServingKeepsInv` | src/iperf_server_api.c:247-325 | every one-byte state that the server reads is legal for it |
| `ControlProofs.ServerResultsKeepsInv` | src/iperf_api.c:2520-2527 | where the server reads results, results come, and every identifier in them is known |
| `ControlProofs.AcceptsNextStream` | src/iperf_server_api.c:861-965 | while streams are created, a connection of the client's becomes the next stream, with the right direction and number |
| `ControlProofs.ServerMovesKeepsInv` | src/iperf_server_api.c:160-325 | all moves of the server keep the invariant: cookie, parameters that it takes, states and results; the moves with refused parameters are those of ControlRuns.RefusedGivesUp |
| `ControlProofs.ServerStartsKeepsInv` | src/iperf_server_api.c:979-1036 | TEST_START goes out only when exactly the requested streams are attached |
| `ControlProofs.ServerAcceptsKeepsInv` | src/iperf_server_api.c:784-806 | a connection in any other state changes nothing |
| `ControlProofs.ActKeepsInv` | src/iperf_server_api.c:160-1082 | every step of every schedule keeps the joint invariant of both phases and both channels |
| `ControlTests.ClientTest.HandleMessage` | src/iperf_client_api.c:310-414 | the fields after each state byte, a byte in the wrong place and an unknown one included |
| `ControlTests.ClientTest.RunOnce` | src/iperf_client_api.c:717-808 | timers, goals and the omit period: when TEST_END goes out and what changes otherwise |
| `ControlTests.ServerTest.SetStreamsNumber` | src/iperf_server_api.c:796-806 | how many streams the server receives and sends on, in every mode |
| `ControlTests.ServerTest.AcceptOne` | src/iperf_server_api.c:784-965 | counters, direction and number of an accepted stream, and what becomes of any other connection |
| `ControlTests.ServerTest.HandleMessage` | src/iperf_server_api.c:247-350 | the fields after each state byte that the server reads, a termination by the client included |
| `ControlTests.Session.Step` | src/iperf_server_api.c:160-1082 | the tests, whose fields are updated in place, make exactly the steps that the invariant speaks about |
| `ControlTests.Session.Play` | src/iperf_client_api.c:310-812 | under any schedule the two tests keep the invariant and never fail, and where neither can move they have finished |
| `ControlRuns.ActDecreasesMeasure` | src/iperf_client_api.c:581-812 | every step uses up part of a measure of reads, writes, streams, connections and looks at the timers |
| `ControlRuns.StuckIsFinished` | src/iperf_server_api.c:687-1082 | where neither side can move both are at IPERF_DONE, both channels are empty and all messages were exchanged: there is no deadlock |
| `ControlRuns.RunKeepsInv` | src/iperf_server_api.c:160-1082 | over every run the invariant holds and the number of steps is bounded |
| `ControlRuns.RunsFinish` | src/iperf_server_api.c:604-1082 | with parameters that the server takes, and no stranger where the accept function can fail on one: no run reaches a failed process, every run is finite, and a run that cannot go on has ended well on both sides |
| `ControlRuns.TestEndOnce` | src/iperf_client_api.c:754-808 | TEST_END is sent at most once, and exactly once in a finished run; ControlHistory says when |
| `ControlRuns.StreamsPairedAtStart` | src/iperf_server_api.c:979-1012 | once TEST_START is out both sides hold the same identifiers 1, 3, 4 and so on, for each exactly one side sends, and number and directions are those that the user asked for |
| `ControlRuns.ClientFailsExactlyWhen` | src/iperf_client_api.c:310-414 | in every state, reachable or not: the client gives up on a message if and only if it is none of the eight states that it handles, or a result for a stream that it does not have |
| `ControlRuns.ServerFailsExactlyWhen` | src/iperf_server_api.c:160-350 | in every state: the server gives up on a message if and only if it is not what is expected there: a cookie, parameters that it takes, one of four states, results for streams that it has |
| `ControlRuns.ConnectionExactly` | src/iperf_server_api.c:784-965 | in every state: what a connection at the listener changes, and that it changes nothing where no streams are created or all are there |
| `ControlHistory.TestEndExactlyWhen` | src/iperf_client_api.c:288-300 | told by what has happened and by none of the client's fields: behind the step that reads TEST_START a turn of the loop sends TEST_END if and only if the omit timer has fired, should there be an omit period, and a goal is met or the test's timer has fired; over every run, strangers that do harm included |
| `ControlHistory.OmitPeriodHolds` | src/iperf_client_api.c:754-808 | with an omit period TEST_END is not sent before the omit timer has fired |
| `ControlHistory.NotBeforeStart` | src/iperf_client_api.c:717-808 | unless TEST_START is read TEST_END is not sent at all |
| `ControlRuns.RefusedGivesUp` | src/iperf_api.c:2440-2455 | with parameters that the server does not take every run is finite, no stream is created, and a run that cannot go on has sent SERVER_ERROR and ended in failure on both sides |
| `ControlRuns.HarmBreaksTest` | src/iperf_tcp.c:155-170 | a run to failure: parameters that are refused, or somebody else's connection, which makes a server with a TOS value for TCP or SCTP set an option on a closed socket and give up |
| `ControlRuns.FailsExactlyWhenHarmed` | src/iperf_api.c:5081-5112 | a run can fail if and only if the parameters are refused, or there is a TOS value for TCP or SCTP, whose accept functions return the closed socket, a stream to create, and somebody else who connects |
| `ControlBytes.TakesWhole` | src/iperf_api.c:3075-3156 | whatever bytes follow, a read of the right kind takes one message, cookie, state byte, frame or error numbers, all of it and nothing more |
| `ControlBytes.WriteAppends` | src/iperf_api.c:2132-2142 | a written message stands in the stream of bytes behind those that are not yet read |
| `ControlBytes.ReadTakes` | src/iperf_api.c:2132-2142 | a read of the right kind moves from the bytes of one message to those of the next |
| `ControlBytes.ClientTakesNext` | src/iperf_client_api.c:310-414 | at every place where the client reads, with parameters that are taken or refused, the bytes that it takes are exactly the server's next message |
| `ControlBytes.ServerTakesNext` | src/iperf_server_api.c:160-325 | at every place where the server reads, cookie and parameters included, the bytes that it takes are exactly the client's next message |
| `ControlBytes.BytesStayInStep` | src/iperf_api.c:2440-2531 | over every run and schedule both processes keep their place in the two streams of bytes, on which states, frames and error numbers follow each other without any marks between them |
| `ControlBytes.BytesOfFinished` | src/iperf_api.h:119-137 | all bytes that a finished test has put on the connection in both directions, with the values of the states in between |
| `ControlBytes.BytesOfRefused` | src/iperf_api.c:2440-2455 | all bytes of a server that refuses the parameters |
| `ParamRuns.GetParamsReadsBytes` | src/iperf_api.c:2440-2443 | the server's step on the parameters is what get_parameters does with the bytes that the client wrote: the same refusal, number of streams and mode, and a TOS value for TCP or SCTP or none |
| `ParamRuns.TestFailsExactlyWhen` | src/iperf_api.c:2440-2455 | in terms of the client's parameters and the bytes that carry them: a run can fail if and only if the server does not take them, or what it takes has a TOS value for TCP or SCTP and a stream to create and somebody else connects; over UDP and QUIC a stranger does no harm |
| `Times.AddIsExact` | src/iperf_time.c:91-99 | adding microseconds is exact up to the wrap-around of 32-bit seconds |
| `Times.AddBeforeHorizon` | src/iperf_time.c:91-99 | before the wrap-around it is plain addition |
| `Times.CompareOrders` | src/iperf_time.c:120-132 | comparing seconds, then microseconds, compares the microseconds since the start of the clock |
| `Times.Diff` | src/iperf_time.c:142-174 | the exact distance of two timestamps, and whether the first is not after the second |
| `Timers.Unlink` | src/timer.c:99-108 | the links of the remaining list, for the first, the last, the only and any other element |
| `Timers.Link` | src/timer.c:60-96 | the links of the extended list, for both ends and the middle |
| `Timers.TimerQueue.ListRemove` | src/timer.c:99-108 | takes one timer out of the active list and leaves everything else in place |
| `Timers.TimerQueue.FindPlace` | src/timer.c:71-90 | the walk stops behind everything that is not due later |
| `Timers.TimerQueue.ListAdd` | src/timer.c:60-96 | the active list stays sorted, well linked and disjoint from the free list |
| `Timers.TimerQueue.Create` | src/timer.c:121-150 | a timer from the free list or a new one, at its sorted place, with its deadline |
| `Timers.TimerQueue.Timeout` | src/timer.c:153-173 | none without timers; otherwise the least of all remaining times, in exact microseconds |
| `Timers.TimerQueue.Run` | src/timer.c:176-199 | terminates with positive periods; the timers fired, the list left behind and the free list are those of the specified walk |
| `Timers.TimerQueue.FireOne` | src/timer.c:191-197 | a periodic timer moves by its period to its sorted place, a one-shot goes to the free list |
| `Timers.TimerQueue.Reset` | src/timer.c:202-211 | the timer's deadline is counted from now and the list is sorted again |
| `Timers.TimerQueue.Cancel` | src/timer.c:214-223 | the timer moves from the active list to the front of the free list |
| `Timers.DistinctView` | src/timer.c:176-199 | a well linked queue has one entry per timer, as the statements about the walk require |
| `TimerList.FirstInFirstOut` | src/timer.c:78-94 | among equal deadlines the newer timer waits behind the older ones, and no other deadline is disturbed |
| `TimerList.InsertSorted` | src/timer.c:60-96 | adding keeps the deadlines in order |
| `TimerList.WalkInOrder` | src/timer.c:176-199 | only due timers fire, in non-decreasing order of the deadlines they meet, and the list stays sorted |
| `TimerList.WalkFiresAllDue` | src/timer.c:176-199 | every timer that is due at entry fires with the deadline it has |
| `TimerList.WalkAccounts` | src/timer.c:192-197 | a periodic timer has moved by exactly its period per firing; a one-shot fired at most once and is gone exactly if it fired; no other timer changes |
| `TimerList.FireDrops` | src/timer.c:192-197 | each firing makes up for part of the lag, which is why the walk ends |
| `TimerList.FireKeepsOrder` | src/timer.c:185-197 | the neighbour noted before a callback is where the walk goes on, and nothing behind it is skipped |
| `TimerList.NothingDueExactlyWhen` | src/timer.c:184-197 | a run leaves nothing due if and only if no timer comes twice in a row in the schedule of all firings up to now; then it has fired exactly that schedule |
| `TimerList.OnePeriodSuffices` | src/timer.c:184-197 | on any sorted list: if no due periodic timer is a whole period late, nothing is due afterwards |
| `TimerList.OnePeriodIsNotNecessary` | src/timer.c:184-197 | a list with a timer that is a whole period late, after which nothing is due all the same |
| `TimerList.MayStayDue` | src/timer.c:184-190 | a lone overdue periodic timer fires once, and something stays due exactly if one period does not take it past the clock |
| `Udp.Receiver.Receive` | src/iperf_udp.c:138-169 | the three counters are those of the whole arrival sequence |
| `Udp.Receiver.Report` | src/iperf_udp.c:131-169 | the three counters that are read off: the highest number; a loss between the missing numbers less the surplus arrivals and the missing numbers, exact without duplicates; and the number of late arrivals |
| `Udp.LossBounds` | src/iperf_udp.c:138-169 | for every arrival sequence: missing minus surplus <= loss count <= missing |
| `Udp.LossExactly` | src/iperf_udp.c:138-169 | for every arrival sequence, duplicates and all, the loss count is how far the lead of the highest number over the number of arrivals has risen above its lowest point |
| `Udp.OutOfOrderExactly` | src/iperf_udp.c:155 | the out-of-order count is the number of arrivals that were no higher than all before them |
| `Udp.OrderDoesNotMatter` | src/iperf_udp.c:138-169 | without duplicates the loss count is the number of missing packets, in whatever order the others came |
| `Udp.MissingCount` | src/iperf_udp.c:131-137 | what is missing below the highest number is that number less the distinct arrivals |
| `Udp.Sender.Send` | src/iperf_udp.c:219-259 | successful sends are numbered one after the other, and a failed one gives its number back |
| `Udp.WideEnough` | src/iperf_udp.c:221-247 | the numbers on the wire are 1 to n if and only if counters have 64 bits or fewer than 2^32 packets go out |
| `Udp.EndToEnd` | src/iperf_udp.c:138-259 | whatever the network drops, reorders or repeats: loss and distinct arrivals add up to at most the highest number seen, which is at most the number sent; without duplicates they add up exactly |
| `QuicReceive.Stream.Receive` | src/iperf_quic.c:302-331 | the bytes of one buffer are appended to what was handed over |
| `QuicReceive.Stream.Recv` | src/iperf_quic.c:1037-1057 | a read returns min(blksize, queued) bytes, the next ones in order, and the byte count stays exact; delivered and queued bytes together are always the bytes handed over |
| `QuicReceive.Stream.CopyChunk` | src/iperf_quic.c:1041-1056 | one turn copies from the first chunk and frees it once read, zero-length chunks included, so that the loop ends |
| `QuicReceive.FlatCut` | src/iperf_quic.c:1046-1050 | taking bytes off the first chunk takes them off the front of the stream |
| `QuicSend.SendGate.Pass` | src/iperf_quic.c:956-974 | a send passes exactly when fewer than 32 are pending and neither stream nor test is over, which is the step of the state machine below |
| `QuicSend.SendGate.Complete` | src/iperf_quic.c:292-300 | a completion gives one place back |
| `QuicSend.CounterIsExact` | src/iperf_quic.c:292-991 | over every interleaving the transport never holds more than 32 blocks, at most one send is rejected, the counter is the number of blocks on their way or held if and only if none was rejected, and the gate opens exactly below 32 |
| `QuicSend.ThirtyTwoFit` | src/iperf_quic.c:956-974 | all 32 places can be taken, and then the next send waits |
| `QuicSend.RejectedIsLast` | src/iperf_quic.c:982-991 | behind a rejected send the stream only sees completions, and its counter ends at 1 |
| `QuicAccept.QuicContext.AcceptEnq` | src/iperf_quic.c:236-254 | a new stream goes to the end of the accept queue |
| `QuicAccept.QuicContext.Accept` | src/iperf_quic.c:742-775 | streams are accepted first come first served, with identifiers in strictly increasing order |
| `QuicAccept.QuicContext.MapAdd` | src/iperf_quic.c:196-209 | the next identifier is mapped to the stream |
| `QuicAccept.QuicContext.Attach` | src/iperf_quic.c:902-919 | an identifier yields its stream exactly once |
| `QuicAccept.QuicContext.OneOwner` | src/iperf_quic.c:196-276 | every stream is owned by exactly one of the accept queue, the map and the stream it is attached to |
| `Pacing.Sender.CheckThrottle` | src/iperf_api.c:2145-2217 | the light is green exactly when the average is below the rate, or above it and the sleep completed; green leaves at most one bit and one microsecond of the rate ahead, and the clock moves on by just the computed sleep |
| `Pacing.GreenByRate` | src/iperf_api.c:2164-2174 | the average over the clock's readings being below the rate bounds the bits sent by the true time |
| `Pacing.GreenBySleep` | src/iperf_api.c:2178-2198 | sleeping as long as was computed catches up, rounding included |
| `Pacing.BehindIsGreen` | src/iperf_api.c:2164-2174 | a sender that lags behind its rate by a microsecond of it gets a green light at once |
| `Pacing.AheadIsRed` | src/iperf_api.c:2164-2174 | a sender that is ahead by a microsecond, and by a bit in every second, has to wait |
| `Pacing.SleepIsNoLonger` | src/iperf_api.c:2178-2198 | the computed sleep ends no later than the rate has caught up with the bits |
| `Pacing.AheadOfRate` | src/iperf_api.c:2178-2183 | ahead of the rate the time to sleep is never negative |
| `Pacing.Sender.SendBlocks` | src/iperf_api.c:2294-2316 | exactly which blocks go out: as many as the burst allows, up to the end of the results or the first send that fails; their bytes are added up, and a hard error is reported if and only if it was one |
| `Pacing.Sender.SendMt` | src/iperf_api.c:2260-2327 | over every sequence of sends, checks and sleeps: bits sent <= rate * elapsed + one burst + one bit + one microsecond of the rate; under a green light exactly the blocks of SendBlocks go out, without one none, and the light afterwards is that of the check unless a hard error came first |

## Left out

- JsonPrint works on trees as values; JsonDuplicate.Shown says which value linked nodes have for it.
- JsonNodes: a child is linked when it is finished, and its container's child field is set at once; the program links it
  empty and sets that field at the end. Nobody looks in between, but a partly built tree, and the freeing of one
  when parsing fails, are not covered.
- ControlBytes: the results are any objects of C strings and integers up to 2^53 that fit a frame, and a message is
  written in one step; the reads that wait for the rest of a message are the loop of Nread, which is not modelled.
- Numbers are what strtod, a parameter, makes of them, cut to int64; their floating-point values are not modelled, nor
  is the decimal point of the locale. The round trips ask that strtod be exact on the decimal texts of integers up to 2^53.
- Allocation failure, sizes near the end of the address space (SIZE_MAX, INT_MAX), allocation hooks and memory being freed.
- NULL strings and keys, raw nodes, reference nodes and the global error position of cJSON; cJSON_Minify, which does not
  preserve meaning in general.
- JsonCompare.Compare: comparing a node with itself returns true at once in the program; on values this shows only for
  trees with repeated sibling keys, which the theorems exclude.
- ItemList.Item.AddItemToArray: requires an item that is in no list, as its callers promise; the program does not check it.
- Control: `budget` bounds how often the client looks at its timers before both have fired; that they fire is what the
  timer queue is for.
- JsonDuplicate.Duplicate: takes a tree in which no node occurs twice; the reference flag, which a copy clears, and the
  sharing of constant keys are not modelled.
- ParamRuns.TestFailsExactlyWhen: takes a number of streams that is not negative and a parameters text below 2^32 bytes.
- Control: the CPU affinity that a client asks for and a congestion algorithm that the server lacks, with which the
  server's system calls may fail.
- Control: socket faults, signals, server and idle timeouts, authentication, the UDP connect handshake, the QUIC one-off
  exit, the total-rate limit and clients that connect to an idle server; a process that meets an error is `Failed`.
- Control: the TOS failure is that of the accept functions of TCP and SCTP; a stranger whose connection sends no cookie blocks the
  server in a read with a timeout, which is not part of this model.
- Timers.TimerQueue.Run: callbacks leave the queue alone; the omit-timer callbacks reset the statistics timers, which may
  end the walk early.
- Timers.TimerQueue.Run: the clock must not reach the wrap-around of its 32-bit seconds within one period, 136 years after
  its start.
- Params: server authentication, file mode beyond the UDP refusal, and availability of SCTP, QUIC and MPTCP in a build;
  integer fields are unbounded.
- Params.Test.GetParameters: what it reports in JSON output and the retransmission flag are not modelled.
- Udp: jitter, which is floating point smoothing, byte counters, and packets that arrive outside TEST_RUNNING, which the
  program does not count.
- Pacing: double arithmetic is exact; a quotient by zero converts to the largest magnitude, as on the usual hardware; the
  pacing timer of systems without nanosleep, the unlimited rate 0 and the check that a finished test skips are not modelled.
- Pacing.Sender.SendMt: the bound has one microsecond of the rate where one nanosecond would do for an exact clock,
  because both readings of the clock drop nanoseconds.
- QUIC: calls into the transport, certificates, notification pipe, thread cancellation and waiting on condition variables;
  a method stands for the critical section once it no longer waits.
- Reports, text output, argument parsing, units, DSCP names, TCP_INFO, per-interval statistics and the rate window.
