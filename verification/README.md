# Verification of the xiaozhi client's JSON codec, queues and runtime

The client speaks JSON over a websocket. Every hello, listen, abort and OTA message
passes through the vendored codec `src/cJSON.c`; audio passes through a slab ring, two
outgoing queues and an optional dump file; a session automaton and an event loop decide
what is sent when. This project models those parts in Dafny, in the form the source gives
them: cursors, in-place buffers, linked nodes, flags and loops are classes and methods
that change state, each proved against a function or a predicate, and what the source
promises is proved about those functions for all inputs, runs and failures.

How the modules fit together:

- `Bytes`, `Options`, `Lists` are shared vocabulary. `At`, `BlankAt` and a few other
  predicates are quantifiers that are looked up with a marker (`Here`), so that proofs
  which only pass them on stay cheap.
- `Utf8`, `StringCodec`, `NumberCodec` are the token level: two-pass string decoding,
  escaping, UTF-16 and UTF-8, `%d` and an exact decimal reader in place of `strtod`.
- `Json` holds the JSON values, the rendering of both printers and the grammar that
  `parse_value` accepts, step-backs and end-of-buffer quirk included. `ConcreteSyntax`
  and `Acceptance` describe every way to write a value, with any blanks and spellings,
  and prove when the grammar reads it; `Exactness` proves that nothing else is read,
  `RoundTrip` that renderings are among the texts, and `Formatting` what they look like.
- `Heap` has the nodes, an allocator that may refuse any request, ownership and
  `cJSON_Delete`; `Construction` has a sibling list while it is being built; `Parser` is
  the imperative parser, `View` and `Printer` the imperative printer, `Duplication`,
  `Siblings`, `Trees` and `Comparison` the tree operations; `EndToEnd` composes them.
- `AudioRing`, `OpusDump` and `Fragments` are the client's byte stores; `Outgoing` is the
  step system of its outgoing queues, `Delivery` what its runs achieve, and `ClientQueues`
  the queues in memory; `Runtime` is the event loop, `Conversation` what its runs achieve,
  and `Preemption` the capture thread inside its handlers.

`Shape` (in `Heap`) is the ghost description of a tree of nodes: `Holds` says that the
heap agrees with it as far as the tree owns it, `Shows` that a reader sees it, `Owned`
is what deleting it frees and `Apart` that nothing is owned twice. The allocator's `live`
is what has been allocated and not freed, `Free` requires membership in it, and
`denials` counts refused requests; so contracts of the form "succeeds if and only if ...
and `denials` did not grow" cover every pattern of allocation failures.

## Model

| member | source | states |
|---|---|---|
| Utf8.ParseHex4 | src/cJSON.c:666-699 | the accumulating loop computes the value of four hex digits of either case, and 0 for anything else |
| Utf8.DigitsArePlaces | src/cJSON.c:666-699 | the value of a hex digit is its place among the sixteen digits, of either case, and nothing else has one |
| Utf8.EncodeInto | src/cJSON.c:769-815 | the back-to-front loop writes exactly the RFC 3629 encoding and leaves what is in front of it alone |
| Utf8.EncodeIsReadBack | src/cJSON.c:769-815 | an independent UTF-8 reader recovers every scalar value from its encoding |
| Utf8.ContinuationBits | src/cJSON.c:802-803 | the or, and, shift form of the source is the arithmetic form used here |
| Utf8.LeadBits | src/cJSON.c:805-813 | the same for lead bytes, whose mark lies above the payload |
| Utf8.CombineBits | src/cJSON.c:758 | the bit form of combining a surrogate pair is the arithmetic form |
| Utf8.CombineIsPairDecoding | src/cJSON.c:728-759 | combining the low ten bits is the pair decoding of section 2.2 of RFC 2781 |
| Utf8.CombineInvertsSurrogates | src/cJSON.c:728-759 | every scalar value above 0xFFFF comes back from its surrogate pair |
| StringCodec.UnescapeFits | src/cJSON.c:837-928 | at every point of the second pass, in or out of step with the first, the remaining output fits what the first pass counted |
| StringCodec.UnescapeIsSized | src/cJSON.c:837-928 | for every byte input, decoded bytes plus skipped pairs never exceed the literal: the allocation suffices |
| StringCodec.StepKeepsRoom | src/cJSON.c:872-925 | one decode step passes at most as many counted pairs as its input bytes pay for, even after the passes lost alignment |
| StringCodec.PassesCanLoseStep | src/cJSON.c:841-925 | a concrete literal on which the passes do lose alignment, and the closing quote itself is decoded |
| StringCodec.LiteralIsRead | src/cJSON.c:824-936 | every literal of section 7 of RFC 8259 (plain bytes, the eight short escapes, \u escapes of any four digits), wherever it stands, is read as the concatenated UTF-8 of its meaning, which a table of its own gives for the short escapes and for digits, and rejected if and only if one of its surrogates is alone |
| StringCodec.ShortsAreEscapes | src/cJSON.c:886-908 | the decoder accepts exactly the eight letters of that table, each with its character |
| StringCodec.HexValuesAreDigits | src/cJSON.c:666-699 | and exactly the hex digits, each with its value |
| StringCodec.MeaningNeedsPairs | src/cJSON.c:713-754 | escapes denote bytes exactly when each high surrogate is followed by a low one and each low one preceded by a high one |
| StringCodec.LoneSurrogateFails | src/cJSON.c:713-754 | after any units, a surrogate without its partner makes the whole literal fail, whatever else is in it |
| StringCodec.UnescapedIsUnits | src/cJSON.c:870-928 | conversely, whatever the second pass decodes is spelled as units that mean it, out of step included |
| StringCodec.EscapeLength | src/cJSON.c:974-1005 | the counting loop predicts exactly the bytes that escaping adds, and none added means the text is copied as it is |
| StringCodec.EscapeIsALiteral | src/cJSON.c:1018-1067 | escaping any bytes spells a literal whose meaning is those bytes |
| StringCodec.EscapeIsShortest | src/cJSON.c:1018-1067 | of all the ways that the strict grammar has to write a byte, the printer takes a shortest one, so nothing is escaped that need not be |
| StringCodec.QuoteIsReadBack | src/cJSON.c:954-1073 | string inverse: reading a printed string gives the bytes back with the cursor just past the closing quote |
| NumberCodec.DecimalIsReadBack | src/cJSON.c:617-620 | the digits of `%d` denote the number |
| NumberCodec.DecimalIsPositional | src/cJSON.c:617-620 | each of its characters is the digit of its place |
| NumberCodec.DecimalIsCanonical | src/cJSON.c:617-620 | and there are no leading zeros |
| NumberCodec.FormatIntIsShort | src/cJSON.c:604-640 | an int prints in at most 11 bytes, so the 26-byte buffer check never fails |
| NumberCodec.FormatIntIsReadBack | src/cJSON.c:307-407 | number inverse: strtod reads the whole of a `%d` text, and reads its value |
| NumberCodec.NumeralIsRead | src/cJSON.c:307-407 | strtod reads the whole of every numeral of section 6 of RFC 8259, and of those with digits on one side of the point only, and reads what it denotes: all its digits as one integer, times a power of ten |
| NumberCodec.ReadIsANumeral | src/cJSON.c:307-407 | conversely, whatever strtod reads is such a numeral, read as what it denotes |
| NumberCodec.ReadIsLongest | src/cJSON.c:307-407 | and it is the longest numeral that the text begins with |
| NumberCodec.ANumeralIsRead | src/cJSON.c:307-407 | for instance -1.5e2 |
| NumberCodec.IntIsKept | src/cJSON.c:390-400 | valueint of an int is that int |
| NumberCodec.IntIsTowardZero | src/cJSON.c:390-400 | between the ends of the int range valueint goes toward zero by less than one, and at the ends and outside it saturates |
| NumberCodec.IntRangeIsInts | src/cJSON.c:604-620 | the numbers printed with `%d` are exactly the ints |
| NumberCodec.PointMoves | src/cJSON.c:354-366 | the value strtod assembles from whole part, fraction and exponent is that independent meaning |
| NumberCodec.NumberRunIs | src/cJSON.c:324-352 | the run of number characters is exactly a delimited number text |
| Json.ValueAt | src/cJSON.c:1368-1420 | the grammar of values terminates on every buffer; a success moves the cursor strictly forward and stays inside |
| Json.ItemsAfter | src/cJSON.c:1535-1573 | the element loop as a grammar, from the byte in front of each element; strictly forward and inside |
| Json.MembersAfter | src/cJSON.c:1699-1757 | the member loop as a grammar |
| Json.SkipWs | src/cJSON.c:1090-1113 | skipping stays inside the buffer, never reaches its end from inside, and stops on a byte above 32 or on the last byte |
| Json.RenderIsNulFree | src/cJSON.c:1423-1494 | the text of a printable value has no NUL, so strlen measures it whole |
| Json.WordsAreSpelled | src/cJSON.c:1376-1397 | null, false and true are the same words for the printer and the parser |
| Bytes.CharactersAreNamed | src/cJSON.c:1398-1415 | and the bytes that both look for are the characters that they are named for |
| Formatting.FormattedIsIndented | src/cJSON.c:1595-1896 | the formatted text is what a pen makes of the unformatted one that knows only literals, brackets, commas and colons: a member begins a line behind one tab for each open bracket, a tab follows its colon, a space the comma of an element, and a closing brace stands on its own line; on its way the pen has as many brackets open at once as the value is nested |
| Formatting.SqueezedIsUnformatted | src/cJSON.c:1595-1896 | without the bytes up to 32 outside string literals, the formatted text is the unformatted one, which has none |
| ConcreteSyntax.PlacedIsRead | src/cJSON.c:1368-1420 | wherever the tokens of a text stand where the loops look for them, the grammar reads exactly its value, up to the nesting limit and unless a surrogate is alone |
| ConcreteSyntax.ItemsAreRead | src/cJSON.c:1535-1573 | the same for any list of elements |
| ConcreteSyntax.EntriesAreRead | src/cJSON.c:1699-1757 | the same for any list of members |
| Acceptance.TextIsPlaced | src/cJSON.c:1090-1113 | any blanks up to 32 between tokens bring the cursor to the next token |
| Acceptance.TextIsRead | src/cJSON.c:1497-1505 | every well-formed text of RFC 8259, with any blanks and any spelling of its strings and numbers, is accepted as its value if and only if it is nested at most 1000 deep and no surrogate stands alone in its strings; a string is cut at its first decoded NUL |
| Acceptance.DocumentIsRead | src/cJSON.c:1116-1224 | the same for a whole buffer with blanks around the text, with a terminator or without, behind a byte order mark or none, and with or without require_null_terminated: the exact condition for acceptance, and where reading ends |
| Exactness.AcceptedIsPlaced | src/cJSON.c:1368-1420 | the converse: whatever is accepted is a text whose separators stand where the loops look for them and whose tokens are read as they are |
| Exactness.AcceptedExactly | src/cJSON.c:1368-1777 | both directions: a value is accepted from an offset if and only if such a text of that value stands there within the nesting limit |
| Exactness.StringIsUnits | src/cJSON.c:824-936 | every string accepted, in step or out of step, is units between quotes and denotes their meaning up to its first NUL |
| Exactness.NumberIsANumeral | src/cJSON.c:307-407 | every number accepted is a decimal literal and has the value it denotes |
| RoundTrip.RenderIsWritten | src/cJSON.c:1423-1494 | both renderings of a printable value are written texts of it, of exactly the rendered length |
| RoundTrip.LayoutMeans | src/cJSON.c:1595-1896 | the syntax tree of a rendering has the printed value, order and duplicate keys kept |
| RoundTrip.PrintIsReadBack | src/cJSON.c:1147-1224 | print/parse inverse: the printed C string parses to the very value printed, if and only if it is nested at most 1000 deep |
| RoundTrip.RenderIsInjective | src/cJSON.c:1307-1315 | distinct printable values have distinct texts |
| Heap.Delete | src/cJSON.c:253-276 | walking a sibling chain frees exactly what its trees own, each object once, and spares what references borrow |
| Heap.DeleteItem | src/cJSON.c:259-274 | the same for one node, its flags deciding what it owns |
| Heap.OwnedIsMet | src/cJSON.c:259-274 | what a tree owns is the nodes, names and strings met on a walk that does not enter what is borrowed, without constant names |
| Construction.Append | src/cJSON.c:1547-1558 | linking a node behind the last one keeps a half-built list well linked |
| Construction.Close | src/cJSON.c:1578-1580 | setting head.prev turns the half-built list into a complete sibling list in source order |
| Construction.Abandon | src/cJSON.c:1589-1593 | the fail label frees exactly what has been built |
| Construction.BackIsChained | src/cJSON.c:1535-1580 | the list built back to front is the chain read front to back |
| Construction.Discard | src/cJSON.c:2866-2870 | a node with some children in place is deleted without leaving any of them |
| Construction.LinkChild | src/cJSON.c:2842-2858 | linking a copied or created child behind the others keeps the half-built list well linked under its parent |
| Parser.StepHasRoom | src/cJSON.c:872-925 | each decode step has room to write before it writes |
| Parser.ParseBuffer.SkipWhitespace | src/cJSON.c:1090-1113 | the loop with its step back computes SkipWs |
| Parser.ParseBuffer.SkipUtf8Bom | src/cJSON.c:1116-1129 | a byte order mark is skipped only with more than four bytes in the buffer |
| Parser.ParseBuffer.Utf16LiteralToUtf8 | src/cJSON.c:703-821 | writes the encoding of the literal and reports its length, or reports failure and leaves what was written before alone |
| Parser.ParseBuffer.FindClosingQuote | src/cJSON.c:841-859 | the first pass finds the closing quote and counts the escape pairs |
| Parser.ParseBuffer.Decode | src/cJSON.c:870-928 | the second pass never leaves the allocated buffer or the input and computes Unescape, terminator included |
| Parser.ParseBuffer.ParseNumber | src/cJSON.c:307-407 | reads a number token with saturation; the temporary copy is freed on every path |
| Parser.ParseBuffer.ParseString | src/cJSON.c:824-951 | succeeds exactly when the literal is valid and memory is granted, with a fresh C string; a failure changes neither the node nor what is live |
| Parser.ParseBuffer.ParseValue | src/cJSON.c:1368-1420 | succeeds exactly when the grammar does and memory is granted, restores depth, fills the node with a tree of that value made of new objects only; a failure frees all it allocated |
| Parser.ParseBuffer.ParseNextItem | src/cJSON.c:1538-1571 | one turn of the element loop keeps the list well linked, and a failure deletes all of it |
| Parser.ParseBuffer.ParseItems | src/cJSON.c:1535-1593 | the element loop refines the recursive grammar and conserves the heap |
| Parser.ParseBuffer.ParseArray | src/cJSON.c:1497-1593 | arrays: grammar, depth, ownership and head.prev = tail |
| Parser.ParseBuffer.ParseName | src/cJSON.c:1722-1746 | key, swap of string and valuestring, and colon; the node stays describable on every path |
| Parser.ParseBuffer.ParseNextMember | src/cJSON.c:1702-1755 | one turn of the member loop |
| Parser.ParseBuffer.ParseMembers | src/cJSON.c:1699-1777 | the member loop refines the recursive grammar and conserves the heap |
| Parser.ParseBuffer.ParseObject | src/cJSON.c:1662-1777 | objects: grammar, depth, ownership and head.prev = tail |
| Parser.ParseWithLengthOpts | src/cJSON.c:1147-1224 | a tree is returned if and only if the grammar accepts the buffer and no allocation is refused; then exactly its objects are newly live, otherwise nothing is; the error position lies inside the buffer |
| Parser.ParseWithOpts | src/cJSON.c:1131-1144 | the same for a C string, terminator included in the buffer |
| View.HeldIsShown | src/cJSON.c:1423-1494 | what the parser returns can be read by the printer and the comparison |
| Printer.PrintBuffer.Grow | src/cJSON.c:537-573 | realloc or manual copy, the prefix already written survives and exactly the old buffer is replaced |
| Printer.PrintBuffer.Ensure | src/cJSON.c:490-573 | succeeds if and only if offset + needed + 1 fits the cap and memory is granted; keeps the prefix, and doubles the request or stops at INT_MAX |
| Printer.SizedAfterGrowth | src/cJSON.c:519-535 | each growth at least doubles the length, so the largest request bounds their number |
| Printer.PrintBuffer.UpdateOffset | src/cJSON.c:576-586 | strlen from the old offset finds the end of the value just printed |
| Printer.PrintBuffer.PrintLiteral | src/cJSON.c:1434-1459 | null, true and false |
| Printer.PrintBuffer.PrintNumber | src/cJSON.c:596-663 | an int-range number is appended as its `%d` text with the exact request size |
| Printer.PrintBuffer.CountEscapes | src/cJSON.c:980-1004 | the counting loop computes ExtraTotal |
| Printer.PrintBuffer.WriteEscaped | src/cJSON.c:1026-1067 | the escaping loop writes exactly Escape, inside the buffer |
| Printer.PrintBuffer.PrintStringPtr | src/cJSON.c:954-1073 | both paths append Quote, null pointers the empty string, with the exact request size |
| Printer.PrintBuffer.PrintValue | src/cJSON.c:1423-1494 | appends exactly the rendering, terminated; succeeds if and only if the nesting fits, every node has a type, the text and two bytes fit the cap, and memory is granted; the peak request becomes exactly end + 2 |
| Printer.PrintBuffer.PrintItems | src/cJSON.c:1626-1648 | the loop over the elements appends the rendering of all of them |
| Printer.PrintBuffer.PrintArray | src/cJSON.c:1595-1659 | arrays, as PrintValue |
| Printer.PrintBuffer.PrintMember | src/cJSON.c:1811-1874 | one member's line: tabs, key, colon, value, comma and newline |
| Printer.PrintBuffer.PrintMembers | src/cJSON.c:1811-1877 | the loop over the members appends the rendering of all of them |
| Printer.PrintBuffer.PrintObject | src/cJSON.c:1780-1896 | objects, as PrintValue |
| Printer.Print | src/cJSON.c:1239-1315 | for n bytes of text: printed if and only if nesting and types permit, n + 2 <= INT_MAX and memory is granted; the result is exactly text and NUL; the number of growths g is 0 or 256 * 2^g < 2(n + 2); nothing else stays live |
| Printer.Shrink | src/cJSON.c:1266-1290 | the final buffer has exactly the right size, by realloc or by copying, and the working buffer is gone either way |
| Printer.PrintBuffered | src/cJSON.c:1317-1346 | the same from any initial size, handing the buffer over |
| Printer.CopyNeedsAByte | src/cJSON.c:501-566 | behind ensure's first check the manual copy stays inside the old buffer if and only if that is not empty |
| Printer.EmptyBufferIsNotCopied | src/cJSON.c:501-566 | an empty buffer passes the check, and one byte of it would be copied |
| Printer.PrintPreallocated | src/cJSON.c:1348-1365 | succeeds if and only if length >= n + 2 (nesting and types permitting), and then holds text and NUL |
| EndToEnd.Reparse | src/cJSON.c:1227-1315 | printing and parsing a real tree gives a new tree of the same value, exactly under the stated conditions, and leaves nothing else allocated |
| EndToEnd.ReparsedIsEqual | src/cJSON.c:3072-3195 | cJSON_Compare finds the reparsed tree equal to the original, with the case of keys or without |
| Siblings.GetArraySize | src/cJSON.c:1899-1920 | the length of the child list |
| Siblings.GetArrayItem | src/cJSON.c:1922-1939 | the element at an index, or null past the end |
| Siblings.AddItemToArray | src/cJSON.c:2027-2053 | append: the list becomes s + [item] and stays well linked; only links change, and in the refused cases nothing does |
| Siblings.InsertItemInArray | src/cJSON.c:2334-2366 | insertion in front of an index, append past the end; only links change |
| Siblings.DetachItemViaPointer | src/cJSON.c:2258-2292 | the item leaves the list and points nowhere; only links change, and a node in no list is refused |
| Siblings.DetachItemFromArray | src/cJSON.c:2294-2302 | the same by index |
| Siblings.Substitute | src/cJSON.c:2380-2412 | the relinking of replace puts the new node at the old one's position |
| Siblings.ReplaceItemViaPointer | src/cJSON.c:2368-2415 | replace: only links change, apart from what the replaced item owns, and exactly that is freed |
| Siblings.HeldChildrenAreAList | src/cJSON.c:1578-1583 | every parsed, duplicated or created child list satisfies head.prev = tail, tail.next = null, x.next.prev = x |
| Siblings.ListOfTreesIsATree | src/cJSON.c:1999-2058 | a relinked list of trees makes its parent a tree again |
| Trees.AppendChild | src/cJSON.c:2055-2058 | a tree appended to a tree gives a tree: the children are the old ones and the new one, everything else is as before, and the parent owns both, each object once |
| Trees.InsertChild | src/cJSON.c:2334-2366 | the same for insertion at an index |
| Trees.DetachChild | src/cJSON.c:2294-2302 | what remains and what was detached are trees that share nothing and together own what there was |
| Trees.DeleteChild | src/cJSON.c:2304-2307 | and deleting frees exactly what the child owned |
| Trees.ReplaceChild | src/cJSON.c:2368-2425 | the new tree takes the place of the old one, and exactly what the old one owned is freed |
| Trees.StillHoldsEach | src/cJSON.c:1999-2058 | relinking roots leaves the trees below them as they are |
| Trees.InsertedMeans | src/cJSON.c:2334-2366 | the JSON value of an array or object is edited as its child list is |
| Trees.RemovedMeans | src/cJSON.c:2258-2292 | the same for removal |
| Trees.InsertedThenRemoved | src/cJSON.c:2258-2366 | detaching what was inserted at an index gives the old list back |
| Siblings.CreateIntArray | src/cJSON.c:2621-2659 | the array has exactly the given numbers; a refused allocation leaves nothing behind |
| Siblings.IntsAreInOrder | src/cJSON.c:2635-2652 | the i-th element is the i-th number |
| Duplication.Strdup | src/cJSON.c:179-198 | a fresh C string with the same text |
| Duplication.CopyNode | src/cJSON.c:2800-2829 | the copied fields, without IsReference, constant names shared; a failure frees the node |
| Duplication.CopyChildren | src/cJSON.c:2831-2862 | the copied children in order, well linked, within the depth limit, or nothing at all |
| Duplication.DuplicateRec | src/cJSON.c:2789-2873 | from any depth: a copy exists if and only if there is a source, memory is granted and (recursively) no descendant lies below level 10000; all of it is new, unlinked at the root, and a failure leaves nothing live |
| Duplication.Duplicate | src/cJSON.c:2784-2787 | the same from depth 0 |
| Duplication.CopyIsExact | src/cJSON.c:2806-2829 | a copy is exactly a tree with the same content, field by field, that borrows nothing but constant names; without recursion, a node with that content and no children |
| Duplication.CopyMeansTheSame | src/cJSON.c:2789-2873 | a recursive copy has the same value, so it prints to the same bytes |
| Duplication.CopyIsShown | src/cJSON.c:2816-2824 | a copy can be read like its source and reaches nothing of it but constant names |
| Comparison.GetObjectItem | src/cJSON.c:1951-1981 | the member that Find names, with either case rule and members without a key |
| Comparison.FindIsFirst | src/cJSON.c:1951-1981 | that is the first member whose key agrees with the name, in every byte or up to the case of letters; all members in front of it disagree, and none is returned only if none agrees (a member without a key ends the case-sensitive search) |
| Comparison.SameStringIgnoringCase | src/cJSON.c:134-155 | two strings are found equal if and only if they have the same length and at each position the same byte or the two cases of one ASCII letter; null equals nothing |
| Comparison.MatchIsCanonical | src/cJSON.c:134-155 | keys agree in this sense if and only if their lower-case forms are equal |
| Comparison.CloseIntsAreEqual | src/cJSON.c:589-593 | the tolerance of compare_double never equates two different ints |
| Comparison.NeighboursAreEqual | src/cJSON.c:589-593 | among doubles of one sign and exponent, each one compares equal to its neighbours and to no other |
| Comparison.CloseIsRelative | src/cJSON.c:589-593 | the tolerance does not depend on sign or scale |
| Comparison.TypesComeFirst | src/cJSON.c:3074-3124 | nodes of different types or without one are different, and a node with a type equals itself |
| Comparison.Compare | src/cJSON.c:3072-3195 | the method on nodes, identity shortcut included, computes Equal |
| Comparison.CompareItems | src/cJSON.c:3126-3148 | the loop over two element lists |
| Comparison.CoverMembers | src/cJSON.c:3150-3188 | each of the two loops over members |
| Comparison.EqualMeansSame | src/cJSON.c:3072-3195 | on trees with int-range numbers and distinct keys, comparison holds if and only if both denote the same JSON value with objects as finite maps, with the case of keys or without |
| Comparison.FindIsLookup | src/cJSON.c:1951-1981 | searching members with distinct keys is looking up in the finite map, under either case rule |
| Comparison.CoversMeansSubmap | src/cJSON.c:3154-3167 | one loop over the members decides inclusion of maps |
| Comparison.CopiesAreEqual | src/cJSON.c:2784-2873 | the comparison is reflexive on copies |
| Comparison.EqualIsAnEquivalence | src/cJSON.c:3072-3195 | it is symmetric and transitive, under either case rule |
| AudioRing.PushAppends | src/audio_buffer.c:42-49 | a push appends to the queue, or leaves a full ring as it is |
| AudioRing.PopTakesTheOldest | src/audio_buffer.c:64-67 | a pop removes the oldest frame |
| AudioRing.PoppedBlockIsReusedExactly | src/audio_buffer.c:30-71 | a popped slot keeps its frame through exactly the next capacity - count - 1 successful pushes, whatever pops intervene, and the next one is the first to reuse it |
| AudioRing.AudioBuffer.PoppedBlockKeepsItsBytes | src/audio_buffer.c:54-71 | so the aliased block that pop returned still points to the bytes of the oldest frame, through any run with that many pushes |
| AudioRing.SlotSurvives | src/audio_buffer.c:30-71 | any slot survives any run with no more successful pushes than lie between it and the tail |
| AudioRing.AudioBuffer.Init | src/audio_buffer.c:6-28 | an empty ring with disjoint slots, or failure |
| AudioRing.AudioBuffer.Push | src/audio_buffer.c:30-52 | the slab and the indices refine Pushed: only the tail slot changes |
| AudioRing.AudioBuffer.Pop | src/audio_buffer.c:54-71 | refines Popped; the block returned points at the oldest frame's bytes |
| OpusDump.WritePacket | src/app.c:91-117 | appends the framed packet, or reports failure with a prefix of it in the file |
| OpusDump.FrameIsLittleEndian | src/app.c:99-111 | two bytes of length, low byte first, and then the packet |
| OpusDump.WrittenIsRead | src/app.c:91-117 | the reader recovers exactly the packets written, for lengths 1 to 65535 |
| OpusDump.TruncationIsRead | tools/decode_opus_dump.c:95-120 | from any truncation it recovers exactly the packets lying wholly before the cut |
| OpusDump.WholeIsLongest | tools/decode_opus_dump.c:95-120 | those are the first k packets, for the largest k whose frames fit in front of the cut |
| OpusDump.EveryFileIsFrames | tools/decode_opus_dump.c:95-120 | whatever a file holds, it is frames and an incomplete one, and the reader decodes the frames that are not empty |
| OpusDump.ReadPackets | tools/decode_opus_dump.c:95-120 | the loop with its growing packet buffer computes Packets; what it read before running out of memory is a prefix |
| Fragments.Client.FeedBinaryFragment | src/xiaozhi_client.c:91-117 | one fragment, as Feed, with the overflow and empty cases |
| Fragments.MessagesAreDelivered | src/xiaozhi_client.c:91-117 | every list of messages, cut in any way, is delivered exactly, with nothing pending at the boundaries |
| Fragments.OversizedLosesItsFront | src/xiaozhi_client.c:99-117 | a message that outgrows 4096 bytes loses what has been received of it and the fragment that does not fit; the rest of it is delivered as a message of its own |
| Fragments.EmptyEndGlues | src/xiaozhi_client.c:96-97 | a message that an empty fragment ends is not delivered, and the next one is glued to it |
| Outgoing.TextQueue.EnsureTextCapacity | src/xiaozhi_client.c:22-41 | doubling reaches the needed capacity and keeps the queue |
| Outgoing.TextQueue.QueueText | src/xiaozhi_client.c:425-449 | appends exactly when memory is granted |
| Outgoing.TextQueue.PopTextLocked | src/xiaozhi_client.c:60-72 | takes the first text and moves the others down |
| Outgoing.StepKeepsInv | src/xiaozhi_client.c:164-279 | every locked section and every access between them, of three threads, keeps capacity, first-in first-out order, control before audio, and attention, which may lapse only between a failed callback and CLOSED |
| Outgoing.EveryRunIsSafe | src/xiaozhi_client.c:425-466 | so does every interleaving |
| Outgoing.AcceptedIsSentThenPending | src/xiaozhi_client.c:208-266 | absent failures accepted = sent ++ pending for both queues, and connected pending work has a writable callback armed or about to be |
| Outgoing.AudioWaitsForControl | src/xiaozhi_client.c:208-266 | over every run: whenever a binary message is taken, every text accepted until then has been taken, and absent failures sent |
| Delivery.TextIsAccepted | src/xiaozhi_client.c:425-449 | from every state with the invariant, whatever the other threads do between the two locked sections, a text is accepted, as the last one, if and only if there was room or memory is granted (and a copy is made) |
| Delivery.ReserveIsExact | src/xiaozhi_client.c:22-41 | room is reserved exactly then; a full array becomes one of four or of twice the size |
| Delivery.BinaryIsAccepted | src/xiaozhi_client.c:451-466 | a binary message is accepted if and only if it has 1 to 4096 bytes and fewer than 32 are pending |
| Delivery.SignalAsks | src/xiaozhi_client.c:43-52 | a producer that has stored its message asks for a callback if there is a wsi |
| Delivery.GivenUpIsForgotten | src/xiaozhi_client.c:439-441 | a copy that cannot be made leaves the queue as it was, with the room already made |
| Delivery.DiallingIsAsked | src/xiaozhi_client.c:43-52 | a text queued while the client dials asks for a callback, and one queued before does not |
| Delivery.ConnectionComesUp | src/xiaozhi_client.c:164-171 | ESTABLISHED leaves a connection that has been asked for a callback |
| Delivery.OneTurn | src/xiaozhi_client.c:208-266 | a callback without failures sends the first text or else the first binary message, and asks for another if something is left |
| Delivery.QueuesDrain | src/xiaozhi_client.c:208-266 | a connection without failures empties both queues in one callback for each message, the texts first, each queue in order |
| Delivery.EverythingArrives | src/xiaozhi_client.c:164-466 | with memory and a connection that holds, any number of texts and up to 32 frames queued before it came up all go over it, in order |
| Delivery.FailureLosesOne | src/xiaozhi_client.c:219-254 | a write that fails loses the message in hand and no other, and ends the connection with both queues kept |
| Delivery.DenialLosesOne | src/xiaozhi_client.c:213-258 | so does memory refused for the copy of a binary message |
| ClientQueues.Client.ReserveText | src/xiaozhi_client.c:433-437 | room is reserved if and only if the array has some or memory is granted, and the texts stay |
| ClientQueues.Client.AppendText | src/xiaozhi_client.c:443-445 | the store without a capacity check stays in its array, because room is still reserved, and appends the text |
| ClientQueues.Client.AppendBinary | src/xiaozhi_client.c:451-466 | the push into the audio ring is the step: accepted, at the end, if and only if the message has 1 to 4096 bytes and fewer than 32 are pending |
| ClientQueues.Client.OnWriteable | src/xiaozhi_client.c:213-217 | taking a text, else a copy of a binary message, is the step on the array and on the ring |
| ClientQueues.Client.Interleave | src/xiaozhi_client.c:164-466 | under every schedule of the three threads, the queues in memory end in the state that the step system reaches, with its invariant; when a run accepts and sends is said in Delivery |
| Runtime.SessionAloneIsOneShot | src/session.c:17-79 | over any run of events the automaton by itself asks for exactly what the script of one turn replies to its five cues, in order and once each, whatever comes in between; after an error it asks to return, once for each error |
| Runtime.Application.HandleAction | src/app.c:340-425 | in any state the automaton can leave behind, the action it returned restores the composed invariant |
| Runtime.Application.ResetToIdleState | src/app.c:427-439 | reset keeps the invariant, silences recording and dump, says nothing to the server, keeps the session id, and is ready if and only if the client runs and is connected |
| Runtime.Application.HandleProtocolEvent | src/app.c:462-521 | every protocol message, however late, keeps the composed invariant |
| Runtime.Application.HandleEvent | src/app.c:705-782 | one turn of the event loop, whatever the event, is Handle, whose effect in each state is told in Conversation, and keeps the composed invariant: the flags agree, uploading has its state, dump file and id, no resting in the two forbidden states, and the whole history stays in order |
| Runtime.Application.CaptureOnPcm | src/app.c:268-289 | the capture callback keeps the invariant, and queues a frame only while the server has been told to listen |
| Runtime.Application.AppRun | src/app.c:693-785 | app_run under every schedule of events and capture callbacks ends in a state of the step system that satisfies all of this |
| Runtime.ActKeeps | src/app.c:340-425 | the action returned by the automaton repairs the state that the automaton went to |
| Runtime.HandleKeeps | src/app.c:705-782 | every event, stale or not, keeps the composed invariant |
| Runtime.RuntimeIsSafe | src/app.c:693-785 | after any run: upload_enabled equals capture.uploading and implies UPLOADING_AUDIO, an open dump file and a session id; client_started equals running; never resting in ERROR_BACKOFF or WAKE_DETECTING |
| Runtime.FramesFollowListenStart | src/app.c:268-289 | over every run, every queued audio frame follows a queued listen start with no listen stop, abort, client stop or cleared id in between |
| Runtime.ListenCarriesTheCurrentId | src/app.c:307-329 | over every run, every listen message carries the id of the last id-bearing hello handled since the last CONNECT, ABORT or RETURN_TO_WAKE |
| Conversation.ConversationIsQueued | src/app.c:693-785 | when every call succeeds, each of any number of utterances goes to the queues whole and in order, between its own listen start and listen stop, with the id of the server's hello, and after each answer the user may speak again: the exact history |
| Conversation.UtteranceIsQueued | src/app.c:693-785 | the exact history of the first utterance, up to waiting for the answer |
| Conversation.StartOpensUpload | src/app.c:360-373 | a start event in Ready: listen start with the current id, dump file and recording, each only if the one before succeeds |
| Conversation.StopEndsUpload | src/app.c:375-382 | stop while uploading: recording ends, the dump file is closed, and listen stop is queued if it can be |
| Conversation.StartInterruptsPlayback | src/app.c:384-399 | a start event during playback: abort, restart, Connecting |
| Conversation.ErrorReconnects | src/app.c:401-420 | an error in any state: everything is reset and the client runs again if it can be started |
| Conversation.StartConnects | src/app.c:343-352 | a start event in Idle: the client is started and Connecting |
| Conversation.ConnectedGreets | src/app.c:354-358 | a connection: hello |
| Conversation.HelloMakesReady | src/app.c:468-479 | the server's hello: its id is kept if it has one, and a handshake ends in Ready |
| Conversation.TtsStartSilences | src/app.c:489-495 | speech from the server ends recording in every state |
| Conversation.TtsStopEnds | src/app.c:497-502 | the end of speech ends the turn at once if playback has drained, and otherwise is remembered |
| Conversation.PlaybackFinishedEnds | src/app.c:761-764 | then the end of playback does so |
| Conversation.ShutdownStops | src/app.c:773-775 | a shutdown event asks the loop to stop, and does nothing else |
| Conversation.StaleEventsChangeNothing | src/session.c:17-79 | every other event in every other state changes nothing |
| Conversation.CallbackQueues | src/app.c:268-289 | a capture callback queues its frame if and only if upload is enabled, the encoder returned something and the queue takes it |
| Conversation.AfterShutdownOnlyFrames | src/app.c:711-776 | after a shutdown event nothing changes but for frames of an upload that was going on |
| Conversation.BootConnects | src/app.c:705-709 | the loop is entered connecting, if the client can be started |
| Preemption.ProgramIsHandle | src/app.c:340-521 | the handlers as sequences of statements are the handlers |
| Preemption.HandlerKeeps | src/app.c:268-289 | with capture callbacks between any statements of a handler the history is in order at every moment, and the composed invariant holds again at the end |
| Preemption.EveryMomentIsInOrder | src/app.c:268-439 | over every run, stopped at any moment of any handler: every queued frame follows a listen start that nothing has ended, and every listen message carries the current id |
| Preemption.EveryTurnIsSafe | src/app.c:693-785 | over every such run, the composed invariant holds between turns |

## Left out

- Printer.PrintBuffer.PrintNumber: models only the `%d` branch; `%1.15g`, `%1.17g`, NaN, infinities and locales rest on libc.
- Parser.ParseBuffer.ParseNumber: strtod is an exact reader of decimal literals over the reals; rounding, hexadecimal floats and locales are not modelled.
- Comparison.EqualMeansSame: speaks of int-range numbers; on others compare_double is a tolerance that is not transitive.
- Parser.ParseWithLengthOpts: a null text pointer and the global error record are not modelled, only the error position.
- Printer.PrintBuffered: an initial size of 0 without realloc is not modelled, because there the manual copy would leave the buffer (Printer.CopyNeedsAByte).
- Siblings.AddItemToArray: like the other list operations, is stated for arguments that are in no list, as the source expects of its callers.
- Trees.AppendChild: like the other operations on trees, is stated for a parent that owns its children, so not for one made by the reference constructors.
- OpusDump.ReadPackets: stops at the packets handed to the decoder; opus_decode, the WAV output and a failing write of it are not modelled.
- Outgoing.StepKeepsInv: assumes that libwebsockets calls back only on request and one callback at a time; oversized received text is not modelled.
- Runtime.RuntimeIsSafe: the capture callback is one step between events here and one step between statements in Preemption; its own read of upload_enabled and the queueing behind it are not separated. The events that the runtime pushes to itself are covered because a run may contain any event at any point.
- Checks that a caller has just made (the opening bracket in parse_array and parse_object, the length check inside the decode loop of parse_string, the range of a combined code point, null printbuffers) are not repeated.
- cJSON_Raw, cJSON_Minify, cJSON_SetValuestring, the Add...ToObject helpers, the reference constructors and the float, double and string array constructors.
- libwebsockets, ALSA, Opus, Snowboy, files, sockets, clocks and logging, other than as arbitrary results.
- src/event_queue.c: an event that is dropped never shows up in a run, and any other event may.
- src/audio_capture.c, src/audio_playback.c, src/xiaozhi_protocol.c, src/ota_client.c, src/config.c and the unbuilt servers are not part of this model.
- Reconnecting until it succeeds, and the order of hello on the wire after a restart (the queues are kept), which the source does not promise.
