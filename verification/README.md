# Verified models of the repository's cores

Nine independent parts of the repository, each modelled in Dafny and proved to keep what it is for.

- **Event ring** (`EventRing`, `EventThreads`). The lock-free ring between the reader thread and the
  audio thread is a state machine. Its steps are single accesses to shared memory; a copy is six
  word steps in any order, and a load of the other thread's counter may be late. Words may be read
  late too: a plain load returns any word ever written to that place unless the loaded head tells
  that a later one was in place. So the proofs rest on the release and acquire of the counters alone.
  `EventThreads` holds the code of both threads over the shared arrays, each access followed by the
  step that it is.
- **Hash map** (`ProbeTable`, `ProbeMap`, `OpenMap`). Linear probing with growth at three quarters
  and removal without tombstones, generic in hash, key and value. The table functions are the
  specification, the class has the in-place loops, and `ProbeMap` says which runs stay a map and
  which lookups a removal loses. Plain deletion fails, and the exact condition is proved.
- **Split and replace** (`StringScan`). Two separately written scans that agree.
- **BDF codec** (`BdfValue`, `BdfParse`, `BdfCodec`, `BdfCursor`, `BdfLayout`, `BdfErrors`,
  `BdfMessage`, `BdfAccept`). The binary format, the cursor-based decoder and the message projection: round trips,
  prefix-freeness, the exact boundary that repeated map keys draw, and exactly what is accepted as a
  message.
- **MIR canonical text** (`MirTree`, `Quoting`, `MirNodes`, `MirHeads`, `MirPrint`, `MirBody`,
  `MirBlocks`, `MirVtables`, `StableSort`, `MirWriter`, `MirImitation`, `MirLabels`, `MirFields`,
  `MirFormat`, `JsonText`, `MirDigest`). The line text of types, values, statements, terminators, function bodies and virtual
  tables determines the tree, up to the components that are never written; two trees can collide only
  if a field name holds the type line of its own projection, and some do. `MirLoops` is the control-flow summary and its loop flag.
- **Units** (`Units`, `UnitParse`, `UnitLex`, `UnitErrors`, `UnitPrinted`, `UnitLaws`, `UnitSums`,
  `UnitTable`). The algebra of dimensions in
  32-bit integers, tokenizer, parser and canonical printer, and how far the last two invert each
  other. `Decimal` is shared with the MIR text; `Options` and `Multisets` are shared by all.
- **Card wrapper and gate** (`CardWidth`, `CardMeasure`, `CardWrap`, `CardGate`). Greedy line breaking is optimal,
  and the gate's verdict is exact.
- **Font character map** (`Cmap`, `CmapBytes`). What the bytes spell, and the dictionary against the lookup of the OpenType standard ('cmap'
  table, "Format 4: Segment mapping to delta values" and "Format 12: Segmented coverage").
- **Bit tricks** (`Bits`). Counting, smearing and scanning loops with their exact ranges.

Where the source changes things step by step, the model does: classes and loops, each proved equal
to a function on values. The laws are lemmas about those functions. Every lemma is marked
`{:induction false}`: no proof leans on automatic induction.

## Where the code and its documentation differ

- `compiler/src/units.rs:363-368` says that `/` binds one factor, "matching the canonical formatter". It
  does not match: the formatter joins all factors of the denominator with `*`, so a dimension with
  two negative exponents, such as the volt of the unit table, prints as a string that means something
  else. `UnitLaws.PrintThenParse` has the exact law.
- `leading_zeros` in `stdlib/bitwise.c` counts the zeros of 31 bits for a positive number, though it
  gives 32 for zero.
- `build_string_replace` searches for the old text up to its NUL and steps by its whole length, so with a NUL
  in it it replaces other texts too: `StringScan.PrefixIsEnough`.
- `build_map_remove` leaves no mark in the slot it frees, so it can hide other keys.

## Model

| member | source | states |
|---|---|---|
| `EventRing.CountersStayClose` | runtime/audio/bl_events.c:10-49 | in every reachable state, stale counter loads included, 0 <= tail <= decoded head <= tail + 4096, the head is negative exactly when the reader has finished, and the counters count the accepted and the popped events |
| `EventRing.NeverShareASlot` | runtime/audio/bl_events.c:23-49 | the two threads never copy in the same slot; a pop copies only a slot below the head it has loaded, and the reader fills only a slot that the tail it has loaded shows to be free |
| `EventRing.NoTornRead` | runtime/audio/bl_events.c:23-49 | although a plain load may return any earlier word that the loaded head does not rule out, the only value it can return is the word of the event to pop |
| `EventRing.PoppedArePrefix` | runtime/audio/bl_events.c:29-50 | the popped events are exactly the first `tail` accepted events, in order and whole, and as many as the answers 1 |
| `EventRing.NothingElseIsLost` | runtime/audio/bl_events.c:23-33 | accepted events and the one in hand are the arrivals that were not dropped, in order; an arrival is dropped exactly when the number accepted so far less the loaded tail is at least 4096 |
| `EventRing.FreshTailDropsOnlyWhenFull` | runtime/audio/bl_events.c:28-29 | with a tail that is not late, an arrival is dropped exactly when the ring holds 4096 events |
| `EventRing.EndIsTheEnd` | runtime/audio/bl_events.c:33-50 | an answer -1 means that the input has closed and every kept event was popped; every later answer is -1 too |
| `EventRing.CloseKeepsTheCount` | runtime/audio/bl_events.c:33-46 | the negative encoding of the closed head decodes to the head, zero included |
| `EventRing.ClosedRingDrains` | runtime/audio/bl_events.c:43-50 | from any safe closed state, pops with the loaded head bring out all remaining events in order, answering 1 for each and then -1 |
| `EventRing.ClosedInputComesOutWhole` | runtime/audio/bl_events.c:23-50 | from every reachable state with closed input, pops alone bring out exactly the kept arrivals |
| `EventRing.RunKeeps` | runtime/audio/bl_events.c:23-50 | every run of steps keeps the invariant |
| `EventRing.LateLoadsAreAllowed` | runtime/audio/bl_events.c:23-45 | the machine allows every late load of a counter |
| `EventRing.LateWordsAreAllowed` | runtime/audio/bl_events.c:23-48 | the machine allows every late load of a word that the loaded head does not rule out |
| `EventRing.FirstZeroIsAllowed` | runtime/audio/bl_events.c:10-48 | the zero that the ring starts with may be read as late as any word |
| `EventRing.PopTakesTheNext` | runtime/audio/bl_events.c:43-50 | a whole pop that finds an event, as its eight steps, hands out the next accepted event and changes nothing but tail and history |
| `EventRing.OfferAppends` | runtime/audio/bl_events.c:23-32 | a whole kept line, as its eight steps, puts the event in the head slot and appends it to the accepted ones |
| `EventThreads.Ring.constructor` | runtime/audio/bl_events.c:10-12 | the zeroed ring and counters are the initial state |
| `EventThreads.Ring.Offer` | runtime/audio/bl_events.c:24-32 | one turn of the reader loop over the shared arrays makes exactly the steps of a dropped or of a kept line |
| `EventThreads.Ring.CloseInput` | runtime/audio/bl_events.c:33-34 | the closing store makes the closing step and keeps the count |
| `EventThreads.Ring.PopEvent` | runtime/audio/bl_events.c:43-50 | the pop answers 1, 0 or -1 by the loaded head, fills the buffer with the next accepted event or leaves it alone, and makes exactly the steps of the state machine |
| `EventThreads.Ring.CopyIn` | runtime/audio/bl_events.c:30 | the word copy into a slot makes the six write steps |
| `EventThreads.Ring.CopyOut` | runtime/audio/bl_events.c:48 | the word copy out of a slot yields the event to pop |
| `ProbeTable.ProbesStop` | stdlib/algorithms.c:229-266 | with one free slot anywhere the unbounded probe loops of insert and grow stop before coming round |
| `ProbeTable.RoomAfterGrow` | stdlib/algorithms.c:253-255 | after the growth test of insert a quarter of the slots is free, whatever the state before |
| `ProbeTable.GrowthPoint` | stdlib/algorithms.c:253-266 | an insert doubles the table exactly when three quarters of its slots were taken before |
| `ProbeTable.NewIsSized` | stdlib/algorithms.c:218-227 | a new table has capacity 16 and satisfies the size invariant |
| `ProbeTable.InsertKeepsSized` | stdlib/algorithms.c:253-266 | insert keeps: capacity 16 times a power of two, len the number of occupied slots, 4 len <= 3 cap |
| `ProbeTable.RemoveKeepsSized` | stdlib/algorithms.c:296-311 | remove keeps the same size invariant and lowers len by one when it finds the key |
| `ProbeTable.Rehash` | stdlib/algorithms.c:229-251 | while growing, the new table has twice the capacity and as many occupied slots as entries copied |
| `ProbeMap.FoundIffReachable` | stdlib/algorithms.c:281-292 | with distinct keys a lookup ends on a stored key exactly when the probe path to its slot is unbroken |
| `ProbeMap.ContentsUnique` | stdlib/algorithms.c:208-216 | a map that agrees with the occupied slots both ways is the contents of the table |
| `ProbeMap.CleanReads` | stdlib/algorithms.c:268-294 | in a clean table contains, get and len are those of the mathematical map |
| `ProbeMap.VisibleReads` | stdlib/algorithms.c:268-294 | in any table with distinct keys contains holds exactly for the keys with a reachable slot, and get then reads the map |
| `ProbeMap.RehashIsClean` | stdlib/algorithms.c:229-251 | copying slots into a larger table makes every entry reachable, also those that were not, and keeps exactly the entries |
| `ProbeMap.GrowIsClean` | stdlib/algorithms.c:229-251 | grow of a table with distinct keys gives a clean table with the same contents and len |
| `ProbeMap.InsertUpdatesIff` | stdlib/algorithms.c:253-266 | insert keeps keys distinct exactly when it grows first or the key is not stored out of reach; then it is map update |
| `ProbeMap.InsertOnClean` | stdlib/algorithms.c:253-266 | insert on a clean table is map update and keeps it clean |
| `ProbeMap.StoreKeepsReachable` | stdlib/algorithms.c:256-265 | insert never breaks the probe path of a stored key |
| `ProbeMap.RemoveDeletes` | stdlib/algorithms.c:296-311 | remove takes exactly the found key out of the stored entries, or nothing when it finds none |
| `ProbeMap.RemoveHidesIff` | stdlib/algorithms.c:296-311 | in any table with distinct keys, a stored key is found after a removal exactly when it was found before and the freed slot is not on its probe path, and exactly when its path in the new table is unbroken |
| `ProbeMap.RemoveIsCleanIff` | stdlib/algorithms.c:296-311 | remove keeps the table clean exactly when the freed slot is on no other entry's probe path |
| `ProbeMap.InsertRunsRefineMaps` | stdlib/algorithms.c:218-266 | every run of inserts from a new map, growth included, is a clean table holding the mathematical map of the run |
| `ProbeMap.StepStoresTheMapIff` | stdlib/algorithms.c:253-311 | one insert or remove keeps the stored entries those of the map exactly when it touches no key stored out of reach, an insert that grows first excepted |
| `ProbeMap.RunsStoreTheMapIff` | stdlib/algorithms.c:218-311 | all along a run, removals included, each entry of the mathematical map is stored exactly once and nothing else is, exactly when no step of the run touches a key stored out of reach |
| `ProbeMap.LookupsAgreeIff` | stdlib/algorithms.c:268-311 | in a table with distinct keys contains agrees with the stored entries on every key exactly when every entry is reachable |
| `ProbeMap.RemovalCanHideAKey` | stdlib/algorithms.c:296-311 | two keys with one home: after the first is removed the second is stored but not found, and inserting it again stores it twice |
| `OpenMap.I32CollisionHides` | stdlib/algorithms.c:253-311 | with the 32-bit hash the keys 0 and 16 are such a pair |
| `OpenMap.SameHomeI32` | stdlib/algorithms.c:253-297 | in a table of a capacity that divides 2 to the 32, two keys of the i32 map have one home exactly when they agree modulo the capacity |
| `OpenMap.BuildHashMap.constructor` | stdlib/algorithms.c:218-227 | the new object holds the empty table of 16 slots |
| `OpenMap.BuildHashMap.Grow` | stdlib/algorithms.c:229-251 | the in-place growth computes the grown table in fresh arrays |
| `OpenMap.BuildHashMap.CopyEntry` | stdlib/algorithms.c:238-245 | the inner probe of grow places one entry in the first free slot |
| `OpenMap.BuildHashMap.Insert` | stdlib/algorithms.c:253-266 | the in-place insert computes the table insert, and terminates |
| `OpenMap.BuildHashMap.StoreEntry` | stdlib/algorithms.c:256-265 | the probe loop of insert overwrites the key's value or fills the first free slot |
| `OpenMap.BuildHashMap.Get` | stdlib/algorithms.c:268-279 | get returns the value the probe finds, or the fallback |
| `OpenMap.BuildHashMap.Contains` | stdlib/algorithms.c:281-292 | contains tells whether the probe finds the key |
| `OpenMap.BuildHashMap.Len` | stdlib/algorithms.c:294 | len is the stored length |
| `OpenMap.BuildHashMap.Remove` | stdlib/algorithms.c:296-311 | the in-place remove clears one slot and nothing else |
| `StringScan.JoinPieces` | stdlib/algorithms.c:945-972 | joining the pieces with the delimiter gives the text back |
| `StringScan.PiecesAreLeftmost` | stdlib/algorithms.c:945-972 | every piece but the last ends at the leftmost match of the delimiter, and the last has none |
| `StringScan.PiecesUnique` | stdlib/algorithms.c:945-972 | the pieces are the only leftmost cut that joins back to the text |
| `StringScan.PiecesAvoid` | stdlib/algorithms.c:945-972 | no piece of a leftmost cut contains the delimiter |
| `StringScan.Split` | stdlib/algorithms.c:945-972 | the scanning loop returns the pieces, or the whole text for an empty delimiter |
| `StringScan.NewLenIsTrueLength` | stdlib/algorithms.c:1121 | the length computed in size_t, where difference and product wrap, is the true length of the result |
| `StringScan.ReplacedIsJoin` | stdlib/algorithms.c:1122-1136 | for an old text without NUL the scan never leaves the text; what it writes is the pieces joined with the new text and then what lies behind a NUL, and the count is the number of pieces less one |
| `StringScan.ReplacedLength` | stdlib/algorithms.c:1111-1121 | the counted length is the length of what is written |
| `StringScan.CountMatches` | stdlib/algorithms.c:1112-1117 | the counting loop finds the number of matches |
| `StringScan.FillBuffer` | stdlib/algorithms.c:1122-1136 | the copying loop and the remainder fill the buffer exactly: new_len bytes and the NUL |
| `StringScan.Replace` | stdlib/algorithms.c:1107-1139 | where the scan stays in the text, replace returns what the copying loop writes, or the text up to its NUL when nothing was found; for an old text without NUL that is the pieces of split joined with the new text, and the part behind a NUL of the text exactly when something was replaced |
| `StringScan.PrefixIsEnough` | stdlib/algorithms.c:1107-1139 | with a NUL in the old text every text of its length that begins as it does before the NUL is replaced |
| `StringScan.ReplaceAgreesWithSplit` | stdlib/algorithms.c:945-1139 | on any leftmost cut of the text, replacing is joining with the new text, and replacing the delimiter by itself is the identity |
| `BdfParse.ParseOfEnc` | compiler/src/bdf.rs:257-308 | a value whose encoding stands at a position is read there, up to the end of its encoding |
| `BdfParse.EncOfParse` | compiler/src/bdf.rs:346-457 | whatever value is read at a position, exactly its encoding stands there |
| `BdfCodec.RoundTrip` | compiler/src/bdf.rs:257-344 | from_bytes of an encoding followed by x is the value when x is empty, and otherwise TrailingBytes with the exact offset and count |
| `BdfCodec.SpelledDecodes` | compiler/src/bdf.rs:319-344 | whatever a stream spells, repeated keys included, decodes to its collapse, and anything after it is reported exactly |
| `BdfCodec.DecodingMerges` | compiler/src/bdf.rs:319-457 | two streams decode alike exactly when what they spell collapses alike |
| `BdfCodec.RepeatedKeyDecodes` | compiler/src/bdf.rs:438-451 | a map that spells one key twice is accepted, keeps the last value and re-encodes shorter, so two different streams decode to one value |
| `BdfCodec.PrefixFree` | compiler/src/bdf.rs:257-308 | no encoding begins another, so the encoding is injective |
| `BdfCodec.StrictPrefixRejected` | compiler/src/bdf.rs:319-406 | every strict prefix of an encoding is rejected, with BadMagic below four bytes and otherwise because the stream ran out |
| `BdfCodec.CollapseExact` | compiler/src/bdf.rs:438-451 | keeping the first place and the last value of a repeated key gives a value that is no longer, and as long exactly when nothing was repeated |
| `BdfCodec.Reencode` | compiler/src/bdf.rs:319-457 | re-encoding an accepted stream is never longer, and gives the stream back exactly when no map in it repeats a key |
| `BdfCodec.ImageOfToBytes` | compiler/src/bdf.rs:257-344 | a byte string is the encoding of a value exactly when it is accepted and repeats no key |
| `BdfCodec.DecodedNodesBounded` | compiler/src/bdf.rs:408-457 | the number of decoded values is at most the number of bytes after the magic, whatever counts the stream declares |
| `BdfLayout.Layout` | compiler/src/bdf.rs:57-78 | every stream begins with the bytes of BDF0 and the tag of its value, 0 to 7 |
| `BdfLayout.NumberBytes` | compiler/src/bdf.rs:264-303 | eight bytes are written for a number, the least first |
| `BdfLayout.IntBytes` | compiler/src/bdf.rs:271-274 | a signed number is written as the number modulo 2 to the 64 that it is equal to |
| `BdfLayout.Utf8IsEncodedText` | compiler/src/bdf.rs:423-429 | the bytes taken for UTF-8 are exactly the encodings of sequences of Unicode scalar values, as section 3 of RFC 3629 lays them out |
| `BdfErrors.NoTag` | compiler/src/bdf.rs:408-457 | the error for a missing value and for an unknown tag |
| `BdfErrors.NoTruth` | compiler/src/bdf.rs:413-420 | the error for a missing or invalid truth value |
| `BdfErrors.NoNumber` | compiler/src/bdf.rs:361-391 | the error for a number, length or count that is cut short |
| `BdfErrors.TooLong` | compiler/src/bdf.rs:393-406 | the error for a length beyond the end of the stream |
| `BdfErrors.NoText` | compiler/src/bdf.rs:423-428 | the error for a string that is no UTF-8 |
| `BdfErrors.FaultyItem` | compiler/src/bdf.rs:430-437 | in an array the first faulty item decides |
| `BdfErrors.FaultyEntry` | compiler/src/bdf.rs:438-451 | in a map the first faulty entry decides |
| `BdfErrors.FaultyKeyOrValue` | compiler/src/bdf.rs:438-451 | and in an entry its key before its value, each with its error |
| `BdfErrors.FaultyStream` | compiler/src/bdf.rs:319-344 | the error for a stream without the magic, and for one whose value is faulty |
| `BdfCursor.EncodeValue` | compiler/src/bdf.rs:264-303 | the recursive encoder appends exactly the encoding of the value |
| `BdfCursor.RunToBytes` | compiler/src/bdf.rs:257-262 | to_bytes writes the magic and the encoding |
| `BdfCursor.Cursor.Take` | compiler/src/bdf.rs:361-371 | take returns the next n bytes and moves past them, or an error that names the missing bytes |
| `BdfCursor.Cursor.TakeU64` | compiler/src/bdf.rs:377-382 | take_u64 reads eight bytes in little-endian order |
| `BdfCursor.Cursor.TakeLenPrefixed` | compiler/src/bdf.rs:393-406 | take_len_prefixed reads a length and as many bytes, and reports a length beyond the stream as such |
| `BdfCursor.Cursor.DecodeValue` | compiler/src/bdf.rs:408-457 | the recursive decoder returns what the stream spells, maps collapsed, or the first error |
| `BdfCursor.Cursor.DecodeArray` | compiler/src/bdf.rs:430-437 | the array loop reads the declared number of values |
| `BdfCursor.Cursor.DecodeMap` | compiler/src/bdf.rs:438-451 | the map loop inserts entries as they come |
| `BdfCursor.RunFromBytes` | compiler/src/bdf.rs:319-344 | from_bytes checks the magic, decodes one value and rejects trailing bytes |
| `BdfMessage.NamesRoundTrip` | compiler/src/bdf.rs:489-521 | a wire string parses to a capability exactly when it is its name |
| `BdfMessage.ProjectionRoundTrip` | compiler/src/bdf.rs:658-764 | projecting a message to a value and back loses nothing |
| `BdfMessage.ProjectionCanonical` | compiler/src/bdf.rs:658-717 | the projection of a well-formed message is a value that the codec accepts |
| `BdfMessage.MessageRoundTrip` | compiler/src/bdf.rs:630-656 | a message with the v0 schema survives to_bytes and from_bytes; any other schema string is rejected as UnsupportedSchema |
| `BdfMessage.MessageInjective` | compiler/src/bdf.rs:630-656 | different messages have different bytes |
| `BdfAccept.AcceptedIffTold` | compiler/src/bdf.rs:719-764 | a value is read as a message exactly when it is a map that gives every part of the message under its key, in whatever order and among whatever other entries |
| `BdfAccept.StreamIsMessage` | compiler/src/bdf.rs:630-656 | a byte stream is a message exactly when it decodes to such a map and the schema is that of version 0 |
| `BdfAccept.DroppedFieldIsNamed` | compiler/src/bdf.rs:719-816 | a message without one of its seven fields is refused with an error that names the field |
| `BdfAccept.StringField` | compiler/src/bdf.rs:800-816 | a string field is the string under its key, or an error that says whether it is missing or no string |
| `BdfAccept.PartOfWrongKind` | compiler/src/bdf.rs:780-798 | a part that is no map or no array is refused as such |
| `BdfAccept.ListOfWrongKind` | compiler/src/bdf.rs:735-738 | the list in a receipt likewise |
| `BdfAccept.OnlyMaps` | compiler/src/bdf.rs:719-721 | a value that is no map is refused as such |
| `BdfAccept.ItemOfWrongKind` | compiler/src/bdf.rs:719-764 | and so is an item of a list that is no string, no map or no capability |
| `BdfAccept.OrderOfEntries` | compiler/src/bdf.rs:660-716 | the entries of a message and of its parts are written in this order |
| `BdfAccept.WireNames` | compiler/src/bdf.rs:489-521 | the capabilities by their names on the wire |
| `MirDigest.TypeTextDetermines` | compiler/src/mir_representation.rs:761-847 | under one label, followed by any texts, two types print alike exactly when they are the same type |
| `MirDigest.ValueTextDetermines` | compiler/src/mir_representation.rs:849-917 | the same for values; a float constant is told apart by its bits |
| `MirDigest.RValueTextDetermines` | compiler/src/mir_representation.rs:919-1073 | two right-hand sides, each followed by any text, print alike exactly when they are the same up to the unwritten component and the texts are equal, provided no field name holds the type line of its own projection, or in one of the trees no field name, and no line after it, is labelled like the type line of any projection of that tree |
| `MirDigest.StmtTextDetermines` | compiler/src/mir_representation.rs:1075-1135 | the same for statements |
| `MirDigest.TerminatorTextDetermines` | compiler/src/mir_representation.rs:1137-1240 | two terminators print alike exactly when they are the same, under the same proviso |
| `MirDigest.BodyTextDetermines` | compiler/src/mir_representation.rs:1486-1532 | two function bodies print alike exactly when they are the same up to the unwritten components, under the same proviso |
| `MirDigest.ComponentsAreErased` | compiler/src/mir_representation.rs:989-995 | right-hand sides that differ only in the component of LocalInvocationId or WorkgroupId print alike |
| `MirDigest.SingleLinesDecode` | compiler/src/mir_representation.rs:933-951 | the proviso holds for two trees of single-line names, and for one of them whatever the names of the other when nothing follows it |
| `MirDigest.PlacesCollide` | compiler/src/mir_representation.rs:919-951 | the proviso is needed: under every label and for all names there are two different places with one text, each with the type line of a projection in a field name |
| `MirDigest.RValuesCollide` | compiler/src/mir_representation.rs:953-1047 | so there are two such right-hand sides |
| `MirDigest.StmtsCollide` | compiler/src/mir_representation.rs:1075-1135 | and two such statements |
| `MirDigest.TerminatorsCollide` | compiler/src/mir_representation.rs:1137-1240 | and two such terminators |
| `MirDigest.BodiesCollide` | compiler/src/mir_representation.rs:1486-1532 | and two such function bodies |
| `MirImitation.OneSided` | compiler/src/mir_representation.rs:919-951 | a tree whose field names, and what follows, hold no type line of its projections is read back from its text against every other tree |
| `MirImitation.TwoSided` | compiler/src/mir_representation.rs:919-951 | two trees in which no field name holds the type line of its own projection are read back from their texts, whatever follows them |
| `MirFields.BodyShaped` | compiler/src/mir_representation.rs:1486-1532 | every printed line but that of a field projection is a single line, and the printed body is quiet of a type line exactly when its field names are |
| `MirFields.BodySeparate` | compiler/src/mir_representation.rs:1486-1532 | the label of the type line of a field projection is that of no later line of the body |
| `MirImitation.SilentNode` | compiler/src/mir_representation.rs:677-680 | the text of a tree with other labels and quiet names, before a quiet text, holds no type line of the projection |
| `Quoting.QuotedPrefixFree` | compiler/src/mir_representation.rs:673-675 | an escaped string ends at its closing quote, so it can be told from whatever follows |
| `JsonText.QuotedIsRead` | compiler/src/mir_representation.rs:673-675 | a reader of JSON strings after section 7 of RFC 8259 reads back every string that is quoted, whatever follows |
| `JsonText.Escapes` | compiler/src/mir_representation.rs:673-675 | which characters are escaped, and how |
| `JsonText.HexIsRead` | compiler/src/mir_representation.rs:872-877 | bytes are written one after the other, each as its high and its low digit in lower case |
| `MirFormat.TypeLines` | compiler/src/mir_representation.rs:777-847 | the lines of a type, word for word |
| `MirFormat.SigLines` | compiler/src/mir_representation.rs:761-775 | the lines of a signature |
| `MirFormat.ConstLines` | compiler/src/mir_representation.rs:849-899 | the lines of a constant |
| `MirFormat.ValueLines` | compiler/src/mir_representation.rs:901-917 | the lines of a value |
| `MirFormat.PlaceLines` | compiler/src/mir_representation.rs:919-931 | the lines of a place |
| `MirFormat.ProjectionLines` | compiler/src/mir_representation.rs:933-951 | the lines of a projection |
| `MirFormat.RValueLines` | compiler/src/mir_representation.rs:953-1047 | the lines of a right-hand side |
| `MirFormat.ArithmeticNames` | compiler/src/mir_representation.rs:581-655 | the names of the arithmetic and bit operators |
| `MirFormat.ComparisonNames` | compiler/src/mir_representation.rs:581-655 | the names of the comparisons and the unary operators |
| `MirFormat.CheckedNames` | compiler/src/mir_representation.rs:581-655 | the names of the checked and wrapping operators |
| `MirFormat.SaturatingNames` | compiler/src/mir_representation.rs:581-655 | the names of the saturating operators |
| `MirFormat.OtherNames` | compiler/src/mir_representation.rs:620-759 | the names of casts, nullary operations, number sizes and calling conventions |
| `MirFormat.StmtLines` | compiler/src/mir_representation.rs:1075-1135 | the lines of a statement |
| `MirFormat.TerminatorLines` | compiler/src/mir_representation.rs:1137-1240 | the lines of a terminator |
| `MirFormat.BlockLines` | compiler/src/mir_representation.rs:1496-1528 | the lines of a block |
| `MirFormat.BodyLines` | compiler/src/mir_representation.rs:1486-1532 | the lines of a function body |
| `MirBlocks.WriteBody` | compiler/src/mir_representation.rs:1486-1532 | the loops over blocks and statements append exactly that text |
| `MirVtables.CountsDetermined` | compiler/src/mir_representation.rs:1414-1426 | the counts line of a module tells every count |
| `MirVtables.CountsSpelled` | compiler/src/mir_representation.rs:1414-1426 | the counts line, word for word |
| `MirVtables.TableLines` | compiler/src/mir_representation.rs:1583-1620 | the lines of a virtual table and of its methods, word for word |
| `MirVtables.VtableTextDetermines` | compiler/src/mir_representation.rs:1414-1620 | the counts line and the text of the virtual tables determine the tables once sorted |
| `MirVtables.TextNamesTheTables` | compiler/src/mir_representation.rs:1414-1620 | when no two different tables have one trait and type, the counts line and the text determine the bag of tables and nothing about their order |
| `MirVtables.WriteVtables` | compiler/src/mir_representation.rs:1583-1620 | the nested loops append exactly the text of the sorted tables |
| `StableSort.SortForgetsOrder` | compiler/src/mir_representation.rs:1583-1606 | sorting gives one result for every order of the records exactly when no two different records have one key |
| `StableSort.SortOrdered` | compiler/src/mir_representation.rs:1583-1589 | the sort puts the keys in order |
| `StableSort.SortIsStable` | compiler/src/mir_representation.rs:1583-1589 | records with one key keep their order |
| `StableSort.SortKeeps` | compiler/src/mir_representation.rs:1583-1589 | the sort keeps every record |
| `StableSort.LessIsLexicographic` | compiler/src/mir_representation.rs:1583-1606 | names compare by their first difference, a beginning before what it begins |
| `StableSort.KeyOrder` | compiler/src/mir_representation.rs:1583-1589 | keys compare by the first name, and by the second when the first is the same |
| `MirWriter.WriteType` | compiler/src/mir_representation.rs:777-847 | the writer of types appends the text of the type tree |
| `MirWriter.WriteFnSig` | compiler/src/mir_representation.rs:761-775 | the writer of signatures appends their lines |
| `MirWriter.WriteConst` | compiler/src/mir_representation.rs:849-899 | the writer of constants appends the text of the constant tree |
| `MirWriter.WriteValue` | compiler/src/mir_representation.rs:901-917 | the writer of values appends their text |
| `MirWriter.WriteProjection` | compiler/src/mir_representation.rs:933-951 | the writer of projections appends their text |
| `MirWriter.WritePlace` | compiler/src/mir_representation.rs:919-931 | the writer of places appends their text |
| `MirWriter.WriteRValue` | compiler/src/mir_representation.rs:953-1047 | the writer of right-hand sides appends their text |
| `MirWriter.WriteAggregateKind` | compiler/src/mir_representation.rs:1049-1073 | the writer of aggregate kinds appends their text |
| `MirWriter.WriteStmt` | compiler/src/mir_representation.rs:1075-1135 | the writer of statements appends their text |
| `MirWriter.WriteTerminator` | compiler/src/mir_representation.rs:1137-1240 | the writer of terminators appends their text |
| `MirLoops.ControlFlow.CollectLoopEdges` | compiler/src/mir_representation.rs:479-528 | one terminator raises the loop flag exactly when one of its edges, unwinding included, does not go to a larger block number |
| `MirLoops.ControlFlow.CollectTerminator` | compiler/src/mir_representation.rs:446-477 | each other flag is raised exactly by its kinds of terminators |
| `MirLoops.ControlFlow.Collect` | compiler/src/mir_representation.rs:254-273 | over a module the flag ends false exactly when every edge of every function ascends; blocks are counted and the other flags are exact |
| `MirLoops.SuccessorsAreJumps` | compiler/src/mir_representation.rs:479-528 | the edges that are noted lead exactly to the blocks that control can pass to: by going on, by either outcome of a condition, by a case of a switch or by none, and by unwinding |
| `MirLoops.MarksAreDecisions` | compiler/src/mir_representation.rs:446-477 | the other flags are raised by the terminators that decide on a condition, that switch, that call, and by the unreachable one |
| `MirLoops.WalksAreRuns` | compiler/src/mir_representation.rs:479-528 | the walks of the laws below are exactly what runs of the function leave behind |
| `MirLoops.FalseFlagMeansAcyclic` | compiler/src/mir_representation.rs:254-273 | when the flag is false no walk in any function repeats a block, and where targets exist a walk visits at most as many blocks as the function has |
| `MirLoops.CyclesAreSeen` | compiler/src/mir_representation.rs:479-528 | a cycle in any function raises the flag |
| `MirLoops.RaisedWithoutACycle` | compiler/src/mir_representation.rs:479-528 | the converse fails: two blocks whose only edge goes back raise the flag |
| `MirLoops.AcyclicIffRenumberable` | compiler/src/mir_representation.rs:479-528 | what the flag says up to numbering: a function has no cycle exactly when its blocks can be renumbered, from zero and without gaps, so that the flag stays false |
| `MirLoops.AscendingIsAcyclic` | compiler/src/mir_representation.rs:479-528 | any numbers at all, shared ones too, that leave the flag false show that there is no cycle |
| `MirLoops.RenumberingKeepsEdges` | compiler/src/mir_representation.rs:479-528 | control passes between the new numbers exactly as between the old |
| `MirLoops.JumpsAreRenumbered` | compiler/src/mir_representation.rs:479-528 | what happens at the end of a renumbered block leads to the new number of the same block |
| `MirLoops.ChainMeetsTheBound` | compiler/src/mir_representation.rs:479-528 | the bound on walks is reached |
| `Units.Multiply` | compiler/src/units.rs:149-155 | the product adds exponents, or leaves 32 bits |
| `Units.Divide` | compiler/src/units.rs:159-165 | the quotient subtracts exponents, or leaves 32 bits |
| `Units.Powi` | compiler/src/units.rs:168-174 | the power scales exponents, or leaves 32 bits |
| `Units.Reciprocal` | compiler/src/units.rs:177-179 | the reciprocal is the quotient of the dimensionless by the dimension |
| `Units.QuotientUndoesProduct` | compiler/src/units.rs:149-179 | quotient and product undo each other as far as 32 bits reach; dividing is multiplying by the reciprocal |
| `Units.PrintDimension` | compiler/src/units.rs:230-255 | the printing loop yields the canonical string, or overflows at the least exponent |
| `UnitParse.Tokenize` | compiler/src/units.rs:447-496 | the tokenizer loop yields the tokens, or the first error |
| `UnitParse.ReadFactor` | compiler/src/units.rs:419-443 | one factor and the index after it, or its error |
| `UnitParse.ParseUnit` | compiler/src/units.rs:371-415 | the parser loop yields the dimension that the tokens spell from left to right, or the first error |
| `UnitLex.ParseIsOfTokens` | compiler/src/units.rs:371-381 | trimming does not change the tokens; an accepted annotation has some |
| `UnitLex.TokensAppend` | compiler/src/units.rs:447-496 | before an operator, the tokens of a joined text are those of its parts |
| `UnitErrors.TokensOfParts` | compiler/src/units.rs:447-496 | a text may be cut wherever no word or number goes on: its tokens are those of its parts |
| `UnitErrors.WhatIsAToken` | compiler/src/units.rs:447-496 | white space is no token; an operator, a run of letters, and a run of digits, also behind a minus sign, are one each |
| `UnitErrors.WhatIsNone` | compiler/src/units.rs:447-496 | any other character, and a minus sign without a digit behind it, ends the scan with its error |
| `UnitErrors.Characters` | compiler/src/units.rs:447-496 | the characters of words, numbers and white space |
| `UnitErrors.WhatIsAPower` | compiler/src/units.rs:419-443 | a power is a run of digits, perhaps behind a sign, of a number of 32 bits |
| `UnitErrors.NothingBehind` | compiler/src/units.rs:385-443 | an operator at the end of an annotation |
| `UnitErrors.UnitIsMissing` | compiler/src/units.rs:385-443 | two operators in a row |
| `UnitErrors.OperatorIsMissing` | compiler/src/units.rs:385-443 | two factors without an operator between them |
| `UnitErrors.UnitIsUnknown` | compiler/src/units.rs:385-443 | a unit that is not in the table |
| `UnitErrors.PowerIsMissing` | compiler/src/units.rs:419-443 | a power sign at the end of an annotation |
| `UnitErrors.PowerIsNone` | compiler/src/units.rs:419-443 | a power that is no 32-bit number |
| `UnitErrors.Blank` | compiler/src/units.rs:371-376 | an annotation of nothing but white space |
| `UnitTable.BaseUnits` | compiler/src/units.rs:317-332 | the seven base units have the exponents of their place |
| `UnitTable.DerivedUnits` | compiler/src/units.rs:333-351 | each derived unit parses to what its definition parses to |
| `UnitTable.KnownTokens` | compiler/src/units.rs:317-354 | no other token is a unit |
| `UnitTable.OneMoreFactor` | compiler/src/units.rs:385-415 | one more factor multiplies or divides what was read before |
| `UnitTable.PrintedForm` | compiler/src/units.rs:230-255 | the printed form: positive powers in the order of the base units, then a slash and the negative ones |
| `UnitLaws.PrintThenParse` | compiler/src/units.rs:230-415 | parsing a canonical string gives the dimension with the sign of every negative exponent after the first turned; so print and parse cancel exactly when at most one exponent is negative |
| `UnitLaws.CanonicalInjective` | compiler/src/units.rs:230-255 | two dimensions have one canonical string exactly when they are the same |
| `UnitLaws.SameStringSameDimension` | compiler/src/units.rs:498-505 | two accepted annotations canonicalize to one string exactly when they parse to one dimension |
| `UnitLaws.CanonicalizeAgain` | compiler/src/units.rs:498-505 | a canonical string is its own canonical string exactly when at most one exponent is negative |
| `UnitLaws.VoltPrintsWrong` | compiler/src/units.rs:230-350 | the volt prints as a string that parses to another dimension |
| `UnitLaws.SlashIsInversePower` | compiler/src/units.rs:385-443 | after an accepted annotation, dividing by a unit and multiplying by its power -1 give the same dimension or the same error |
| `UnitLaws.SlashPowerIsOppositePower` | compiler/src/units.rs:385-443 | for every 32-bit n, dividing by a power n and multiplying by the power -n give the same result or error exactly when the unit is unknown, or n has an opposite and the powers fit 32 bits on both sides or on neither, or the quotient does not fit anyway |
| `UnitLaws.EdgePowersDiffer` | compiler/src/units.rs:385-443 | both edges occur: the coulomb at the least exponent, the newton at 2^30 |
| `UnitSums.MeansTheSignedSum` | compiler/src/units.rs:371-443 | an annotation spelled from known units means the signed sum of their powers, or overflows when a power or a partial sum does |
| `UnitSums.OnlySumsAreAccepted` | compiler/src/units.rs:371-443 | nothing else is accepted |
| `UnitSums.SameTermsSameDimension` | compiler/src/units.rs:371-443 | two accepted annotations spelled from the same terms in any order parse to the same dimension |
| `CardWidth.WidestCovers` | tools/repo_card.py:75-91 | each of the renderer's four tables gives every character, off the table too, at least what any face of its group does |
| `CardWidth.FaceWithinTable` | tools/check_repo_card.py:71-88 | a face draws no text wider than the table says, but for the slack of the table |
| `CardWidth.WidestFace` | tools/check_repo_card.py:71-80 | the widest face is the first with the largest width |
| `CardWidth.FacesUnderestimated` | tools/check_repo_card.py:146-162 | over all tables the check reports exactly the wrong lengths and the characters a face draws wider than its table by more than the tolerance |
| `CardWidth.RendererPasses` | tools/repo_card.py:75-90 | the four tables of the renderer pass that check |
| `CardWidth.PassingTableCovers` | tools/check_repo_card.py:146-162 | a table that passes covers every face within the tolerance |
| `CardMeasure.OneCharacter` | tools/check_repo_card.py:71-80 | a character from the space to the tilde draws its advance at 11.5 pixels, any other what the widest draws |
| `CardMeasure.SideBySide` | tools/repo_card.py:109-119 | a text draws what its characters draw, in the renderer and in each face |
| `CardMeasure.EntriesAreAdvances` | tools/repo_card.py:75-85 | each entry of a table is the advance of some face, and no face has more |
| `CardMeasure.OffIsWidest` | tools/repo_card.py:91 | what a character outside the tables is taken to draw is the widest entry of all four |
| `CardMeasure.Tolerated` | tools/check_repo_card.py:157 | an entry is reported exactly when it is more than a billionth of an em too small |
| `CardWrap.Wrap` | tools/repo_card.py:136-155 | the wrapper loop returns the greedy lines, cut to the limit |
| `CardWrap.BlankParts` | tools/repo_card.py:147 | a blank parts the words before it from those behind it |
| `CardWrap.Blanks` | tools/repo_card.py:147 | the characters that Python takes for white space |
| `CardWrap.WordIsItself` | tools/repo_card.py:147 | a word is its only word |
| `CardWrap.OnlyWords` | tools/repo_card.py:147 | nothing else splits a text so: these laws fix the words |
| `CardWrap.StripEnds` | tools/repo_card.py:148 | strip takes the blanks off both ends |
| `CardGate.GreedyIsFewest` | tools/repo_card.py:136-155 | no breaking whose lines fit or are single words uses fewer lines than the greedy one, from any word on |
| `CardGate.GreedyIsBreaking` | tools/repo_card.py:136-155 | the greedy lines are such a breaking |
| `CardGate.FewestDecides` | tools/repo_card.py:136-155 | the greedy lines are within a limit exactly when some breaking is |
| `CardGate.GreedyKeepsText` | tools/repo_card.py:136-155 | the greedy lines joined are the words of the text |
| `CardGate.GreedyEndings` | tools/check_repo_card.py:100-102 | the joined lines are the joined words exactly when nothing was cut |
| `CardGate.Over` | tools/check_repo_card.py:83-88 | a line is reported exactly when some face draws it wider than the budget |
| `CardGate.LinesThatRunLong` | tools/check_repo_card.py:91-104 | a lost ending is reported exactly when no breaking into that many lines exists, and a long line exactly when a drawn line overruns a face |
| `CardGate.NoWrappedLineFails` | tools/repo_card.py:75-155 | when every word fits the budget, no wrapped line overruns any face |
| `CardGate.NoteOverflows` | tools/check_repo_card.py:107-115 | for a text whose words fit, the gate passes exactly when the text can be set in the lines there are |
| `Cmap.Choose` | typeset/engine/cmap.py:6-16 | the chosen subtable is the first of highest rank; errors are a short table, or no usable subtable |
| `Cmap.WriteSegment` | typeset/engine/cmap.py:27-36 | one segment writes exactly its codes with a glyph over the dictionary |
| `Cmap.ReadFormat4` | typeset/engine/cmap.py:19-36 | format 4 succeeds exactly when all it reads is there, and then holds for each code what the last segment with a glyph for it says |
| `Cmap.ReadFormat12` | typeset/engine/cmap.py:37-42 | format 12 maps a code exactly when a group covers it, by the last that does |
| `Cmap.ReadCmap` | typeset/engine/cmap.py:5-42 | the whole reader expands the chosen subtable, with the exact error conditions |
| `Cmap.DictionaryIsLookup4` | typeset/engine/cmap.py:19-36 | for sorted disjoint segments and every code below 0xFFFF the dictionary is the lookup of the standard, glyph 0 standing for no entry |
| `Cmap.DictionaryIsLookup12` | typeset/engine/cmap.py:37-42 | for disjoint groups in any order the dictionary is the lookup of the standard |
| `Cmap.OverlapsDiffer` | typeset/engine/cmap.py:25-36 | a readable subtable of two overlapping segments for which the dictionary takes the last and the standard the first |
| `Cmap.AgreesExactlyWhenDisjoint` | typeset/engine/cmap.py:19-36 | for segments in order of their ends, the dictionary is the lookup of the standard for every code below 0xFFFF and whatever glyphs, exactly when no segment that starts below 0xFFFF starts before an earlier one has ended |
| `Cmap.TableHasShape` | typeset/engine/cmap.py:19-28 | every such choice of segments and deltas is read from some subtable |
| `CmapBytes.RecordIsSpelled` | typeset/engine/cmap.py:8-11 | a record is read as its bytes spell it, with the format of its subtable |
| `CmapBytes.CountIsSpelled` | typeset/engine/cmap.py:8 | the number of records stands after two bytes |
| `CmapBytes.BestRecord` | typeset/engine/cmap.py:12-14 | the best record is the first of format 12 on a Unicode platform, or else the first of format 4 |
| `CmapBytes.SegmentsAreSpelled` | typeset/engine/cmap.py:19-25 | the segments of a format 4 subtable are those that its bytes spell |
| `CmapBytes.GlyphByDelta` | typeset/engine/cmap.py:26-36 | without a range offset the glyph is the code and the delta, modulo 65536 |
| `CmapBytes.GlyphByArray` | typeset/engine/cmap.py:26-36 | with one it is the word of the glyph array that the range offset points to, and the delta |
| `CmapBytes.LastCodeIsLeftOut` | typeset/engine/cmap.py:27-29 | the code 65535 is never written |
| `CmapBytes.SpelledExpands4` | typeset/engine/cmap.py:19-36 | when no code is in two segments, the dictionary holds the glyph of each code in its segment |
| `CmapBytes.GroupsAreSpelled` | typeset/engine/cmap.py:38-40 | the groups of a format 12 subtable are exactly those that its bytes spell |
| `CmapBytes.SpelledExpands12` | typeset/engine/cmap.py:37-42 | when no code is in two groups, the dictionary holds each code of each group with the glyph of the group counted on |
| `CmapBytes.HeaderIsThere` | typeset/engine/cmap.py:6-12 | the header is readable exactly when all its records and formats lie within the data |
| `CmapBytes.GlyphsAreThere` | typeset/engine/cmap.py:26-36 | the glyphs of a segment are readable exactly when the word of its last code lies within the data |
| `Bits.CountOnes` | stdlib/bitwise.c:1387-1412 | the counting loop ends with the number of ones |
| `Bits.OnesCounts` | stdlib/bitwise.c:1387-1412 | the number of ones is the number of positions whose bit is set |
| `Bits.IsPowerOfTwo` | stdlib/bitwise.c:1427-1449 | the test holds exactly when n is a power of two, and exactly when n > 0 and the counting loop ends with 1 |
| `Bits.NextPowerOfTwo` | stdlib/bitwise.c:1451-1498 | the smearing yields the least power of two from n on for every n up to 2^30, and overflows beyond |
| `Bits.SmearDoubles` | stdlib/bitwise.c:1476-1493 | a shift by w doubles the distance over which every one has been spread |
| `Bits.LeadingZeros` | stdlib/bitwise.c:1500-1549 | the scan yields 30 minus the top bit position, 32 for zero and 0 for negative numbers |
| `Bits.NextFromLeadingZeros` | stdlib/bitwise.c:1451-1549 | for 2 <= n <= 2^30 the next power of two is 2 to the 31 - leading_zeros(n - 1) |

## Left out

- Event ring: reading and parsing lines, and starting the thread; an arrival is any six words. Counters stay below the largest `long`.
- Event ring: doubles are kept as opaque words. A load of the other thread's counter sees every value from the last one seen on; the counters' own words never tear.
- Hash map: the string and 64-bit maps are the same algorithm with another hash; their copies of keys are not modelled. Allocation failure and sizes beyond `size_t` are not modelled.
- StringScan.Split: requires the delimiter to be no longer than the text, because `s.len - delim.len` wraps otherwise and the code then reads past the text.
- StringScan.Replace: with a NUL in the old text the code searches for the part before it and steps by the whole length; texts in which such a step passes the end of the text are excluded, because the code then reads past it. The result's length fits `size_t`.
- BdfMessage.MessageRoundTrip: strings are their UTF-8 bytes, and payload digests are plain byte strings, because the hash is not part of this model.
- BDF: the JSON projections; recursion depth. Floats are 64-bit patterns.
- MirDigest.RValueTextDetermines: leaves out pairs of trees in which a field name holds the type line of its own projection and each tree, or what follows it, holds a type line of one of its projections out of place; those names are printed unescaped, and `PlacesCollide` and the lemmas beside it show that such pairs can collide. The same holds for statements, terminators and bodies.
- MIR text: the header lines of modules and functions, locals, globals, type definitions, externals, trait methods, bindings and uniforms; the SHA-256 of the text. Escapes are those of serde_json; the encoding of the text in bytes is not modelled.
- MIR summary: the inventories of names and the memory surfaces, which are sets of names seen.
- UnitParse.ReadFactor: the code panics on overflow in checked builds and wraps in others; the model has one outcome for both.
- Units: error message texts are kept as their reasons. The checks of addition, subtraction and comparison only compare dimensions for equality.
- Card: widths are real numbers, so rounding is not modelled. The other roles, row heights and the drawing itself are left out; the limit is not negative.
- Card: `text.split` and `strip` follow Python's white space.
- Cmap: the table directory and every other table of the font.
- Bits.CountOnes: only for numbers that are not negative, because on negative ones the arithmetic shift never reaches zero.
- Bits: rotations and the single-bit operations.
- Methods that the source writes as one function are split where a proof is easier to read: a loop body or a match arm may be a method of its own.
- Sorting and binary search of the standard library, receipts, the command line and the graphics code are not part of this model.
