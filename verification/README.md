# Robot Raconteur: message codec, transport, client and Python values

This project models the parts of the Robot Raconteur core library in which state is carried from one
callback to the next, and proves what they promise.

- **Message codec, version 4** (`Numbers`, `Messages`, `Layout`, `WireBytes`, `Sizes`, `Sizable`, `Restriction`, `Pieces`, `Frames`, `Writers`,
  `ReaderFrames`, `ReaderTurns`, `ReaderFields`, `ReaderData`, `Readers`, `Fidelity`, `Transfers`). The writer and
  the reader are stack machines that can be stopped at any byte. `Encode` is the one layout of a message. `Pieces` says
  what of it goes over at once and what may be cut. The writer class is proved to emit it under every quota, going on
  exactly when the piece at hand fits; the reader class is proved to invert it under every cutting, and to end and to
  conserve bytes on every input. `Transfers.Transfer` joins the two. `WireBytes` says which bytes these are, and `Sizable`
  which messages can be sized.
- **Stream transport** (`StreamSending`, `StreamReceiving`, `MessageStreams`): partial writes, the coalescing queue, pause
  and resume; framing over WebSocket messages that are cut in any way; and from the one to the other.
- **Client** (`Requests`, `ServiceImports`): request ids and handlers over every way a request can end; the closure of
  service imports.
- **Data types** (`CopyIndices`, `TimeSpecs`, `IndexEscape`): the odometer behind multi-dimensional block copies, time
  arithmetic, escaped indices.
- **Python values** (`PythonValues`, `ValueTypes`, `ElementTypes`, `Packing`, `Unpacking`, `PackRoundTrip`, `ValuesOnWire`): which values
  are of which type, packing by type,
  unpacking, and a value's whole way through pack, wire and unpack.
- **Discovery** (`DiscoveryCache`): the cache of announced nodes as a view of the history of announcements.

`Results` holds exceptions as values. Classes follow the source's objects and their fields; a `ghost` field such as
`taken`, `wire`, `arrived` or `accepted` records what has gone in or out, so that invariants speak of whole runs.
Every method that changes state is proved against a function or predicate of its old state.
`dafny verify dfyconfig.toml` checks the whole project.

## Where the code does not do what it is for

These are proved, each with the exact condition.

- Chunk independence fails for extended blocks: they are read at once, out of 128 carried-over bytes and one chunk. In
  chunks of one size a message is read if and only if these can hold each of its pieces (`Transfers.ReadEvenly`); a
  message and a run that never ends are given for every chunk size (`Transfers.NeverRead`).
- Sizes are added up in 32 bits without a check at any level: the stored sizes describe the bytes if and only if the
  message in full stays within 32 bits (`Sizes.ComputedSizeIsExact`), and messages are given whose sizes wrap
  (`Sizes.MessageSizeWraps`, `Sizes.EntrySizeWraps`).
- A block copy with an empty dimension above the first never ends, and only such a one does not
  (`CopyIndices.CallNext`, with a block in `CopyIndices.NeverEnds`), and a position and count whose 32-bit sum wraps
  pass the bounds check (`CopyIndices.AcceptsExactly`, `CopyIndices.AcceptsWrapped`).
- `decode_index` undoes `encode_index` if and only if all characters are ASCII (`IndexEscape.RoundTrip`).
- The length of numpy arrays is not checked when they are packed, that of lists is
  (`PackRoundTrip.WrongLengthIsPacked`), and a
  null cuts a map key short (`PackRoundTrip.NullInKeyIsLost`); `PackRoundTrip.RoundTrip` gives the exact condition.
- The unpacker goes by the type of the element, not by the type that is expected: which elements it takes is given
  exactly (`Unpacking.UnpackedWhenUnpackable`), and a string is taken for any type (`Unpacking.TextForAnyType`).
- A map key that is no int32 is named in the exception if and only if it is a number that fits a C long
  (`Packing.BadKeyIsNamed`); where long has 32 bits none is (`Packing.NeverNamedIn32Bits`).

The comments of `TimeSpec` (`RobotRaconteurCore/include/RobotRaconteur/DataTypes.h:2768`) describe nanoseconds from 0
to 999999999; the code keeps them of the sign of the seconds, and the model follows the code. A request whose sending
throws leaves its handler registered (`RobotRaconteurCore/src/Client.cpp:496-550`), and it is called later by the
timeout or the close; the model keeps that.

## Model

| member | source | states |
|---|---|---|
| Transfers.Transfer | RobotRaconteurCore/src/AsyncMessageWriter.cpp:765-1376 | The round trip: for every message whose size in full stays within 32 bits, any quotas and work buffers that take the piece at hand and any way of cutting the bytes in which chunk and carry-over buffer hold the piece at hand, the receiver reads exactly one message, and it keeps every field that the sender has set and not switched off. Sending fails if and only if the message has more than 65535 entries, a string table over 1024 bytes, or at some depth an element with both a name and a number or with elements nested under a code other than those of structures, maps, lists, pods and named arrays; where 32 bits do not hold the message the condition says which texts and which wrapped sums are too long |
| Transfers.ReadAll | RobotRaconteurCore/src/AsyncMessageReader.cpp:893-1558 | Chunk independence: however the bytes of a consistent message (with anything behind it) are cut into chunks, as long as each together with the carry-over buffer holds the piece that is at hand at that call, and whichever of them the transport puts straight into a waiting array, no call throws, the read is done at the last byte and the message is the one encoded; up to 128 of the bytes behind it may be in the carry-over buffer then, and count as used |
| Transfers.ReadEvenly | RobotRaconteurCore/src/AsyncMessageReader.cpp:893-1558 | The exact condition, for chunks of one size: with calls enough the message is read if and only if 128 bytes and a chunk can hold each of its pieces |
| Transfers.ReadInCalls | RobotRaconteurCore/src/AsyncMessageReader.cpp:893-1558 | For chunks of any sizes: if each of the calls made, with the carry-over buffer, can hold the piece that is at hand at it, as many calls as the message has bytes are enough; and while there is a piece that no call can hold the message is never done, however often the reader is called |
| Transfers.NeverRead | RobotRaconteurCore/src/AsyncMessageReader.cpp:107-142 | Witness, for every chunk size from 12 to 2^30: a message that a sender can size and write, which a reader that has just been made never finishes, in any number of calls |
| Transfers.LongHeaderIsConsistent | RobotRaconteurCore/src/Message.cpp:273-365 | The witness: a header with an extended block of 129 bytes more than the chunk is sized without an error, describes its bytes and has that block as one piece |
| Transfers.TakenIsBoundary | RobotRaconteurCore/src/AsyncMessageReader.cpp:107-213 | Between calls the bytes read never end inside a piece that is read at once: a number, a flags byte, a node id or an extended block |
| Pieces.PiecesCover | RobotRaconteurCore/src/AsyncMessageWriter.cpp:778-1370 | The pieces of a message, at every depth, are together as long as its encoding |
| Frames.ApplyTakes | RobotRaconteurCore/src/AsyncMessageWriter.cpp:64-98 | What a turn takes are the first pieces of the whole stack, and none that goes over at once is split |
| Transfers.Stall | RobotRaconteurCore/src/AsyncMessageReader.cpp:107-142 | On any input: with a full carry-over buffer and an extended block at hand longer than buffer and chunk together, every call hands its whole chunk back and changes nothing, for any sequence of such chunks |
| Transfers.Feed | RobotRaconteurCore/src/AsyncMessageReader.cpp:1445-1499 | One delivery, in band or straight into the waiting array, moves the reader forward in the stream without losing or repeating a byte, and moves it at all whenever the chunk with the carry-over buffer can hold the longest block |
| Writers.WriteAll | RobotRaconteurCore/src/AsyncMessageWriter.cpp:765-1376 | Quota independence: for all quotas and work buffers, chosen call by call, that take the piece at hand at each call, the concatenation of what all Write4 calls hand out is the one encoding of the message, the calls end, and none throws; it starts with RRAC, the number of all the bytes with the low byte first, and 4 and 0 |
| Writers.WriteInCalls | RobotRaconteurCore/src/AsyncMessageWriter.cpp:765-1376 | For quotas and work buffers of any sizes: the calls hand out the beginning of the encoding, each of them goes on if and only if the piece at hand fits it, as many calls as the message has bytes are enough when it always does, and while there is a piece that no call takes the message is never done |
| Writers.WriteEvenly | RobotRaconteurCore/src/AsyncMessageWriter.cpp:136-150 | The exact condition, for quotas and work buffers of one size: with calls enough the message goes out if and only if they take each of its pieces; arrays need no work buffer |
| Writers.AsyncMessageWriter.Write4 | RobotRaconteurCore/src/AsyncMessageWriter.cpp:765-1376 | One call hands out the next bytes of the encoding, copied bytes and array slices in order, within the quota; the first ten bytes of all that is handed out are RRAC, the size of the whole with the low byte first, and 4 and 0; it is done exactly when the encoding is complete, never throws, hands out something if and only if the quota and the work buffer take the piece at hand, and no piece that did not fit |
| WireBytes.EncodingStarts | RobotRaconteurCore/src/AsyncMessageWriter.cpp:805-827 | Every encoding starts with RRAC, the four bytes of its message size, low byte first, and 4 and 0 |
| WireBytes.Masks | RobotRaconteurCore/include/RobotRaconteur/RobotRaconteurConstants.h:148-202 | Every flag is the bit of the flags byte that its mask in the constants header has |
| WireBytes.MemorySizes | RobotRaconteurCore/src/DataTypes.cpp:237-275 | Signed and unsigned integers take 1, 2, 4 and 8 bytes, doubles 8 and singles 4, complex numbers two of them, characters and booleans 1 |
| Writers.AsyncMessageWriter.Run | RobotRaconteurCore/src/AsyncMessageWriter.cpp:774-1375 | The loop around the switch ends, by bytes to write, stack depth and state rank, and stops with the stack still standing for exactly the bytes that have not been written, and only where the next piece does not fit what is left |
| Writers.AsyncMessageWriter.Turn | RobotRaconteurCore/src/AsyncMessageWriter.cpp:774-1375 | One pass of the switch on a stack that stands for the rest of the encoding leaves such a stack, as many bytes further on as were written, and never takes the invalid-state branch |
| Writers.AsyncMessageWriter.BeginWrite | RobotRaconteurCore/src/AsyncMessageWriter.cpp:324-358 | The stack after BeginWrite stands for the whole encoding, for every message whose size in full stays within 32 bits |
| Writers.AsyncMessageWriter.PrepareContinue | RobotRaconteurCore/src/AsyncMessageWriter.cpp:100-122 | The part of the work buffer that has been used is handed out behind what was handed out before, and nothing twice |
| Writers.AsyncMessageWriter.WriteSomeBytes | RobotRaconteurCore/src/AsyncMessageWriter.cpp:152-166 | As many bytes go out as limit, quota and work buffer allow, in order |
| Writers.AsyncMessageWriter.WriteAllBytes | RobotRaconteurCore/src/AsyncMessageWriter.cpp:136-150 | All of the bytes or none go out; past the limit is an exception |
| Writers.AsyncMessageWriter.PutString | RobotRaconteurCore/src/AsyncMessageWriter.cpp:296-315 | A string goes out behind its length, which is not split; the text may be, and then a frame of its own stands for the rest |
| Writers.AsyncMessageWriter.StepHeader | RobotRaconteurCore/src/AsyncMessageWriter.cpp:798-979 | Every header state writes the next bytes of the header layout, for all flags |
| Writers.AsyncMessageWriter.StepEntry | RobotRaconteurCore/src/AsyncMessageWriter.cpp:991-1123 | Every entry state writes the next bytes of the entry layout and hands over to its elements in order |
| Writers.AsyncMessageWriter.StepElement | RobotRaconteurCore/src/AsyncMessageWriter.cpp:1124-1278 | Every element state writes the next bytes of the element layout and hands over to its content |
| Writers.AsyncMessageWriter.StepNested | RobotRaconteurCore/src/AsyncMessageWriter.cpp:1352-1370 | A nested list is written element by element, to any depth |
| Writers.AsyncMessageWriter.StepArray1 | RobotRaconteurCore/src/AsyncMessageWriter.cpp:1279-1309 | Small arrays are copied and others are handed out as slices of their memory, in either case the next bytes of the encoding |
| Writers.AsyncMessageWriter.StepArray2 | RobotRaconteurCore/src/AsyncMessageWriter.cpp:1310-1333 | The rest of an array goes out in slices no longer than the quota |
| Writers.AsyncMessageWriter.StepString | RobotRaconteurCore/src/AsyncMessageWriter.cpp:1334-1351 | The rest of an interrupted string |
| Writers.AsyncMessageWriter.StepMessage | RobotRaconteurCore/src/AsyncMessageWriter.cpp:778-997 | Header, then entries in order, then done exactly at the message size |
| Writers.AsyncMessageWriter.WriteRemaining | RobotRaconteurCore/src/AsyncMessageWriter.cpp:1378-1381 | The bytes that are left to write |
| Writers.AsyncMessageWriter.Reset | RobotRaconteurCore/src/AsyncMessageWriter.cpp:317-322 | Nothing of the message before is left |
| Frames.ApplyKeepsGood | RobotRaconteurCore/src/AsyncMessageWriter.cpp:64-98 | push_state and pop_state keep the stack a point of the same writing, as many bytes further on as were written |
| Frames.ApplyLowers | RobotRaconteurCore/src/AsyncMessageWriter.cpp:774-1375 | Termination: a turn that goes on without writing lowers stack depth and state rank together |
| Frames.LimitsNest | RobotRaconteurCore/src/AsyncMessageWriter.cpp:54-62 | The frames' limits lie inside each other |
| Readers.AsyncMessageReader.Read4 | RobotRaconteurCore/src/AsyncMessageReader.cpp:893-1558 | For all inputs, malformed ones included: the call ends; bytes taken plus bytes carried over are exactly the bytes offered, in order; bytes are handed back only when the carry-over buffer is full; bytes are asked for directly exactly when an array lacks them; done means that as many bytes have been read as the message that was read says; and with nothing new nothing changes. For the bytes of a consistent message: no exception, done exactly when the last byte has been offered, and the message read is that message restricted to its flags |
| Readers.AsyncMessageReader.Run | RobotRaconteurCore/src/AsyncMessageReader.cpp:897-1557 | The loop around the switch ends on every input, by bytes ahead, stack depth and state rank, and for a consistent message keeps the stack at a point of reading it |
| Readers.AsyncMessageReader.Turn | RobotRaconteurCore/src/AsyncMessageReader.cpp:897-1557 | One pass of the switch on any stack keeps the stack well formed, consumes what it reads, and lowers the measure; on a point of reading a message it leads to another |
| Readers.AsyncMessageReader.Enact | RobotRaconteurCore/src/AsyncMessageReader.cpp:71-105 | push_state, pop_state and changes of the top frame keep limits, nesting and the partly read message in order |
| Readers.AsyncMessageReader.PrepareContinue | RobotRaconteurCore/src/AsyncMessageReader.cpp:107-142 | What was read is dropped, the buffer is compacted and filled from the chunk: nothing lost, nothing repeated, and bytes are left with the caller only when the 128 bytes are full |
| Readers.AsyncMessageReader.Compact | RobotRaconteurCore/src/AsyncMessageReader.cpp:109-123 | The unread bytes stay, in order, at the front of the buffer |
| Readers.AsyncMessageReader.TopUp | RobotRaconteurCore/src/AsyncMessageReader.cpp:125-141 | The buffer takes as many bytes of the chunk as fit, in order |
| Readers.AsyncMessageReader.ReadAllBytes | RobotRaconteurCore/src/AsyncMessageReader.cpp:151-165 | All of the next bytes or none; past the limit is an exception |
| Readers.AsyncMessageReader.ReadSomeBytes | RobotRaconteurCore/src/AsyncMessageReader.cpp:167-213 | The next bytes, first from the buffer and then from the chunk, as many as limit and what is ahead allow |
| Readers.AsyncMessageReader.Consume | RobotRaconteurCore/src/AsyncMessageReader.cpp:167-213 | Taking n bytes out of buffer and chunk takes the first n bytes ahead and leaves the others |
| Readers.AsyncMessageReader.PeekByte | RobotRaconteurCore/src/AsyncMessageReader.cpp:215-231 | The next byte, without taking it |
| Readers.AsyncMessageReader.ReadUintX | RobotRaconteurCore/src/AsyncMessageReader.cpp:233-263 | Takes one UintX off the bytes ahead, or waits with nothing taken, or refuses the marker 255 |
| Readers.AsyncMessageReader.ReadIntX | RobotRaconteurCore/src/AsyncMessageReader.cpp:306-337 | Takes one IntX off the bytes ahead, or waits with nothing taken, or refuses the marker 127 |
| Readers.AsyncMessageReader.TextField | RobotRaconteurCore/src/AsyncMessageReader.cpp:410-427 | A string after its length, as far as it is there; the rest is read by a frame of its own |
| Readers.AsyncMessageReader.TextRest | RobotRaconteurCore/src/AsyncMessageReader.cpp:383-401 | The text may arrive in any pieces and is put together in order |
| Readers.AsyncMessageReader.StepHeaderInit | RobotRaconteurCore/src/AsyncMessageReader.cpp:913-934 | The first twelve bytes, at once: magic, message size and version are checked before anything is taken over |
| Readers.AsyncMessageReader.StepHeader | RobotRaconteurCore/src/AsyncMessageReader.cpp:935-1105 | Every header state reads the field that the layout has there, for all flags |
| Readers.AsyncMessageReader.StepHeaderTable | RobotRaconteurCore/src/AsyncMessageReader.cpp:1032-1057 | The string table, item by item, its items no more than its count |
| Readers.AsyncMessageReader.StepEntry | RobotRaconteurCore/src/AsyncMessageReader.cpp:1118-1258 | Every entry state reads the field that the layout has there |
| Readers.AsyncMessageReader.StepElement | RobotRaconteurCore/src/AsyncMessageReader.cpp:1259-1422 | Every element state reads the field that the layout has there |
| Readers.AsyncMessageReader.StepElementData | RobotRaconteurCore/src/AsyncMessageReader.cpp:1371-1415 | From the type and count of an element to a list or an array of that size; an array past 32 bits is refused |
| Readers.AsyncMessageReader.StepNested | RobotRaconteurCore/src/AsyncMessageReader.cpp:1500-1531 | A nested list is read element by element, to any depth, and has the type and type name of its element |
| Readers.AsyncMessageReader.StepArray1 | RobotRaconteurCore/src/AsyncMessageReader.cpp:1423-1444 | What is ahead of an array goes into it, and the transport is asked for the rest |
| Readers.AsyncMessageReader.StepArray2 | RobotRaconteurCore/src/AsyncMessageReader.cpp:1445-1499 | Later bytes of an array arrive in order by either way |
| Readers.AsyncMessageReader.StepString | RobotRaconteurCore/src/AsyncMessageReader.cpp:1532-1552 | Later bytes of a string arrive in order |
| Readers.AsyncMessageReader.StepMessage | RobotRaconteurCore/src/AsyncMessageReader.cpp:901-1117 | Header, then as many entries as it counts, then done exactly at the message size |
| Readers.AsyncMessageReader.Reset | RobotRaconteurCore/src/AsyncMessageReader.cpp:436-452 | Nothing of the message before is left |
| Readers.AsyncMessageReader.GetNextMessage | RobotRaconteurCore/src/AsyncMessageReader.cpp:1565-1573 | Messages are handed over once, in the order read |
| ReaderFrames.MoveSinks | RobotRaconteurCore/src/AsyncMessageReader.cpp:71-105 | Termination: a move that reads nothing lowers depth and rank together, on every input |
| ReaderFrames.MoveKeepsTracks | RobotRaconteurCore/src/AsyncMessageReader.cpp:71-105 | A move of the reader's stack and the step of the writing it answers stay together: the reader holds exactly what was written so far |
| ReaderFrames.MoveKeepsWellFormed | RobotRaconteurCore/src/AsyncMessageReader.cpp:71-105 | On every input the frames' limits, kinds and partly read contents stay in order |
| ReaderData.TurnKeepsPoint | RobotRaconteurCore/src/AsyncMessageReader.cpp:897-1557 | One pass from a point of reading a message leads to a point of reading the same message, as many bytes further on |
| ReaderData.FinishedMessage | RobotRaconteurCore/src/AsyncMessageReader.cpp:908-912 | At the end of the bytes the stack holds the whole message, restricted to its flags |
| ReaderTurns.UintXAhead | RobotRaconteurCore/src/AsyncMessageReader.cpp:233-263 | Bytes that agree with a UintX, as far as they go, decode to it or are too short: no split decodes to something else |
| ReaderTurns.IntXAhead | RobotRaconteurCore/src/AsyncMessageReader.cpp:306-337 | The same for IntX |
| Sizes.ComputedSizeIsExact | RobotRaconteurCore/src/Message.cpp:106-143 | ComputeSize4, with every sum in a 32-bit size_t, describes the bytes that Write4 writes (header, entry and element sizes and counts, at every depth) if and only if the message in full, counted from what the sender has set, stays within 32 bits; otherwise a sum has wrapped unnoticed |
| Sizable.SizedMessage | RobotRaconteurCore/src/Message.cpp:106-143 | Exactly when sizing a message throws nothing, for all messages: no more than 65535 entries, texts below 2^32-6 bytes, no element with both a name and a number, nested elements only under the ten codes for them, a string table of up to 1024 bytes, no body whose 32-bit sum is among the last five values, entries within 32 bits |
| Sizable.SizedWithin32Bits | RobotRaconteurCore/src/Message.cpp:106-143 | Where the message in full stays within 32 bits only four of these conditions are left: the number of entries, the string table, the marks and the codes of nested elements |
| Sizable.DescribedExactly | RobotRaconteurCore/src/Message.cpp:106-143 | And then every such message is sized, consistently at every depth, and its encoding has the full size |
| Sizable.SizedElement | RobotRaconteurCore/src/Message.cpp:1299-1503 | The condition and the stored size of an element with all that is nested in it |
| Sizes.MessageSizeWraps | RobotRaconteurCore/src/Message.cpp:106-143 | Witness: a message with one array is given the size 11 |
| Sizes.EntrySizeWraps | RobotRaconteurCore/src/Message.cpp:730-784 | Witness: an entry whose two elements share an array of 2 GiB is given the size 31 and its message the size 43 |
| Sizes.UpdatedElementIsConsistent | RobotRaconteurCore/src/Message.cpp:1299-1503 | UpdateData4 leaves an element, with all that is nested in it, with the sizes, types and counts of its bytes if and only if the element in full stays within 32 bits |
| Sizes.UpdatedEntryIsConsistent | RobotRaconteurCore/src/Message.cpp:730-826 | The same for entries |
| Sizes.UpdatedHeaderIsConsistent | RobotRaconteurCore/src/Message.cpp:273-365 | The same for the header; the message size is the sum in 32 bits |
| Sizes.ElementLength | RobotRaconteurCore/src/Message.cpp:1299-1389 | The size that ComputeSize4 adds up is the length of the bytes |
| Sizes.EntryLength | RobotRaconteurCore/src/Message.cpp:730-784 | The same for entries |
| Sizes.HeaderLength | RobotRaconteurCore/src/Message.cpp:273-330 | The same for the header |
| Messages.FlagBytes | RobotRaconteurCore/src/Message.cpp:366-440 | The flags byte determines the flags |
| Fidelity.UpdatedMessageKept | RobotRaconteurCore/src/Message.cpp:106-125 | What arrives of a message keeps everything the sender has set: metadata, extended data, request ids, errors, all contents, and names, codes, routing, endpoints, priority and table where their flags are on |
| Fidelity.UpdatedElementKept | RobotRaconteurCore/src/Message.cpp:1390-1503 | The same for an element with all that is nested in it |
| Numbers.UintXRoundTrip | RobotRaconteurCore/src/IOUtils.cpp:188-208 | Every uint32 is read back from its UintX whatever follows, with exactly its bytes, as many as GetUintXByteCount says |
| Numbers.UintX2RoundTrip | RobotRaconteurCore/src/IOUtils.cpp:210-229 | The same for uint64 and UintX2 |
| Numbers.IntXRoundTrip | RobotRaconteurCore/src/IOUtils.cpp:231-251 | The same for int32 and IntX |
| Numbers.IntX2RoundTrip | RobotRaconteurCore/src/IOUtils.cpp:253-272 | The same for int64 and IntX2 |
| Numbers.LittleAt | RobotRaconteurCore/src/AsyncMessageWriter.cpp:168-189 | The byte at place i of a number is the digit of weight 256^i: the low byte goes first, for all numbers and widths |
| Numbers.FromLittleAppend | RobotRaconteurCore/src/AsyncMessageReader.cpp:233-263 | Bytes that follow others weigh 256 times more for each of these |
| Numbers.UintXBytes | RobotRaconteurCore/src/IOUtils.cpp:501-517 | A UintX byte by byte: the number itself up to 252, 253 and two bytes, or 254 and four, the low ones first |
| Numbers.IntXBytes | RobotRaconteurCore/src/IOUtils.cpp:532-548 | An IntX byte by byte, in two's complement: one byte from -128 to 124, 125 and two, or 126 and four, the low ones first |
| Numbers.UintXPrefixFree | RobotRaconteurCore/src/IOUtils.cpp:501-517 | No UintX is the beginning of another |
| Numbers.UintX2PrefixFree | RobotRaconteurCore/src/IOUtils.cpp:519-530 | No UintX2 is the beginning of another |
| Numbers.IntXPrefixFree | RobotRaconteurCore/src/IOUtils.cpp:532-548 | No IntX is the beginning of another |
| Numbers.IntX2PrefixFree | RobotRaconteurCore/src/IOUtils.cpp:550-560 | No IntX2 is the beginning of another |
| Numbers.AsyncUintXAgrees | RobotRaconteurCore/src/AsyncMessageWriter.cpp:168-189 | write_uint_x, with its casts, emits the bytes of WriteUintX for every uint32 |
| Numbers.AsyncUintX2Agrees | RobotRaconteurCore/src/AsyncMessageWriter.cpp:190-220 | write_uint_x2, which decides all four widths itself, emits the bytes of WriteUintX2, which hands small values on, for every uint64 |
| Numbers.AsyncIntXAgrees | RobotRaconteurCore/src/AsyncMessageWriter.cpp:221-242 | The same for write_int_x and every int32 |
| Numbers.AsyncIntX2Agrees | RobotRaconteurCore/src/AsyncMessageWriter.cpp:243-272 | The same for write_int_x2 and every int64 |
| Numbers.UintXPrefix | RobotRaconteurCore/src/AsyncMessageReader.cpp:233-263 | A piece of a UintX never decodes to another number |
| Numbers.IntXPrefix | RobotRaconteurCore/src/AsyncMessageReader.cpp:306-337 | A piece of an IntX never decodes to another number |
| Numbers.SizePlusUintXIsLeast | RobotRaconteurCore/src/IOUtils.cpp:608-614 | GetSizePlusUintX(s) is the least t with t = s + GetUintXByteCount(t), and fails only where no 32-bit size has a five-byte prefix |
| CopyIndices.CopyIndicesIter.Next | RobotRaconteurCore/src/DataTypes.cpp:463-508 | With counts of at least 1 above dimension 0, exactly the product of count[1..] runs come, each of length count[0]; while positions fit, run k starts in both arrays at the place of the k-th coordinate of the block, and the iterator says false ever after; with an empty dimension above 0 it never says false |
| CopyIndices.CopyIndicesIter.Advance | RobotRaconteurCore/src/DataTypes.cpp:463-508 | The odometer step: the mixed-radix number of the counters goes up by one, and done is set exactly after the last |
| CopyIndices.CopyIndicesIter.CarryOver | RobotRaconteurCore/src/DataTypes.cpp:463-508 | A carry leaves the number as it is |
| CopyIndices.CopyIndicesIter.Position | RobotRaconteurCore/src/DataTypes.cpp:463-508 | The 32-bit sum of counters and strides is the column-major place of the run; it does not wrap while block and array fit |
| CopyIndices.BeginIter | RobotRaconteurCore/src/DataTypes.cpp:403-461 | A block is accepted exactly when the 32-bit sums of positions and counts stay inside both arrays |
| CopyIndices.ComputeStrides | RobotRaconteurCore/src/DataTypes.cpp:439-451 | stride j is the product of the dimensions below j, in 32 bits |
| CopyIndices.AcceptsExactly | RobotRaconteurCore/src/DataTypes.cpp:403-437 | The constructor's check means that the block lies inside, if no sum wraps |
| CopyIndices.AcceptsWrapped | RobotRaconteurCore/src/DataTypes.cpp:403-437 | A sum that wraps passes the check although the block reaches outside |
| CopyIndices.CallNext | RobotRaconteurCore/src/DataTypes.cpp:463-508 | Calling Next again and again: as many runs as the product of count[1..], or without end where a dimension above the first is empty |
| CopyIndices.NeverEnds | RobotRaconteurCore/src/DataTypes.cpp:403-508 | Witness: a block of 1 by 0 elements is accepted, and any number of calls of Next find a run |
| CopyIndices.RetrieveSubArray | RobotRaconteurCore/include/RobotRaconteur/DataTypes.h:1686-1705 | Exactly the block is copied: every coordinate of it goes to the same coordinate of the other block, nothing else in the destination changes, and a block that does not lie in both arrays is refused with nothing changed |
| CopyIndices.FlatInjective | RobotRaconteurCore/src/DataTypes.cpp:463-508 | Different coordinates have different places |
| CopyIndices.FlatOnto | RobotRaconteurCore/src/DataTypes.cpp:463-508 | Every place below the product of the dimensions has coordinates |
| CopyIndices.RunFits | RobotRaconteurCore/src/DataTypes.cpp:463-508 | Every run of a block that fits stays inside the array |
| CopyIndices.PlacesDiffer | RobotRaconteurCore/src/DataTypes.cpp:463-508 | Different elements of a block lie at different places: runs are disjoint |
| CopyIndices.OnRun | RobotRaconteurCore/src/DataTypes.cpp:463-508 | Every coordinate of the block is on exactly one run: runs cover the block |
| StreamSending.StreamSender.AsyncSendMessage | RobotRaconteurCore/src/ASIOStreamBaseTransport.cpp:218-353 | Accepted exactly when connected and within the size limits; then on the wire at once if nothing is being sent or paused, and otherwise coalesced into the queue; refused messages change nothing; in all states every accepted callback but that of a dropped connection test is in flight, waiting or fired, exactly once |
| StreamSending.StreamSender.Enqueue | RobotRaconteurCore/src/ASIOStreamBaseTransport.cpp:281-353 | A newer value of a wire, that is a single wire packet that is equal but for its value, takes the older one's place and the older callback fires; a second connection test between the same ends is dropped with its callback; everything else goes last and whatever else waits stays in its place; at most one message per wire and one test per route wait |
| StreamSending.Compare | RobotRaconteurCore/src/ASIOStreamBaseTransport.cpp:296-323 | What is compared of a queued and a new message, node names, ids, endpoints, number and kind of entries, path and member, finds exactly the connection tests between the same ends and the values of the same wire |
| StreamSending.SameWireFields | RobotRaconteurCore/src/ASIOStreamBaseTransport.cpp:300-318 | Two messages are values of one wire if and only if these ten agree: both node names, both ids, both endpoints, one entry each, wire packets both, service path and member name |
| StreamSending.StreamSender.BeginSendMessage | RobotRaconteurCore/src/ASIOStreamBaseTransport.cpp:387-491 | The message's encoding is begun behind complete encodings only, with at most 65536 bytes |
| StreamSending.StreamSender.AsyncWriteSome | RobotRaconteurCore/src/BrowserWebSocketTransport.cpp:529-551 | A write takes at most 65536 bytes of what is left, in order |
| StreamSending.StreamSender.EndSendMessage | RobotRaconteurCore/src/ASIOStreamBaseTransport.cpp:611-657 | A partial write goes on where it stopped; after the last byte the wire is a sequence of whole encodings, the callback fires once, and the next message starts; an error closes and fails everything that waits |
| StreamSending.StreamSender.EndSendMessage1 | RobotRaconteurCore/src/ASIOStreamBaseTransport.cpp:659-697 | After a message the head of the queue starts, unless a pause is asked for; then sending ends, and the handler of the pause is called |
| StreamSending.StreamSender.AsyncPauseSend | RobotRaconteurCore/src/ASIOStreamBaseTransport.cpp:699-727 | Refused exactly when a pause is asked for already; takes effect at once, and calls its handler, only if nothing is being sent; otherwise the handler waits for the end of the message |
| StreamSending.StreamSender.AsyncResumeSend | RobotRaconteurCore/src/ASIOStreamBaseTransport.cpp:729-761 | Refused exactly while the pause has not taken effect; what waits starts again |
| StreamSending.StreamSender.Close | RobotRaconteurCore/src/ASIOStreamBaseTransport.cpp:1551-1650 | What waits fails, each callback once, and so does the handler of a pause that has not taken effect |
| StreamSending.StreamSender.Drain | RobotRaconteurCore/src/ASIOStreamBaseTransport.cpp:611-761 | No lost wakeup: when writes complete, a sender that is not asked to pause sends all that was accepted, whole, in the order of the queue, and every accepted callback has fired exactly once |
| StreamSending.StreamSender.Run | RobotRaconteurCore/src/ASIOStreamBaseTransport.cpp:218-761 | Whole runs: over every list of sends, completed and failed writes, pauses, resumes and closes, the wire holds whole encodings of messages that were sent, the last perhaps in part; nothing waits in vain; refused are exactly the sends that are too large and, in order, those after the event that has ended the connection; only connection tests are dropped, each behind an earlier one between the same ends; each callback handed over is refused, dropped, in flight, waiting or fired, exactly once, and so is each handler of a pause; one has fired without an error only for a message that is whole on the wire, in the order begun, or that has been superseded, and only by a single wire packet with equal node names, ids, endpoints, service path and member name; and no two that wait agree in these |
| StreamSending.StreamSender.Handle | RobotRaconteurCore/src/ASIOStreamBaseTransport.cpp:218-761 | One event of such a run: what it does to the queue, the wire, the connection and the callback handed over; a send is dropped only for a connection test behind one between the same ends that waits |
| StreamSending.StreamSender.PauseNow | RobotRaconteurCore/src/ASIOStreamBaseTransport.cpp:681-694 | A pause that was asked for takes effect and its handler is called once |
| StreamSending.AccountedReplaced | RobotRaconteurCore/src/ASIOStreamBaseTransport.cpp:300-340 | Replacing a queued value keeps the accounts of callbacks |
| StreamSending.UpdateCoalesced | RobotRaconteurCore/src/ASIOStreamBaseTransport.cpp:300-340 | Replacing a queued value keeps the queue coalesced |
| StreamSending.AccountedFailed | RobotRaconteurCore/src/ASIOStreamBaseTransport.cpp:1586-1593 | Failing the queue fires each callback that waits once |
| StreamReceiving.ReceiveAll | RobotRaconteurCore/src/ASIOStreamBaseTransport.cpp:763-1133 | End-to-end framing: frames that can be read and have an entry, sent one after the other, cut into WebSocket messages in any way, with any handlers, pauses and resumes in between, are all handed to the deserialiser exactly as they were sent, in order; and the connection is lost if and only if a bad header follows them |
| StreamReceiving.GoodSeed | RobotRaconteurCore/src/ASIOStreamBaseTransport.cpp:833-862 | The first eight bytes are taken if and only if they are RRAC and a size, the low byte first, from 8 up to the maximum and below 2^31 |
| MessageStreams.EncodingIsFrame | RobotRaconteurCore/src/ASIOStreamBaseTransport.cpp:833-862 | The encoding of a consistent message is a frame, with the size its first eight bytes say, if and only if it is within the maximum and below 2^31 bytes: the receiver finds no other fault with what the writer emits |
| MessageStreams.ReceiveMessages | RobotRaconteurCore/src/ASIOStreamBaseTransport.cpp:763-1133 | Encodings of messages, one after the other, cut into WebSocket messages in any way, with any handlers, pauses and resumes in between, are handed to the deserialiser exactly as the writer emits them; the connection is lost if and only if a bad header follows |
| MessageStreams.SendAndReceive | RobotRaconteurCore/src/ASIOStreamBaseTransport.cpp:218-1133 | From end to end, over every run of the sender and every way of cutting and reading what it has written: the receiver hands over the first messages put on the wire, whole and in order, all of them when the writes are complete, and every one whose callback has fired without an error and that was not superseded; a receiver whose maximum is no smaller never gives up the connection |
| StreamReceiving.Receive | RobotRaconteurCore/src/ASIOStreamBaseTransport.cpp:763-1133 | The same for any bytes at all: once no handler is left, exactly the frames up to the first that is not accepted have been handed over, and the connection is closed exactly for a bad header or an unreadable frame |
| StreamReceiving.StreamReceiver.Pump | RobotRaconteurCore/src/ASIOStreamBaseTransport.cpp:805-1133 | When no handler is left to call and reading goes on, exactly the frames that the bytes arrived call for have been handed over, and the connection is closed exactly when they call for it |
| StreamReceiving.StreamReceiver.AlwaysInOrder | RobotRaconteurCore/src/ASIOStreamBaseTransport.cpp:805-1133 | At every moment, errors included, what has been handed over is the beginning of what the bytes arrived call for |
| StreamReceiving.StreamReceiver.WebSocketMessageReceived | RobotRaconteurCore/src/BrowserWebSocketTransport.cpp:589-613 | A read that waits gets what fits, the remainder is queued in order: no byte is lost or repeated |
| StreamReceiving.StreamReceiver.AsyncReadSome | RobotRaconteurCore/src/BrowserWebSocketTransport.cpp:553-575 | A read takes from the head of the queue, or waits only when the queue is empty |
| StreamReceiving.StreamReceiver.EndRead | RobotRaconteurCore/src/ASIOStreamBaseTransport.cpp:805-1013 | The handler of a read, as the phase says; only an error of the transport counts as a failure, and what it leaves to do is less |
| StreamReceiving.StreamReceiver.EndReceiveMessage1 | RobotRaconteurCore/src/ASIOStreamBaseTransport.cpp:805-935 | A partial read of the first eight bytes goes on; complete, a good header, as GoodSeed says it byte by byte, leads to the body with its size, and a bad one, and nothing else, ends the connection |
| StreamReceiving.StreamReceiver.BeginBody | RobotRaconteurCore/src/ASIOStreamBaseTransport.cpp:894-918 | The body is read behind the first eight bytes, into a buffer that covers it |
| StreamReceiving.StreamReceiver.EndReceiveMessage2 | RobotRaconteurCore/src/ASIOStreamBaseTransport.cpp:937-1013 | A partial read of the body goes on; complete, exactly the frame is handed over, the next is read if it has an entry, and the connection ends exactly when it cannot be read; what dispatching a message throws is left out |
| StreamReceiving.StreamReceiver.EndReceiveMessage4 | RobotRaconteurCore/src/ASIOStreamBaseTransport.cpp:1106-1133 | The next read begins, or the pause takes effect |
| StreamReceiving.StreamReceiver.Close | RobotRaconteurCore/src/ASIOStreamBaseTransport.cpp:1551-1650 | Reading is given up for a bad header, an unreadable frame or an error, and no read is outstanding afterwards |
| StreamReceiving.StreamReceiver.AsyncPauseReceive | RobotRaconteurCore/src/ASIOStreamBaseTransport.cpp:1496-1524 | Refused exactly when paused or about to be |
| StreamReceiving.StreamReceiver.AsyncResumeReceive | RobotRaconteurCore/src/ASIOStreamBaseTransport.cpp:1526-1549 | Reading goes on where it stopped |
| StreamReceiving.AfterAccepted | RobotRaconteurCore/src/ASIOStreamBaseTransport.cpp:805-1013 | Accepted frames that follow each other are found again, whatever comes after |
| StreamReceiving.AfterEnded | RobotRaconteurCore/src/ASIOStreamBaseTransport.cpp:937-1013 | A frame that is not accepted is the last, whatever comes after, and closes the connection exactly when it cannot be read |
| StreamReceiving.GrownLengthCovers | RobotRaconteurCore/src/BrowserWebSocketTransport.cpp:105-118 | For every maximum that SetMaxMessageSize takes and every size that the header check lets through, size times 12 fits 32 bits and the grown buffer covers the frame |
| StreamReceiving.StreamReceiver.BufferCovers | RobotRaconteurCore/src/ASIOStreamBaseTransport.cpp:894-918 | In every reachable state the buffer covers the frame that is read into it |
| Requests.ClientContext.NextId | RobotRaconteurCore/src/Client.cpp:509-514 | The search for an id ends while one is free, and finds an id below 2^32-1 that is not outstanding |
| Requests.ClientContext.AsyncProcessRequest | RobotRaconteurCore/src/Client.cpp:496-550 | The handler waits under a fresh id, also when sending throws; a closed client refuses and registers nothing |
| Requests.ClientContext.Finish | RobotRaconteurCore/src/Client.cpp:776-866 | A request that waits is removed and its handler called once; an id that does not wait is ignored |
| Requests.ClientContext.ResponseReceived | RobotRaconteurCore/src/Client.cpp:776-866 | A response or a remote error ends its request, and testing stops when nothing waits |
| Requests.ClientContext.AsyncProcessRequest_err | RobotRaconteurCore/src/Client.cpp:596-622 | A send error ends its request once |
| Requests.ClientContext.AsyncProcessRequest_timeout | RobotRaconteurCore/src/Client.cpp:625-650 | A timeout ends its request once; a stopped timer does nothing |
| Requests.ClientContext.TestConnection | RobotRaconteurCore/src/Client.cpp:552-594 | A lost connection ends all requests, each with the exception of the check; otherwise nothing changes |
| Requests.ClientContext.AsyncClose1 | RobotRaconteurCore/src/Client.cpp:1690-1740 | After closing nothing waits and every registered handler has been called, those that waited with a connection error |
| Requests.ClientContext.Run | RobotRaconteurCore/src/Client.cpp:496-866 | Over every sequence of requests, responses, errors, timeouts, lost connections and closes: the handlers registered are exactly those of the requests before the first close; each of them waits or has been called, exactly once, and with the outcome of an event that ends the request it waited for; after a close none waits; and the run goes on unless a request finds no free id |
| Requests.ClientContext.Handle | RobotRaconteurCore/src/Client.cpp:496-866 | One event: exactly the requests it is about end, each handler called with the outcome of the event, result or remote error for a response, connection error, timeout, the exception of the check, or the close; all others wait on under their ids |
| Requests.AccountedCall | RobotRaconteurCore/src/Client.cpp:776-866 | Ending a request moves its handler from waiting to called |
| Requests.FreeIdExists | RobotRaconteurCore/src/Client.cpp:509-514 | Fewer than 2^32-1 requests leave an id free |
| ServiceImports.PullAll | RobotRaconteurCore/src/Client.cpp:1913-1978 | On every finite import graph, cycles included, the chain of pulls ends; its definitions are without duplicates and their names are the least set that contains the root and is closed under imports and the root's extra imports |
| ServiceImports.ImportPuller.PullReturned | RobotRaconteurCore/src/Client.cpp:1921-1978 | A definition is taken once, and the next pull is of a name that is needed and missing; there is none exactly when nothing is missing |
| ServiceImports.ImportPuller.Needed | RobotRaconteurCore/src/Client.cpp:1948-1958 | Needed names are the extra imports and all imports, without those that have been pulled |
| ServiceImports.NextPull | RobotRaconteurCore/src/Client.cpp:1921-1978 | Every pull brings the chain nearer to its end and stays inside every closed set |
| TimeSpecs.New | RobotRaconteurCore/src/DataTypes.cpp:279-325 | The constructor normalises: the value stays, nanoseconds stay below a second and never have the other sign than the seconds |
| TimeSpecs.NormalIsUnique | RobotRaconteurCore/src/DataTypes.cpp:303-323 | A value has one normal form |
| TimeSpecs.Plus | RobotRaconteurCore/src/DataTypes.cpp:341-344 | The normal form of the sum |
| TimeSpecs.Minus | RobotRaconteurCore/src/DataTypes.cpp:336-339 | The normal form of the difference |
| TimeSpecs.ComparisonsAreTheOrder | RobotRaconteurCore/src/DataTypes.cpp:325-373 | The six comparisons are the order of the values |
| TimeSpecs.PlusMinus | RobotRaconteurCore/src/DataTypes.cpp:336-344 | (a + b) - b is a |
| TimeSpecs.NanosecondsFit | RobotRaconteurCore/src/DataTypes.cpp:336-344 | The sum and the difference of the nanoseconds of normal times fit an int32 |
| TimeSpecs.Add | RobotRaconteurCore/src/DataTypes.cpp:341-344 | operator+, through the constructor, is that normal form; no intermediate value overflows |
| TimeSpecs.Subtract | RobotRaconteurCore/src/DataTypes.cpp:336-339 | operator-, through the constructor, is that normal form; no intermediate value overflows |
| TimeSpecs.NotNormalised | RobotRaconteurCore/src/DataTypes.cpp:325-329 | Equality of fields is not equality of times for fields that were set without the constructor |
| IndexEscape.EncodeIndex | RobotRaconteurCore/src/DataTypes.cpp:525-543 | Computes the escape of the string, character by character |
| IndexEscape.DecodeIndex | RobotRaconteurCore/src/DataTypes.cpp:545-584 | Computes the decoding: percent signs with two hexadecimal characters, or an error |
| IndexEscape.RoundTrip | RobotRaconteurCore/src/DataTypes.cpp:525-584 | decode_index undoes encode_index, one-digit hexadecimal padded with a space included, if and only if all characters are ASCII |
| IndexEscape.PlainExactly | RobotRaconteurCore/src/DataTypes.cpp:525-543 | A string is its own escape if and only if it is of letters and digits |
| IndexEscape.EscapedCharacter | RobotRaconteurCore/src/DataTypes.cpp:525-543 | Any other ASCII character becomes a percent sign and its hexadecimal code in two places, padded with a space |
| IndexEscape.DecodedLength | RobotRaconteurCore/src/DataTypes.cpp:525-584 | Every character that is not ASCII comes back as seven |
| IndexEscape.EncodedIsClean | RobotRaconteurCore/src/DataTypes.cpp:525-543 | The escape contains no dot and no bracket |
| IndexEscape.EncodeInjective | RobotRaconteurCore/src/DataTypes.cpp:525-543 | Different strings have different escapes, for all bytes, although decoding gives back ASCII only |
| IndexEscape.PathSplits | RobotRaconteurCore/src/Client.cpp:66-84 | The path of an object splits back into the path it was built on, the name and the index: two paths that are equal have all three equal |
| IndexEscape.WholePathSplits | RobotRaconteurCore/src/Client.cpp:66-84 | A path, however many steps long, splits back into its service and all steps with their names and indices |
| Packing.PackMessageElementImpl.PackMessageElement | RobotRaconteurPython/PythonTypeSupport.cpp:742-1189 | The recursive packer with its loops and its stack of field names: it returns if and only if the value is of the type, None being of every container type and every known named type, and then gives the packed element and leaves the stack as it was; or it throws with exactly the levels down to the value at fault on the stack |
| Packing.PackedWhenOfType | RobotRaconteurPython/PythonTypeSupport.cpp:742-1189 | A value is packed if and only if it is of the type, by a recursion over values and types of its own: numbers and sequences of the right numbers, strings, sequences and maps with keys of the right kind, structures of the class with all members, and None |
| Packing.PackMessageElementImpl.PackSequence | RobotRaconteurPython/PythonTypeSupport.cpp:821-868 | Items are packed in order and numbered |
| Packing.PackMessageElementImpl.PackInt32Items | RobotRaconteurPython/PythonTypeSupport.cpp:869-916 | Items are numbered with their keys, which are converted through a C long of either width; a key that is no int32 is an exception |
| Packing.BadKeyIsNamed | RobotRaconteurPython/PythonTypeSupport.cpp:895-905 | The first key that is no int32 ends the packing, and the exception names it if and only if it is a number that fits a C long; otherwise it says -1 |
| Packing.NeverNamedIn32Bits | RobotRaconteurPython/PythonTypeSupport.cpp:895-905 | Where long has 32 bits no such key is ever named |
| Packing.PackMessageElementImpl.PackTextItems | RobotRaconteurPython/PythonTypeSupport.cpp:924-962 | Items are named with their keys, cut at a null |
| Packing.PackMessageElementImpl.PackMembers | RobotRaconteurPython/PythonTypeSupport.cpp:1022-1043 | Members of the type are packed in order from the attributes; a missing one is an exception |
| Packing.FailureIsNamed | RobotRaconteurPython/PythonTypeSupport.cpp:1192-1270 | For every value that is refused, the levels on the stack lead from the value down to the one that is at fault, or whose key or member is |
| Unpacking.UnpackMessageElementImpl.UnpackMessageElement | RobotRaconteurPython/PythonTypeSupport.cpp:1541-2060 | The recursive unpacker: it returns if and only if the element, at every depth, has the form that its own type calls for, and then gives the unpacked value and leaves the stack as it was; or it throws with the levels down to the element at fault |
| Unpacking.UnpackedWhenUnpackable | RobotRaconteurPython/PythonTypeSupport.cpp:1541-2060 | Which elements are unpacked, by a recursion of its own: void for containers and known named types, arrays of the type and length expected, UTF-8, structures with all members of the type they name, lists in order, maps with numbers or decimal names or with names |
| Unpacking.TextForAnyType | RobotRaconteurPython/PythonTypeSupport.cpp:1812-1816 | Witness: a string is unpacked as a string whatever type is expected |
| ElementTypes.CastOfDecimal | RobotRaconteurPython/PythonTypeSupport.cpp:1909-1917 | The cast of a name to an index reads every int32 from its decimal digits, with a minus or perhaps a plus sign |
| Unpacking.UnpackMessageElementImpl.UnpackList | RobotRaconteurPython/PythonTypeSupport.cpp:1852-1890 | A list comes back in order; an item out of its place is refused |
| Unpacking.UnpackMessageElementImpl.UnpackVector | RobotRaconteurPython/PythonTypeSupport.cpp:1892-1933 | A map comes back with the elements' numbers as keys |
| Unpacking.UnpackMessageElementImpl.UnpackDictionary | RobotRaconteurPython/PythonTypeSupport.cpp:1935-1959 | A map comes back with the elements' names as keys |
| Unpacking.UnpackMessageElementImpl.UnpackStructure | RobotRaconteurPython/PythonTypeSupport.cpp:1818-1850 | A structure gets the members of the type that the element names |
| PackRoundTrip.RoundTrip | RobotRaconteurPython/PythonTypeSupport.cpp:742-2060 | Every value of a type is packed, and unpacking gives the same value if and only if every numpy array in it has a length its type allows and the value is of the kinds that unpacking makes: for all types of lists, int32 and string maps, structures, enumerations, strings and numbers, None included |
| PackRoundTrip.PackedComesBack | RobotRaconteurPython/PythonTypeSupport.cpp:742-2060 | Every value that is packed at all is unpacked to its normal form when its arrays fit, and refused when not: sequences in maps come back as dictionaries, lists of numbers as arrays, structures with the members of their type |
| PackRoundTrip.NormalOfCanonical | RobotRaconteurPython/PythonTypeSupport.cpp:742-2060 | A value is its own normal form exactly when it and its parts are of the kinds that unpacking makes, with distinct keys without nulls and the attributes of the type in its order |
| PackRoundTrip.WrongLengthIsPacked | RobotRaconteurPython/PythonTypeSupport.cpp:2650-2692 | A numpy array of a length that the type forbids is packed, and only the receiver refuses it; lists have their length checked |
| PackRoundTrip.NullInKeyIsLost | RobotRaconteurPython/PythonTypeSupport.cpp:73-103 | A dictionary with a null character in a key does not come back |
| PackRoundTrip.PackedNumbers | RobotRaconteurPython/PythonTypeSupport.cpp:2456-2603 | What is packed of a list or a number has the type and a length that the type allows |
| ValuesOnWire.ValueInMessageArrives | RobotRaconteurCore/src/Message.cpp:1390-1503 | A value packed into any place of any message, with sizes and flags computed and only the flagged fields received, is unpacked to the same value there if and only if it fits and is canonical |
| ValuesOnWire.PackedCanBeSized | RobotRaconteurCore/src/Message.cpp:1299-1503 | Whatever is packed of a value of a type can be sized when the element in full, names included, stays within 32 bits: its marks and nested codes are always good |
| ValuesOnWire.ValuesCanBeSized | RobotRaconteurCore/src/Message.cpp:106-143 | A message of packed values can be sized when it has no more than 65535 entries and a short string table and in full stays within 32 bits |
| ValuesOnWire.SentConveys | RobotRaconteurCore/src/Message.cpp:1390-1503 | Of a packed element everything the unpacker reads survives the sender's preparation and the receiver's view, to any depth |
| PythonValues.CStringIsUtf8 | RobotRaconteurPython/PythonTypeSupport.cpp:73-103 | Cutting UTF-8 at a null leaves UTF-8 |
| PythonValues.CharacterFound | RobotRaconteurPython/PythonTypeSupport.cpp:1812-1816 | Every Unicode character, no surrogates among them, is found whole at the start of text that begins with its UTF-8, whatever follows |
| PythonValues.OnlyCharacters | RobotRaconteurPython/PythonTypeSupport.cpp:1812-1816 | And what is found at the start of text is the UTF-8 of one character |
| PythonValues.AssignedItem | RobotRaconteurPython/PythonTypeSupport.cpp:1892-1959 | An assignment to a dictionary gives the key the value and leaves every other key what it had |
| PythonValues.ClassNameParts | RobotRaconteurPython/PythonTypeSupport.cpp:1000-1003 | In the name of a class every dot of the type name is two underscores and all else is as it was |
| DiscoveryCache.Discovery.CleanDiscoveredNodes | RobotRaconteurCore/src/Discovery.cpp:1376-1438 | After cleaning, over every history of announcements and cleanings with a clock that does not go back, a URL is cached for a node exactly when an announcement of it less than a minute old has been accepted; nodes left without a URL are gone and are the ones reported lost |
| DiscoveryCache.Discovery.NodeDetected | RobotRaconteurCore/src/Discovery.cpp:975-1137 | A node is taken up only with a URL that names it and only below the maximum; a known node's URLs get the later times, new URLs that name it are added; recent nonces stay distinct, at most 16, with the current one among them |
| DiscoveryCache.Discovery.CachedUrls | RobotRaconteurCore/src/Discovery.cpp:975-1137 | In every reachable state each node is cached under its own id with at least one URL, and each of its URLs parses to that id, has no more than 256 bytes and was announced |
| DiscoveryCache.BringsNamed | RobotRaconteurCore/src/Discovery.cpp:1010-1044 | The announcements accepted of a node are exactly its URLs of no more than 256 bytes that parse to its id |
| DiscoveryCache.Discovery.UpdateUrls | RobotRaconteurCore/src/Discovery.cpp:1082-1094 | The inner loop over the cached URLs: later times only, and whether the URL was found |
| DiscoveryCache.Discovery.EraseInvalid | RobotRaconteurCore/src/Discovery.cpp:1010-1044 | Erasing in place leaves exactly the valid URLs, in order |
| DiscoveryCache.Discovery.Sweep | RobotRaconteurCore/src/Discovery.cpp:1388-1437 | The loop over the nodes leaves exactly those with a fresh URL |
| DiscoveryCache.MergedAllKnows | RobotRaconteurCore/src/Discovery.cpp:1079-1115 | Merging announced URLs forgets nothing, adds every valid one and nothing else |
| DiscoveryCache.RenewedKeepsFaithful | RobotRaconteurCore/src/Discovery.cpp:1078-1137 | Announcements of a known node keep the cache faithful to the history |
| DiscoveryCache.NewNodeKeepsFaithful | RobotRaconteurCore/src/Discovery.cpp:1002-1064 | Taking up a new node keeps the cache faithful to the history |
| DiscoveryCache.CleaningKeepsFaithful | RobotRaconteurCore/src/Discovery.cpp:1376-1438 | Cleaning keeps the cache faithful to the history |
| DiscoveryCache.PushedNonces | RobotRaconteurCore/src/Discovery.cpp:1123-1136 | A new nonce keeps the queue distinct and at most 16 long |
| DiscoveryCache.FreshWithinAMinute | RobotRaconteurCore/src/Discovery.cpp:1402-1406 | The truncated milliseconds are below 60000 exactly within the minute |

## Left out

- Transfers.ReadAll: asks for a first delivery of twelve bytes, as the reader's caller provides (the transport reads the size first), and that the carry-over buffer and each chunk hold the piece at hand at that call.
- Transfers.ReadEvenly: asks for chunks of at least twelve bytes, for the same reason.
- Transfers.Transfer: asks the same of the chunks, and of quotas and work buffers that they take the piece at hand at each call; `Writers.WriteInCalls` shows that a call to which this does not apply hands out nothing.
- CopyIndices.RetrieveSubArray: asks for positive counts above dimension 0 (without, it has no end: `NeverEnds`), for sums that do not wrap (`AcceptsWrapped` gives a block that passes the check and lies outside), and for distinct arrays with memory of the size of their dimensions, which is what the caller of `memcpy` owes.
- Requests.ClientContext.NextId: asks for a free id; with all 2^32-1 outstanding the search has no end, and `Run` stops there.
- DiscoveryCache.Discovery.CleanDiscoveredNodes: asks for a clock that does not go back between cleanings.
- StreamReceiving.StreamReceiver.Pump: after a last frame of nothing but the eight bytes, which cannot be read, the connection is closed only when a further WebSocket message arrives.
- The version 2 codec (`Read`, `Write`, `UpdateData`) and the version 2 sizes: the same machine with fewer fields.
- The buffers of `boost::asio` are byte sequences: `const_buffers` are flattened, and work buffers are one size.
- Children of a message are joined to their parent when their frame is popped; the source joins the shared object first and fills it in later, which cannot be told apart before the message is done.
- Memory of arrays is a value: aliasing between messages and between array slices and their owner is not modelled.
- `size_t` has 32 bits, as under wasm32; byte order is little-endian. The width of `long` is a parameter.
- Failing allocations, except of arrays beyond 32 bits.
- Out-parameters that the source leaves unset on some returns (`work_bufs_used` after an array slice) have no value in the model.
- Variants of string references, string table lookup and codes: names are byte strings.
- Threads, locks, timers and the posting of handlers: every callback is a step, in any order.
- Sending and receiving through the deserialiser that reads from the socket itself (`BeginSendMessage1`, `EndSendMessage2`, `EndReceiveMessage5`), large-transfer authorisation on receiving, capability negotiation and stream operations.
- StreamSending.StreamSender.BeginSendMessage: the encoding of a message is fixed when it is handed over; the source sizes and encodes it, and clears flags in it, when its sending begins, and what is thrown there is left out.
- StreamReceiving.StreamReceiver.EndReceiveMessage2: what dispatching a message throws, which closes the connection, is left out.
- Handlers that call back into the transport or the client.
- Handlers that are empty, and the pause handler that is posted after `Close`.
- The deserialiser under the framing is a function given to the receiver; `MessageStreams` asks that it reads the encodings at hand and finds their entries.
- MessageStreams.SendAndReceive: looks at the receiver once the bytes written by then have arrived; a receiver that is not authorised for large transfers is one with a maximum of 512 KiB.
- `AssignSubArray`: the loop of `RetrieveSubArray` with the arrays exchanged.
- The order in which `std::set` offers missing imports: any missing name may be next. Pulls answer with the definition asked for.
- Python objects are values: numbers come in the memory of their element type, so conversions between kinds of numbers, bytearrays, arrays of several dimensions, pods and named arrays, `varvalue` and `object` types are not modelled; strings have no lone surrogates, and their encoding follows section 4 of RFC 3629.
- Text in an element that is not UTF-8 is an exception; the source returns a null object with a Python error set. Null data where a list or a string is expected is an exception; the source dereferences it.
- The text of exception messages; the levels it is built from are modelled.
- Subscriptions, service information updates and their retries in Discovery, and the parsing of announcement packets; `ParseConnectionURL` is a function given to the cache. Entries of the cache are values, not shared objects.
- Routing, connection and service management, generators, events, pipes and wires beyond their packets, node setup, logging, error tables and the Python and Java wrappers.
