# Verified models of the hard cores

The repository is an HTTP, WebSocket and scenario testing desktop tool. This project models the parts of it that are
pure logic once input and output are cut away, in the form each part has in the program: objects that change become
classes, loops become methods with invariants, tables and grammars become functions. Each method is proved against a
function of its inputs and its old state, and what the program promises is then proved about that function: round
trips, refinement of a grammar, conservation, and invariants over every run or every interleaving.

| files | what they model |
|---|---|
| `Bytes`, `Buffers`, `Sorted`, `Utf8` | bytes, big-endian fields, exclusive or, output buffers, sorted key lists, UTF-8 |
| `WsFrame`, `WsReassemble`, `WsDeflate`, `WsConn` | the WebSocket stack: frame codec, fragment reassembler, per-message deflate with a shared history, and the connection that joins them |
| `Msgpack`, `WsProto` | the iterative MessagePack validator and the framed protocol with its one-byte expansion factor |
| `Sfnt`, `SfntWrite`, `Cmap`, `CmapLookup`, `CmapTable`, `CmapBuild`, `CmapRoundTrip`, `Emoji`, `Subset` | the font subsetter: reading and writing SFNT files, the `cmap` formats 4 and 12, the emoji ranges |
| `Intercept`, `InterceptSafety` | the manual interceptor as a state machine over all interleavings of callers and resolvers |
| `FlowExec`, `FlowModel`, `FlowEditor` | the scenario runner, the scenario encoding and the editor's undo history |
| `Beautify`, `BeautifyMarkup` | the beautifiers for brace languages and for markup |
| `WhiteSpace`, `BeautifyVisible`, `MarkupVisible` | white space as `TrimSpace` has it, what two texts show when they are joined, and exactly when the beautifiers keep every visible byte |
| `BeautifyLayout`, `MarkupLayout` | the layout the beautifiers give, said piece by piece and line by line, and what counts as a literal, a tag and its name |
| `JsonTokens`, `JsonLexemes` | the JSON tokenizer and the grammar of RFC 8259 it is measured against |
| `Sanitise` | the text sanitiser |
| `CmdLine`, `TokenBucket` | Windows command-line quoting and the token bucket of the traffic shaper |

Bytes are integers below 256; 16-, 24-, 32- and 64-bit fields, signed readings and every wrap-around are written out.
Errors are results, never preconditions. The standards meant are RFC 6455 (WebSocket), RFC 7692 (permessage-deflate),
RFC 3629 (UTF-8), RFC 8259 (JSON), the MessagePack specification, OpenType (ISO/IEC 14496-22) and Microsoft's
command-line argument rules.

Libraries appear as parameters with laws: a compressor and its decompressor are an inverse pair, LZ4 expands a body at
most 255 times, the MessagePack encoder writes well-formed objects and its decoder undoes it, the JSON encoder of a
scenario is undone by its decoder. `WsDeflate.StoredIsInverse` shows that the law asked of DEFLATE can be met.

Where the code and what one would expect of it differ, the model follows the code and says exactly when they agree:

- the directory's search fields are the values OpenType asks for exactly below 4096 tables (`Sfnt.SearchFieldsExact`);
- a message comes back from the peer exactly if its opcode, flags and sizes pass the limits (`WsConn.MessageRoundTrip`);
- a frame is decoded exactly if the factor times the body stays within 128 MiB (`WsProto.DecodeUndoesEncode`);
- JSON brackets carry the depth they lie at exactly up to nesting 255 (`JsonLexemes.ValueFound`);
- the start of a JSON token has 32 bits, so the tokens tile the input exactly if all of them start below 2 GiB
  (`JsonTokens.TokensTile`);
- a JSON block comment ends with its first closing sign, except that it takes in a byte that is the last one behind it
  (`JsonLexemes.BlockCommentFound`);
- dropping a line end can bring the halves of a white-space character together, as it does in `BeautifyVisible.HALVES`
  and `MarkupVisible.SPLIT_SHEET`; every visible byte is kept exactly if no such character has its bytes on both sides
  of dropped line ends (`BeautifyVisible.BeautifiedKeepsVisible`, `MarkupVisible.MarkupKeepsVisible`), as in all valid
  UTF-8 (`BeautifyVisible.ValidKeepsVisible`, `MarkupVisible.ValidTextKeepsVisible`);
- one sleep of the token bucket earns what is missing exactly if the time to wait is a whole number of nanoseconds or at
  most the shortest sleep (`TokenBucket.SleepEarnsDeficit`); at three bytes a second a million bytes take two
  (`TokenBucket.ThirdGoesMissing`);
- a redo after an undo restores the very same encoding exactly if the scenario was settled (`FlowEditor.RedoUndoesUndo`);
  a cleared waiting time comes back as its default (`FlowEditor.ClearedWaitComesBack`).

## Model

| member | source | states |
|---|---|---|
| `WsFrame.MaskedTwice` | internal/ws/frame.go:138-142 | masking with the same key twice gives the payload back, for every key and length |
| `WsFrame.ApplyMask` | internal/ws/frame.go:138-142 | the in-place loop changes the array to exactly the masked payload, the key repeating every four bytes |
| `WsFrame.ReadFrame` | internal/ws/frame.go:31-84 | from any byte stream: the frame or the one error the checks prescribe, and exactly how many bytes are gone |
| `WsFrame.WriteFrame` | internal/ws/frame.go:86-136 | what is appended to the wire: flag byte, mask bit and length field, key, masked payload |
| `WsFrame.FrameRoundTrip` | internal/ws/frame.go:31-142 | for every header and payload, legal or not, in front of any bytes: reading gives back the written frame and the rest of the stream, or fails with exactly the error its opcode, FIN bit and size call for |
| `WsFrame.LegalRoundTrip` | internal/ws/frame.go:31-142 | for legal frames reading undoes writing header for header |
| `WsFrame.FrameExtends` | internal/ws/frame.go:31-84 | a frame that was read whole is read the same, whatever follows it on the stream |
| `WsFrame.FramesRoundTrip` | internal/ws/frame.go:31-142 | any concatenation of legal frames reads back as the same frames, consuming exactly the written bytes |
| `WsFrame.LengthFieldIsShortest` | internal/ws/frame.go:101-119 | no byte string that a reader accepts carries the same frame in fewer bytes than the writer uses |
| `WsReassemble.Reassembler.Step` | internal/ws/reassemble.go:29-79 | the new state and the outcome of every frame in every state |
| `WsReassemble.ReachableIsValid` | internal/ws/reassemble.go:29-79 | after any frames a closed reassembler has an empty buffer and an open one holds at most 64 MiB |
| `WsReassemble.StepFails` | internal/ws/reassemble.go:38-63 | exactly which frame in which state fails with which error; sequencing errors leave the state unchanged, only the size error drops the open message |
| `WsReassemble.MiddleAccumulates` | internal/ws/reassemble.go:49-63 | continuation frames add their payloads in order and interleaved control frames come out at once, unchanged |
| `WsReassemble.FragmentsReassemble` | internal/ws/reassemble.go:29-72 | any fragmentation, control frames anywhere in between, gives the control frames in order and one data message with the first frame's opcode and RSV1 and the joined payload if it is at most 64 MiB, and the size error otherwise |
| `WsReassemble.FeedAppend` | internal/ws/reassemble.go:29-72 | feeding frames in two batches is feeding them at once |
| `WsDeflate.AppendHistory` | internal/ws/deflate.go:168-177 | the history is the last 32768 bytes of the old history followed by the new data |
| `WsDeflate.LastOfLast` | internal/ws/deflate.go:168-177 | appending window by window gives the same window as appending everything at once |
| `WsDeflate.StoredIsInverse` | internal/ws/deflate.go:94-164 | the inverse-pair law assumed of DEFLATE is satisfiable: stored blocks meet it |
| `WsDeflate.Deflater.Deflate` | internal/ws/deflate.go:135-164 | the compressed bytes without their tail and the history remembered afterwards, with and without context takeover |
| `WsDeflate.Inflater.Inflate` | internal/ws/deflate.go:94-120 | the payload, or the size error beyond 64 MiB, or the decompressor's error; the history moves only on success |
| `WsDeflate.InflateUndoesDeflate` | internal/ws/deflate.go:94-177 | ends with equal histories: inflating what was deflated gives the payload and equal histories if it is at most 64 MiB, and the size error with the old history otherwise |
| `WsConn.Conn.constructor` | internal/ws/conn.go:26-58 | which end compresses, inflates and forgets its context, from the role and the negotiated parameters |
| `WsConn.NewPairInLockstep` | internal/ws/conn.go:26-58 | opposite roles with the same parameters start in lockstep |
| `WsConn.Conn.WriteMessage` | internal/ws/conn.go:95-117 | the bytes put on the wire, the new compressor state, and the error after closing |
| `WsConn.Conn.AcceptFrame` | internal/ws/conn.go:68-92 | what one frame does to reassembler and inflater: deliver, continue or fail, with the mask checks of both roles |
| `WsConn.Conn.ReadMessage` | internal/ws/conn.go:62-93 | the message or error, the state and the unread bytes, over any stream of frames; what that is for messages in several frames, `WsConn.FragmentsReceived` says |
| `WsConn.FragmentsReceived` | internal/ws/conn.go:62-93 | over the bytes: a data message in any number of legal frames, control frames anywhere between, masked as the role asks, is read as the control messages in order and then one message with the first frame's opcode and the joined payload, inflated if RSV1 was set; exactly its bytes are gone and the reassembler is closed |
| `WsConn.LargeFragmentsRefused` | internal/ws/conn.go:62-93 | joined to more than 64 MiB it is refused with the size error, and the receiver is as it was |
| `WsConn.FragmentedRoundTrip` | internal/ws/conn.go:62-117 | whatever one end packs arrives whole at the other in any number of frames, and lockstep is kept |
| `WsConn.WrongMaskRefused` | internal/ws/conn.go:68-73 | a legal frame masked against the role of the reader is refused with the role's error and changes nothing |
| `WsConn.SentFrame` | internal/ws/conn.go:95-117 | on the wire behind a write stands one final frame, RSV1 set exactly if it was compressed, masked with the drawn key exactly if the sender is a client |
| `WsConn.Conn.Close` | internal/ws/conn.go:123-144 | the first close closes the sending half and cuts the stream behind what had come in; the receiving half stays as it was; later closes change nothing |
| `WsConn.CutChangesNoMessage` | internal/ws/conn.go:62-144 | wherever the stream is cut, a message read from what is left is the message of the whole stream, with the same state behind it |
| `WsConn.MessageRoundTrip` | internal/ws/conn.go:62-117 | in lockstep, one write and one read: the peer gets that opcode and payload and both histories agree exactly if the message is deliverable (opcode, control and size limits, plain and compressed) |
| `WsConn.UndeliverableLeaves` | internal/ws/conn.go:62-117 | a message that is not deliverable leaves the receiver as it was, with an error or, for an opcode from 16 on, the payload under its low four bits; lockstep survives exactly if packing it did not change the sender's history |
| `WsConn.ConversationRoundTrip` | internal/ws/conn.go:62-117 | any list of deliverable messages: as many reads as writes give the same messages in order and keep lockstep |
| `WsConn.HistoryIsLastData` | internal/ws/deflate.go:135-177 | with context takeover the history is the last 32768 bytes of all non-empty data payloads sent; empty messages and control frames leave it alone; without takeover it stays empty |
| `WsConn.PackedAgainstHistory` | internal/ws/deflate.go:135-177 | after any messages the next one is compressed against the last 32768 bytes of all data sent before, or against nothing without context takeover, and only the sync tail is taken off |
| `WsConn.EndToEnd` | internal/ws/conn.go:26-117 | two fresh ends: every message arrives, in order, and both histories are the last 32768 bytes of the data sent |
| `Msgpack.Validate` | internal/wsproto/validate.go:5-131 | the loop with its pending counter accepts a byte string if and only if it is exactly one object of the recursive MessagePack grammar |
| `Msgpack.StepDecides` | internal/wsproto/validate.go:11-100 | a number of objects lies ahead if and only if one round is accepted and the objects left to read lie ahead of its end |
| `Msgpack.FrontAccepted` | internal/wsproto/validate.go:14-131 | completeness: a legal object's front is never refused, so the early size rejections refuse no valid input |
| `Msgpack.FrontBuilds` | internal/wsproto/validate.go:14-131 | soundness: an accepted front and any legal children make a legal object with that front |
| `WsProto.Encode` | internal/wsproto/wsproto.go:49-95 | the frame bytes and metadata, or the error, for any payload and libraries |
| `WsProto.PackedIsShorter` | internal/wsproto/wsproto.go:54-72 | beyond 32 bytes the compressed form is sent if it is shorter, else the payload itself, and the factor is zero exactly in the second case |
| `WsProto.Decode` | internal/wsproto/wsproto.go:97-143 | the payload and metadata, or the first error in the order the code checks, for any bytes and libraries |
| `WsProto.HeaderRoundTrip` | internal/wsproto/wsproto.go:74-113 | all ten header bytes read back, with Seq and Opcode as signed 16-bit numbers and the 24-bit length |
| `WsProto.CofBoundsBuffer` | internal/wsproto/wsproto.go:63-69 | a body expanding at most 255 times gets a factor between 2 and 255, and factor times body length is at least the raw length and less than raw plus body length |
| `WsProto.PackedUnpacks` | internal/wsproto/wsproto.go:54-130 | what packing stores is unpacked by a buffer of the size the reader computes |
| `WsProto.DecodeUndoesEncode` | internal/wsproto/wsproto.go:49-143 | decoding an encoded frame in front of any bytes gives the payload and the metadata if factor times body length is at most 128 MiB, and the size error otherwise; the product is below raw plus body length |
| `Sfnt.Parse` | pkg/fontsubset/sfnt.go:25-58 | the tables of the directory, or the first of the errors the code checks for |
| `Sfnt.TableChecksum` | pkg/fontsubset/sfnt.go:120-132 | the loop and its tail compute the sum of the big-endian words of the zero-padded table modulo 2^32 |
| `Sfnt.ChecksumAppend` | pkg/fontsubset/sfnt.go:120-132 | checksums of aligned parts add up modulo 2^32 |
| `Sfnt.ChecksumAdjusts` | pkg/fontsubset/sfnt.go:111-115 | one aligned word, chosen from the checksum of the rest, brings a file to any wanted checksum |
| `Sfnt.DirSearchParams` | pkg/fontsubset/sfnt.go:134-148 | the 16-bit doubling loop ends below 32768 tables with the rounded-down logarithm and the wrapped search fields |
| `Sfnt.SearchFieldsExact` | pkg/fontsubset/sfnt.go:134-148 | the fields are what OpenType asks for if and only if there are fewer than 4096 tables |
| `SfntWrite.ComputeOffsets` | pkg/fontsubset/sfnt.go:70-79 | every tag's offset is behind the directory and the padded tables before it, and the size is the end of the last |
| `SfntWrite.PutChecksums` | pkg/fontsubset/sfnt.go:103-109 | filling in one checksum after the other turns the directory into one with every table's checksum and changes nothing else |
| `SfntWrite.Serialize` | pkg/fontsubset/sfnt.go:60-118 | there is one ascending list of the tags such that the buffer ends up as header, directory in that order, padded tables and adjustment |
| `SfntWrite.FileSumsToMagic` | pkg/fontsubset/sfnt.go:98-115 | whenever `head` has at least 12 bytes the whole file sums to 0xB1B0AFBA modulo 2^32 |
| `SfntWrite.ParseUndoesSerialize` | pkg/fontsubset/sfnt.go:25-118 | parsing the written file gives the font back, up to the adjustment field of `head` |
| `SfntWrite.TableLaidOut` | pkg/fontsubset/sfnt.go:70-109 | read from the file itself, for every table: its entry names it and carries its checksum with the adjustment zeroed, and the table lies behind the directory at an offset divisible by four and inside the file |
| `SfntWrite.TablesInOrder` | pkg/fontsubset/sfnt.go:70-101 | read from the file itself: of any two tables the later entry's begins behind the end of the other, so none overlap |
| `SfntWrite.TableAt` | pkg/fontsubset/sfnt.go:87-96 | every table is found whole at its offset |
| `Cmap.ParseFormat4` | pkg/fontsubset/cmap.go:94-146 | the loops over segments and codes extend the map as the format's definition does, or fail with the code's error |
| `CmapLookup.Format4Maps` | pkg/fontsubset/cmap.go:115-144 | pointwise: a code gets the glyph of the last segment that has a non-zero one for it, 16-bit arithmetic wrapping, and every other code keeps what it had |
| `CmapLookup.Glyph4IsIndexed` | pkg/fontsubset/cmap.go:115-144 | the byte offsets of the code are OpenType's own rule: counted in 16-bit words from where idRangeOffset stands, plus idDelta modulo 2^16 |
| `Cmap.ParseFormat12` | pkg/fontsubset/cmap.go:148-176 | the loops over groups and codes extend the map as the format's definition does, or fail with the code's error |
| `CmapLookup.Format12Maps` | pkg/fontsubset/cmap.go:160-174 | pointwise: a code gets the glyph its last covering group counts out, wrapping at 32 bits, and every other code keeps what it had |
| `CmapTable.ParseUnicode` | pkg/fontsubset/cmap.go:16-82 | it succeeds exactly if the records and every Unicode subtable of formats 4 and 12 have the sizes they claim; then the list, strictly ascending, gives a code the glyph of the last Unicode record of format 12 that covers it, failing that of the last of format 4 that has one, and leaves out codes without a glyph |
| `CmapTable.MergedReads` | pkg/fontsubset/cmap.go:16-82 | the merged map of the two passes is what the records say, code by code |
| `Cmap.RepresentsIsUnique` | pkg/fontsubset/cmap.go:73-81 | a map has one such list only |
| `CmapBuild.CollectGroups` | pkg/fontsubset/cmap.go:181-193 | the loop that extends the last group in place builds the groups defined pair by pair |
| `CmapBuild.GroupsExpand` | pkg/fontsubset/cmap.go:181-193 | expanding the groups gives the list of pairs back, for any list |
| `CmapBuild.GroupsAreTight` | pkg/fontsubset/cmap.go:181-193 | for ascending codes the groups are non-empty, strictly ascending, disjoint, and no two neighbours could be merged |
| `CmapBuild.BuildFormat12` | pkg/fontsubset/cmap.go:178-234 | the table is, byte for byte, that of a sorted permutation of the pairs, whatever their order and whether or not codes repeat |
| `CmapRoundTrip.TableRoundTrip` | pkg/fontsubset/cmap.go:16-234 | parsing the table built from ascending pairs with glyphs gives a map that those pairs represent exactly |
| `CmapRoundTrip.BuildThenParse` | pkg/fontsubset/cmap.go:16-234 | for any list of distinct codes with non-zero glyphs, building and parsing gives the same pairs in ascending order |
| `Emoji.RangesAscend` | pkg/fontsubset/emoji_codepoints.go:3-154 | the 150 ranges are disjoint and strictly ascending, which the binary search needs |
| `Emoji.SearchFindsRanges` | pkg/fontsubset/emoji_codepoints.go:164-184 | the binary search, as a function, holds exactly on the union of the ranges |
| `Emoji.IsEmojiCodepoint` | pkg/fontsubset/emoji_codepoints.go:164-184 | the loop with its shortcuts answers what the search function answers, which is membership in the union of the ranges |
| `Subset.Keep` | pkg/fontsubset/subset.go:24-29 | filtering keeps exactly the pairs that are not to be removed, in order |
| `Subset.Subset` | pkg/fontsubset/subset.go:8-32 | for every input: the error it must give, or a file that parses to the same version and tables, all but `cmap` byte-identical except bytes 8 to 12 of `head`, whose `cmap`, read record by record, gives a code the glyph that the records of the old one give it or none if it is to be removed, and whose checksum is right if `head` has at least 12 bytes |
| `Subset.SubsetEmoji` | pkg/fontsubset/subset.go:34-36 | the same with exactly the union of the emoji ranges removed |
| `Intercept.Queue.Enqueue` | internal/ui/mitm/manual_intercept.go:88-98 | the next ID and the entry at the end of the queue |
| `Intercept.Queue.Take` | internal/ui/mitm/manual_intercept.go:104-122 | the first entry with the ID leaves the queue and no other changes; nothing changes if there is none |
| `Intercept.Queue.TakeAll` | internal/ui/mitm/manual_intercept.go:131-140 | the whole queue in order, leaving it empty |
| `Intercept.StepKeeps` | internal/ui/mitm/manual_intercept.go:57-140 | every step of every participant keeps the invariant of queue, resolvers' hands, one-slot channels and IDs |
| `Intercept.RunKeeps` | internal/ui/mitm/manual_intercept.go:57-140 | so does every interleaving of any number of steps |
| `InterceptSafety.ExactlyOnePlace` | internal/ui/mitm/manual_intercept.go:88-140 | in every reachable state a waiting message is in exactly one of the queue, one resolver's hands, or its filled slot, once, and any other message in none |
| `InterceptSafety.SendNeverBlocks` | internal/ui/mitm/manual_intercept.go:104-140 | in every reachable state the next message in a resolver's hands has an empty slot, so the send on the one-slot channel never blocks |
| `InterceptSafety.DrainAlwaysEnabled` | internal/ui/mitm/manual_intercept.go:131-140 | draining is possible in every reachable state and meets only messages that wait |
| `InterceptSafety.IdsAscend` | internal/ui/mitm/manual_intercept.go:91-97 | queued IDs strictly ascend, and no two messages ever share an ID |
| `InterceptSafety.OnlyNamedMessagesChange` | internal/ui/mitm/manual_intercept.go:88-140 | a message comes back as its own bytes, undropped, or with the bytes and the verdict of a Forward or Drop that was issued and named its ID |
| `InterceptSafety.ResolveDecides` | internal/ui/mitm/manual_intercept.go:104-129 | a Forward or Drop of a queued message decides it: in every state that any later steps reach it has left the queue and comes back with the command's verdict and its bytes, the message's own if it brings none |
| `InterceptSafety.DrainDecides` | internal/ui/mitm/manual_intercept.go:131-140 | a drain decides every queued message: it comes back as it is, undropped |
| `InterceptSafety.QueuedStays` | internal/ui/mitm/manual_intercept.go:104-140 | nothing else takes a message out of the queue |
| `InterceptSafety.GateDecides` | internal/ui/mitm/manual_intercept.go:88-98 | the switch decides once: off, the message comes back at once as it is, and stays so; on, it never comes back without an ID of its own |
| `InterceptSafety.EnqueueWaits` | internal/ui/mitm/manual_intercept.go:92-100 | past the gate a message waits at the end of the queue under an ID greater than all before |
| `InterceptSafety.AnsweredComesBack` | internal/ui/mitm/manual_intercept.go:88-140 | the next message in a resolver's hands comes back by one send and one receive, with the answer in the hand |
| `InterceptSafety.AnsweredOnce` | internal/ui/mitm/manual_intercept.go:88-122 | no step gives a message a second result |
| `FlowExec.Run.Visit` | internal/ui/flow/exec.go:567-581 | on any graph a visit ends, because every counted visit spends the global budget; before and after it at most 10000 visits are counted, every visit but the first was made for an arrow that passed or by a loop, the entries are the visited requests in order and number okReq plus failReq, arrows show their last answer, and no node is shown as running, the last two unless cancelled; within the budget and uncancelled this visit and all it led to are done: each arrow answered once, in order, and every loop started as often as it should |
| `FlowExec.Run.Perform` | internal/ui/flow/exec.go:586-703 | a request adds exactly one entry with its name and one count, the counters match the verdicts of the entries, and the node ends up good or bad |
| `FlowExec.Run.Rounds` | internal/ui/flow/exec.go:708-768 | a loop starts its entry nodes in order, round after round, exactly as often as it counts or as its source has items, uncancelled and within the budget; a source without an array is recorded as missed and starts nothing |
| `FlowExec.Run.OneRound` | internal/ui/flow/exec.go:758-763 | one round starts every entry node once, in order, uncancelled and within the budget |
| `FlowExec.Run.FollowOuts` | internal/ui/flow/exec.go:548-565 | every outgoing arrow is answered exactly once and in order, uncancelled and within the budget, and what that led to is done |
| `FlowExec.Run.FollowOne` | internal/ui/flow/exec.go:553-563 | one answer is noted for the arrow and shown as its status; a true one makes the very next visit the one of its target, uncancelled and within the budget; a false one makes no visit and asks nothing more |
| `FlowExec.Runner.Start` | internal/ui/flow/exec.go:452-496 | no run begins while another goes, without a start node or without arrows; otherwise one begins, is recorded and is left going, and the history keeps the last twenty |
| `FlowExec.Runner.Go` | internal/ui/flow/exec.go:497-798 | the run ends on every graph, its record gets the verdict and the visited requests in order, and another may begin; uncancelled within the budget the start node was visited first, every visit has had all its arrows answered, every arrow answered true was followed at once, and every loop has run its rounds |
| `FlowModel.ScenarioFromDTO` | internal/ui/flow/model.go:858-889 | the loops over nodes and edges fill in defaults and drawn identifiers, drop edges without both ends, and put a start node in front if there is none |
| `FlowModel.DecodedIsSettled` | internal/ui/flow/model.go:664-739 | whatever is decoded, the result has identifiers, defaults filled in, edges between existing nodes and a start node |
| `FlowModel.FieldsFilled` | internal/ui/flow/model.go:664-706 | a node keeps what it brings; an empty method, body type, opcode or wait gets GET, raw, TEXT or 1000 according to its kind, and an empty identifier the drawn one |
| `FlowModel.ArrowFilled` | internal/ui/flow/model.go:722-739 | an arrow keeps its ends, condition and values; an empty operator or count gets its default, and a side that its end cannot have the usual one |
| `FlowModel.ArrowsStay` | internal/ui/flow/model.go:858-889 | the arrows that stay are those between nodes that are there, in order |
| `FlowModel.SettledStays` | internal/ui/flow/model.go:858-889 | decoding changes nothing about a settled scenario |
| `FlowModel.NormalIsIdempotent` | internal/ui/flow/model.go:840-889 | encode after decode is idempotent, whatever identifiers are drawn the second time |
| `FlowModel.SettledRoundTrip` | internal/ui/flow/model.go:627-889 | a settled scenario is decoded from its encoding and encodes to the same text |
| `FlowEditor.History.PushSnapshot` | internal/ui/flow/editor.go:574-586 | an empty snapshot or one that repeats the top changes nothing; any other is pushed, the oldest beyond a hundred goes, and the redo stack is emptied |
| `FlowEditor.PushAdds` | internal/ui/flow/editor.go:574-586 | a new snapshot lies on top, of those below at most the latest 99 stay, and nothing can be redone |
| `FlowEditor.EditUndone` | internal/ui/flow/editor.go:574-640 | behind a snapshot and a change that shows in the encoding, an undo restores the normal form of the state before it and keeps the change for a redo |
| `FlowEditor.History.CommitPending` | internal/ui/flow/editor.go:592-597 | a pending snapshot is pushed and forgotten; without one nothing changes |
| `FlowEditor.History.Undo` | internal/ui/flow/editor.go:626-640 | the loop that skips snapshots equal to the current state and restores the first other one |
| `FlowEditor.History.Redo` | internal/ui/flow/editor.go:642-652 | the current state goes to the undo stack and the last redo snapshot is restored |
| `FlowEditor.StacksBounded` | internal/ui/flow/editor.go:574-652 | over every run of edits, undos and redos both stacks together hold at most a hundred, although redo checks nothing |
| `FlowEditor.UndoReaches` | internal/ui/flow/editor.go:626-640 | undo restores the latest snapshot that differs from the current state and puts exactly the current state on the redo stack |
| `FlowEditor.RedoUndoesUndo` | internal/ui/flow/editor.go:626-652 | a redo right after an undo that changed something restores the encoding it started from up to its normal form, and the very same encoding if and only if the scenario was settled |
| `FlowEditor.ClearedWaitComesBack` | internal/ui/flow/editor.go:626-652 | a scenario with a cleared waiting time is one that does not come back as it was |
| `CmdLine.QuoteArg` | internal/netlimit/elevate_windows.go:85-115 | the loop with its backslash counter computes the quoted form that `CmdLine.QuoteReads` shows to be read back |
| `CmdLine.QuotedOnlyIfNeeded` | internal/netlimit/elevate_windows.go:85-88 | exactly the empty argument and those with a blank, line end, vertical tab or quote are changed |
| `CmdLine.JoinCmdLine` | internal/netlimit/elevate_windows.go:74-83 | the loop computes the joined line that `CmdLine.JoinRoundTrip` shows to be taken apart again |
| `CmdLine.QuoteReads` | internal/netlimit/elevate_windows.go:85-115 | any quoted argument, empty ones included, is read back by the Microsoft rules, leaving what follows it |
| `CmdLine.JoinRoundTrip` | internal/netlimit/elevate_windows.go:74-115 | splitting the joined command line gives exactly the arguments, under either reading of two quotes in a row |
| `TokenBucket.Bucket.Refill` | internal/netlimit/shaper_windows.go:33-38 | tokens grow by rate times elapsed time and stop at the burst |
| `TokenBucket.Bucket.Wait` | internal/netlimit/shaper_windows.go:25-50 | on any monotone clock the loop ends after at most two sleeps, and a second one only if what was missing before the first takes no whole number of nanoseconds and more than the shortest sleep; tokens stay between nothing and the burst; what passes is paid for by the tokens and the rate times the time |
| `TokenBucket.Bucket.Shape` | internal/netlimit/shaper_windows.go:17-50 | over any run of packets from any moment on, the bytes admitted never exceed the tokens then plus rate times time, nor the first burst plus rate times time since creation |
| `TokenBucket.SleepEarnsDeficit` | internal/netlimit/shaper_windows.go:43-48 | a sleep earns the deficit if and only if the time to wait is a whole number of nanoseconds or at most the shortest sleep, and always all but less than one nanosecond's worth |
| `TokenBucket.ThirdGoesMissing` | internal/netlimit/shaper_windows.go:43-48 | at three bytes a second one sleep for a million bytes is too short |
| `Beautify.BeautifyBraces` | internal/har/pretty.go:125-332 | the result of the scanning loops, when it counts as changed, and that its bytes other than blanks are those of the input; what the result looks like, `BeautifyLayout.BeautifiedIsLaid` says |
| `Beautify.RunKeepsInk` | internal/har/pretty.go:182-328 | from any state, what a pass adds to the output is, blanks apart, exactly the input: strings, comments and regular expressions included |
| `Beautify.BeautifiedKeepsInk` | internal/har/pretty.go:125-349 | for every input nothing visible is lost, moved or invented |
| `Beautify.CopiedSurvives` | internal/har/pretty.go:188-257 | a string, template, comment or regular expression that does not end in white space stands in the result unbroken, as it stood in the source, if and only if it holds no three newlines in a row |
| `Beautify.CollapseBlankLines` | internal/har/pretty.go:334-349 | of each run of newlines the first two stay and everything else is copied |
| `Beautify.BeautifiedIsTight` | internal/har/pretty.go:330-349 | the result never has three newlines in a row and none at its end |
| `BeautifyLayout.BeautifiedIsLaid` | internal/har/pretty.go:125-349 | for every input the result is the source's literals and bytes of ink in order, and each gap between two of them is a new line with two blanks for each open brace or the blanks that stood there, as the pieces beside it and the braces and parentheses open there say |
| `BeautifyLayout.LinesIndented` | internal/har/pretty.go:125-332 | in the result, a piece behind an opening brace, a semicolon outside parentheses or a closing brace that nothing joins, and every closing brace but a first one, stands behind a newline and exactly two blanks for each open brace, itself not counted if it closes one |
| `BeautifyLayout.OtherGapsInline` | internal/har/pretty.go:260-327 | no other piece starts a line |
| `BeautifyLayout.JoinsTable` | internal/har/pretty.go:279-283 | what joins a closing brace: the end, closing signs, a comma or semicolon, and in scripts operators, a point, a call or a template |
| `BeautifyLayout.ContinuesTable` | internal/har/pretty.go:284-290 | the words that stay on its line: else, catch, finally, while |
| `BeautifyLayout.RegexTable` | internal/har/pretty.go:117-123 | behind which bytes a regular expression may start |
| `BeautifyLayout.QuotedLiteral` | internal/har/pretty.go:188-209 | quoted text is a literal up to its first quote without a backslash |
| `BeautifyLayout.LineLiteral` | internal/har/pretty.go:211-217 | a line comment is one up to the end of its line |
| `BeautifyLayout.BlockLiteral` | internal/har/pretty.go:218-231 | a block comment is one up to its first closing sign |
| `BeautifyLayout.RegexLiteral` | internal/har/pretty.go:232-257 | a regular expression is one up to its slash outside classes, exactly where the byte before lets one start |
| `BeautifyVisible.BeautifiedKeepsVisible` | internal/har/pretty.go:125-349 | the bytes of the result that are not white space, as TrimSpace has it, are those of the source if and only if no white-space character has its bytes on both sides of line ends outside copied literals; otherwise they are fewer |
| `BeautifyVisible.ValidKeepsVisible` | internal/har/pretty.go:125-349 | valid UTF-8 keeps every visible byte |
| `BeautifyVisible.HalvesMeet` | internal/har/pretty.go:321-322 | two bytes with a newline between them make a no-break space when it is dropped, and are no longer seen |
| `BeautifyMarkup.ScanMarkup` | internal/har/pretty_markup.go:89-257 | the scanning loop yields the tokens defined step by step: text, tags, comments, declarations, raw bodies |
| `BeautifyMarkup.BeautifyTags` | internal/har/pretty_markup.go:36-87 | the laid-out text, when it counts as changed, and that it is the input with nothing but white space left out |
| `BeautifyMarkup.ToksStrip` | internal/har/pretty_markup.go:89-178 | the texts of the tokens, one after the other, are the input with nothing but white-space characters left out, raw bodies beautified or not |
| `BeautifyMarkup.LayInk` | internal/har/pretty_markup.go:42-83 | laying tokens out on indented lines, splitting raw bodies and joining an element with its text, adds only blanks |
| `MarkupLayout.MarkupIsLaid` | internal/har/pretty_markup.go:36-87 | for every input the result is its tokens' lines in order, each behind two blanks for each tag open there; an element with nothing or only text in it is one line and opens nothing, a raw body has a line for each of its own |
| `MarkupLayout.ToksKinded` | internal/har/pretty_markup.go:89-165 | the kind of every token is told by its own text: text, comment, declaration, closing, self-closing or void, opening |
| `MarkupLayout.TagTaken` | internal/har/pretty_markup.go:180-199 | a tag ends with its first closing bracket outside quoted values |
| `MarkupLayout.IndexIsFirst` | internal/har/pretty_markup.go:219-248 | comments, character data and raw bodies end at the first place of what ends them |
| `MarkupLayout.NameFound` | internal/har/pretty_markup.go:201-217 | the name of an opening or closing tag is what stands behind its bracket up to a blank, slash or bracket |
| `BeautifyMarkup.MarkupKeepsInk` | internal/har/pretty_markup.go:36-199 | for every input the visible output is the input with nothing but white-space characters left out, in order, nothing invented, embedded scripts and styles included |
| `BeautifyMarkup.BlankTextKeepsInk` | internal/har/pretty_markup.go:36-199 | if blanks are the only white space of the input, the visible bytes are equal |
| `MarkupVisible.MarkupKeepsVisible` | internal/har/pretty_markup.go:36-199 | the bytes of the laid-out text that are not white space are those of the source if and only if every script and style body fits, that is, no white-space character of it is split by line ends; otherwise they are fewer |
| `MarkupVisible.ValidTextKeepsVisible` | internal/har/pretty_markup.go:36-199 | valid UTF-8 keeps every visible byte, scripts and styles included |
| `MarkupVisible.SplitSheetLoses` | internal/har/pretty_markup.go:145-178 | a style sheet whose no-break space is split by a newline shows less than before |
| `JsonTokens.AppendToken` | pkg/syntax/syntax.go:39-49 | a range is cut into tokens of at most 65535 bytes whose starts are wrapped to 32 signed bits |
| `JsonTokens.Tokenize` | pkg/syntax/json.go:3-225 | for every input the tokens of the pieces found step by step, with wrapped starts; they tile the input if and only if every token starts below 2 GiB, as in every input up to that size |
| `JsonTokens.PiecesTile` | pkg/syntax/json.go:22-159 | before their starts are wrapped, the tokens are non-empty, in order, in bounds and disjoint, with only space, tab, CR or LF between them, from every position and in every state of depth and nesting |
| `JsonTokens.TokensTile` | pkg/syntax/syntax.go:26-49 | with wrapped starts they still do so if and only if every token starts below 2 GiB |
| `JsonTokens.FarInputsFail` | pkg/syntax/syntax.go:26-49 | so no input with a visible byte from 2 GiB and one token on is tiled |
| `JsonLexemes.CutJoins` | pkg/syntax/syntax.go:39-49 | the tokens of one piece lie end to end over it, all but the last full, with its kind and depth, before their starts are wrapped |
| `JsonLexemes.LexemeFound` | pkg/syntax/json.go:57-225 | any legal lexeme of RFC 8259 in front of what may follow it is found whole, with its kind, depth and effect on the nesting |
| `JsonLexemes.LineCommentFound` | pkg/syntax/json.go:31-39 | a line comment is found up to the end of its line |
| `JsonLexemes.BlockCommentFound` | pkg/syntax/json.go:40-55 | a block comment is found up to its first closing sign, one byte further exactly if that is all that is left |
| `JsonLexemes.UnfinishedStringFound` | pkg/syntax/json.go:93-117 | a string that is not closed ends with its line |
| `JsonLexemes.PlainFound` | pkg/syntax/json.go:145-158 | bytes that start no lexeme are one plain piece up to the next blank, quote, bracket, comma, colon or slash |
| `JsonLexemes.LexemesFound` | pkg/syntax/json.go:22-159 | any sound sequence of lexemes with any white space around them is found lexeme by lexeme |
| `JsonLexemes.BracketsMatch` | pkg/syntax/json.go:57-74 | closing restores the depth of its opening bracket if and only if that was below 255; the stack is restored always |
| `JsonLexemes.ValueFound` | pkg/syntax/json.go:3-225 | every JSON value with any white space is found lexeme by lexeme, and the marks are the grammar's (keys and only keys are keys, both brackets of a value carry its depth) if and only if it nests at most 255 deep |
| `Utf8.EncodeUndoesDecode` | internal/utils/text.go:32-77 | a well-formed start decodes to a scalar value whose encoding it is |
| `Utf8.DecodeUndoesEncode` | internal/utils/text.go:32-77 | every scalar value's encoding, in front of anything, decodes to it |
| `Sanitise.SanitizeSlow` | internal/utils/text.go:32-124 | the copying loop with its printable runs computes the rune-by-rune result; both slow paths are this loop |
| `Sanitise.RuneShown` | internal/utils/text.go:50-72 | what every character turns into, in front of anything: four spaces, a newline, nothing or itself |
| `Sanitise.IllFormedShown` | internal/utils/text.go:50-53 | a byte that starts no character turns into the replacement character |
| `Sanitise.SanitizeBytes` | internal/utils/text.go:8-26 | the entry with its shortcut computes the same on every byte string |
| `Sanitise.FastPathSound` | internal/utils/text.go:8-26 | on valid text without a control byte or a lead byte C2, E2 or EF, sanitising changes nothing |
| `Sanitise.LeadTells` | internal/utils/text.go:14-20 | no rune that is escaped or dropped has another multi-byte lead than C2, E2 or EF |
| `Sanitise.OutputIsClean` | internal/utils/text.go:32-124 | whatever comes in, the output is valid UTF-8 without a rune that would be touched |
| `Sanitise.CleanStays` | internal/utils/text.go:32-124 | clean text is left alone |
| `Sanitise.Idempotent` | internal/utils/text.go:8-124 | sanitising twice is sanitising once, on every byte string |

## Left out

- Network faults while writing, deadlines and the close handshake: a connection is the bytes it carries.
- The mutexes of the WebSocket connection: one reader and one writer are modelled, each on its own state.
- Internals of compress/flate, LZ4, the MessagePack and JSON libraries, `sort` and `bytes.Index`: parameters with laws, or plain functions.
- `ParseExtensions`, the HTTP upgrade and the choice of window bits: header text, no state that the proofs need.
- Reserved opcodes 3 to 7 are passed through as data, as the code does; rejecting them is not claimed.
- SfntWrite.Serialize: asks for fewer than 32768 tables and less than 4 GiB of output, because beyond that the source's doubling loop does not end or its 32-bit offsets wrap.
- Subset.Subset: the same bounds, for the same reason, on the input font with the `cmap` it is going to get.
- CmapBuild.BuildFormat12: asks for a table below 4 GiB, because beyond that the source's 32-bit length wraps and its buffer is too short.
- WsConn.Conn.Close: how much of the stream had come in is a parameter; the error a read meets behind it is the end of the stream, where the source passes on the error of the closed stream. What closing frees is not modelled.
- Sfnt.DirSearchParams: asks for fewer than 32768 tables, where the source's loop does not end.
- WsProto.Encode: the ratio is the integer ceiling of raw over body length; the source computes it in `float64`, which is exact for these sizes.
- WsProto: the conversion of decoded values to JSON text (`MarshalJSON`, `normalize`) is not modelled.
- WsFrame.WriteFrame: a payload is shorter than 2^63 bytes, as a Go slice is; `WsConn` sends messages shorter than 2^62 bytes, so that a deflated copy is a slice too.
- FlowExec.Runner.Go: pausing, stepping, delays, HTTP and variables are not modelled; outcomes, conditions, loop sources and cancellation are arbitrary choices, and what others read while the run goes is not modelled.
- FlowModel.ScenarioFromDTO: coordinates are reals, and editors are plain strings.
- FlowEditor.History.Undo: widgets that drop newlines in single-line fields, and the pruning of the selection, are not modelled.
- Intercept.Queue.Enqueue: the ID counter is unbounded; its wrap at 2^64 is not modelled.
- An empty interceptor queue whenever it is switched off is not claimed: a caller past the gate may enqueue after the drain.
- CmdLine.QuoteArg: strings are code points; ill-formed UTF-8 in an argument is not modelled.
- TokenBucket.Bucket.Wait: tokens are reals and time is whole nanoseconds; rounding of `float64` is not modelled.
- Sanitise.SanitizeSlow: models both `sanitizeFromBytes` and `sanitizeString`, which are the same code on two types.
- `StripJSONComments`, the other tokenizers of the highlighter, and the choice of language: not modelled.
- BeautifyMarkup.ScanMarkup: lower-casing a name is a parameter, so Unicode case tables are not modelled; the theorems hold for every such function.
- Meaning preservation by the beautifiers is not claimed: the newline that ends a `//` comment is dropped.
- Drawing, layout, gestures, settings, files, packet capture and process elevation: no property beyond their libraries.
