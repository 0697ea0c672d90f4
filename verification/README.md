# Verified models of the reassembly and decoding engines

`pcap-decode` turns captured packets back into byte strings: TCP streams, IP datagrams, BACnet files, DNS names, HTTP
messages, capture records, hidden executables. Each engine is a small stateful algorithm. This project models them in
Dafny and proves what they compute, over every input and every run.

Where the program updates an object, the model is a class with the same fields, and each of its methods is proved
against a function on the value those fields make up (`Value() == Add(old(Value()), …)`). What the program is for is
then proved about those functions: over one call, over whole runs, and against definitions that do not mention the
algorithm (the bytes received so far, the derivation of a name, the last writer of a byte, the naive search).

`dafny verify dfyconfig.toml` checks everything.

## The engines

| Files | What they hold |
|---|---|
| `TcpDirection`, `TcpStreams`, `TcpRuns`, `TcpLimits`, `TcpPieces`, `TcpClosing` | one direction of a TCP connection: the class, its invariant, whole runs, the exact limits, the recorded pieces, and when it closes |
| `TcpConnections`, `TcpCaptures`, `TcpLedgers` | connection tracking: the classes, whole captures flow by flow, and the packet ledger |
| `TcpResidues`, `TcpSides`, `TcpDeliveries`, `TcpLateData`, `TcpRoles` | from packets to streams: what a SYN finds, what one endpoint's packets make of its side, when a connection is over and what is emitted for it, packets that come too late, and who is the client |
| `IpDefragmenter`, `IpDefragmentation` | IPv4 fragments: the class, and exactness of the rebuilt datagram |
| `BacnetTags`, `BacnetFiles`, `BacnetTransfers`, `BacnetCaptures`, `BacnetFlushes`, `BacnetMessages`, `BacnetExchanges` | the tag format, the file services, the capped buffer, whole captures, the end of a capture, the messages on the wire, and whole transfers made of them |
| `DnsNames`, `DnsDecompression` | name decompression against the derivation of a name |
| `HttpText`, `HttpChunks`, `HttpMessages`, `HttpFraming` | numbers and text, chunked bodies, message splitting, and every way in which a message can end |
| `PeParser`, `PeImages`, `XorCarver`, `XorImages` | the PE acceptance test, images as they are written, the scan for XOR-encoded images, and hidden images end to end |
| `CaptureFiles`, `CaptureRoundTrips`, `PcapngBlocks` | pcap and pcapng framing |
| `RawUdpGate`, `ExportNames` | the raw UDP gate and the choice of file names |
| `Basics`, `Fields`, `MapSums`, `SequenceNumbers`, `StableSort`, `Walks`, `Models` | what they share |

## Main results

- **TCP, with a SYN** (`TcpRuns.SynStreamExact`, `SynStreamComplete`, `SynRunsAgree`). For segments that are slices of one
  stream shorter than 2^31 bytes, in any order, with any duplicates, overlaps and wrap-around, the buffer is exactly the
  longest prefix all of whose bytes have been received. It depends on which bytes arrived and on nothing else.
- **TCP, joined midway** (`TcpRuns.MidStreamExact`, `MidRunsAgree`). The same, from the lowest byte received, through the
  prepend branch and its recursive call.
- **TCP, whole captures** (`TcpCaptures.TableIsReplay`, `TcpLedgers.CaptureLedger`,
  `TcpDeliveries.CaptureDeliversStreams`, `OpenConnectionDelivers`). A flow's tracker and streams are what its own packets
  determine, and every accepted packet is counted in exactly one stream. The packets of a flow are described as
  connections that follow one another; before its SYN a connection may have packets left over from the one before it, such
  as the last ACK, a FIN sent again or late data, and it may have been joined midway. It is over at the first packet by
  which an RST, or a packet that closes each side, and some data have been seen, and then emits a stream that holds, for
  each side, what was there before the SYN and the longest prefix of the stream that has arrived. Bare packets behind the
  last connection become one more stream, with no data.
- **TCP, who is who** (`TcpRoles.OpenerIsClient`, `OpenedConnectionDelivers`). If the first packet is a SYN or has no flags,
  the stream has that packet's own flow, and its two sides are what the packets with that source address and port make, and
  what the others do, whichever end has the lower address.
- **TCP, pieces** (`TcpPieces.PiecesAreCuts`, `SynPiecesNumbered`, `MidPiecesNumbered`). On any input each recorded piece is
  part of one received segment, with its time and frame; behind a SYN, or joined midway, its number is its place in the
  stream.
- **IPv4** (`IpDefragmentation.HoldsSince`, `DatagramRebuiltIff`). In any run, with any duplicates, a fragment is answered
  with the datagram if and only if it completes what has arrived since the datagram was last complete; no other key is
  touched. A datagram is thus rebuilt once for every time that it is complete.
- **BACnet** (`BacnetTags.ReadTagIff`, `TagsRoundTrip`; `BacnetTransfers.BufferIsOverlay`;
  `BacnetCaptures.FileIsDelivered`, `NothingForgottenIff`; `BacnetExchanges.TransferYieldsFile`). The tag reader inverts the
  format in both directions, the buffer holds each byte's last writer, an interleaved file read yields exactly that file, and
  so does any read or write made of messages as they stand on the wire.
- **DNS** (`DnsDecompression.ReadsStandardName`, `ReadsWholeNameIff`, `StandardIff`, `DomainSplitsIff`). The loop agrees with
  the derivation of a name in the standard; the loop check never fires on a well-formed name; and the domain, split at its
  dots, gives the labels back exactly if none contains a dot.
- **HTTP** (`HttpChunks.DechunkRoundTrip`, `HttpMessages.MessagesRoundTrip`, `HttpFraming.MessageIsWholeIff`,
  `FramedMessagesRoundTrip`), **capture files** (`CaptureRoundTrips.PcapRoundTrip`, `TruncatedFile`,
  `PcapngBlocks.BlocksRoundTrip`), **PE headers** (`PeImages.WrittenImageIsRead`): what was encoded is decoded, and a message
  is split off whole exactly if nothing ends it earlier.
- **XOR scan** (`XorCarver.CarveXorPe`, `XorImages.HiddenImageIsCarved`). The pre-filtered scan finds what the naive search
  finds, and an image whose bits are turned over by a key is carved under that key, where it stands, byte for byte.
- **Raw UDP gate** (`RawUdpGate.NothingIsSilent`, `FlowsGetTheirFirstPackets`, `EmissionIsBounded`) and **file names**
  (`ExportNames.AssignNames`).

## What the proofs brought to light

The model does what the code does in these places. Each has its exact condition, or an input on which it happens, or both.

- A connection is over when both sides have sent FIN, whether or not the data before the FIN has arrived. Data that a FIN
  overtook is missing from the stream, opens a tracker of its own, and stands in front of the next connection's stream
  (`TcpDeliveries.FinishedIffOver`, `TcpLateData.OvertakingFinLosesData`, `LateDataGoesInFront`;
  pcap_decode/tcp_reassembly.py:80-81, 149, 186). If something is still held back when the next SYN comes, it can even be
  drained into the next stream (`TcpResidues.HeldLeftoverLeaks`).
- The last ACK of an ordinary close opens a tracker too: at the end of the capture it yields an empty stream
  (`TcpDeliveries.LeftoverYieldsEmptyStream`, `TcpLateData.LastAckYieldsStream`), and if another connection follows, it
  decides who is taken for the client: the roles are swapped exactly when the opener's flow is not the key
  (`TcpDeliveries.RolesIff`; pcap_decode/tcp_reassembly.py:178-180). A FIN sent again closes its side of the next connection
  (`TcpLateData.OldFinEndsNextConnection`).
- A side that holds no data hands over the pieces it holds, gaps ignored, and these may even spell the stream
  (`TcpSides.SideData`, `HandsOverIff`, `ScrapsCanSpellStream`; pcap_decode/tcp_reassembly.py:106-113).
- FIN does not close a direction when it comes with a SYN, with the first payload of a connection joined midway, or with
  data that goes wholly in front of the base (`TcpClosing.AddClosesIff`, `MidRunClosesIff`, `FinIsIgnored`;
  pcap_decode/tcp_reassembly.py:31-35, 42-47, 52-61).
- A payload on a SYN is stored backwards: the recursive call sees the SYN flag again and moves the base past every byte
  (`TcpLimits.SynPayloadIsReversed`, `SynPayloadKeptIff`; pcap_decode/tcp_reassembly.py:31-33, 60).
- A SYN repeated after data has arrived puts the expected sequence number back without touching the buffer, and a
  retransmission is then stored twice (`TcpLimits.RepeatedSynSafeIff`, `RepeatedSynDuplicatesData`). A repeat before the
  first byte is harmless, and the whole-stream theorems allow it.
- A segment that ends before the base is spliced on without its gap; the condition is exact
  (`TcpLimits.EarlySegmentSafeIff`; pcap_decode/tcp_reassembly.py:52-55).
- The bound of 2^31 bytes is exact: for every stream that long some run leaves a buffer that is no prefix of it
  (`TcpLimits.LengthBoundIff`, `LengthBoundIsTight`).
- Sorting held segments by raw sequence number is wrong across a wrap-around but harmless: the drain delivers the same
  bytes in every order (`TcpStreams.DrainIgnoresOrder`).
- A BACnet file write or read ack with a negative start position counts from the end of the buffer and may insert
  instead of overwriting (`BacnetTransfers.PositionIsOffsetIff`, `NegativeWriteInserts`).
- The 4096-entry limit on pending file reads forgets every pending read at once; acks can all be matched exactly as long
  as no request meets that many unanswered ones (`BacnetCaptures.NothingForgottenIff`).
- A DNS name is cut at its tenth pointer (`DnsDecompression.ReadsWholeNameIff`, `TenthPointerCuts`), and labels of 64 to
  191 bytes, which RFC 1035 section 4.1.4 reserves, are read as plain labels (`StandardIff`, `ReservedLengthIsRead`).
- `parse_pe` raises on some truncated optional headers, and one such hit ends the whole XOR scan (`PeParser.ParsePe`,
  `CutOffImageRaises`; `XorCarver.CarveXorPe`, `CutOffImageEndsScan`).
- A fragment that comes after its datagram is complete is held, and is mixed into the next datagram with the same key; a
  later datagram starts clean if and only if none has (`IpDefragmentation.KeyIsReusableIff`, `LaterDatagramRebuiltIff`,
  `LateDuplicateMixes`).
- A request without a length and without chunks ends where one of seven methods stands; TRACE and PATCH are not among them,
  so such a request becomes the body of the one before it. A body that holds one of these texts, or a chunk that holds
  the end of a last chunk, is cut there (`HttpFraming.TraceIsSwallowed`, `MessageIsWholeIff`;
  pcap_decode/protocols/http.py:302-325).
- A negative chunk size, or a negative Content-Length, can send its loop back to where it was, for ever
  (`HttpChunks.TurnStallsIff`, `NeverEnds`, `NegativeSizeLoops`; `HttpMessages.TurnStallsIff`, `NegativeLengthRepeats`,
  `MinusThirtyThreeRepeats`). Either loop ends at all if and only if it ends within one turn per byte and one more
  (`EndsIff`), and without negative numbers it does (`EndsWithoutMinus`, `EndsUnsigned`).
- The repository's README.md:12 promises IP defragmentation, but the reader never fills `ip_id`
  (pcap_decode/pcap_reader.py:312-319), and packets without one pass through unchanged
  (`IpDefragmentation.PassesThroughIff`, `NothingWithoutId`). The other theorems are about packets that have one.

## Model

| member | source | states |
|---|---|---|
| SequenceNumbers.SeqDiffWithinHalf | pcap_decode/tcp_reassembly.py:7-11 | the signed difference of two wrapped positions is their true distance whenever that lies in [-2^31, 2^31) |
| SequenceNumbers.SeqDiffAntisymmetricIff | pcap_decode/tcp_reassembly.py:7-11 | swapping the arguments negates the difference except exactly at a distance of 2^31, where both are negative |
| StableSort.SortCorrect | pcap_decode/tcp_reassembly.py:77 | sorting by key ascends, permutes, and keeps the order of equal keys |
| Models.NormalizedIsDirectionNeutral | pcap_decode/models.py:22-34 | a flow and its reverse have one normal form, which is its own normal form |
| Models.SameKeyIff | pcap_decode/models.py:22-34 | two flows share a key if and only if they are equal or each other's reverse |
| TcpDirection.DirectionalReassembler.constructor | pcap_decode/tcp_reassembly.py:15-21 | a new reassembler has no base, no data and is open |
| TcpDirection.DirectionalReassembler.AddSegment | pcap_decode/tcp_reassembly.py:23-81 | the whole new state for any segment and flags, every branch and the recursive call included |
| TcpDirection.DirectionalReassembler.AppendData | pcap_decode/tcp_reassembly.py:83-86 | buffer, piece list and expected number grow together, nothing else changes |
| TcpDirection.DirectionalReassembler.ProcessOutOfOrder | pcap_decode/tcp_reassembly.py:88-104 | the nested loops end and reach the fixpoint of passes over the held list |
| TcpDirection.DirectionalReassembler.GetData | pcap_decode/tcp_reassembly.py:106-113 | the buffer, or the held pieces joined when the buffer is empty |
| TcpStreams.PassCorrect | pcap_decode/tcp_reassembly.py:91-104 | one pass keeps the window, delivers only offered bytes, and delivers or keeps every offered segment |
| TcpStreams.DrainCorrect | pcap_decode/tcp_reassembly.py:88-104 | at the fixpoint every kept segment lies strictly ahead of the window and no undelivered one is lost |
| TcpStreams.DrainIgnoresOrder | pcap_decode/tcp_reassembly.py:76-78 | any two orders of the held list, such as before and after the raw sort, deliver the same bytes |
| TcpStreams.PlaceKeepsInvariant | pcap_decode/tcp_reassembly.py:63-78 | appending, trimming or holding a segment keeps window and history in step |
| TcpStreams.PrependKeepsInvariant | pcap_decode/tcp_reassembly.py:49-56 | putting bytes in front of the base moves the window down to where the segment starts |
| TcpStreams.AddKeepsInvariant | pcap_decode/tcp_reassembly.py:23-81 | one payload that reaches the base moves the window down to its start and adds exactly itself to the history |
| TcpRuns.SynRunInvariant | pcap_decode/tcp_reassembly.py:23-104 | after a SYN the buffer is a prefix of the stream and base and expected number are its two ends, in every run |
| TcpRuns.SynStreamExact | pcap_decode/tcp_reassembly.py:23-104 | that prefix is exactly the longest one all of whose bytes have been received |
| TcpRuns.SynStreamComplete | pcap_decode/tcp_reassembly.py:23-113 | the data is the whole stream if and only if every byte has been received, and then nothing is held |
| TcpRuns.SynRunsAgree | pcap_decode/tcp_reassembly.py:23-104 | runs that received the same bytes, however cut and ordered, end with the same buffer and numbers |
| TcpRuns.MidRunInvariant | pcap_decode/tcp_reassembly.py:42-104 | without a SYN the buffer is an interval of the stream between base and expected number, in every run |
| TcpRuns.MidStreamExact | pcap_decode/tcp_reassembly.py:42-104 | that interval is the unbroken stretch of received bytes that starts at the lowest one |
| TcpRuns.MidRunsAgree | pcap_decode/tcp_reassembly.py:42-104 | midway runs that received the same bytes end with the same buffer and numbers |
| TcpLimits.RunLedger | pcap_decode/tcp_reassembly.py:42-61 | in every reachable state, for any input, the recorded pieces concatenate to the buffer |
| TcpPieces.PiecesAreCuts | pcap_decode/tcp_reassembly.py:46-104 | in every run, of any segments and flags, each recorded or held piece is part of one received segment, with that segment's time and frame |
| TcpPieces.AddInPlace | pcap_decode/tcp_reassembly.py:42-86 | a segment without a SYN keeps every piece numbered by where its data begin, provided that it reaches the base if it starts before it |
| TcpPieces.SynPiecesNumbered | pcap_decode/tcp_reassembly.py:23-104 | seen from its SYN, every piece is numbered by its place in the stream |
| TcpPieces.MidPiecesNumbered | pcap_decode/tcp_reassembly.py:42-104 | joined midway, every piece is numbered by its place behind the base |
| TcpLimits.SynPayloadIsReversed | pcap_decode/tcp_reassembly.py:31-61 | a payload on a SYN is put in front of the buffer backwards |
| TcpLimits.SynPayloadKeptIff | pcap_decode/tcp_reassembly.py:31-61 | the payload of a first SYN survives if and only if it is a palindrome |
| TcpLimits.RepeatedSynSafeIff | pcap_decode/tcp_reassembly.py:31-35 | a repeated SYN keeps the invariant if and only if nothing has been delivered yet |
| TcpLimits.RepeatedSynDuplicatesData | pcap_decode/tcp_reassembly.py:31-67 | after a late repeat a retransmission of the start is appended a second time |
| TcpLimits.EarlySegmentSafeIff | pcap_decode/tcp_reassembly.py:49-61 | a segment before the base keeps the window if and only if it reaches the base; otherwise it is spliced on |
| TcpLimits.LengthBoundIsTight | pcap_decode/tcp_reassembly.py:68-74 | with 2^31 bytes in the window a retransmission from its start is appended whole |
| TcpLimits.LongStreamArrives | pcap_decode/tcp_reassembly.py:65-67 | the state of the previous row is reached by a SYN and one segment |
| TcpLimits.LengthBoundIff | pcap_decode/tcp_reassembly.py:23-104 | every run of slices of S behind its SYN leaves a prefix of S if and only if S is shorter than 2^31 bytes |
| TcpClosing.AddClosesIff | pcap_decode/tcp_reassembly.py:23-81 | a segment closes the direction if and only if it carries RST, or a FIN without SYN that has no data, or data that is neither the first of all nor wholly before the base |
| TcpClosing.FinIsIgnored | pcap_decode/tcp_reassembly.py:31-61 | inputs on which FIN is lost: on a SYN, on the first payload, and on data wholly before the base |
| TcpClosing.SynRunClosesIff | pcap_decode/tcp_reassembly.py:23-81 | seen from its SYN, a direction is closed if and only if an RST, or a FIN apart from a SYN, has arrived |
| TcpClosing.MidRunClosesIff | pcap_decode/tcp_reassembly.py:42-81 | joined midway, it is closed if and only if an RST, an empty FIN, or a FIN on data past the lowest byte received has arrived |
| TcpResidues.RunsOnTop | pcap_decode/tcp_reassembly.py:31-104 | a SYN on top of a leftover with nothing held back gives the run a fresh reassembler would make, behind the leftover |
| TcpResidues.HeldLeftoverLeaks | pcap_decode/tcp_reassembly.py:31-104 | an input on which a piece held back before the SYN ends up in the new stream |
| TcpSides.LeadState | pcap_decode/tcp_reassembly.py:42-104 | what packets before the SYN leave: the unbroken stretch from their lowest byte, and nothing held if they have no gap |
| TcpSides.AllIsHeld | pcap_decode/tcp_reassembly.py:68-78 | until the first byte arrives every payload is held, sorted by raw sequence number |
| TcpSides.SideClosesIff | pcap_decode/tcp_reassembly.py:23-81 | an endpoint's side is closed if and only if it has sent an RST, a FIN apart from its SYN, or before the SYN one that counts midway |
| TcpSides.SideHoldsDataIff | pcap_decode/tcp_reassembly.py:186 | it holds data if and only if data came before its SYN or the first byte behind it has arrived |
| TcpSides.SideData | pcap_decode/tcp_reassembly.py:106-113 | it hands over what was there before the SYN and the longest prefix that has arrived, or, holding no data, the pieces joined by raw sequence number |
| TcpSides.HandedOverUnique | pcap_decode/tcp_reassembly.py:106-113 | that description fixes what is handed over |
| TcpSides.HandsOverIff | pcap_decode/tcp_reassembly.py:106-113 | with no data before the SYN it hands over what was sent if and only if all of it has arrived, or the pieces happen to spell it |
| TcpSides.MidwayHandsOverIff | pcap_decode/tcp_reassembly.py:42-113 | with no SYN at all it hands over what was sent if and only if all of it has arrived |
| TcpSides.ScrapsCanSpellStream | pcap_decode/tcp_reassembly.py:107-112 | an input on which they do |
| TcpConnections.ProcessUnfolds | pcap_decode/tcp_reassembly.py:170-191 | looking up or inserting a tracker, feeding it and deleting it when finished is the specified step |
| TcpConnections.ConnectionTracker.constructor | pcap_decode/tcp_reassembly.py:117-124 | a tracker starts with two fresh reassemblers and no packets |
| TcpConnections.ConnectionTracker.ProcessPacket | pcap_decode/tcp_reassembly.py:126-150 | counts the packet, feeds the sender's direction and no other, closes on RST or when both directions are closed |
| TcpConnections.ConnectionTracker.IsFinished | pcap_decode/tcp_reassembly.py:186 | closed and some direction holds data |
| TcpConnections.ConnectionTracker.Build | pcap_decode/tcp_reassembly.py:152-163 | the stream record made of the tracker's value |
| TcpConnections.TcpReassembler.constructor | pcap_decode/tcp_reassembly.py:167-168 | the table is empty |
| TcpConnections.TcpReassembler.TrackerFor | pcap_decode/tcp_reassembly.py:174-183 | the tracker of the packet's key, inserted with the chosen client side if the key is new |
| TcpConnections.TcpReassembler.FeedTracker | pcap_decode/tcp_reassembly.py:184 | feeding one tracker changes its entry and leaves every other tracker as it was |
| TcpConnections.TcpReassembler.Insert | pcap_decode/tcp_reassembly.py:181 | a new key is added, trackers stay disjoint |
| TcpConnections.TcpReassembler.Forget | pcap_decode/tcp_reassembly.py:188 | the key and nothing else is removed |
| TcpConnections.TcpReassembler.ProcessPacket | pcap_decode/tcp_reassembly.py:170-191 | the new table and the emitted stream, on a heap of trackers that share nothing |
| TcpConnections.TcpReassembler.LiveStreams | pcap_decode/tcp_reassembly.py:194-196 | the streams of the live trackers in dict order |
| TcpConnections.TcpReassembler.Finalize | pcap_decode/tcp_reassembly.py:193-197 | yields those streams and empties the table |
| TcpCaptures.LivesPartitionPackets | pcap_decode/tcp_reassembly.py:177-189 | every packet of a flow is in exactly one life, in order |
| TcpCaptures.ReplayKeepsFlow | pcap_decode/tcp_reassembly.py:126-184 | a tracker keeps the flow of its first packet, under the same key, and counts every packet |
| TcpCaptures.TableIsKeyed | pcap_decode/tcp_reassembly.py:170-191 | in every run each table key is its tracker's normalized flow and each tracker has seen a packet |
| TcpCaptures.TableIsReplay | pcap_decode/tcp_reassembly.py:166-191 | after any capture a flow's tracker and emitted streams are the replay of that flow's own packets |
| TcpCaptures.FlowsAreIsolated | pcap_decode/tcp_reassembly.py:170-191 | captures that agree on one flow's packets agree on its streams and tracker |
| TcpCaptures.PacketLedger | pcap_decode/tcp_reassembly.py:126-197 | accepted packets of a flow equal those counted in its emitted streams plus its live tracker |
| TcpCaptures.FinalStreamsAreAll | pcap_decode/tcp_reassembly.py:193-197 | at the end every live tracker yields exactly one stream |
| TcpCaptures.DirectionsAreIndependent | pcap_decode/tcp_reassembly.py:126-147 | each direction's state is the run of its own endpoint's packets, however the two are interleaved |
| TcpDeliveries.FinishedIffOver | pcap_decode/tcp_reassembly.py:126-186 | a tracker is finished if and only if its packets hold an RST or one that closes each side, and some data |
| TcpDeliveries.ConnectionsAreLives | pcap_decode/tcp_reassembly.py:177-189 | connections that follow one another, each with what was left over before it, are replayed by one tracker each |
| TcpDeliveries.ConnectionYieldsStream | pcap_decode/tcp_reassembly.py:126-163 | the stream made of a connection holds for each side what its packets hand over, and counts them |
| TcpDeliveries.CaptureDeliversStreams | pcap_decode/tcp_reassembly.py:23-191 | from packets alone: the i-th stream emitted for a flow is its i-th connection's, and holds what its packets hand over, whatever else was captured and was left over between the connections |
| TcpDeliveries.StreamHoldsSentIff | pcap_decode/tcp_reassembly.py:23-163 | a side with no data before its SYN holds what was sent if and only if it had all arrived when the connection was over, or the pieces happen to spell it |
| TcpDeliveries.OpenConnectionDelivers | pcap_decode/tcp_reassembly.py:23-197 | the same for a last connection that is not over at the end of the capture |
| TcpDeliveries.LeftoverYieldsEmptyStream | pcap_decode/tcp_reassembly.py:177-197 | bare packets after the last connection become one more stream, with no data |
| TcpDeliveries.RolesIff | pcap_decode/tcp_reassembly.py:178-181 | behind a packet with flags but no SYN, the opener is the client if and only if its flow is the key |
| TcpRoles.KeyIsItselfIff | pcap_decode/models.py:31-34 | a flow is its own key exactly if its source is the lower end, by address up to the first difference and then by port |
| TcpRoles.FirstIsClientIff | pcap_decode/tcp_reassembly.py:177-181 | the stream has the first packet's own flow if and only if that packet is a SYN, has no flags, or its flow is the key |
| TcpRoles.OpenerIsClient | pcap_decode/tcp_reassembly.py:128-163 | behind a SYN, or a packet without flags, flow, data and pieces of each side are those of the packets with the first packet's source, and of the others |
| TcpRoles.OpenedConnectionDelivers | pcap_decode/tcp_reassembly.py:168-197 | the same in any capture, for a connection among those that follow one another |
| TcpRoles.HigherOpenerIsClient | pcap_decode/tcp_reassembly.py:177-181 | an opener at the higher end, 192.168.1.10 to 10.0.0.1, is the client |
| TcpRoles.StreamIsClosedIff | pcap_decode/tcp_reassembly.py:149-163 | a stream is closed if and only if an RST was seen or each side is closed by its own packets |
| TcpRoles.StreamSpansLog | pcap_decode/tcp_reassembly.py:119-163 | a stream lasts from its first packet to the latest time stamp, and counts all its packets |
| TcpRoles.PassedOverIff | pcap_decode/tcp_reassembly.py:170-172 | nothing happens if and only if a packet is not TCP, or an address or a port is missing |
| TcpLateData.OvertakingFinLosesData | pcap_decode/tcp_reassembly.py:80-189 | all that was sent is captured, but a FIN overtook the last byte and the stream lacks it |
| TcpLateData.LateDataGoesInFront | pcap_decode/tcp_reassembly.py:31-189 | that byte stands in front of the next connection's stream |
| TcpLateData.LastAckYieldsStream | pcap_decode/tcp_reassembly.py:174-197 | the last ACK of a close yields one more stream, with no data |
| TcpLateData.OldFinEndsNextConnection | pcap_decode/tcp_reassembly.py:37-40 | a FIN sent again ends the next connection before the server has sent its byte |
| TcpLedgers.TotalLedger | pcap_decode/tcp_reassembly.py:126-191 | in every run accepted packets equal those of the emitted streams plus those of the live trackers |
| TcpLedgers.CaptureLedger | pcap_decode/tcp_reassembly.py:126-197 | at the end every accepted packet is counted in exactly one stream |
| IpDefragmenter.Defragmenter.constructor | pcap_decode/ip_reassembly.py:8-10 | no fragments are held |
| IpDefragmenter.Defragmenter.ProcessPacket | pcap_decode/ip_reassembly.py:12-63 | the new table and result for any packet: pass through, hold, or rebuild and forget |
| IpDefragmentation.MergeExact | pcap_decode/ip_reassembly.py:27-63 | the merge of sorted fragments of P yields P if and only if a last fragment is there and P is covered |
| IpDefragmentation.RebuildExact | pcap_decode/ip_reassembly.py:22-63 | the same for fragments in any order of arrival |
| IpDefragmentation.FragmentsAccumulate | pcap_decode/ip_reassembly.py:19-25 | while a datagram is incomplete exactly its fragments are held, whatever is processed in between |
| IpDefragmentation.HoldsSince | pcap_decode/ip_reassembly.py:19-63 | in every run what is held under a key are the fragments since its datagram was last complete |
| IpDefragmentation.DatagramRebuiltIff | pcap_decode/ip_reassembly.py:12-63 | in every run a fragment is answered with the datagram if and only if it completes what has come since then; other keys are unchanged |
| IpDefragmentation.KeyIsReusableIff | pcap_decode/ip_reassembly.py:20-40 | a later datagram under the key finds nothing held if and only if no fragment has come since the earlier one was complete |
| IpDefragmentation.LaterDatagramRebuiltIff | pcap_decode/ip_reassembly.py:12-63 | and then it is rebuilt as if it were the first |
| IpDefragmentation.LateDuplicateMixes | pcap_decode/ip_reassembly.py:19-40 | an input on which a late duplicate is mixed into the next datagram |
| IpDefragmentation.SameKeyIff | pcap_decode/ip_reassembly.py:19 | fragments belong together if and only if source, destination, protocol and identification agree |
| IpDefragmentation.PassesThroughIff | pcap_decode/ip_reassembly.py:12-17 | a packet is handed on unchanged and nothing held if and only if it is no fragment or lacks an address, protocol or identification |
| IpDefragmentation.NothingWithoutId | pcap_decode/ip_reassembly.py:16-17 | packets without identification are all handed on unchanged, in every run |
| BacnetTags.ReadTag | pcap_decode/protocols/bacnet.py:289-333 | a successful read moves strictly forward and stays in bounds |
| BacnetTags.IterTags | pcap_decode/protocols/bacnet.py:336-347 | the loop ends and yields the tags from the front, at most `limit` |
| BacnetTags.ReadsEncoding | pcap_decode/protocols/bacnet.py:289-333 | every encoding of a tag, in every form of number and length, is read back wherever it stands |
| BacnetTags.ReadIsEncoding | pcap_decode/protocols/bacnet.py:289-333 | the bytes consumed by a successful read are an encoding of the tag returned |
| BacnetTags.ReadTagIff | pcap_decode/protocols/bacnet.py:289-333 | reading yields a tag and end if and only if some encoding of that tag stands there |
| BacnetTags.TagsRoundTrip | pcap_decode/protocols/bacnet.py:336-347 | concatenated encodings of any n tags yield exactly the first min(n, limit) |
| BacnetTags.BuildAppTagEncodes | tests/pcap_builder.py:50-55 | the writer of the test captures produces an encoding of the tag it is given |
| BacnetTags.BigEndianConcat | pcap_decode/protocols/bacnet.py:281 | bytes count by 256 to the power of the bytes behind them |
| BacnetFiles.BacnetDecoder.constructor | pcap_decode/protocols/bacnet.py:351-367 | both tables start empty |
| BacnetFiles.BacnetDecoder.ParseApdu | pcap_decode/protocols/bacnet.py:456-470 | the new tables and candidates for any APDU |
| BacnetFiles.BacnetDecoder.ParseConfirmedRequest | pcap_decode/protocols/bacnet.py:526-572 | remembers a file read or absorbs a file write; other services change nothing |
| BacnetFiles.BacnetDecoder.ParseComplexAck | pcap_decode/protocols/bacnet.py:597-618 | pops the matching request and absorbs the data into its file; unmatched acks change nothing |
| BacnetFiles.BacnetDecoder.RememberFileRead | pcap_decode/protocols/bacnet.py:684-687 | records the file, clearing a full table first |
| BacnetFiles.BacnetDecoder.AbsorbFileData | pcap_decode/protocols/bacnet.py:689-746 | the body is read tag by tag and written to the buffer of its transfer, flushed at end of file |
| BacnetFiles.BacnetDecoder.WriteAt | pcap_decode/protocols/bacnet.py:726-742 | the chunk loop with its cap, padding and slice assignment |
| BacnetFiles.BacnetDecoder.FlushFileBuffer | pcap_decode/protocols/bacnet.py:748-765 | removes the buffer and yields it unless it is empty |
| BacnetFiles.BacnetDecoder.Finalize | pcap_decode/protocols/bacnet.py:767-772 | flushes every open buffer once, in dict order, and empties both tables |
| BacnetTransfers.WriteChunksIsOverlay | pcap_decode/protocols/bacnet.py:726-742 | writing chunks in turn overlays their concatenation, under the cap |
| BacnetTransfers.BufferIsOverlay | pcap_decode/protocols/bacnet.py:726-742 | after any writes each byte is its last writer's or zero, the length is the furthest write under the cap, `truncated` is exact |
| BacnetTransfers.PositionIsOffsetIff | pcap_decode/protocols/bacnet.py:738-741 | writes leave bytes outside their range alone, for all data, if and only if the position is not negative |
| BacnetTransfers.NegativeWriteInserts | pcap_decode/protocols/bacnet.py:738-741 | a write that ends at position 0 from below is inserted in front of a short buffer |
| BacnetCaptures.PendingIsSound | pcap_decode/protocols/bacnet.py:597-615 | in every run what the table holds is what was last asked and not yet answered |
| BacnetCaptures.PendingIsComplete | pcap_decode/protocols/bacnet.py:684-687 | as long as fewer than 4096 requests are unanswered at every request, the table holds exactly the unanswered ones |
| BacnetCaptures.NothingForgottenIff | pcap_decode/protocols/bacnet.py:684-687 | every unanswered request is matchable at every moment if and only if no request meets 4096 unanswered ones |
| BacnetCaptures.TransfersAreIsolated | pcap_decode/protocols/bacnet.py:456-746 | a transfer's buffer and candidates are those of its own deliveries alone |
| BacnetCaptures.TransferYieldsFile | pcap_decode/protocols/bacnet.py:689-765 | pieces of a file in any order, end of file last, yield exactly one candidate, the file, and no open buffer |
| BacnetCaptures.FileIsDelivered | pcap_decode/protocols/bacnet.py:597-765 | the same in a capture with any other peers, files and invoke IDs interleaved |
| BacnetCaptures.RepeatedTransfers | pcap_decode/protocols/bacnet.py:689-765 | transfers between the same peers one after the other yield one candidate each, in order |
| BacnetCaptures.FilesAreDelivered | pcap_decode/protocols/bacnet.py:597-765 | the same end to end for any number of transfers of one file |
| BacnetFlushes.UnplacedTransferYieldsData | pcap_decode/protocols/bacnet.py:725-742 | pieces without a position are appended in the order of their arrival |
| BacnetFlushes.CandidateIsFirsts | pcap_decode/protocols/bacnet.py:713-723 | a candidate has the flow and time of the first packet that brought anything for it |
| BacnetFlushes.FlushedInOrder | pcap_decode/protocols/bacnet.py:748-772 | at the end each open buffer that holds data becomes one candidate, in order, with its data, file and direction |
| BacnetFlushes.OpenTransferIsFlushed | pcap_decode/protocols/bacnet.py:689-772 | a file all of whose bytes have come, without the end being said, is a candidate when the capture ends |
| BacnetMessages.SignedRoundTrip | pcap_decode/protocols/bacnet.py:706 | a number written in any number of bytes that can hold it, in two's complement, is read as that number |
| BacnetMessages.FileBodyRoundTrip | tests/pcap_builder.py:87-93 | a body built with a start position of any width is read back as its flag, that position and its data |
| BacnetMessages.ReadAckRoundTrip | tests/pcap_builder.py:82-93 | a built ack, segmented or not, is credited to the request from its destination to its source, with the position it was built with |
| BacnetMessages.ReadRequestRoundTrip | tests/pcap_builder.py:58-76 | a built request, segmented or not, asks for the object it was built for |
| BacnetMessages.WriteRequestRoundTrip | tests/pcap_builder.py:58-93 | a built write goes to the file it was built for, with its flag, position and data |
| BacnetExchanges.TransferYieldsFile | pcap_decode/protocols/bacnet.py:456-765 | a file read or written in any pieces, from the bytes on the wire, yields exactly the file |
| BacnetExchanges.TwoPiecesYieldFile | tests/test_bacnet.py:341-358 | two pieces at position 0 and at the length of the first, in two bytes, yield their concatenation |
| BacnetMessages.ObjectIdRoundTrip | pcap_decode/protocols/bacnet.py:278-282 | type and instance survive packing and unpacking |
| DnsNames.ParseDnsName | pcap_decode/protocols/dns.py:24-58 | the loop ends on any bytes, and returns the domain and offset of its final state, which the rows below are about |
| DnsDecompression.DerivationIsUnique | pcap_decode/protocols/dns.py:31-54 | bytes and offset fix the derivation of a name |
| DnsDecompression.NameDoesNotLoop | pcap_decode/protocols/dns.py:32-34 | a name with a finite derivation never returns to an offset, so the loop check never fires on it |
| DnsDecompression.FollowsDerivation | pcap_decode/protocols/dns.py:31-54 | from any state of the loop the rest of the name is read as its derivation says, within the jumps left |
| DnsDecompression.ReadsName | pcap_decode/protocols/dns.py:24-58 | a derivable name yields its labels before the tenth jump and the offset behind its terminator or first pointer |
| DnsDecompression.ReadsWholeNameIff | pcap_decode/protocols/dns.py:29-51 | all labels are read if and only if none lies behind the tenth pointer; nine pointers are always safe |
| DnsDecompression.DomainSplitsIff | pcap_decode/protocols/dns.py:56 | split at its dots, the domain gives the labels back if and only if there are any and none contains a dot |
| DnsDecompression.StandardIff | pcap_decode/protocols/dns.py:37-51 | what the reader takes for a name is one by the standard if and only if no length byte of it is in 64 to 191 |
| DnsDecompression.ReadsStandardName | pcap_decode/protocols/dns.py:24-58 | a name by the standard is read as its labels before the tenth jump, joined in order by dots, and its end is found |
| DnsDecompression.ReservedLengthIsRead | pcap_decode/protocols/dns.py:50-54 | every label of a reserved length is read, though by the standard nothing stands there |
| DnsDecompression.TenthPointerCuts | pcap_decode/protocols/dns.py:29-49 | behind n pointers a name is read if and only if n is at most nine |
| DnsDecompression.StaysInBounds | pcap_decode/protocols/dns.py:24-58 | started in bounds the returned offset is in bounds, on any bytes |
| DnsDecompression.CompressedNameRoundTrip | pcap_decode/protocols/dns.py:24-58 | labels followed by a pointer read as the domain of those labels and the name pointed to |
| DnsDecompression.PlainNameRoundTrip | pcap_decode/protocols/dns.py:24-58 | a name written in full reads as its domain |
| PeParser.ParsePe | pcap_decode/pe_parser.py:49-145 | when data is rejected, when the parser raises, and that the size is the furthest end clipped to the data |
| PeParser.CutOffImageRaises | pcap_decode/pe_parser.py:84-96 | an image that is accepted and then makes the parser raise |
| PeParser.SectionsEnd | pcap_decode/pe_parser.py:109-127 | the section loop finds the furthest section end inside the table |
| PeParser.FurthestEndUnique | pcap_decode/pe_parser.py:106-142 | that description fixes the size |
| PeImages.WrittenImageIsRead | pcap_decode/pe_parser.py:49-142 | an image written by the PE layout is accepted, and its magic, sections and certificate table are read back |
| XorCarver.XorInvolution | pcap_decode/carver.py:230 | XOR with the same key twice gives the byte back |
| XorCarver.FilterAgrees | pcap_decode/carver.py:219-231 | the checks on encoded bytes accept an offset if and only if the decoded suffix is a PE image |
| XorCarver.ScanKey | pcap_decode/carver.py:216-246 | for one key the loop reports the least offset the naive search accepts, cut at the furthest end |
| XorCarver.CarveXorPe | pcap_decode/carver.py:210-248 | for every key 1 to 255 that has an accepted offset exactly one image, keys ascending; an error ends the scan |
| XorCarver.CutOffImageEndsScan | pcap_decode/carver.py:233-234 | that image, hidden under any key, ends the scan |
| XorCarver.CarvedReencodes | pcap_decode/carver.py:230-236 | encoding a carved image again gives the captured bytes |
| XorImages.XorIsBitwise | pcap_decode/carver.py:230 | a bit of the result is set if and only if exactly one of the two bits is |
| XorImages.EncodedIff | pcap_decode/carver.py:230 | data under a key are those bytes, and no others, whose bits are turned over where the key has a bit |
| XorImages.HiddenImageIsCarved | pcap_decode/carver.py:210-248 | a complete image encoded under a key, behind anything not accepted earlier and with anything behind it, is what that key yields: its place, its bytes |
| CaptureFiles.FileReader.ReadPcapFrames | pcap_decode/pcap_reader.py:162-195 | the loop yields the records of the file up to the first that is cut off |
| CaptureFiles.FileReader.ReadPcapngFrames | pcap_decode/pcap_reader.py:197-211 | byte order and first block are those of the section header |
| CaptureFiles.FileReader.ReadBlocks | pcap_decode/pcap_reader.py:213-258 | the loop yields the frames of the blocks, with the interfaces seen so far |
| CaptureFiles.ReadBlock | pcap_decode/pcap_reader.py:231-258 | interface, enhanced packet and simple packet blocks, their lengths clipped |
| CaptureFiles.ReadFile | pcap_decode/pcap_reader.py:150-160 | the format is chosen by the first four bytes; unknown ones are an error |
| CaptureRoundTrips.PcapRoundTrip | tests/pcap_builder.py:96-107 | any records written as pcap, in both byte orders and resolutions, are read back |
| CaptureRoundTrips.PcapngRoundTrip | tests/pcap_builder.py:110-134 | any records written as pcapng, in both byte orders and with padding, are read back |
| PcapngBlocks.BlocksRoundTrip | pcap_decode/pcap_reader.py:213-258 | any blocks in any order, with any number of interfaces, simple packets and kinds passed over, are read as the frames they hold |
| CaptureRoundTrips.TruncatedFile | pcap_decode/pcap_reader.py:150-258 | reading a prefix of any file of at least four bytes gives a prefix of its records |
| RawUdpGate.RawStreamDecoder.constructor | pcap_decode/protocols/raw.py:39-47 | nothing seen, counted or suppressed |
| RawUdpGate.RawStreamDecoder.ParseUdpPacket | pcap_decode/protocols/raw.py:80-98 | emits, suppresses with a count, or ignores a packet; the state stays that of the run of the packets seen |
| RawUdpGate.RawStreamDecoder.SuppressionReason | pcap_decode/protocols/raw.py:100-120 | the reason and the new flow counts |
| RawUdpGate.RawStreamDecoder.SuppressionSummary | pcap_decode/protocols/raw.py:122-129 | over the packets seen: eligible less emitted, how many were held back for each reason, and how many flows had packets emitted |
| RawUdpGate.NothingIsSilent | pcap_decode/protocols/raw.py:80-98 | in every run eligible packets equal those emitted plus those counted as suppressed |
| RawUdpGate.FlowsGetTheirFirstPackets | pcap_decode/protocols/raw.py:100-120 | a tracked flow had exactly its first packets emitted, up to the cap; an untracked one met a full table; the table keeps its limit |
| RawUdpGate.CountsSumToEmitted | pcap_decode/protocols/raw.py:100-120 | the flow counts sum to the flow-keyed packets emitted |
| RawUdpGate.EmissionIsBounded | pcap_decode/protocols/raw.py:100-120 | these are at most cap times limit in every run |
| RawUdpGate.PacketIsEmittedIff | pcap_decode/protocols/raw.py:80-120 | after any packets, exactly when one is let through, and then as its payload with its own flow, time and frame |
| ExportNames.SanitizedIsSafe | pcap_decode/exporter.py:9-14 | a sanitized name has no forbidden character and no blank or dot at its ends; exactly safe names are kept |
| ExportNames.SanitizedIs | pcap_decode/exporter.py:9-14 | what is left between blanks, dots and line ends, forbidden characters turned into underscores; the fallback if nothing is left |
| ExportNames.ExtensionIs | pcap_decode/exporter.py:53 | the extension begins at the last dot, and there is one if and only if some dot has another character before it |
| ExportNames.DecimalIsRead | pcap_decode/exporter.py:54 | what is printed is the number, in digits |
| ExportNames.DecimalInjective | pcap_decode/exporter.py:54 | different counters print differently |
| ExportNames.NumberedInjective | pcap_decode/exporter.py:51-55 | the names tried for one target are all different |
| ExportNames.TriedAreDistinct | pcap_decode/exporter.py:51-55 | k tries exclude k names, so the loop ends after at most as many as are in use |
| ExportNames.UniqueName | pcap_decode/exporter.py:50-56 | the first free name in the order tried |
| ExportNames.AssignNames | pcap_decode/exporter.py:31-56 | all exported names differ and each is made from its own sanitized target |
| HttpText.PlainDigitsRead | pcap_decode/protocols/http.py:54 | plain digits are read as the number they spell |
| HttpText.DigitsAreRead | pcap_decode/protocols/http.py:54 | a number written in any base up to 16 is read as that number |
| HttpText.SignIsRead | pcap_decode/protocols/http.py:290 | a sign before the digits gives the number or its negative |
| HttpText.PrefixIsRead | pcap_decode/protocols/http.py:54 | a hexadecimal number may carry its prefix |
| HttpText.UnderscoreIsRead | pcap_decode/protocols/http.py:54 | an underscore between digits is read over |
| HttpText.StripsBothEnds | pcap_decode/protocols/http.py:52 | exactly the space at both ends is stripped |
| HttpChunks.DechunkHttpBody | pcap_decode/protocols/http.py:44-67 | the loop, on any bytes, with Python's slices and searches at negative indices, for as many turns as asked |
| HttpChunks.TurnStallsIff | pcap_decode/protocols/http.py:47-66 | from any index a turn comes back to it or before it if and only if the header found says a size of at most minus its length and four |
| HttpChunks.EndsIff | pcap_decode/protocols/http.py:47-66 | on any data the loop ends at all if and only if it ends within one turn per byte and one more |
| HttpChunks.EndsWithoutMinus | pcap_decode/protocols/http.py:44-67 | data without a minus sign is decoded in at most one turn per byte and one more |
| HttpChunks.NeverEnds | pcap_decode/protocols/http.py:47-66 | a first header that says minus its length and four brings the loop back to the start for ever |
| HttpChunks.NegativeSizeLoops | pcap_decode/protocols/http.py:47-66 | on `-6` and a line end no number of turns changes anything |
| HttpChunks.DechunkRoundTrip | pcap_decode/protocols/http.py:44-67 | chunks in any hexadecimal spelling, with extensions, last chunk and trailer, decode to their data |
| HttpMessages.ParseHttpMessages | pcap_decode/protocols/http.py:262-333 | the loop, on any bytes, negative offsets included, for as many turns as asked |
| HttpMessages.TurnStallsIff | pcap_decode/protocols/http.py:267-331 | from any offset a turn comes back to it or before it if and only if a message says a length of at most minus its header block and four |
| HttpMessages.EndsIff | pcap_decode/protocols/http.py:267-331 | on any data the loop ends at all if and only if it ends within one turn per byte and one more |
| HttpMessages.EndsUnsigned | pcap_decode/protocols/http.py:267-333 | data in which nothing reads as a negative length is split in at most one turn per byte and one more |
| HttpMessages.NegativeLengthRepeats | pcap_decode/protocols/http.py:267-300 | a header block that says minus its own length and four is read again for ever |
| HttpMessages.MinusThirtyThreeRepeats | pcap_decode/protocols/http.py:267-300 | such a response: a status line and a Content-Length of -33 |
| HttpMessages.HeaderBlockRoundTrip | pcap_decode/protocols/http.py:70-83 | joined lines are parsed into their first line and the headers of the others |
| HttpMessages.LastLineDecides | pcap_decode/protocols/http.py:75-82 | a header has the value of the last line that names it, in any case |
| HttpMessages.HeaderLineIsRead | pcap_decode/protocols/http.py:80-82 | a line as it is sent names its header and has its value |
| HttpMessages.LastLengthDecides | pcap_decode/protocols/http.py:78-82 | the last Content-Length line, in any case, gives the length, whatever other headers follow |
| HttpMessages.LengthMakesWellFormed | pcap_decode/protocols/http.py:70-83 | any start line, headers and body are a well-formed message once that line counts the body in plain digits |
| HttpMessages.FindsBlankLine | pcap_decode/protocols/http.py:268-272 | the header block found is the one that was written |
| HttpMessages.OneMessage | pcap_decode/protocols/http.py:267-300 | a well-formed message is split off whole, whatever its body holds and whatever follows |
| HttpMessages.MessagesRoundTrip | pcap_decode/protocols/http.py:262-333 | any list of messages framed by Content-Length comes back |
| HttpFraming.MessageIsWholeIff | pcap_decode/protocols/http.py:267-331 | a message of any framing is split off whole if and only if nothing ends it earlier than it was meant to end |
| HttpFraming.FramedMessagesRoundTrip | pcap_decode/protocols/http.py:262-333 | any list of messages comes back if each is framed, given those that follow it |
| HttpFraming.PlainMessagesAreFramed | pcap_decode/protocols/http.py:311-325 | messages without a body that say nothing of a length are framed by the next start line |
| HttpFraming.FindFirstIsLeast | pcap_decode/protocols/http.py:313-321 | the next start line found is the first one, of any method looked for |
| HttpFraming.TraceIsSwallowed | pcap_decode/protocols/http.py:311-331 | a TRACE request behind a request without a length becomes its body |

## Left out

- TcpDirection.DirectionalReassembler.GetData: when nothing has been placed it joins held pieces across gaps; the theorems about runs speak of the buffer, `TcpSides.SideData` of the result.
- IpDefragmenter.Defragmenter.ProcessPacket: the `timeout` field, which the program stores and never uses.
- BacnetFiles.BacnetDecoder.ParseApdu: counters, observations, the device inventory and services other than the two file services; requests and acks that are segmented are treated as the program treats them, one APDU at a time. An APDU is not empty when it is called; the empty one yields nothing here.
- PeParser.ParsePe: machine, subsystem and section names, timestamps and the entry point, which do not affect acceptance or size.
- CaptureFiles.ReadFile: records carry the two raw time stamp fields and no frame number; dividing them into seconds, and decoding a frame into a packet, are not modelled.
- HttpChunks.DechunkHttpBody: the number of turns is a parameter, since the loop does not always end; `EndsIff` gives a number that is enough whenever any is.
- HttpMessages.ParseHttpMessages: the number of turns is a parameter for the same reason.
- RawUdpGate.RawStreamDecoder.SuppressionSummary: the configured cap, which the program repeats in its report.
- TcpDeliveries.CaptureDeliversStreams: a SYN that carries data, that is repeated after data, or that comes while older pieces are held back behind a gap; `TcpLimits` and `TcpResidues.HeldLeftoverLeaks` show what happens then.
- ExportNames.AssignNames: the targets are taken as given; prefixes of the naming scheme and the extension taken from the file type are not modelled, and the extension is split off as on POSIX.
- Inline code that was given a name: the methods `Insert`, `Forget`, `TrackerFor`, `FeedTracker`, `LiveStreams`, `IsFinished`, `WriteAt`, `ReadBlocks`, `ReadBlock`, `SectionsEnd`, `ScanKey` and `UniqueName` are passages of the functions they belong to.
- Dictionaries keep their insertion order as a sequence of keys; generators are modelled by the list of what they yield, so a consumer that stops early or changes state in between is not covered.
- Time stamps are real numbers; addresses are strings ordered by code point; a missing and an empty address, or flag set, are one value.
- Python refuses to convert numbers of more than 4300 digits; the model converts them.
- Decoding of Ethernet, IP, TCP and UDP headers, BVLC and NPDU headers, gzip and multipart bodies, file names from headers, e-mail, FTP, SMB, ELF, ZIP, PDF and signature carving, malware scoring, report writing and live capture: I/O, library calls, or branches that a reading settles.
