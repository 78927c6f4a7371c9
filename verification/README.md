# A verified model of a small live streaming server

The server takes live streams over RTMP and hands them out again: over RTMP to players, as
MPEG-TS for HLS, and as fragmented MP4 for Low-Latency HLS over HTTP. This project models the
parts that carry the hard promises and proves those promises for every input, every schedule and
every run. `dafny verify dfyconfig.toml` checks all of it.

| files | what they are about |
|---|---|
| `Bytes`, `Buffer`, `FastStream` | fixed-width integers, the byte cursor, the sliding receive buffer over a socket that splits the stream anywhere |
| `RtmpChunk`, `RtmpControl`, `RtmpPeer`, `RtmpSend`, `RtmpProtocol` | RTMP chunks and control messages (sections 5.3.1, 5.4 and 7.1.7 of the RTMP specification 1.0): receiver, a reference peer with all header formats and its control messages, the sender, and the protocol object |
| `Amf0`, `Amf0Wire`, `Amf0Codec` | AMF0 values (sections 2.2 to 2.11 of the AMF 0 specification), a grammar of all that the reader accepts, and the codec on the cursor |
| `Fmp4`, `Fmp4Encoder` | fragments (section 8.8 of ISO/IEC 14496-12), a reference demuxer, and the encoder with its back-patching |
| `Crc32`, `Ts`, `TsProofs`, `TsReader`, `TsContext`, `AnnexB` | MPEG-TS packets and tables (sections 2.4.3.2 to 2.4.4 of ISO/IEC 13818-1), a demultiplexer for them, and AVCC to Annex B |
| `LlHls`, `LlHlsPlaylist`, `LlHlsStorage` | the LL-HLS window, its playlist as typed lines, what a player reads from it, and the requests that wait on it |
| `LlHlsMux`, `LlHlsTiling`, `LlHlsCuts`, `LlHlsIsolation`, `LlHlsServed`, `LlHlsFlags`, `LlHlsPolicy`, `LlHlsMuxer`, `LlHlsEndToEnd` | the LL-HLS muxer: conservation, tiling, where segments end, codec isolation, the one initialisation segment served, marks and numbers, cut policy, and what a player demuxes in the end |
| `LiveJitter`, `LiveQueue`, `LiveGop`, `LiveSource`, `LiveBytes`, `LiveHub` | the live source: timeline, player queues, GOP cache, fan-out, joining players, and the caches told on the bytes of the messages |
| `Publishing`, `Reaper` | two concurrent protocols: who may publish, and who frees a connection |

Code that changes things in place is imperative here too: classes with `modifies` clauses, arrays,
loops with invariants, each method proved against a function of the inputs or of the old state.
The theorems are about those functions. Where threads interleave, every section under a lock is
one atomic step and a run is any sequence of steps that the program allows.

## What turned out otherwise than one would expect

- The time corrector says it makes times monotonic (src/app/srs_app_source.cpp:82-91). It does not:
  `LiveJitter.NotMonotonic` is a run that goes back, `LiveJitter.GoesBackExactly` says exactly when.
- A player's queue measures from the last message handed out, metadata included, whose corrected
  time is zero. `LiveQueue.MetadataLosesKeyframe` loses a keyframe that way;
  `LiveQueue.TakenQueueDropsExactly` says exactly when frames are lost after any take, full or partial.
- Creating a player and filling its queue are two lock sections; a frame published between them is
  passed on twice (`LiveSource.FrameBetweenComesTwice`). `LiveSource.PassedTwiceExactly` says which
  frames come twice, and that none does exactly when no frame that can be cached was published in
  between or the cache is empty.
- A codec without sequence headers has its first audio message passed to joining players in the
  header's place, exactly when `LiveSource.HeadFrames` says so.
- Video other than H.264 is not cached; a player that joins after it has a gap exactly under the
  condition of `LiveSource.MidJoin` (`LiveSource.OtherVideoLeavesGap`).
- The batch sender stops preparing messages at the first one whose stream id is already right
  (`RtmpSend.PreparedCanMiss`; sound exactly under the condition of `RtmpSend.PreparedExactly`).
- An AMF0 number whose image starts 00 09 is read as an object end
  (`Amf0.NumberTakenForObjectEnd`; exact condition in `Amf0.RoundTripExactly`).
- A sequence header that is refused after part of it was stored lets video into segments whose
  initialisation has only audio (`LlHlsTiling.DamagedHeaderBreaksIsolation`). Isolation holds exactly
  under the condition of `LlHlsIsolation.IsolatedExactly`; tiling and durations do not depend on it
  (`LlHlsTiling.RunKeepsLinked`).
- A pair of unsupported codecs is refused once by the TS packetiser and then goes out without tables
  (`TsProofs.UnsupportedTwice`; refused exactly under the condition of `TsProofs.RefusedExactly`). No
  caller in the server gets there: src/app/srs_app_hls.cpp:128-140 starts from AAC and H.264, and
  src/app/srs_app_hls.cpp:725-727 and src/app/srs_app_hls.cpp:766-768 drop everything else.
- The playlist names one initialisation segment for the whole window. After a codec change, parts
  written under an older one are still listed, exactly as long as `LlHlsServed.ServedInitExactly` says.
- An overflow of a player's queue can lose frames (`LiveSource.OverflowLosesFrames`); over a run none is
  lost exactly under the condition of `LiveQueue.NothingLostExactly`.
- The cache can start with an inter frame (`LiveGop.MayStartWithInterFrame`); it starts with a keyframe
  exactly under the condition of `LiveGop.StartsWithKeyframeExactly`.
- The number of a requested part is cut to 32 signed bits, so a number from 2^31 on means another part
  or none (`LlHlsStorage.CutKeepsExactly`).
- src/app/srs_app_llhls.hpp:157-158 says that setting the initialisation segment renews the cached
  playlist. The code (src/app/srs_app_llhls.cpp:260-265) does not; the model follows the code.
- The comments number RTMP sections by an older edition of the specification.

## Model

| member | source | states |
|---|---|---|
| `FastStream.Stream.Grow` | src/protocol/srs_protocol_stream.cpp:61-118 | for any way the socket splits the stream: no byte is lost, repeated or reordered; overflow exactly when more is asked than the buffer holds; failure exactly when the stream ends too early |
| `FastStream.Stream.ReadSlice` | src/protocol/srs_protocol_stream.cpp:42-52 | hands out the first unread bytes and leaves the rest |
| `FastStream.Stream.Skip` | src/protocol/srs_protocol_stream.cpp:54-59 | moves over bytes, or back over bytes just consumed, which are unread again |
| `Buffer.Cursor.Read` | src/kernel/srs_kernel_buffer.cpp:74-171 | takes the next bytes and changes none |
| `Buffer.Cursor.Write` | src/kernel/srs_kernel_buffer.cpp:173-258 | puts bytes at the cursor and leaves all others alone |
| `Buffer.Cursor.Patch4` | src/kernel/srs_kernel_mp4.cpp:28-35 | fills in four earlier bytes; the cursor and all other bytes stay |
| `RtmpControl.ControlIsTaken` | src/protocol/srs_protocol_rtmp_stack.cpp:1096-1194 | every complete control message of a peer is accepted and changes nothing but the chunk size; a size below 128, or negative in 32 bits, is refused |
| `RtmpControl.TruncatedIsRefused` | src/protocol/srs_protocol_rtmp_stack.cpp:1553-1591 | every proper prefix of a control message is refused: events have 4 bytes of data, the buffer length 8, event 0x1a one |
| `RtmpControl.RefusedExactly` | src/protocol/srs_protocol_rtmp_stack.cpp:1096-1194 | a message is refused if and only if it is a control message cut short or a chunk size out of range; any other leaves the receiver as it is |
| `RtmpPeer.BasicHeaderRoundTrip` | src/protocol/srs_protocol_rtmp_stack.cpp:714-759 | the one, two and three byte basic headers read back for every chunk stream id from 2 to 65599 |
| `RtmpPeer.ConnectionBegins` | src/protocol/srs_protocol_rtmp_stack.cpp:795-817 | both ends begin alike, so a stream may begin with format 1 too; its time and stream id count from zero |
| `RtmpPeer.HeaderRefusedExactly` | src/protocol/srs_protocol_rtmp_stack.cpp:795-926 | a message header is refused if and only if a stream begins with format 2 or 3, a format 0 comes within a message, or a format 1 there changes the length |
| `RtmpPeer.PayloadRefusedExactly` | src/protocol/srs_protocol_rtmp_stack.cpp:1050-1094 | a chunk is refused if and only if it carries more than 131072 bytes |
| `RtmpPeer.FirstHeader` | src/protocol/srs_protocol_rtmp_stack.cpp:773-1048 | a first chunk in any of the four formats sets length, type, stream id and, by the absolute/delta rule modulo 2^31, the time |
| `RtmpPeer.RepeatedHeader` | src/protocol/srs_protocol_rtmp_stack.cpp:946-1013 | a continuation that repeats the extended timestamp changes nothing |
| `RtmpPeer.OmittedHeader` | src/protocol/srs_protocol_rtmp_stack.cpp:946-1013 | for a peer that leaves it out the look-ahead is undone without losing a byte, if and only if four bytes follow and differ, in 31 bits, from a nonzero timestamp |
| `RtmpPeer.ReceivedDialectsAgree` | src/protocol/srs_protocol_rtmp_stack.cpp:946-1013 | the receiver decodes the same from both dialects of any run, if the peer that omits the word has distinguishable payload |
| `RtmpPeer.ChunkArrives` | src/protocol/srs_protocol_rtmp_stack.cpp:616-668 | one chunk: exactly its bytes are consumed, a message completes exactly when the peer completed one, partial messages stay within their length, other streams are untouched |
| `RtmpPeer.MessagesAreNotEmpty` | src/protocol/srs_protocol_rtmp_stack.cpp:219-260 | whatever the bytes, no message without payload is delivered |
| `RtmpPeer.EmptyIsSkipped` | src/protocol/srs_protocol_rtmp_stack.cpp:219-260 | a message without payload is skipped and the receiver goes on behind it |
| `RtmpPeer.RunDelivers` | src/protocol/srs_protocol_rtmp_stack.cpp:616-1094 | for every schedule of chunks of many streams, and whatever follows: exactly the completed messages, in order of completion, and both ends agree on chunk size and every stream |
| `RtmpPeer.ReceivedStreamsAreIndependent` | src/protocol/srs_protocol_rtmp_stack.cpp:616-668 | what the receiver delivers for a stream and what the stream still owes is what its own queue held, whatever the schedule and the other streams |
| `RtmpPeer.ReceivedAsIfAlone` | src/protocol/srs_protocol_rtmp_stack.cpp:616-668 | a stream among others is received exactly as on a connection of its own |
| `RtmpSend.MessageArrives` | src/protocol/srs_protocol_rtmp_stack.cpp:288-346 | one message crosses whole; both chunk sizes change at the same moment |
| `RtmpSend.RoundTrip` | src/protocol/srs_protocol_rtmp_stack.cpp:288-388 | any mix of messages and chunk size changes arrives complete, in order, with equal chunk sizes after each |
| `RtmpSend.PreparedAt` | src/protocol/srs_protocol_rtmp_stack.cpp:560-602 | what the batch sender makes of each message: nothing behind one whose stream id was right; otherwise the stream id is set and a chunk stream id beyond one byte becomes 2 |
| `RtmpSend.PreparedExactly` | src/protocol/srs_protocol_rtmp_stack.cpp:567-582 | the early stop of the batch check is sound if and only if everything behind a match is already right |
| `RtmpSend.PreparedCanMiss` | src/kernel/srs_kernel_flv.cpp:238-258 | a batch where it is not: the receiver sees another chunk stream |
| `RtmpProtocol.ChunkHeaderC0` | src/kernel/srs_kernel_flv.cpp:304-364 | the bytes put in place are the format 0 header; nothing if the cache is too small |
| `RtmpProtocol.ChunkHeaderC3` | src/kernel/srs_kernel_flv.cpp:366-397 | the bytes put in place are the continuation header, extended timestamp included |
| `RtmpProtocol.CheckBatch` | src/protocol/srs_protocol_rtmp_stack.cpp:560-602 | the in-place check does what the specification of the batch sender says |
| `RtmpProtocol.Protocol.ReadBasicHeader` | src/protocol/srs_protocol_rtmp_stack.cpp:714-759 | agrees with the parse of the unread stream, however it is split |
| `RtmpProtocol.Protocol.ReadExtended` | src/protocol/srs_protocol_rtmp_stack.cpp:946-1013 | agrees with the parse; the look-ahead is put back |
| `RtmpProtocol.Protocol.ReadMessageHeader` | src/protocol/srs_protocol_rtmp_stack.cpp:773-1048 | agrees with the parse |
| `RtmpProtocol.Protocol.ReadMessagePayload` | src/protocol/srs_protocol_rtmp_stack.cpp:1050-1094 | agrees with the parse |
| `RtmpProtocol.Protocol.RecvInterlacedMessage` | src/protocol/srs_protocol_rtmp_stack.cpp:616-668 | one chunk, and the one stream record it changes |
| `RtmpProtocol.Protocol.OnRecvMessage` | src/protocol/srs_protocol_rtmp_stack.cpp:1096-1194 | refuses malformed control messages, adopts a new chunk size only within its bounds |
| `RtmpProtocol.Protocol.RecvMessage` | src/protocol/srs_protocol_rtmp_stack.cpp:219-260 | the next non-empty message of the stream |
| `RtmpProtocol.Protocol.DoSendMessage` | src/protocol/srs_protocol_rtmp_stack.cpp:288-346 | puts exactly the chunks of the message on the wire |
| `RtmpProtocol.Protocol.Send` | src/protocol/srs_protocol_rtmp_stack.cpp:1196-1213 | a chunk size change takes effect right behind the packet that announces it |
| `RtmpProtocol.Transfer` | src/protocol/srs_protocol_rtmp_stack.cpp:219-388 | end to end between two protocol objects over any socket: the messages sent are the messages received |
| `Amf0.RoundTrip` | src/protocol/srs_protocol_amf0.cpp:182-237 | reading an encoding followed by anything gives the value back, properties in order, and leaves what followed |
| `Amf0.RoundTripExactly` | src/protocol/srs_protocol_amf0.cpp:1001-1017 | the round trip holds if and only if strings are at most 32767 bytes, keys distinct and no number image starts 00 09 |
| `Amf0.ReaderYieldsPortable` | src/protocol/srs_protocol_amf0.cpp:476-518 | on any input the reader only yields such values |
| `Amf0.SizeIsExact` | src/protocol/srs_protocol_amf0.cpp:784-844 | the announced size is the number of bytes written |
| `Amf0.NumberTakenForObjectEnd` | src/protocol/srs_protocol_amf0.cpp:1256-1267 | a number that does not survive |
| `Amf0.ReadAny` | src/protocol/srs_protocol_amf0.cpp:1001-1017 | every successful read consumes bytes, so the mutually recursive reader ends on any input |
| `Amf0Wire.ReadsExactly` | src/protocol/srs_protocol_amf0.cpp:182-518 | for any bytes, value and rest: the reader takes the value and leaves the rest if and only if the grammar derives it; nonzero Booleans, lengths from 32768 on, objects cut at a property and repeated names included |
| `Amf0Wire.WritesExactly` | src/protocol/srs_protocol_amf0.cpp:520-844 | the writer writes exactly the bytes that the grammar gives to the value |
| `Amf0Wire.SetAllIs` | src/protocol/srs_protocol_amf0.cpp:285-304 | setting properties one after the other leaves the last of each name, in that order |
| `Amf0Codec.ReadAny` | src/protocol/srs_protocol_amf0.cpp:182-237 | the reader on the cursor is the parse of the bytes left, and moves the cursor behind the value |
| `Amf0Codec.ReadProps` | src/protocol/srs_protocol_amf0.cpp:476-518 | the property loop, which ends at the end marker or with the bytes |
| `Amf0Codec.SetProperty` | src/protocol/srs_protocol_amf0.cpp:285-304 | a property of a known name is replaced and moves to the end |
| `Amf0Codec.WriteAny` | src/protocol/srs_protocol_amf0.cpp:520-550 | succeeds exactly when the announced size fits, and then writes exactly the encoding |
| `Amf0Codec.WriteArray` | src/protocol/srs_protocol_amf0.cpp:692-729 | the same for arrays, with their stored count |
| `Fmp4.PartReadsBack` | src/kernel/srs_kernel_mp4.cpp:511-586 | a demuxer that knows only the box names finds brands, fragment number and tracks: sizes nest exactly, each data offset lands on its track's first byte |
| `Fmp4.RecoveredExactly` | src/kernel/srs_kernel_mp4.cpp:609-663 | the entries give the samples back if and only if times never go back, the end fits the last duration and offsets fit; each sample lasts to the next, the last one to the end, or as long as the one before it, or not at all if it is alone |
| `Fmp4.FragmentRoundTrip` | src/kernel/srs_kernel_mp4.cpp:479-668 | fragment number and, per track and in order, bytes, decode time, duration, composition offset and flags of every sample are recovered, if and only if each track's times never go back, the end fits the last duration and the offsets are all nonnegative or all fit 32 signed bits |
| `Fmp4Encoder.BoxClose` | src/kernel/srs_kernel_mp4.cpp:37-40 | the size filled in makes the bytes since the opening one box |
| `Fmp4Encoder.WriteTraf` | src/kernel/srs_kernel_mp4.cpp:588-668 | the traf of the samples, its data offset still open at the position returned |
| `Fmp4Encoder.PatchOffsets` | src/kernel/srs_kernel_mp4.cpp:511-586 | filling in both offsets gives the finished moof |
| `Fmp4Encoder.SegmentEncoder.WriteSample` | src/kernel/srs_kernel_mp4.cpp:479-509 | the sample joins the list and its bytes their track's buffer |
| `Fmp4Encoder.SegmentEncoder.Flush` | src/kernel/srs_kernel_mp4.cpp:511-586 | writes exactly the fragment, within a buffer of 256 bytes plus 16 per sample; refused exactly without samples |
| `Crc32.Crc32` | src/kernel/srs_kernel_ts.cpp:19-32 | the bitwise loop computes the register |
| `Crc32.CrcCloses` | src/kernel/srs_kernel_ts.cpp:19-32 | the CRC over any section including its own trailer is zero |
| `Crc32.ShiftDivides` | src/kernel/srs_kernel_ts.cpp:19-32 | one step of the register divides by the generator polynomial of the standard, power by power |
| `Crc32.ByteBits` | src/kernel/srs_kernel_ts.cpp:19-32 | the bits of a byte as they enter the register, the most significant one first |
| `Crc32.RegisterSteps` | src/kernel/srs_kernel_ts.cpp:19-32 | the register starts with ones and takes each byte at its top, most significant bit first, in eight steps |
| `Ts.StampRoundTrip` | src/kernel/srs_kernel_ts.cpp:244-259 | PTS and DTS decode to the clock modulo 2^33, markers in place |
| `Ts.PcrRoundTrip` | src/kernel/srs_kernel_ts.cpp:261-372 | the program clock decodes to the clock modulo 2^33 |
| `TsProofs.PacketReadsBack` | src/kernel/srs_kernel_ts.cpp:261-372 | a packet has 188 bytes and gives back channel, counter, start flag, clock and payload, for any adaptation size |
| `TsProofs.PacketsReadBack` | src/kernel/srs_kernel_ts.cpp:261-372 | the packets of a PES packet concatenate to it, counters running on, only the first flagged as start |
| `TsProofs.PsiReadsBack` | src/kernel/srs_kernel_ts.cpp:135-239 | a table packet gives its section back, closed by a CRC that makes the whole zero |
| `TsProofs.SectionLengths` | src/kernel/srs_kernel_ts.cpp:135-239 | the length fields count to the end of the CRC |
| `TsProofs.TablesNameStreams` | src/kernel/srs_kernel_ts.cpp:135-239 | a reader of the tables finds exactly the streams present, on the channels where they go out, and the clock's channel |
| `TsProofs.ResetBringsTables` | src/kernel/srs_kernel_ts.cpp:86-133 | the first message after a reset is preceded by the two tables for its codecs |
| `TsProofs.RefusedExactly` | src/kernel/srs_kernel_ts.cpp:108-133 | a message is refused if and only if its codecs are new and neither is H.264 or AAC; the codecs are remembered all the same |
| `TsProofs.TablesExactly` | src/kernel/srs_kernel_ts.cpp:108-133 | tables go out if and only if the codecs are new and one is H.264 or AAC |
| `TsProofs.RunIsLossless` | src/kernel/srs_kernel_ts.cpp:86-372 | over any run at all, across resets, codec changes and refusals: counters advance by one modulo 16 per channel, and a media channel without headers and adaptation fields is the PES packets of the messages served, in order |
| `TsReader.PesReadsBack` | src/kernel/srs_kernel_ts.cpp:261-372 | a PES reader that goes by the header's own length finds stream id, both clocks modulo 2^33 and the payload of every message |
| `TsReader.PesLayout` | src/kernel/srs_kernel_ts.cpp:261-372 | every field of the PES header; the length is zero exactly when it does not fit 16 bits |
| `TsReader.RunArrives` | src/kernel/srs_kernel_ts.cpp:86-372 | over any run at all a demultiplexer finds on each media channel exactly the messages served, in order: stream id, clocks, program clock and random access flag where they are due, payload |
| `TsReader.RunIsStrict` | src/kernel/srs_kernel_ts.cpp:261-372 | over any run every packet has sync byte, flags, reserved bits and stuffing as the standard asks |
| `TsReader.RunCounts` | src/kernel/srs_kernel_ts.cpp:86-372 | in a run from the start the packets of each channel are counted from zero, modulo 16 |
| `TsReader.TablesLead` | src/kernel/srs_kernel_ts.cpp:108-239 | the tables lead a reader from channel 0 to the program map on 0x1001 and from there to the streams: 0x1b on 0x100, 0x0f on 0x101, and the channel of the clock |
| `TsProofs.UnsupportedTwice` | src/kernel/srs_kernel_ts.cpp:108-133 | an unsupported codec pair is refused once, then goes out without tables |
| `TsContext.FillPacket` | src/kernel/srs_kernel_ts.cpp:261-372 | the array filled by index is the next packet |
| `TsContext.SplitPes` | src/kernel/srs_kernel_ts.cpp:261-372 | the loop sends exactly the packets of the PES packet and advances the counter |
| `TsContext.WritePsi` | src/kernel/srs_kernel_ts.cpp:135-239 | the table packet, stuffed with ones |
| `TsContext.Packetiser.EncodeMessage` | src/kernel/srs_kernel_ts.cpp:108-133 | moves codecs, counters and output as the state machine says |
| `TsContext.Packetiser.ResetCodecs` | src/kernel/srs_kernel_ts.cpp:86-92 | forgets the codecs and keeps the counters |
| `AnnexB.SplitInvertsJoin` | src/kernel/srs_kernel_codec.cpp:853-893 | for 1, 2 and 4 byte prefixes: the non-empty units come back in order, or nothing when there are more than 256 |
| `AnnexB.SplitIsJoined` | src/kernel/srs_kernel_codec.cpp:853-893 | and nothing else is accepted: whatever the splitter takes apart was joined, unit by unit |
| `AnnexB.DemuxIbmf` | src/kernel/srs_kernel_codec.cpp:853-893 | the loop is the splitter |
| `AnnexB.CacheAvc` | src/kernel/srs_kernel_ts.cpp:540-591 | the samples in order, an access unit delimiter in front if none was there, the parameter sets once and immediately before the first IDR unit |
| `AnnexB.AccessUnitIs` | src/kernel/srs_kernel_ts.cpp:540-591 | on the bytes of the units: 09 f0 in front unless a unit has type 9, the known parameter sets immediately before the first unit of type 5, the samples in order |
| `AnnexB.ConversionReadsBack` | src/kernel/srs_kernel_ts.cpp:527-591 | a reader of start codes finds exactly that access unit, if and only if no unit holds a start code |
| `LlHls.StepKeepsOk` | src/app/srs_app_llhls.cpp:222-320 | every storage operation keeps the window invariant: consecutive numbers, only the last segment open, durations add up, latest is the tail's last part, the playlist renders the window |
| `LlHls.RunKeepsOk` | src/app/srs_app_llhls.cpp:222-320 | so it holds in every reachable state |
| `LlHls.ClosingFits` | src/app/srs_app_llhls.cpp:457-465 | a closing append leaves at most the window size, and not nothing |
| `LlHls.FindIsSearch` | src/app/srs_app_llhls.cpp:445-455 | the constant-time lookup is a search through the window |
| `LlHls.ReachedIsOrder` | src/app/srs_app_llhls.cpp:430-443 | a position is reached if and only if the newest part is at or behind it |
| `LlHls.ReachedStays` | src/app/srs_app_llhls.cpp:417-443 | once reached, reached in every later state, across unpublish and republish |
| `LlHls.ReachedIsAnswered` | src/app/srs_app_llhls.cpp:467-470 | while a position is reached the cached playlist lists the part, or its segment as complete, or starts behind it |
| `LlHls.LaterPlaylistAnswers` | src/app/srs_app_llhls.cpp:322-330 | and so does every playlist served later |
| `LlHlsPlaylist.RenewedIsSeen` | src/app/srs_app_llhls.cpp:127-197 | after an append or an unpublish a player that reads the playlist finds the window: segments numbered from the media sequence, with their parts if they are among the newest three, durations in whole milliseconds, target, hold-back and part target of the configuration in force, and the next part announced if and only if a live stream got a part |
| `LlHlsPlaylist.PlaylistIsTheHistory` | src/app/srs_app_llhls.cpp:229-320 | over every run the window is the tail of the history that the steps describe, and the playlist shows it as it was to be seen when the newest part came or the stream ended |
| `LlHlsPlaylist.StorageIsHistory` | src/app/srs_app_llhls.cpp:199-320 | so from the creation of the storage on |
| `LlHls.TargetIsLeast` | src/app/srs_app_llhls.cpp:127-197 | TARGETDURATION is the least whole number of seconds covering the target and every segment |
| `LlHls.TargetCovers` | src/app/srs_app_llhls.cpp:127-197 | in every reachable state it covers every segment |
| `LlHls.HoldBackCoversThreeParts` | src/app/srs_app_llhls.cpp:127-197 | the hold-back is three part targets, as rounded |
| `LlHlsStorage.Storage.AppendPart` | src/app/srs_app_llhls.cpp:282-320 | the new state of window, numbers, latest position and playlist |
| `LlHlsStorage.Storage.OnUnpublish` | src/app/srs_app_llhls.cpp:235-252 | an open tail is completed, the hint goes away |
| `LlHlsStorage.Storage.OnPublish` | src/app/srs_app_llhls.cpp:229-233 | only the flag changes |
| `LlHlsStorage.Storage.UpdateConfig` | src/app/srs_app_llhls.cpp:222-227 | only the configuration changes |
| `LlHlsStorage.Storage.GetPart` | src/app/srs_app_llhls.cpp:332-343 | found if and only if the window holds it, and then it is that part |
| `LlHlsStorage.Storage.GetSegment` | src/app/srs_app_llhls.cpp:355-366 | found if and only if the window holds it complete, and then its parts |
| `LlHlsStorage.ShrinkWindow` | src/app/srs_app_llhls.cpp:457-465 | the loop drops exactly the surplus complete segments from the front |
| `LlHlsStorage.GenerateLines` | src/app/srs_app_llhls.cpp:127-197 | the loops produce the playlist |
| `LlHlsStorage.Hold` | src/app/srs_app_http_conn.cpp:394-415 | for any interleaving with the publisher: ends reached, or without a publisher, or with all slices used; reached at once if it was reached before |
| `LlHlsStorage.ServePlaylist` | src/app/srs_app_http_conn.cpp:319-364 | refused exactly for a part without a segment or a segment more than two ahead; when the wait ends reached, the playlist served answers the request |
| `LlHlsStorage.ServePart` | src/app/srs_app_http_conn.cpp:366-392 | serves only the part at the position made of the request; when reached and not served, its segment has left the window or closed short, or the number became negative; when not reached, it was too far ahead, the publisher stopped or all slices were used |
| `LlHlsStorage.CutKeepsExactly` | src/app/srs_app_http_conn.cpp:310-311 | the cast of the part number keeps it if and only if it is below 2^31 |
| `LlHlsStorage.ServeSegment` | src/app/srs_app_http_conn.cpp:417-437 | served if and only if complete and in the window, as its parts in order |
| `LlHlsStorage.ReachedIsStored` | src/app/srs_app_llhls.cpp:430-443 | a reached part is stored unless its segment has left the window or closed short |
| `LlHlsMux.FramesAreConserved` | src/app/srs_app_llhls.cpp:556-739 | over any run: the frames taken in are, in order and once each, the samples of the parts written and of the open part |
| `LlHlsTiling.RunKeepsLinked` | src/app/srs_app_llhls.cpp:522-773 | over every orderly run with 32-bit times, whatever the headers: parts of a segment share their boundaries and their initialisation segment, last from boundary to boundary, carry its track ids, and the muxer's running duration is the storage's |
| `LlHlsTiling.InitOnlyBetweenSegments` | src/app/srs_app_llhls.cpp:663-696 | whatever the event, the initialisation segment is replaced only while no segment is open |
| `LlHlsTiling.AudioNeverOnVideoTrack` | src/kernel/srs_kernel_mp4.cpp:534-547 | a segment has one initialisation segment; a muxed stream's audio goes to the audio track, also in parts without video; where the tracks fit, a stream without video has no video samples |
| `LlHlsTiling.DamagedHeaderBreaksIsolation` | src/app/srs_app_llhls.cpp:876-906 | with a header refused half way isolation fails |
| `LlHlsCuts.EndsExactly` | src/app/srs_app_llhls.cpp:582-661 | a frame that finds an open part ends the segment if and only if it is a keyframe, or audio and the initialisation segment has no video, and the segment has lasted its target |
| `LlHlsCuts.PartEndsExactly` | src/app/srs_app_llhls.cpp:634-661 | any other frame ends the part if and only if the part has reached its target, or 85% of it and one more frame would go beyond; the part then holds all its samples and lasts up to the frame |
| `LlHlsCuts.CutSegmentsLead` | src/app/srs_app_llhls.cpp:634-661 | in every orderly run the segment behind such a cut starts with that frame, whatever happens later |
| `LlHlsCuts.HeaderExactly` | src/app/srs_app_llhls.cpp:522-554 | in every orderly run a sequence header that repeats what is known does nothing; a new one closes the segment at its last frame, and the next part is under the new configuration |
| `LlHlsIsolation.FramesLand` | src/app/srs_app_llhls.cpp:556-773 | conservation with configurations: stored and open samples are the frames taken in, each under the configuration of the part it landed in |
| `LlHlsIsolation.IsolatedExactly` | src/app/srs_app_llhls.cpp:522-773 | over any orderly run, every frame is stored under the configuration it was sent with, if and only if at each frame the initialisation segment has that configuration or is due for renewal |
| `LlHlsIsolation.TracksFitExactly` | src/app/srs_app_llhls.cpp:522-773 | every sample of every part has a track, if and only if at each frame the initialisation segment lists its codec or is due for renewal |
| `LlHlsIsolation.SegmentsAreUniform` | src/app/srs_app_llhls.cpp:663-728 | in every orderly run, damaged headers included, a segment has one initialisation segment |
| `LlHlsIsolation.ListedRunFits` | src/app/srs_app_llhls.cpp:522-773 | under the same condition everything in the storage's window has its track |
| `LlHlsIsolation.CleanIsUpToDate` | src/app/srs_app_llhls.cpp:522-554 | an error-free run, with headers that arrive while publishing, parse completely and keep known codecs, meets the condition of isolation |
| `LlHlsServed.ServedInitExactly` | src/app/srs_app_llhls.cpp:127-197 | over every orderly run, the initialisation segment served is that of every part in the window, if and only if it was not replaced since the window's first part was opened |
| `LlHlsFlags.IndependentIsExact` | src/app/srs_app_llhls.cpp:698-728 | over every run a part is marked INDEPENDENT if and only if its first picture is a keyframe, or it has none and neither has the stream; and its track ids are those of its initialisation segment |
| `LlHlsFlags.SessionIsMarked` | src/app/srs_app_llhls.cpp:663-728 | so from the creation of the muxer on |
| `LlHlsFlags.FragmentsAreNumbered` | src/app/srs_app_llhls.cpp:663-696 | fragment numbers are consecutive over the muxer's life, across republishing |
| `LlHlsPolicy.PartsAreShort` | src/app/srs_app_llhls.cpp:634-661 | with times that do not go back, every part is shorter than the part target plus the largest gap |
| `LlHlsPolicy.EvenPartsFill` | src/app/srs_app_llhls.cpp:634-661 | with constant spacing of at most 15% of the target, parts last at most the target and, unless they close a segment, at least 85% of it |
| `LlHlsPolicy.RunStaysYoung` | src/app/srs_app_llhls.cpp:634-728 | over every orderly run with 32-bit times and positive targets, whatever the headers: no frame in the segment in progress could have closed it |
| `LlHlsPolicy.PolicySegmentBounds` | src/app/srs_app_llhls.cpp:634-661 | in every such run a segment closed by the policy lasts at least the target, and less than the target plus the time since any frame in it that could have closed it, such as its last keyframe |
| `LlHlsPolicy.DecodeTimesContinue` | src/kernel/srs_kernel_mp4.cpp:609-663 | one track, increasing times: across all policy cuts each fragment's decode time is the one before plus its sample durations |
| `LlHlsEndToEnd.EncodePart` | src/kernel/srs_kernel_mp4.cpp:445-586 | the encoder, driven as the muxer drives it, writes exactly the bytes of the fragment |
| `LlHlsEndToEnd.PartIsWatched` | src/kernel/srs_kernel_mp4.cpp:511-586 | a player that knows the initialisation segment finds in a part exactly the samples of each media type, durations included |
| `LlHlsEndToEnd.TakenIsSent` | src/app/srs_app_llhls.cpp:775-906 | over any run the muxer takes in exactly the frames that the events send while the stream is on and their codec is known |
| `LlHlsEndToEnd.SessionIsWatched` | src/app/srs_app_llhls.cpp:556-739 | end to end: demuxing the bytes of all stored parts gives, per media type, the frames that the events send, in order and once each, with times, offsets and flags, up to the part still open; once the stream is off, all of them |
| `LlHlsMuxer.Muxer.Flush` | src/app/srs_app_llhls.cpp:698-728 | moves muxer and storage as the model's flush |
| `LlHlsMuxer.Muxer.Cut` | src/app/srs_app_llhls.cpp:634-661 | the decision to cut, segment before part |
| `LlHlsMuxer.Muxer.Begin` | src/app/srs_app_llhls.cpp:663-696 | renews the initialisation segment if needed and opens a part |
| `LlHlsMuxer.Muxer.OnSequenceHeader` | src/app/srs_app_llhls.cpp:522-554 | a repeated header changes nothing, a new one closes the segment |
| `LlHlsMuxer.Muxer.OnAudio` | src/app/srs_app_llhls.cpp:845-874 | one audio message, dropped or written |
| `LlHlsMuxer.Muxer.OnVideo` | src/app/srs_app_llhls.cpp:876-906 | one video message, dropped or written |
| `LlHlsMuxer.Muxer.OnMessage` | src/app/srs_app_llhls.cpp:845-906 | other codecs, other packet types and messages without samples are dropped; headers and frames go their ways |
| `LlHlsMuxer.MessageIsTaken` | src/app/srs_app_llhls.cpp:845-906 | a message adds its frame once or nothing: AAC that is no header, or H.264 of packet type 1, with samples, codec known, stream on; only a header changes what is known |
| `LlHlsMuxer.Muxer.OnPublish` | src/app/srs_app_llhls.cpp:805-825 | new configuration, nothing open |
| `LlHlsMuxer.Muxer.OnUnpublish` | src/app/srs_app_llhls.cpp:827-843 | the last part closes its segment; a second call changes nothing |
| `LlHlsMuxer.Session` | src/app/srs_app_llhls.cpp:775-906 | the objects over a whole session: the state the model plays to; conservation up to the muxer's open part; tiling for 32-bit times; tracks for everything in the window if every codec was listed in time |
| `LiveJitter.Corrector.Correct` | src/app/srs_app_source.cpp:50-108 | the message and the state afterwards, for all three algorithms |
| `LiveJitter.TimelineIsCorrection` | src/app/srs_app_source.cpp:76-108 | full correction is a function of the audio and video times alone |
| `LiveJitter.OnlyTimesChange` | src/app/srs_app_source.cpp:50-108 | kinds, payloads and order stay; other messages get time zero |
| `LiveJitter.TimelineExactly` | src/app/srs_app_source.cpp:85-108 | each corrected time from the one before: steps of up to 250 ms either way are kept, any other counts as 10 ms, nothing goes below zero |
| `LiveJitter.TimelineIsSteady` | src/app/srs_app_source.cpp:96-108 | over any run, corrected times are nonnegative and move by at most 250 ms a step |
| `LiveJitter.SpacingKeptExactly` | src/app/srs_app_source.cpp:93-108 | the input spacing is kept if and only if the step is at most 250 ms either way and does not lead below zero |
| `LiveJitter.SmoothInputIsShifted` | src/app/srs_app_source.cpp:93-108 | with steps from 0 to 250 ms the timeline is the input, moved by a constant |
| `LiveJitter.GoesBackExactly` | src/app/srs_app_source.cpp:96-102 | corrected time goes back if and only if the input goes back by at most 250 ms and there is room above zero |
| `LiveJitter.NotMonotonic` | src/app/srs_app_source.cpp:96-102 | a run that goes back |
| `LiveJitter.ZeroIsShift` | src/app/srs_app_source.cpp:61-67 | the zero algorithm moves the stream to start at zero |
| `LiveJitter.OffIsIdentity` | src/app/srs_app_source.cpp:55-59 | switched off, it changes nothing |
| `LiveQueue.MessageQueue.Enqueue` | src/app/srs_app_source.cpp:142-173 | one shrink is enough; overflow is reported exactly when there was one |
| `LiveQueue.MessageQueue.Shrink` | src/app/srs_app_source.cpp:227-268 | the newest header of each kind stays, with the newest time |
| `LiveQueue.MessageQueue.DumpPackets` | src/app/srs_app_source.cpp:175-205 | the front of the queue, and the time the span now counts from |
| `LiveQueue.SpanWithinLimit` | src/app/srs_app_source.cpp:163-173 | after every enqueue with a limit the span is within it |
| `LiveQueue.OverflowLeavesHeaders` | src/app/srs_app_source.cpp:227-268 | an overflow leaves only headers, video before audio, none lost, and the span starts anew |
| `LiveQueue.NewestIsNewest` | src/app/srs_app_source.cpp:233-250 | the header kept is a header, and no later one exists |
| `LiveQueue.QueueIsFifo` | src/app/srs_app_source.cpp:142-205 | without overflow, what was handed out and what is left is what was put in, in order, once |
| `LiveQueue.NewQueueKeepsAll` | src/app/srs_app_source.cpp:142-173 | until it gets a limit, a new queue hands out and holds all that was put in |
| `LiveQueue.NothingLostExactly` | src/app/srs_app_source.cpp:142-268 | over any run of puts, takes and limits the frames handed out and still held are all frames put in, in order and once each, if and only if no overflow met anything but headers; the same of frames and metadata together |
| `LiveQueue.NewQueueOverflowsExactly` | src/app/srs_app_source.cpp:142-173 | a new queue overflows if and only if the newest time in it is later than the oldest by more than the limit; times of zero and metadata do not count |
| `LiveQueue.TakenQueueOverflowsExactly` | src/app/srs_app_source.cpp:142-205 | after any take the next message overflows the queue if and only if the newest time is later than the last message handed out by more than the limit |
| `LiveQueue.TakenQueueDropsExactly` | src/app/srs_app_source.cpp:142-205 | in that case every frame left and the new one are lost; otherwise all of them stay, in order |
| `LiveQueue.DrainedQueueDropsExactly` | src/app/srs_app_source.cpp:175-205 | for a drained queue: the next frame alone is dropped or kept |
| `LiveQueue.MetadataLosesKeyframe` | src/app/srs_app_source.cpp:190-191 | a keyframe lost that way |
| `LiveGop.GopCache.Cache` | src/app/srs_app_source.cpp:441-499 | the content and both counters after a message |
| `LiveGop.CachedOk` | src/app/srs_app_source.cpp:441-512 | counters describe the content; it starts with video, has no keyframe behind its start and no run of more than 115 audio messages |
| `LiveGop.CachedIsSuffix` | src/app/srs_app_source.cpp:441-499 | the cache stays an unbroken end of what could be cached |
| `LiveGop.EndOfAllExactly` | src/app/srs_app_source.cpp:453-458 | an end of what can be cached is an end of everything if and only if everything that recent can be cached |
| `LiveGop.CacheIsLongest` | src/app/srs_app_source.cpp:441-499 | with or without a message limit, the cache is the longest such end of what came since the limit last cleared it |
| `LiveGop.CacheIsLongestEnd` | src/app/srs_app_source.cpp:441-499 | the same over a whole publication |
| `LiveGop.NoLimitForgetsNothing` | src/app/srs_app_source.cpp:490-496 | without a limit that is all that could be cached |
| `LiveGop.StartsWithKeyframeExactly` | src/app/srs_app_source.cpp:459-496 | the cache starts with a keyframe if and only if some keyframe since the last clear is still followed by a playable stretch |
| `LiveGop.LimitHolds` | src/app/srs_app_source.cpp:490-496 | with a limit it never holds more |
| `LiveGop.MayStartWithInterFrame` | src/app/srs_app_source.cpp:459-496 | the cache may start with an inter frame |
| `LiveSource.RunKeepsOk` | src/app/srs_app_source.cpp:1124-1183 | over any run publishing is refused exactly while the stream is live, and the cache is sound |
| `LiveSource.CacheIsSuffix` | src/app/srs_app_source.cpp:1029-1122 | over any run the cache is an unbroken end of the audio and H.264 frames published |
| `LiveSource.CacheIsLongestEnd` | src/app/srs_app_source.cpp:1029-1251 | over any run, with whatever limits, switches and publications, the cache is the longest playable end since it was last cleared, with the same condition for a keyframe in front |
| `LiveSource.CachesAreCurrent` | src/app/srs_app_source.cpp:1029-1156 | over any run the caches hold the newest metadata and headers since publishing; in place of an audio header that never came, the first audio message |
| `LiveBytes.CachesFromBytes` | src/app/srs_app_source.cpp:1029-1122 | over any run, on the bytes: the caches hold the newest metadata, the newest video message 17 00 and the newest audio message that begins a0 to af, 00 since publishing, or the first audio message if there was none |
| `LiveBytes.CacheFromBytes` | src/app/srs_app_source.cpp:441-499 | over any run, with whatever limits, switches and publications, the GOP cache is the longest end of the audio and H.264 frames since it was last cleared that starts with video, has no later keyframe and no 116 audio messages in a row |
| `LiveBytes.DumpExactly` | src/app/srs_app_source.cpp:1197-1228 | in any run a dump passes nothing while the stream is off; else, as asked, metadata, audio header, video header and the cache, in this order |
| `LiveBytes.AacStreamJoins` | src/app/srs_app_source.cpp:1185-1228 | a player that joins behind an AAC header, a keyframe and an AAC frame is passed exactly these three |
| `LiveSource.PlayerIsFed` | src/app/srs_app_source.cpp:321-352 | over any run a player's queue sees exactly what the source passes to it, time-corrected, in order |
| `LiveSource.PlayerGetsAll` | src/app/srs_app_source.cpp:321-381 | a player that does not overflow gets all of it once, in order |
| `LiveSource.PlayerGetsFramesExactly` | src/app/srs_app_source.cpp:321-381 | over any run a player gets every frame passed to it, in order and once, if and only if no overflow of its queue met anything but headers |
| `LiveSource.InputIsPublished` | src/app/srs_app_source.cpp:986-1122 | apart from its dump a player is passed exactly what is published |
| `LiveSource.JoinedInput` | src/app/srs_app_source.cpp:1185-1228 | all that a joining player is passed, whatever happens between creation and dump |
| `LiveSource.JoinsWithoutGap` | src/app/srs_app_source.cpp:1185-1228 | what was published since its creation, then metadata, audio header, video header, the cache and all that follows; from the cache on, the frames are an unbroken end of all frames ever published, each once, if and only if no other video than H.264 is as recent as the cache; with nothing published in between that is all |
| `LiveSource.MidJoin` | src/app/srs_app_source.cpp:1029-1228 | the whole story from an idle source to what the player has handed out and still holds, time-corrected, whatever happens between creation and dump: all frames if and only if no overflow met anything but headers, all messages without overflow, and unbroken under the condition of JoinsWithoutGap |
| `LiveSource.PassedTwiceExactly` | src/app/srs_app_source.cpp:1185-1228 | all frames a joining player is passed; of those that can be cached, exactly the common end of the ones published in between and of the cache comes twice; none does if and only if one of the two is empty |
| `LiveSource.HeadFrames` | src/app/srs_app_source.cpp:1052-1058 | the messages before the cache hold a frame if and only if audio came without a header: its first message |
| `LiveSource.FrameBetweenComesTwice` | src/app/srs_app_source.cpp:1185-1228 | a frame that comes twice |
| `LiveSource.OtherVideoLeavesGap` | src/app/srs_app_source.cpp:453-458 | video that is not cached leaves a gap behind the cache |
| `LiveSource.OverflowLosesFrames` | src/app/srs_app_source.cpp:142-173 | an overflow loses frames a player was passed |
| `LiveHub.LiveConsumer.Enqueue` | src/app/srs_app_source.cpp:321-352 | correction, then the queue |
| `LiveHub.Hub.FanOut` | src/app/srs_app_source.cpp:1042-1048 | every player gets the message once |
| `LiveHub.Hub.OnMetaData` | src/app/srs_app_source.cpp:986-1011 | one metadata step |
| `LiveHub.Hub.OnAudio` | src/app/srs_app_source.cpp:1029-1069 | one audio step: fan-out, header cache, GOP cache |
| `LiveHub.Hub.OnVideo` | src/app/srs_app_source.cpp:1086-1122 | one video step |
| `LiveHub.Hub.OnPublish` | src/app/srs_app_source.cpp:1124-1156 | check and claim in one; undone if the hub fails |
| `LiveHub.Hub.OnUnpublish` | src/app/srs_app_source.cpp:1158-1183 | nothing if already unpublished |
| `LiveHub.Hub.CreateConsumer` | src/app/srs_app_source.cpp:1185-1195 | a new player that shares nothing with the others |
| `LiveHub.Hub.ConsumerDumps` | src/app/srs_app_source.cpp:1197-1228 | limit first, then metadata, audio header, video header, cache, only while live |
| `LiveHub.Hub.OnConsumerDestroy` | src/app/srs_app_source.cpp:1230-1239 | the player leaves, the others stay as they are |
| `LiveHub.Hub.Pump` | src/app/srs_app_source.cpp:354-381 | a player takes messages from its own queue only |
| `Publishing.OnePublisher` | src/app/srs_app_rtmp_conn.cpp:399-443 | over every interleaving at most one connection is between claim and release, and the source refuses publishers exactly while there is one |
| `Publishing.CheckExactly` | src/app/srs_app_rtmp_conn.cpp:418-443 | over every interleaving the check turns a connection away if and only if another one holds the source |
| `Publishing.LeavingHurtsNobody` | src/app/srs_app_rtmp_conn.cpp:399-416 | a connection that leaves never ends another's publish |
| `Publishing.MediaOnlyFromOwner` | src/app/srs_app_rtmp_conn.cpp:399-416 | media reaches the source only from its owner, only while live |
| `Publishing.BothPassTheCheck` | src/app/srs_app_rtmp_conn.cpp:418-436 | the separate check lets two through; the claim turns one away |
| `Publishing.BlindReleaseSteals` | src/app/srs_app_source.cpp:1158-1183 | a release by a refused connection would let a second publisher in |
| `Reaper.ResourceManager.Add` | src/app/srs_app_conn.cpp:126-132 | a connection is listed once |
| `Reaper.ResourceManager.Remove` | src/app/srs_app_conn.cpp:134-156 | off the list; onto the zombies unless there or the manager is being destroyed |
| `Reaper.ResourceManager.Swap` | src/app/srs_app_conn.cpp:158-173 | the caller gets all zombies, none stay |
| `Reaper.ResourceManager.Dispose` | src/app/srs_app_conn.cpp:60-67 | from now on removals are ignored; the caller gets the connections left |
| `Reaper.AddListsOnce` | src/app/srs_app_conn.cpp:126-132 | however often it is called, adding lists a connection once and changes nothing else |
| `Reaper.FreedAtMostOnce` | src/app/srs_app_conn.cpp:102-173 | over every interleaving no connection is freed twice, nor before its own thread has ended |
| `Reaper.FreedExactlyOnce` | src/app/srs_app_conn.cpp:49-74 | once the manager is gone, every connection ever added was freed exactly once |
| `Reaper.DestructionEnds` | src/app/srs_app_conn.cpp:49-74 | whatever the schedule, destruction takes a bounded number of steps |
| `Reaper.DestructionGoesOn` | src/app/srs_app_conn.cpp:49-74 | and never gets stuck |
| `Reaper.RemoveListsExactly` | src/app/srs_app_conn.cpp:134-156 | a removal puts a connection up for freeing if and only if the manager is not being destroyed and the connection is not up already |
| `Reaper.SecondRemoveFreesTwice` | src/app/srs_app_conn.cpp:134-173 | a second removal before destruction lists a connection again if and only if the manager has taken its copy in between |

## Left out

- Sockets, timeouts, real time, interrupts of waiting threads: a socket is a byte stream that is cut anywhere, a clock is a number of slices, a schedule is any interleaving of lock sections.
- What happens to a connection after a failed read in the middle of a header: it is dropped.
- Handshake, command packets, acknowledgements and ping replies, logging, configuration, accept loops.
- URL, request line and m3u8 text: routes are calls, a playlist is a list of typed lines without URIs.
- The bytes of init.mp4 and the parsing of SPS, avcC and AudioSpecificConfig: a parsed header is an event with its raw data; how a refused header may leave part of itself behind is the event `Damaged`.
- TS segment files, their window and playlist, and ADTS headers for AAC.
- The reference count of shared payloads, and freeing of messages: messages are values.
- The meaning of AMF0 numbers as doubles: a number is its eight bytes. Deep copies of AMF0 values.
- 64-bit overflow of microsecond times and of the fragment counter.
- Waking of waiting players (how many messages, how long): it changes when messages are taken, not which.
- LlHlsTiling.RunKeepsLinked: frame times are below 2^32, the width of the sample fields; the receiver delivers times below 2^31. The same holds of LlHlsPolicy.RunStaysYoung and LlHlsPolicy.PolicySegmentBounds.
- LlHlsMux.FramesAreConserved: a publish is assumed to follow an unpublish, as the source guarantees.
- LlHlsStorage.ServePlaylist: requests are not interrupted; numbers are parsed without the 64-bit limit of the parser.
- LlHlsStorage.ServePart: the same.
- RtmpProtocol.CheckBatch: every slot of a batch holds a message with its payload; empty slots, messages without a shared payload, which end the scan, and two copies that share their header are not modelled.
- RtmpProtocol.Protocol.OnRecvMessage: acknowledgement, window size and ping replies are not sent.
- LiveHub.Hub.OnMetaData: the message is the metadata as rewritten; adding server names, removing the duration and refusing an empty encoding are not modelled.
- LlHlsStorage.Storage.AppendPart: the payload is abstract; the muxer stores fragments, tagged with the initialisation segment in force, which the source does not store with the part.
- Publishing.OnePublisher: the program of a connection is reduced to its calls on the source.
- Reaper.FreedExactlyOnce: connections are added only before the manager is destroyed and call remove once, as the server arranges.
- AnnexB.ConversionReadsBack: the reader splits at start codes and does not strip trailing zero bytes.
- Fmp4.FragmentRoundTrip: sizes are assumed to fit their 32-bit fields.
- LlHlsEndToEnd.SessionIsWatched: sizes likewise; both times of a frame fit 32 bits and their difference 32 signed bits; durations are those of PartIsWatched, part by part; the muxer object stores fragments as values, and EncodePart shows that the encoder object turns each into its bytes.
