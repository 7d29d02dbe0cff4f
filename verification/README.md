# livestream-rs in Dafny

livestream-rs ingests live streams over RTMP and RTSP, relays them as FLV and records them as HLS.
This project models the parts of it that carry their own logic, as opposed to wrapping FFmpeg or
sockets, and proves what they guarantee. `dafny verify dfyconfig.toml` checks everything.

| module | subject |
|---|---|
| `Bytes`, `Media` | byte strings, big-endian numbers, codecs and packets |
| `AnnexB` | Annex B start codes and AVCC length prefixes, both directions |
| `FlvTag` | FLV tags, their encoding and decoding, whole FLV streams |
| `FlvRelay` | RTMP frame to packet to FLV tag, over whole runs |
| `AvcConfig` | avcC records: writer (transcoder), reader (HLS extradata) |
| `RtpHeader`, `RtpQueue`, `RtpProbation` | RTP header parser; bounded packet queue with partial reads; what FFmpeg's sequence probation gets out of it |
| `Interleaved` | reader of a recording RTSP connection |
| `TimestampRepair`, `Playlist`, `HlsSegmenter`, `HlsRuns` | HLS segmenter and its runs, failures included |
| `FlvChannel`, `FlvPlayback` | broadcast channel, header cache, lagging subscriber, all interleavings; what a player then sees |
| `Registry` | session registry, cleanup tasks, watch loop, all interleavings |
| `FpsFilter`, `RtspSession`, `DeferredHls` | frame-rate filter, RTSP state machine, deferred HLS start |

Loops and objects of the source are methods and classes, each proved equal to a function on values;
the theorems are about those functions. Where the source leaves its fate to other code, the model
makes that a parameter: the AMF0 library (`FlvTag.Amf`), the Content-Length text search
(`Interleaved.ContentLength`), the media descriptions in an SDP body (part of an ANNOUNCE request),
and the outcome of every FFmpeg and file system call of the segmenter (`HlsSegmenter.Env`).

## What turned out

- Behind an avcC sequence header the relay keeps an H.264 body byte for byte if and only if the body
  is a sequence of whole length-prefixed NALs with no start code inside a NAL. Any other body is
  re-cut at its start codes, and a NAL cut short is dropped with everything behind it. RTMP headers do
  arm the length prefixes, although comments in the muxer
  (crates/livestream-pipeline/src/processor/flv_mux.rs lines 24 to 27 and 121 to 127) describe RTMP
  as an Annex B source whose framing stays untouched; the model follows the code.
- Timestamp plus composition time survives the relay if and only if the composition time is not
  negative (or the timestamp is already 2^32 - 1). A negative one shifts the presentation time,
  although the tag format allows it; `FlvRelay.NegativeCtsShiftsTime` shows 1000 ms becoming 1001.
- avcC writer and reader agree if and only if SPS and PPS are each shorter than 65536 bytes.
- Playlist entries carry the numbers `#EXT-X-MEDIA-SEQUENCE` promises if and only if no rollover took
  a sequence number and then failed before the last listed segment
  (`HlsRuns.PlaylistNumbers`; `HlsRuns.FailedRolloverShiftsNumbers` shows the other case).
- Segment durations add up to elapsed PTS for every positive target, and a target of 0 is rejected by
  the configuration (crates/livestream-core/src/config.rs line 363).
- The playlist size is raised to at least 1 by the code, although the configuration
  (crates/livestream-core/src/config.rs line 25) calls 0 unlimited; the model follows the code.
- The frame-rate filter promises that a source below the target rate keeps every frame
  (crates/livestream-pipeline/src/processor/transcode.rs lines 219 to 221). Division towards zero
  makes the slot around PTS 0 twice as wide, so the promise holds if and only if, once a frame was
  encoded, no two neighbouring frames fall into it (`FpsFilter.SlowSourceLosesNone`,
  `FpsFilter.StraddlingSourceLosesOne`).
- Behind a lag the player skips video so that no incomplete picture is shown
  (crates/livestream-transport/src/play_keyframe.rs lines 3 to 5). It resumes at the next tag flagged
  as keyframe, and sequence headers carry that flag too. So the first coded video it gets is a picture
  if and only if the first coded video tag from there on is a keyframe
  (`FlvPlayback.ResumesWithPicture`); `FlvPlayback.HeaderEndsTheWait` is a run on the 1024-slot ring
  in which it is not.
- The receive loops do not read the header cache again. A player works with a header as new as the
  broadcast up to its position if and only if no header was lost to a lag since
  (`FlvPlayback.PlayerUpToDate`, `FlvPlayback.LagLosesHeader`).
- The packet queue doubles the first packet so that FFmpeg's sequence probation gets it twice and then
  the second one (crates/livestream-media/src/rtp.rs lines 234 to 237). In every run that starts
  enough packets it does, if and only if no read asks for bytes between the first two feeds and no
  feed from the second on overflows the queue before the last of them is started
  (`RtpProbation.ProbationGets`). `RtpProbation.SecondIsDoubled` and
  `RtpProbation.EvictionBeatsProbation` are runs that break either half.
- The frame-rate filter counts in whole milliseconds, so it keeps the configured rate if and only if
  one frame of that rate lasts a whole number of them (`FpsFilter.ConfiguredRate`). Above 1000 frames
  per second the slot length is 0 and the source divides by it.
- A watch reports advancing states if and only if no check reads a state behind the last report
  (`Registry.WatchClimbsIff`). That cannot happen as long as nothing behind the last report is
  registered under the key between two looks (`Registry.WatchYieldsClimb`). After such a registration
  it happens if and only if the descriptor has not caught up by the time of the check
  (`Registry.ReregisteredWatch`, with `Registry.ReregisteredWatchFallsBack` and
  `Registry.ReregisteredWatchCatchesUp` for either case).

## Model

| member | source | states |
|---|---|---|
| `AnnexB.SplitAnnexB` | crates/livestream-pipeline/src/processor/flv_mux.rs:145-177 | the scanning loop returns the NALs of the unique canonical split, none containing `00 00 01` |
| `AnnexB.SplitBijection` | crates/livestream-pipeline/src/processor/flv_mux.rs:145-177 | splitting and printing are inverse bijections between byte strings and canonical splits, whatever mix of 3- and 4-byte codes |
| `AnnexB.NalsAreFree` | crates/livestream-pipeline/src/processor/flv_mux.rs:145-177 | no NAL of any byte string contains a start code |
| `AnnexB.NalsOfPrintLong` | crates/livestream-pipeline/src/processor/transcode.rs:583-615 | splitting NALs printed behind 4-byte codes finds exactly the start-code-free pieces of each, for every NAL list |
| `AnnexB.AvccToAnnexB` | crates/livestream-transport/src/source/rtmp.rs:145-160 | the loop prints exactly the whole length-prefixed NALs behind 4-byte start codes, stopping at one cut short |
| `AnnexB.AvccNalsOfPrint` | crates/livestream-transport/src/source/rtmp.rs:145-160 | reading inverts length-prefix printing for NALs under 2^32 bytes |
| `AnnexB.WellFramedIsPrinted` | crates/livestream-transport/src/source/rtmp.rs:145-160 | a well-framed body is the print of the NALs read from it |
| `FlvRelay.AnnexBNormalForm` | crates/livestream-pipeline/src/processor/flv_mux.rs:128-177 | for NALs under 2^32 bytes, Annex B to AVCC to Annex B and split again gives the same NAL list, whatever start codes came in |
| `FlvRelay.RelayedBodyIs` | crates/livestream-transport/src/source/rtmp.rs:204-210 | on any body at all the relay cuts each whole NAL into its start-code-free pieces |
| `FlvRelay.RelayedBodyIdentity` | crates/livestream-transport/src/source/rtmp.rs:204-210 | body unchanged if and only if well framed |
| `FlvRelay.FlvMux.AnnexBToAvcc` | crates/livestream-pipeline/src/processor/flv_mux.rs:128-138 | length prefixes for the split NALs when armed, otherwise the data as it is |
| `FlvRelay.FlvMux.MuxVideo` | crates/livestream-pipeline/src/processor/flv_mux.rs:45-92 | the tag and the new framing flag, with all saturations |
| `FlvRelay.FlvMux.Times` | crates/livestream-pipeline/src/processor/flv_mux.rs:49-55 | decode timestamp and composition time with clamping at both ends |
| `FlvRelay.FlvMux.Process` | crates/livestream-pipeline/src/processor/flv_mux.rs:206-221 | routing by codec; unsupported codecs give no tag and change nothing |
| `FlvRelay.MediaBody` | crates/livestream-transport/src/source/rtmp.rs:177-235 | any H.264 or H.265 media frame: keyframe and codec in byte 0, packet type 1 and the exact new body, length-prefixed when armed and with start codes when not; arming is left alone |
| `FlvRelay.HeaderBody` | crates/livestream-pipeline/src/processor/flv_mux.rs:59-88 | sequence headers keep their record behind five exact header bytes, and arm the muxer if and only if they are H.264 and the record begins with 1 |
| `FlvRelay.PresentationTime` | crates/livestream-pipeline/src/processor/flv_mux.rs:46-55 | outgoing timestamp + CTS equals the incoming timestamp exactly when CTS >= 0 or the timestamp is 2^32 - 1; the two parts are in `FlvRelay.DecodeTime` |
| `FlvRelay.DecodeTime` | crates/livestream-transport/src/source/rtmp.rs:220-222 | exact timestamp and CTS bytes of every media frame: a CTS that is not negative is kept and taken off the timestamp, clamped at 0 together; a negative one is added to the timestamp and lost |
| `FlvRelay.MuxedTimes` | crates/livestream-pipeline/src/processor/flv_mux.rs:49-55 | any media packet is stamped with its DTS, or its PTS without one, and the CTS leads from there to the PTS as far as 24 bits allow |
| `FlvRelay.ConvertedPacket` | crates/livestream-transport/src/source/rtmp.rs:177-260 | the PTS is the timestamp, audio is never a keyframe, extradata is the record of a video header and of nothing else |
| `FlvRelay.DroppedFrames` | crates/livestream-transport/src/source/rtmp.rs:177-235 | exactly which frames leave no tag |
| `FlvRelay.TagsAreClassified` | crates/livestream-pipeline/src/processor/flv_mux.rs:206-221 | tags of H.264, H.265 and AAC packets, and of no other, and each is a header or a keyframe to the channel exactly when the packet was |
| `FlvRelay.NegativeCtsShiftsTime` | crates/livestream-transport/src/source/rtmp.rs:220-222 | the input that shows a negative CTS moving the presentation time |
| `FlvRelay.AudioRelay` | crates/livestream-transport/src/source/rtmp.rs:238-260 | audio keeps time, bytes behind the header and header status; the tag is identical if and only if its header bytes are AF 00 or AF 01 |
| `FlvRelay.RelayIdentity` | crates/livestream-pipeline/src/processor/flv_mux.rs:59-68 | in every run, behind an avcC header each H.264 media frame is unchanged exactly when well framed |
| `FlvRelay.TranscodedStream` | crates/livestream-pipeline/src/processor/transcode.rs:423-434 | the synthesized header arms the muxer, announces the 4-byte lengths it writes, and media tags list the encoder's NALs |
| `FlvTag.PutU24` | crates/livestream-media/src/flv/encode.rs:151-155 | appends the three low bytes, most significant first |
| `Bytes.MostSignificantFirst` | crates/livestream-media/src/flv/encode.rs:151-155 | byte strings are read with the most significant byte first; writing is the inverse |
| `FlvTag.EncodeFlvTag` | crates/livestream-media/src/flv/encode.rs:41-76 | the block filled field by field, or an error over 0xFFFFFF bytes or from the AMF0 library |
| `FlvTag.TagLayout` | crates/livestream-media/src/flv/encode.rs:41-76 | where type, size, time with its high byte, stream id, payload and PreviousTagSize lie and what they hold; refused exactly over 0xFFFFFF bytes |
| `FlvTag.TagHeaders` | crates/livestream-media/src/flv/tag.rs:62-95 | which first two bytes make a tag a sequence header or a keyframe, in the classic and the extended form, and for audio |
| `FlvTag.ShortTags` | crates/livestream-media/src/flv/tag.rs:62-95 | payloads under two bytes are no headers, an empty one is no keyframe, and metadata counts as a header |
| `FlvTag.DecodeOfEncode` | crates/livestream-media/src/flv/mod.rs:20-57 | decoding an encoded tag gives it back: 32-bit time, payload, keyframe flag, whatever follows |
| `FlvTag.EncodeOfDecode` | crates/livestream-media/src/flv/mod.rs:20-57 | re-encoding reproduces the buffer if and only if the ignored fields hold what the encoder writes |
| `FlvTag.StreamRoundTrip` | crates/livestream-media/src/flv/encode.rs:41-76 | decoding a concatenation of encoded tags returns the tag list |
| `FlvTag.StreamIsInjective` | crates/livestream-media/src/flv/encode.rs:41-76 | no two tag lists share an encoding |
| `FlvTag.WalkBackFindsStarts` | crates/livestream-media/src/flv/encode.rs:64-73 | following PreviousTagSize from the end finds exactly the forward boundaries |
| `AvcConfig.ReadHlsExtradata` | crates/livestream-pipeline/src/factory.rs:273-310 | the two reading loops compute the record reader, in bounds on every input |
| `AvcConfig.ReadSets` | crates/livestream-pipeline/src/factory.rs:280-291 | one reading loop: the sets, the position behind them, or the early return |
| `AvcConfig.ReaderInvertsRecord` | crates/livestream-pipeline/src/factory.rs:273-310 | any record with 0..31 SPS and 0..255 PPS reads as SPS then PPS |
| `AvcConfig.RewrittenIsRecord` | crates/livestream-pipeline/src/factory.rs:280-309 | whatever is rewritten was such a record, or one ending after its SPS |
| `AvcConfig.WriterReaderAgree` | crates/livestream-pipeline/src/processor/transcode.rs:423-438 | the reader returns SPS ++ PPS if and only if both lengths fit 16 bits |
| `AvcConfig.FirstOfTypeIs` | crates/livestream-pipeline/src/processor/transcode.rs:562-574 | the chosen parameter set is the first of its type, none exactly when there is none |
| `AvcConfig.ExtractSpsPps` | crates/livestream-pipeline/src/processor/transcode.rs:559-579 | the early-stopping loop finds first SPS (at least 4 bytes) and first PPS |
| `AvcConfig.SpsPpsAre` | crates/livestream-pipeline/src/processor/transcode.rs:559-579 | the pair is the first NAL of type 7, at least 4 bytes long, and the first of type 8, in this order, if and only if there are such |
| `AvcConfig.FirstKeyframeIs` | crates/livestream-pipeline/src/processor/transcode.rs:418-420 | the keyframe looked at is the first of the batch, sequence headers not counted |
| `AvcConfig.HeaderEmitter.MaybeEmitSequenceHeader` | crates/livestream-pipeline/src/processor/transcode.rs:414-474 | at most one header, in front of the first keyframe batch, its record agreeing with the stored parameters when the lengths fit |
| `RtpHeader.ParseOfPrint` | crates/livestream-codec/src/rtp.rs:89-143 | every packet laid out by RFC 3550 section 5.1 parses to its fields and payload |
| `RtpHeader.PrintOfParse` | crates/livestream-codec/src/rtp.rs:89-143 | an accepted buffer splits exactly into header, payload and padding |
| `RtpHeader.AcceptsExactlyValid` | crates/livestream-codec/src/rtp.rs:89-143 | accepted if and only if it is a valid packet |
| `RtpHeader.NewPacket` | crates/livestream-codec/src/rtp.rs:31-75 | the built data parses back; the stored payload type is the parsed one if and only if below 128 |
| `RtpQueue.RtpBuf.Feed` | crates/livestream-media/src/rtp.rs:230-261 | probation doubling, eviction loop and append as specified; within the byte bound |
| `RtpQueue.RtpBuf.SumBytes` | crates/livestream-media/src/rtp.rs:250-251 | bytes queued plus the whole packet in flight |
| `RtpQueue.RtpBuf.Read` | crates/livestream-media/src/rtp.rs:390-429 | the new state; at most the size asked for, less only at the end of a packet; EINVAL exactly for sizes that are not positive, EAGAIN exactly when nothing is left |
| `RtpQueue.EvictedIsLongestFit` | crates/livestream-media/src/rtp.rs:249-258 | eviction keeps the longest suffix that fits |
| `RtpQueue.FedIsLongestFit` | crates/livestream-media/src/rtp.rs:230-261 | every feed: behind the doubling, the longest part of the queue that fits 1 MiB with the new packet and the one in flight, then the new packet |
| `RtpQueue.EveryRun` | crates/livestream-media/src/rtp.rs:390-429 | every run: queue is a suffix of the fed packets with at most one doubled, chunks join to whole packets in order without mixing, none is longer than its read asked for, the packet in flight survives |
| `RtpQueue.EveryRunBounded` | crates/livestream-media/src/rtp.rs:246-259 | with packets up to 65535 bytes never more than 1 MiB |
| `RtpQueue.EveryRunFromStart` | crates/livestream-media/src/rtp.rs:230-261 | both for the queue as it is created |
| `RtpProbation.FirstIsDoubled` | crates/livestream-media/src/rtp.rs:238-245 | in every run with two feeds the queue doubles the first packet if and only if no read asks for bytes between them |
| `RtpProbation.SecondIsDoubled` | crates/livestream-media/src/rtp.rs:238-245 | a run that doubles the second packet |
| `RtpProbation.ProbationGets` | crates/livestream-media/src/rtp.rs:234-261 | in every run that starts n = 2 or 3 packets these are the first, its copy and the second, if and only if nothing is read between the first two feeds and no later feed overflows before the last of them is started |
| `RtpProbation.EvictionBeatsProbation` | crates/livestream-media/src/rtp.rs:246-259 | a run of packets within RTP size that evicts both copies of the first packet and the second before any read |
| `Interleaved.RequestLineShape` | crates/livestream-transport/src/rtsp/rtp.rs:142-167 | a line is a request line if and only if it is METHOD SP URI SP RTSP/..., the method of upper-case letters, digits and underscores, whatever its line end |
| `Interleaved.MethodsInUse` | crates/livestream-transport/src/rtsp/rtp.rs:142-167 | for every URI, the seven methods RTSP uses here make a request line |
| `Interleaved.LineOfParts` | crates/livestream-transport/src/rtsp/rtp.rs:142-167 | of any three parts between two spaces the first and the last decide: a lower-case letter in the method or another protocol is refused |
| `Interleaved.FrameOnTheWire` | crates/livestream-transport/src/rtsp/rtp.rs:65-137 | `$`, channel, two length bytes and payload are read as that frame, and not at all if cut short |
| `Interleaved.RequestOnTheWire` | crates/livestream-transport/src/rtsp/rtp.rs:65-137 | request line, headers up to the first empty line and announced body, up to 64 KiB, are read as that request |
| `Interleaved.StrayOnTheWire` | crates/livestream-transport/src/rtsp/rtp.rs:65-137 | any other line, or 4096 bytes without a line end, comes out as it is |
| `Interleaved.ItemRead` | crates/livestream-transport/src/rtsp/rtp.rs:65-137 | an item printed is exactly the bytes it came from and respects all limits |
| `Interleaved.ItemFound` | crates/livestream-transport/src/rtsp/rtp.rs:65-137 | every valid frame, request or stray item is read back from its print |
| `Interleaved.ReadAllIsLossless` | crates/livestream-transport/src/rtsp/rtp.rs:65-82 | for every input, re-printing the items read gives exactly the consumed bytes |
| `Interleaved.ReadAllOfPrint` | crates/livestream-transport/src/rtsp/rtp.rs:65-82 | any list of valid items, printed, reads back as itself |
| `Interleaved.Reader.Next` | crates/livestream-transport/src/rtsp/rtp.rs:65-82 | the object returns the specified item and consumes exactly its bytes |
| `Interleaved.Reader.ReadRequestLine` | crates/livestream-transport/src/rtsp/rtp.rs:87-101 | line up to the first newline behind the first byte, or the 4096 byte cap |
| `Interleaved.Reader.ReadHeaders` | crates/livestream-transport/src/rtsp/rtp.rs:115-124 | headers up to the first blank line, or failure at 64 KiB |
| `Interleaved.Reader.ReadRequest` | crates/livestream-transport/src/rtsp/rtp.rs:114-137 | headers and the announced body within 64 KiB, or failure |
| `Interleaved.Reader.ReadFramePayload` | crates/livestream-transport/src/rtsp/rtp.rs:103-110 | the payload the 16-bit length announces, or failure |
| `TimestampRepair.RepairIsIncreasing` | crates/livestream-pipeline/src/processor/hls_segment.rs:341-349 | strictly increasing and never earlier than wanted |
| `TimestampRepair.RepairIsMinimal` | crates/livestream-pipeline/src/processor/hls_segment.rs:341-349 | pointwise least among all such sequences |
| `TimestampRepair.RepairClosedForm` | crates/livestream-pipeline/src/processor/hls_segment.rs:341-349 | the maximum of `last + 1 + i` and all `p_j + (i - j)` |
| `Playlist.PlaylistState.PushSegment` | crates/livestream-pipeline/src/processor/hls_segment.rs:132-141 | the popping loop makes room for one and counts removals |
| `Playlist.PlaylistState.constructor` | crates/livestream-pipeline/src/processor/hls_segment.rs:124-130 | empty, the size raised to at least 1 |
| `Playlist.WindowOfPushes` | crates/livestream-pipeline/src/processor/hls_segment.rs:124-141 | the window holds the last min(n, size) entries; media sequence = removals |
| `Playlist.TargetDurationCovers` | crates/livestream-pipeline/src/processor/hls_segment.rs:155-167 | the rendered target duration bounds every listed duration, also rounded, and is attained |
| `Playlist.RenderedWindow` | crates/livestream-pipeline/src/processor/hls_segment.rs:155-180 | what is rendered after any pushes: the last min(n, size) segments, the number of those gone, the end mark exactly when asked for, target 1 for an empty list |
| `HlsSegmenter.Segmenter.WritePacket` | crates/livestream-pipeline/src/processor/hls_segment.rs:316-357 | routing, repaired time, append, and every error exit |
| `HlsSegmenter.Segmenter.WritePacketOrReset` | crates/livestream-pipeline/src/processor/hls_segment.rs:411-472 | recovery from a failed write |
| `HlsSegmenter.Segmenter.DoRollover` | crates/livestream-pipeline/src/processor/hls_segment.rs:359-406 | the segment and the state left by each failing step |
| `HlsSegmenter.Segmenter.Process` | crates/livestream-pipeline/src/processor/hls_segment.rs:499-557 | cut decision before the write, playlist update, error exit |
| `HlsSegmenter.Segmenter.CutAt` | crates/livestream-pipeline/src/processor/hls_segment.rs:525-551 | rollover, restart at the packet, playlist entry and write, or the error exit |
| `HlsSegmenter.Segmenter.Close` | crates/livestream-pipeline/src/processor/hls_segment.rs:559-576 | the final segment and playlist; its duration is in `HlsRuns.FinalDuration` |
| `HlsRuns.EveryRunIsSafe` | crates/livestream-pipeline/src/processor/hls_segment.rs:499-557 | whatever fails: output is the routed input with some left out, numbers and times strictly increase, playlist lists the emitted segments |
| `HlsRuns.CleanRunIsExact` | crates/livestream-pipeline/src/processor/hls_segment.rs:499-557 | without failure, after every prefix: nothing lost, consecutive numbers, minimally repaired times |
| `HlsRuns.SegmentConservation` | crates/livestream-pipeline/src/processor/hls_segment.rs:559-576 | without failure the closed segments hold exactly the routed input in order, numbered 0, 1, ..., with 90 times the PTS as minimally repaired times |
| `HlsRuns.CutBoundary` | crates/livestream-pipeline/src/processor/hls_segment.rs:525-550 | a cutting packet is the first of its new segment |
| `HlsRuns.KeyframeRemembered` | crates/livestream-pipeline/src/processor/hls_segment.rs:510-536 | the keyframe flag survives cuts: it is set if and only if any keyframe went by |
| `HlsRuns.LaterCutsAreKeyframes` | crates/livestream-pipeline/src/processor/hls_segment.rs:510-523 | once a keyframe was seen every later cut is one |
| `HlsRuns.CutsExactly` | crates/livestream-pipeline/src/processor/hls_segment.rs:510-523 | a packet cuts if and only if its PTS lies the target behind the end of the emitted segments and it is a keyframe or none went by |
| `HlsRuns.DurationsTelescope` | crates/livestream-pipeline/src/processor/hls_segment.rs:200-215 | the segments of a run are not final, durations are at least the target and sum to the PTS distance from stream start to current segment start, packets without PTS included |
| `HlsRuns.FinalDuration` | crates/livestream-pipeline/src/processor/hls_segment.rs:559-576 | the final segment lasts from the end of the others to the last PTS, so that all durations add up to the stream, and 0 if that PTS is missing or further back; a close fails exactly with one of its three calls |
| `HlsRuns.RecoversAsNew` | crates/livestream-pipeline/src/processor/hls_segment.rs:408-419 | behind a failed write, whatever comes next gives the segments a new segmenter would give, with the numbers continued |
| `HlsRuns.PlaylistWindow` | crates/livestream-pipeline/src/processor/hls_segment.rs:538-543 | without failure entry k is segment mediaSequence + k of the last min(n, size), after every prefix |
| `HlsRuns.PlaylistNumbers` | crates/livestream-pipeline/src/processor/hls_segment.rs:368-395 | in every run the window shows the last emitted segments; numbers agree with the media sequence if and only if no failed rollover used one up before |
| `HlsRuns.FinalPlaylist` | crates/livestream-pipeline/src/processor/hls_segment.rs:559-568 | the same for the playlist `close` writes, whatever failed before |
| `HlsRuns.NumbersCounted` | crates/livestream-pipeline/src/processor/hls_segment.rs:368-395 | every number taken is an emitted segment or was used up by a failed rollover |
| `HlsRuns.FailedRolloverShiftsNumbers` | crates/livestream-pipeline/src/processor/hls_segment.rs:394-396 | the input that lists segment 1 under media sequence 0 |
| `FlvChannel.FlvLiveChannel.Broadcast` | crates/livestream-transport/src/flv/channel.rs:37-52 | slots keep the newest header of each kind of the whole log |
| `FlvChannel.FlvLiveChannel.Subscribe` | crates/livestream-transport/src/flv/channel.rs:53-66 | start position and newest headers in the order metadata, video, audio |
| `FlvChannel.Player.ShouldSkip` | crates/livestream-transport/src/play_keyframe.rs:14-29 | the skip decision and the flag |
| `FlvChannel.EveryRun` | crates/livestream-transport/src/flv/channel.rs:37-66 | every interleaving of cache, send, subscribe, cache reads, receive and lag keeps all invariants below |
| `FlvChannel.LateJoinerHasHeader` | crates/livestream-transport/src/flv/channel.rs:37-66 | every interleaving: a header sent before the subscription is cached or superseded by a newer one |
| `FlvChannel.LateJoinerConverges` | crates/livestream-transport/src/flv/channel.rs:53-66 | every interleaving: cached header, then all tags broadcast since, end in the newest header of each kind |
| `FlvChannel.LagRecovery` | crates/livestream-transport/src/http_flv/server.rs:179-205 | delivered tags are a subsequence without hidden video gap; only lags and the wait behind them lose tags |
| `FlvChannel.GroupIsComplete` | crates/livestream-transport/src/rtmp/handler/play.rs:88-112 | behind any delivered video tag all video tags were delivered back to a keyframe tag or the subscription |
| `FlvPlayback.RunGets` | crates/livestream-transport/src/http_flv/server.rs:185-204 | in every run without a lag, broadcasts interleaved, the player gets exactly the tags the skip rule lets through |
| `FlvPlayback.ResumesAtNextKey` | crates/livestream-transport/src/play_keyframe.rs:14-29 | in every run without a further lag, broadcasts interleaved: all other tags and no video up to the first keyframe tag, and every tag from there on |
| `FlvPlayback.ResumesWithPicture` | crates/livestream-transport/src/rtmp/handler/play.rs:88-112 | in every run without a further lag: exact deliveries, the first coded video behind the lag, and that it is a picture if and only if it is a keyframe |
| `FlvPlayback.HeaderEndsTheWait` | crates/livestream-transport/src/play_keyframe.rs:19-25 | a run on the 1024-slot ring in which the first coded video behind a lag is an inter frame |
| `FlvPlayback.PlayerUpToDate` | crates/livestream-transport/src/http_flv/server.rs:188-202 | every interleaving: which header the player works with, and that it is as new as the broadcast if and only if none was lost to a lag since |
| `FlvPlayback.LagLosesHeader` | crates/livestream-transport/src/http_flv/server.rs:196-200 | a run on the 1024-slot ring that loses a header for good |
| `Registry.SessionRegistry.RegisterSession` | crates/livestream-transport/src/registry/session.rs:36-71 | an occupied key is refused, a free one gets entry and task |
| `Registry.SessionRegistry.UpdateState` | crates/livestream-transport/src/registry/session.rs:128-161 | the new state of the descriptor under the key; a missing key or refused transition changes nothing |
| `Registry.SessionRegistry.CleanupMark` | crates/livestream-transport/src/registry/session.rs:59-64 | the descriptor is disconnected; states move forward and ownership is kept |
| `Registry.SessionRegistry.CleanupRemove` | crates/livestream-transport/src/registry/session.rs:66-67 | what sits under the key is removed, and that is exactly the entry this registration made |
| `Registry.TransitionIsForward` | crates/livestream-transport/src/registry/session.rs:137-159 | exactly the moves that do not go back are allowed, none out of Disconnected |
| `Registry.RemoveKeeps` | crates/livestream-transport/src/registry/session.rs:66-67 | a cleanup task removes exactly its own entry |
| `Registry.EveryRunOwned` | crates/livestream-transport/src/registry/session.rs:36-71 | every interleaving: one outstanding task per occupied key, descriptor states never go back |
| `Registry.OwnedFromStart` | crates/livestream-transport/src/registry/session.rs:36-71 | the same from an empty registry on, between any two moments |
| `Registry.WatchYieldsClimb` | crates/livestream-transport/src/grpc/server.rs:205-234 | strictly advancing states, at most four, ended exactly at Disconnected, in every run in which nothing behind the last report is registered under the key between two looks |
| `Registry.WatchEnds` | crates/livestream-transport/src/grpc/server.rs:373-385 | one more look ends the watch once the session is gone or disconnected |
| `Registry.WatchClimbsIff` | crates/livestream-transport/src/grpc/server.rs:373-385 | in every run of any registry reports advance if and only if no check reads a state behind the last one |
| `Registry.ReregisteredWatch` | crates/livestream-transport/src/grpc/server.rs:211-224 | for every round of registry steps, look, registry steps and check: states keep advancing if and only if the descriptor is not behind the last report at the check |
| `Registry.ReregisteredWatchFallsBack` | crates/livestream-transport/src/grpc/server.rs:211-214 | a run in which re-registration makes a watch report Connected and then Pending |
| `Registry.ReregisteredWatchCatchesUp` | crates/livestream-transport/src/grpc/server.rs:211-214 | a run in which the new session connects before the next look and nothing falls back |
| `FpsFilter.TranscodeState.ShouldKeepFrame` | crates/livestream-pipeline/src/processor/transcode.rs:222-247 | the decision and the slot for every configured rate, none at all, and the division by zero above 1000 |
| `FpsFilter.OutputSlotsIncrease` | crates/livestream-pipeline/src/processor/transcode.rs:176-247 | whichever encodes fail: output begins with the first frame the encoder takes, and output frames lie in strictly increasing slots |
| `FpsFilter.RateBound` | crates/livestream-pipeline/src/processor/transcode.rs:222-247 | for all PTS and encode failures no window of W ms holds more than ceil(W / interval) + 1 output frames |
| `FpsFilter.ConfiguredRate` | crates/livestream-pipeline/src/processor/transcode.rs:226-227 | the configured rate is kept in every window if and only if one frame lasts whole milliseconds |
| `FpsFilter.HighRateExceeded` | crates/livestream-pipeline/src/processor/transcode.rs:226-227 | 600 frames per second get slots of 1 ms and are not kept |
| `FpsFilter.SlowSourceLosesNone` | crates/livestream-pipeline/src/processor/transcode.rs:219-247 | frames at least one interval apart are all kept if and only if, once a frame was encoded, no two neighbours lie in the double-width slot around 0 |
| `FpsFilter.StraddlingSourceLosesOne` | crates/livestream-pipeline/src/processor/transcode.rs:227-236 | the input that loses a frame |
| `FpsFilter.EverySlotServed` | crates/livestream-pipeline/src/processor/transcode.rs:228-246 | a frame is dropped only when its slot or a later one was kept before |
| `FpsFilter.FpsToRational` | crates/livestream-pipeline/src/processor/transcode.rs:542-555 | the rate rounded to the nearest thousandth, at least one; Euclid's loop gives it in lowest terms, if and only if its numerator fits the 32 bits it is cast to |
| `RtspSession.RtspSession.HandleRequest` | crates/livestream-transport/src/rtsp/session.rs:52-74 | dispatch, status and new state of every method; the object is always where its history leads |
| `RtspSession.RtspSession.HandleAnnounce` | crates/livestream-transport/src/rtsp/session.rs:76-106 | accepted if and only if nothing was announced or torn down before and the body holds media; parameters and live id kept |
| `RtspSession.LiveIdIs` | crates/livestream-transport/src/rtsp/session.rs:94-101 | for every path, the live id is the last of the parts between its slashes that is neither empty nor a track name, none exactly when there is none |
| `RtspSession.RtspSession.HandleSetup` | crates/livestream-transport/src/rtsp/session.rs:108-140 | channel choice; accepted if and only if announced and neither recording nor torn down |
| `RtspSession.SetupChannel` | crates/livestream-transport/src/rtsp/session.rs:119-140 | channel 2 for a path with `track2` and no `track1` in it, otherwise 0 |
| `RtspSession.RtspSession.HandleRecord` | crates/livestream-transport/src/rtsp/session.rs:142-151 | accepted if and only if announced, then set up, and neither recording nor torn down |
| `RtspSession.EveryHistory` | crates/livestream-transport/src/rtsp/session.rs:52-151 | the state of every history, read off the requests in it |
| `RtspSession.RecordingIff` | crates/livestream-transport/src/rtsp/session.rs:52-151 | Recording if and only if the history holds ANNOUNCE, then SETUP, then RECORD and no TEARDOWN; parameters, not empty, and live id of the first ANNOUNCE |
| `RtspSession.TeardownIsFinal` | crates/livestream-transport/src/rtsp/session.rs:68-71 | TEARDOWN is absorbing |
| `DeferredHls.RecordSequenceHeader` | crates/livestream-pipeline/src/factory.rs:387-404 | the first usable parameters of each type are kept |
| `DeferredHls.RecordParams` | crates/livestream-pipeline/src/factory.rs:408-427 | an avcC record, carried as extradata or else as data, becomes SPS then PPS |
| `DeferredHls.OtherParams` | crates/livestream-pipeline/src/factory.rs:408-427 | other codecs keep their bytes and get their media type; no parameters exactly when a header carries nothing |
| `DeferredHls.FirstUsableIs` | crates/livestream-pipeline/src/factory.rs:387-404 | the parameters kept are those of the first header of the type that carries anything |
| `DeferredHls.TriggersIff` | crates/livestream-pipeline/src/factory.rs:319-383 | the build starts with a header once both types were announced, with any other packet as soon as one was |
| `DeferredHls.DeferredInit` | crates/livestream-pipeline/src/factory.rs:319-383 | one build, at the first trigger, with the first usable video then audio header up to it |

## Left out

- FFmpeg wrappers (decoder, encoder, scaler, contexts, `FlvTagPacketizer`): foreign code; the TS muxer is the list of packets written to it.
- Sockets, the RTMP handshake and session library, gRPC plumbing, HTTP routes, object upload, telemetry and configuration loading: input and output.
- Contents of script tags: AMF0 is a library, here a pair of functions; round trips of script tags assume it reads back what it wrote.
- Media lines of the SDP and the text of the Content-Length header: string handling; what they yield is a parameter, so the theorems hold for whatever they find.
- Playlist text: `Render` gives the numbers and the listed entries, not the lines; a segment's file name is its number.
- Reading RTSP messages before recording, and fan-out to output pads: only easy statements hold of them.
- Wall-clock times (session lifetime, grace period, polling interval): every delay is an arbitrary interleaving.
- Overflow of 64-bit timestamps and sizes, and rounding of floating-point durations and frame rates: values are exact numbers.
- Encoder creation and recalibration in the transcoder, and the PTS made up for frames without one: the filter is modelled on the PTS it is given.
- The mutex-protected sections of `FlvChannel` and `Registry` are steps on values so that they can interleave; the classes there give the sequential effect of the calls.
- The FLV file header, the poisoned-lock exits of the packet queue and the interleaved reader's reusable buffer.
- HEVC bodies: the muxer arms length prefixes for H.264 only, so the relay identity is stated for H.264.
- FpsFilter.ConfiguredRate: computes with exact real numbers, because the rounding of 1000.0 / fps in floating point is not the point.
- FpsFilter.FpsToRational: does not model the saturation of a rate beyond 64 bits.
- RtspSession.RtspSession.HandleAnnounce: takes the media descriptions found in the body as given and models the refusal of a body without any, because reading them is string handling.
