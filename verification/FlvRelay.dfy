/** From an RTMP frame to an FLV tag: the ingest conversion of RtmpSource followed by FlvMux. */
module FlvRelay {
  import opened Bytes
  import opened Media
  import opened AnnexB
  import opened FlvTag
  import AvcConfig

  // ------------------------------------------------------------------ RtmpSource

  /** A frame as the RTMP session hands it over. */
  datatype RawFrame = RawFrame(data: bytes, timestamp: u32, isVideo: bool, isAudio: bool, isScriptData: bool)

  /** The composition time in bytes 2-4, a signed 24-bit number. */
  function ExtractCts(data: bytes): (cts: Option<int>)
  {
    if |data| < 5 then None
    else
      var raw := FromBe(data[2..5]);
      Some(if raw >= 0x80_0000 then raw - 0x100_0000 else raw)
  }

  function Cts(data: bytes): (cts: int)
  {
    match ExtractCts(data)
    case None => 0
    case Some(c) => c
  }

  /** What follows the five header bytes of a video tag body. */
  function VideoBody(data: bytes): (body: bytes)
  {
    if |data| > 5 then data[5..] else []
  }

  function VideoCodec(first: byte): (c: Option<Codec>)
  {
    if first % 16 == 7 then Some(H264) else if first % 16 == 12 then Some(H265) else None
  }

  function ConvertVideo(data: bytes, ptsMs: int): (r: Option<EncodedPacket>)
    requires |data| >= 2
  {
    match VideoCodec(data[0])
    case None => None
    case Some(codec) =>
      var isHeader := data[1] == 0;
      var raw := VideoBody(data);
      var codecData := if !isHeader && raw != [] then PrintLong(AvccNals(raw)) else raw;
      Some(EncodedPacket(
             codec, codecData, Some(ptsMs), Some(ptsMs - Cts(data)), data[0] / 16 == 1, isHeader,
             if isHeader && codecData != [] then Some(codecData) else None))
  }

  function ConvertAudio(data: bytes, ptsMs: int): (r: EncodedPacket)
  {
    var isHeader := IsAudioSeqHeader(data);
    EncodedPacket(Aac, if |data| > 2 then data[2..] else [], Some(ptsMs), None, false, isHeader, None)
  }

  function Convert(frame: RawFrame): (r: Option<EncodedPacket>)
  {
    if frame.isScriptData || frame.data == [] then None
    else if frame.isVideo && |frame.data| >= 2 then ConvertVideo(frame.data, frame.timestamp)
    else if frame.isAudio then Some(ConvertAudio(frame.data, frame.timestamp))
    else None
  }

  // ---------------------------------------------------------------------- FlvMux

  /** NAL framing of a media tag: length prefixes once an avcC header armed them. */
  function Framed(armed: bool, data: bytes): (r: bytes)
  {
    if armed then PrintAvcc(Nals(data)) else data
  }

  predicate Arms(pkt: EncodedPacket)
  {
    && pkt.isSequenceHeader && pkt.codec == H264
    && pkt.extradata.Some? && pkt.extradata.value != [] && pkt.extradata.value[0] == 1
  }

  function UnwrapOr(t: Option<int>, default: int): (r: int)
  {
    if t.Some? then t.value else default
  }

  function PtsOf(pkt: EncodedPacket): (t: nat)
  {
    Max(UnwrapOr(pkt.ptsMs, 0), 0)
  }

  function DtsOf(pkt: EncodedPacket): (t: nat)
  {
    Max(UnwrapOr(pkt.dtsMs, PtsOf(pkt)), 0)
  }

  /** CompositionTime: PTS - DTS, saturated to 0..0xFFFFFF. */
  function CompositionTime(pkt: EncodedPacket): (t: nat)
  {
    Min(Max(PtsOf(pkt) - DtsOf(pkt), 0), 0xFF_FFFF)
  }

  /** What follows the header bytes: the record of a sequence header, or the NAL units. */
  function Content(armed: bool, pkt: EncodedPacket): (c: bytes)
  {
    if !pkt.isSequenceHeader then Framed(armed, pkt.data)
    else if pkt.extradata.Some? then pkt.extradata.value
    else []
  }

  function FirstByte(pkt: EncodedPacket): (b: byte)
  {
    (if pkt.isKeyframe then 16 else 32) + (if pkt.codec == H265 then 12 else 7)
  }

  function VideoPayload(armed: bool, pkt: EncodedPacket): (p: bytes)
  {
    [FirstByte(pkt), if pkt.isSequenceHeader then 0 else 1]
    + Be(3, if pkt.isSequenceHeader then 0 else CompositionTime(pkt))
    + Content(armed, pkt)
  }

  function VideoOut(armed: bool, pkt: EncodedPacket): (t: Tag)
  {
    MakeVideo(Min(DtsOf(pkt), U32_MAX), VideoPayload(armed || Arms(pkt), pkt))
  }

  function AudioOut(pkt: EncodedPacket): (t: Tag)
  {
    AudioTag(Min(PtsOf(pkt), U32_MAX), [0xAF, if pkt.isSequenceHeader then 0 else 1] + pkt.data)
  }

  /** The tag made of a packet; codecs FLV cannot carry are dropped. */
  function Muxed(armed: bool, pkt: EncodedPacket): (r: Option<Tag>)
  {
    match pkt.codec
    case H264 => Some(VideoOut(armed, pkt))
    case H265 => Some(VideoOut(armed, pkt))
    case Aac => Some(AudioOut(pkt))
    case _ => None
  }

  /** `FlvMux`: the framing flag is set by an avcC sequence header and never cleared. */
  class FlvMux {
    var avccFraming: bool

    constructor ()
      ensures !avccFraming
    {
      avccFraming := false;
    }

    method AnnexBToAvcc(data: bytes) returns (out: bytes)
      ensures out == Framed(avccFraming, data)
    {
      if !avccFraming {
        return data;
      }
      out := [];
      var nals := SplitAnnexB(data);
      assert nals[0..] == nals;
      for i := 0 to |nals|
        invariant out + PrintAvcc(nals[i..]) == PrintAvcc(nals)
      {
        Assoc(out, Be(4, |nals[i]|), nals[i]);
        Assoc(out, Be(4, |nals[i]|) + nals[i], PrintAvcc(nals[i + 1..]));
        out := out + Be(4, |nals[i]|);
        out := out + nals[i];
      }
    }

    method Process(pkt: EncodedPacket) returns (tags: seq<Tag>)
      modifies this
      ensures avccFraming == (old(avccFraming) || Arms(pkt))
      ensures tags == match Muxed(old(avccFraming), pkt) { case None => [] case Some(t) => [t] }
    {
      if pkt.codec == H264 || pkt.codec == H265 {
        var t := MuxVideo(pkt);
        tags := [t];
      } else if pkt.codec == Aac {
        tags := [AudioOut(pkt)];
      } else {
        tags := [];
      }
    }

    method MuxVideo(pkt: EncodedPacket) returns (tag: Tag)
      modifies this
      ensures avccFraming == (old(avccFraming) || Arms(pkt))
      ensures tag == VideoOut(old(avccFraming), pkt)
    {
      var timestamp, compositionTime := Times(pkt);
      var payload := MakeContent(pkt);
      var frameType: byte := if pkt.isKeyframe then 1 else 2;
      var codecId: byte := if pkt.codec == H265 then 12 else 7;
      if pkt.isSequenceHeader {
        compositionTime := 0;
      }
      var body := TagBody(frameType * 16 + codecId, pkt.isSequenceHeader, compositionTime, payload);
      tag := MakeVideo(timestamp, body);
    }

    /** Timestamp and CompositionTime, with the saturations written out. */
    method Times(pkt: EncodedPacket) returns (timestamp: u32, compositionTime: nat)
      ensures timestamp == Min(DtsOf(pkt), U32_MAX)
      ensures compositionTime == CompositionTime(pkt)
    {
      var pts: nat := if pkt.ptsMs.Some? && pkt.ptsMs.value > 0 then pkt.ptsMs.value else 0;
      var dts: nat := if pkt.dtsMs.None? then pts else if pkt.dtsMs.value > 0 then pkt.dtsMs.value else 0;
      timestamp := if dts < U32_MAX then dts else U32_MAX;
      compositionTime := if pts < dts then 0 else if pts - dts < 0xFF_FFFF then pts - dts else 0xFF_FFFF;
    }

    method MakeContent(pkt: EncodedPacket) returns (content: bytes)
      modifies this
      ensures avccFraming == (old(avccFraming) || Arms(pkt))
      ensures content == Content(avccFraming, pkt)
    {
      if pkt.isSequenceHeader {
        if Arms(pkt) {
          avccFraming := true;
        }
        content := if pkt.extradata.Some? then pkt.extradata.value else [];
      } else {
        content := AnnexBToAvcc(pkt.data);
      }
    }

    /** The five header bytes, appended one field after the other, and the payload. */
    method TagBody(first: byte, isHeader: bool, compositionTime: nat, payload: bytes) returns (body: bytes)
      ensures body == [first, if isHeader then 0 else 1] + Be(3, compositionTime) + payload
    {
      body := [first];
      if isHeader {
        body := body + [0];
      } else {
        body := body + [1];
      }
      body := PutU24(body, compositionTime);
      body := body + payload;
    }
  }

  // ------------------------------------------------------ the framing round trips

  /** Annex B normal form: to AVCC, back to Annex B and split again, the NAL list is
      unchanged, whatever mix of start codes came in. */
  lemma AnnexBNormalForm(data: bytes)
    requires Fit(Nals(data))
    ensures AvccNals(PrintAvcc(Nals(data))) == Nals(data)
    ensures Nals(PrintLong(AvccNals(PrintAvcc(Nals(data))))) == Nals(data)
  {
    NalsAreFree(data);
    AvccNalsOfPrint(Nals(data));
    NalsOfPrintLong(Nals(data));
    AllPiecesOfFree(Nals(data));
  }

  /** The body of an H.264 media tag after source and armed muxer. */
  function RelayedBody(body: bytes): (r: bytes)
  {
    PrintAvcc(Nals(PrintLong(AvccNals(body))))
  }

  lemma PiecesFit(nal: bytes)
    requires |nal| < 0x1_0000_0000
    ensures Fit(Pieces(nal)) && AllFree(Pieces(nal))
  {
    var s := Scan([], nal);
    PrintOfScan([], nal);
    ScanIsCanonical([], nal);
    CanonicalNals(s.head, s.units);
    PieceSizes(s.units);
  }

  lemma {:induction false} AllPiecesFit(nals: seq<bytes>)
    requires Fit(nals)
    ensures Fit(AllPieces(nals)) && AllFree(AllPieces(nals))
  {
    if nals != [] {
      PiecesFit(nals[0]);
      AllPiecesFit(nals[1..]);
    }
  }

  lemma {:induction false} PieceSizes(units: seq<Unit>)
    ensures forall i :: 0 <= i < |units| ==> |units[i].nal| <= |PrintUnits(units)|
  {
    if units != [] {
      PieceSizes(units[1..]);
    }
  }

  /** What the relay does to any body at all: each NAL is cut into its start-code-free pieces. */
  lemma RelayedBodyIs(body: bytes)
    ensures RelayedBody(body) == PrintAvcc(AllPieces(AvccNals(body)))
  {
    NalsOfPrintLong(AvccNals(body));
  }

  /** The relay leaves a body unchanged exactly when it is a sequence of whole
      length-prefixed NALs with no start code inside a NAL. */
  lemma RelayedBodyIdentity(body: bytes)
    ensures RelayedBody(body) == body <==> WellFramed(body)
  {
    var nals := AvccNals(body);
    RelayedBodyIs(body);
    AvccNalsFit(body);
    AllPiecesFit(nals);
    if WellFramed(body) {
      WellFramedIsPrinted(body);
      AllPiecesOfFree(nals);
    } else if RelayedBody(body) == body {
      WellFramedPrint(AllPieces(nals));
    }
  }

  /** Transcoded streams: the synthesized header arms the muxer and announces exactly the
      4-byte lengths the muxer then writes, with profile, compatibility and level taken from
      the SPS; media tags behind it list the encoder's NAL units. */
  lemma TranscodedStream(armed: bool, sps: bytes, pps: bytes, pkt: EncodedPacket)
    requires |sps| >= 4 && !pkt.isSequenceHeader && Fit(Nals(pkt.data))
    ensures var header := AvcConfig.HeaderPacket(sps, pps);
            var record := VideoOut(armed, header).payload[5..];
            && Arms(header)
            && header.isKeyframe && header.ptsMs.None? && header.dtsMs.None?
            && record == AvcConfig.BuildAvcc(sps, pps)
            && record[4] % 4 + 1 == 4
            && record[1..4] == sps[1..4]
    ensures AvccNals(VideoOut(true, pkt).payload[5..]) == Nals(pkt.data)
  {
    VideoOutFields(armed, AvcConfig.HeaderPacket(sps, pps));
    VideoOutFields(true, pkt);
    AnnexBNormalForm(pkt.data);
    AvcConfig.RecordStart(sps[1..4], AvcConfig.Pair(sps, pps));
  }

  // -------------------------------------------------------------- the whole relay

  /** One frame through source and muxer. */
  function Relay(armed: bool, frame: RawFrame): (r: (bool, Option<Tag>))
  {
    match Convert(frame)
    case None => (armed, None)
    case Some(pkt) => (armed || Arms(pkt), Muxed(armed, pkt))
  }

  predicate IsAvcFrame(frame: RawFrame)
  {
    !frame.isScriptData && frame.isVideo && |frame.data| >= 2 && frame.data[0] % 16 == 7
  }

  /** An H.264 sequence header that carries an avcC record. */
  predicate IsAvccHeader(frame: RawFrame)
  {
    IsAvcFrame(frame) && frame.data[1] == 0 && |frame.data| > 5 && frame.data[5] == 1
  }

  predicate IsAvcMedia(frame: RawFrame)
  {
    IsAvcFrame(frame) && frame.data[1] != 0
  }

  lemma VideoOutFields(armed: bool, pkt: EncodedPacket)
    ensures var t := VideoOut(armed, pkt);
            && |t.payload| >= 5
            && t.payload[5..] == Content(armed || Arms(pkt), pkt)
            && t.payload[2..5] == Be(3, if pkt.isSequenceHeader then 0 else CompositionTime(pkt))
  {
  }

  /** A frame the source takes for H.264 or H.265 video. */
  predicate IsVideoFrame(frame: RawFrame)
  {
    !frame.isScriptData && frame.isVideo && |frame.data| >= 2 && frame.data[0] % 16 in {7, 12}
  }

  /** Media tags: keyframe flag and codec in byte 0, packet type 1, and the exact new body. An
      armed muxer writes length prefixes, any other the start codes the source made. */
  lemma MediaBody(armed: bool, frame: RawFrame)
    requires IsVideoFrame(frame) && frame.data[1] != 0
    ensures var out := Relay(armed, frame).1;
            && out.Some? && out.value.VideoTag? && |out.value.payload| >= 5
            && out.value.payload[0] == (if frame.data[0] / 16 == 1 then 0x10 else 0x20) + frame.data[0] % 16
            && out.value.payload[1] == 1
            && out.value.payload[5..] == (if armed then RelayedBody(VideoBody(frame.data))
                                          else PrintLong(AvccNals(VideoBody(frame.data))))
            && VideoBody(frame.data) == frame.data[Min(5, |frame.data|)..]
    ensures Relay(armed, frame).0 == armed
  {
    var pkt := Convert(frame).value;
    VideoOutFields(armed, pkt);
    assert frame.data[|frame.data|..] == [];
    if VideoBody(frame.data) == [] {
      assert PrintLong(AvccNals([])) == [];
    }
  }

  /** Sequence headers pass their record through unchanged, with packet type and composition time
      0, whatever the muxer does to media; an H.264 one arms it exactly when its record begins
      with 1. */
  lemma HeaderBody(armed: bool, frame: RawFrame)
    requires IsVideoFrame(frame) && frame.data[1] == 0
    ensures var out := Relay(armed, frame).1;
            && out.Some? && out.value.VideoTag? && |out.value.payload| >= 5
            && out.value.payload[0] == (if frame.data[0] / 16 == 1 then 0x10 else 0x20) + frame.data[0] % 16
            && out.value.payload[1..5] == [0, 0, 0, 0]
            && out.value.payload[5..] == frame.data[Min(5, |frame.data|)..]
    ensures Relay(armed, frame).0
            <==> armed || (frame.data[0] % 16 == 7 && |frame.data| > 5 && frame.data[5] == 1)
  {
    VideoOutFields(armed, Convert(frame).value);
    ThreeZeros();
    assert frame.data[|frame.data|..] == [];
    assert Relay(armed, frame).1.value.payload[1] == 0;
  }

  /** Decode time and composition time of media tags. A composition time that is not negative is
      kept and taken off the timestamp, except that a time before 0 becomes 0 and the composition
      time shrinks with it; a negative one is added to the timestamp and lost. */
  lemma DecodeTime(armed: bool, frame: RawFrame)
    requires IsVideoFrame(frame) && frame.data[1] != 0
    ensures var out := Relay(armed, frame).1;
            && out.Some? && out.value.VideoTag? && |out.value.payload| >= 5
            && TimesAre(frame, out.value.timestamp, out.value.payload[2..5])
  {
    var c := Cts(frame.data);
    assert Relay(armed, frame).1 == Some(VideoOut(armed, Convert(frame).value));
    assert c < 0x80_0000 by {
      if |frame.data| >= 5 { FromThree(frame.data[2..5]); }
    }
    PacketTimes(armed, Convert(frame).value, frame.timestamp, c);
    TimesByCases(frame, VideoOut(armed, Convert(frame).value).timestamp, c);
  }

  lemma TimesByCases(frame: RawFrame, time: u32, c: int)
    requires c == Cts(frame.data)
    requires time == (if c < 0 then Min(frame.timestamp - c, U32_MAX)
                      else if c <= frame.timestamp then frame.timestamp - c else 0)
    ensures TimesAre(frame, time, Be(3, if c < 0 then 0 else Min(c, frame.timestamp)))
  {
    ThreeZeros();
    if |frame.data| >= 5 {
      FromThree(frame.data[2..5]);
      BeOfFromBe(frame.data[2..5]);
    }
  }

  lemma PacketTimes(armed: bool, pkt: EncodedPacket, t: u32, c: int)
    requires pkt.ptsMs == Some(t) && pkt.dtsMs == Some(t - c) && !pkt.isSequenceHeader && c < 0x80_0000
    ensures var out := VideoOut(armed, pkt);
            && |out.payload| >= 5
            && out.timestamp == (if c < 0 then Min(t - c, U32_MAX) else if c <= t then t - c else 0)
            && out.payload[2..5] == Be(3, if c < 0 then 0 else Min(c, t))
  {
    VideoOutFields(armed, pkt);
  }

  predicate TimesAre(frame: RawFrame, time: u32, cts: bytes)
  {
    if |frame.data| < 5 then time == frame.timestamp && cts == [0, 0, 0]
    else
      var raw := FromBe(frame.data[2..5]);
      if frame.data[2] >= 128 then time == Min(frame.timestamp + (0x100_0000 - raw), U32_MAX) && cts == [0, 0, 0]
      else if raw <= frame.timestamp then time == frame.timestamp - raw && cts == frame.data[2..5]
      else time == 0 && cts == Be(3, frame.timestamp)
  }

  /** Presentation time through the relay: outgoing timestamp plus composition time is the
      incoming timestamp exactly when the incoming composition time is not negative, or the
      timestamp already sits at the 32-bit maximum. */
  lemma PresentationTime(armed: bool, frame: RawFrame)
    requires IsAvcMedia(frame)
    ensures var out := Relay(armed, frame).1;
            && out.Some? && out.value.VideoTag? && |out.value.payload| >= 5
            && (out.value.timestamp + FromBe(out.value.payload[2..5]) == frame.timestamp
                <==> Cts(frame.data) >= 0 || frame.timestamp == U32_MAX)
  {
    var pkt := Convert(frame).value;
    VideoOutFields(armed, pkt);
    Capacities();
    FromBeOfBe(3, CompositionTime(pkt));
    assert |frame.data| >= 5 ==> FromBe(frame.data[2..5]) < Capacity(3);
  }

  /** A negative composition time moves the presentation time: 1000 ms with CTS -1 becomes 1001. */
  lemma NegativeCtsShiftsTime()
    ensures var frame := RawFrame([0x27, 1, 0xFF, 0xFF, 0xFF], 1000, true, false, false);
            var out := Relay(true, frame).1;
            out.Some? && out.value.VideoTag? && out.value.timestamp == 1001
  {
    var data: bytes := [0x27, 1, 0xFF, 0xFF, 0xFF];
    assert data[2..5] == [0xFF, 0xFF, 0xFF];
    assert data[2..5][..2] == [0xFF, 0xFF] && [0xFF, 0xFF][..1] == [0xFF];
    assert FromBe([0xFF]) == 0xFF && FromBe([0xFF, 0xFF]) == 0xFFFF;
    assert FromBe(data[2..5]) == 0xFF_FFFF;
  }

  /** Audio frames keep their time, everything behind their two header bytes and whether they
      are a sequence header; the tag is identical exactly for the header bytes FlvMux writes. */
  lemma AudioRelay(armed: bool, frame: RawFrame)
    requires !frame.isScriptData && frame.isAudio && frame.data != []
    requires frame.isVideo ==> |frame.data| < 2
    ensures var r := Relay(armed, frame);
            && r.0 == armed
            && r.1.Some? && r.1.value.AudioTag? && |r.1.value.payload| >= 2
            && r.1.value.timestamp == frame.timestamp
            && r.1.value.payload[2..] == (if |frame.data| > 2 then frame.data[2..] else [])
            && (IsAudioSeqHeader(frame.data) <==> IsAudioSeqHeader(r.1.value.payload))
            && (r.1.value.payload == frame.data
                <==> |frame.data| >= 2 && frame.data[0] == 0xAF && frame.data[1] <= 1)
  {
    var payload := Relay(armed, frame).1.value.payload;
    assert payload[2..] == if |frame.data| > 2 then frame.data[2..] else [];
    if |frame.data| >= 2 {
      assert frame.data == [frame.data[0], frame.data[1]] + frame.data[2..];
      assert payload == [payload[0], payload[1]] + frame.data[2..];
    }
  }

  /** What other consumers see of a frame: the PTS is the timestamp, audio is never a keyframe, and
      extradata comes with video headers only, as the record behind their five header bytes. */
  lemma ConvertedPacket(frame: RawFrame)
    requires Convert(frame).Some?
    ensures var pkt := Convert(frame).value;
            && pkt.ptsMs == Some(frame.timestamp)
            && (pkt.codec == Aac ==> !pkt.isKeyframe && pkt.dtsMs.None?)
            && (pkt.extradata.Some? <==> pkt.codec != Aac && pkt.isSequenceHeader && |frame.data| > 5)
            && (pkt.extradata.Some? ==> pkt.extradata.value == frame.data[5..])
  {
  }

  /** Exactly these frames leave no tag: script data, empty ones, video that is neither H.264 nor
      H.265, and what is too short for video or neither video nor audio. */
  lemma DroppedFrames(armed: bool, frame: RawFrame)
    ensures Relay(armed, frame).1.None?
            <==> || frame.isScriptData || frame.data == []
                 || (if frame.isVideo && |frame.data| >= 2 then frame.data[0] % 16 !in {7, 12} else !frame.isAudio)
    ensures Relay(armed, frame).1.None? ==> Relay(armed, frame).0 == armed
  {
  }

  /** Every tag the muxer makes is classified as the packet was: headers are cached and keyframes
      end a wait for H.264 and H.265 alike. Other codecs make none. */
  lemma TagsAreClassified(armed: bool, pkt: EncodedPacket)
    ensures var t := Muxed(armed, pkt);
            && (t.Some? <==> pkt.codec in {H264, H265, Aac})
            && (t.Some? ==>
                  && (if pkt.codec == Aac then t.value.AudioTag? else t.value.VideoTag?)
                  && (IsSequenceHeader(t.value) <==> pkt.isSequenceHeader)
                  && (t.value.VideoTag? ==> (t.value.isKeyframe <==> pkt.isKeyframe)))
  {
    TagHeaders(0, if pkt.isKeyframe then 1 else 2, if pkt.codec == H265 then 12 else 7,
               if pkt.isSequenceHeader then 0 else 1, []);
  }

  /** Times of any media packet: the tag is stamped with the DTS, or the PTS where there is none,
      and the composition time leads from there to the PTS as far as 24 bits allow. */
  lemma MuxedTimes(armed: bool, pkt: EncodedPacket, pts: u32, dts: u32)
    requires !pkt.isSequenceHeader
    ensures var out := VideoOut(armed, pkt);
            && |out.payload| >= 5
            && (pkt.ptsMs == Some(pts) && pkt.dtsMs == Some(dts) ==>
                  && out.timestamp == dts
                  && FromBe(out.payload[2..5]) == (if pts < dts then 0
                                                   else if pts - dts > 0xFF_FFFF then 0xFF_FFFF else pts - dts))
            && (pkt.ptsMs == Some(pts) && pkt.dtsMs == None ==>
                  out.timestamp == pts && FromBe(out.payload[2..5]) == 0)
            && (pkt.ptsMs == None && pkt.dtsMs == None ==> out.timestamp == 0 && FromBe(out.payload[2..5]) == 0)
  {
    VideoOutFields(armed, pkt);
    Capacities();
    FromBeOfBe(3, CompositionTime(pkt));
  }

  // ------------------------------------------------------------------- whole runs

  /** The framing flag after a run of frames. */
  function ArmedAfter(armed: bool, frames: seq<RawFrame>): (r: bool)
    decreases |frames|
  {
    if frames == [] then armed else ArmedAfter(Relay(armed, frames[0]).0, frames[1..])
  }

  /** The tags of a run, one optional tag per frame. */
  function RelayRun(armed: bool, frames: seq<RawFrame>): (r: seq<Option<Tag>>)
    ensures |r| == |frames|
    decreases |frames|
  {
    if frames == [] then []
    else [Relay(armed, frames[0]).1] + RelayRun(Relay(armed, frames[0]).0, frames[1..])
  }

  lemma {:induction false} RunAt(armed: bool, frames: seq<RawFrame>, k: nat)
    requires k < |frames|
    ensures RelayRun(armed, frames)[k] == Relay(ArmedAfter(armed, frames[..k]), frames[k]).1
    ensures ArmedAfter(armed, frames[..k + 1]) == Relay(ArmedAfter(armed, frames[..k]), frames[k]).0
    decreases k
  {
    var next := Relay(armed, frames[0]).0;
    if k > 0 {
      RunAt(next, frames[1..], k - 1);
      TakeOfDrop(frames, k - 1);
      TakeOfDrop(frames, k);
    } else {
      assert frames[..1][1..] == [] && frames[..1][0] == frames[0];
    }
  }

  lemma {:induction false} ArmedStays(armed: bool, frames: seq<RawFrame>, i: nat, j: nat)
    requires i <= j <= |frames| && ArmedAfter(armed, frames[..i])
    ensures ArmedAfter(armed, frames[..j])
    decreases j - i
  {
    if i < j {
      RunAt(armed, frames, i);
      ArmedStays(armed, frames, i + 1, j);
    }
  }

  /** H.264 relay identity, for every run: once an avcC header has gone by, every later H.264
      media frame leaves with its body unchanged exactly when that body is well framed. */
  lemma RelayIdentity(armed: bool, frames: seq<RawFrame>, i: nat, j: nat)
    requires i < j < |frames| && IsAvccHeader(frames[i]) && IsAvcMedia(frames[j])
    ensures var out := RelayRun(armed, frames)[j];
            && out.Some? && out.value.VideoTag? && |out.value.payload| >= 5
            && (out.value.payload[5..] == VideoBody(frames[j].data)
                <==> WellFramed(VideoBody(frames[j].data)))
  {
    RunAt(armed, frames, i);
    assert Relay(ArmedAfter(armed, frames[..i]), frames[i]).0;
    ArmedStays(armed, frames, i + 1, j);
    RunAt(armed, frames, j);
    MediaBody(true, frames[j]);
    RelayedBodyIdentity(VideoBody(frames[j].data));
  }
}
