/** Deferred start of the HLS branch: collect codec parameters from sequence headers, build once. */
module DeferredHls {
  import opened Bytes
  import opened Media
  import opened AvcConfig

  function TypeOf(codec: Codec): (t: MediaType)
  {
    match codec
    case H264 => Video
    case H265 => Video
    case Av1 => Video
    case Mjpeg => Video
    case Aac => Audio
    case Mp3 => Audio
    case Opus => Audio
  }

  /** The initialization bytes of a header: its extradata, or else its data. */
  function InitBytes(pkt: EncodedPacket): (r: Option<bytes>)
  {
    if pkt.extradata.Some? && pkt.extradata.value != [] then pkt.extradata
    else if pkt.data != [] then Some(pkt.data)
    else None
  }

  /** `codec_params_from_sequence_header`. */
  function ParamsOf(pkt: EncodedPacket): (r: Option<CodecParams>)
  {
    match InitBytes(pkt)
    case None => None
    case Some(init) =>
      Some(CodecParams(pkt.codec, TypeOf(pkt.codec), 90000, Some(HlsExtradata(pkt.codec, init))))
  }

  /** The header carries `init`: as its extradata, or as its data when that is missing or empty. */
  predicate Carries(pkt: EncodedPacket, init: bytes)
  {
    init != [] && (pkt.extradata == Some(init) || (pkt.extradata in {None, Some([])} && pkt.data == init))
  }

  /** An avcC record turns into its parameter sets, SPS before PPS, wherever it is carried. */
  lemma RecordParams(pkt: EncodedPacket, r: Record)
    requires ValidRecord(r) && pkt.codec == H264 && Carries(pkt, PrintRecord(r))
    ensures ParamsOf(pkt) == Some(CodecParams(H264, Video, 90000, Some(Concat(r.sps) + Concat(r.pps))))
  {
    ReaderInvertsRecord(r);
  }

  /** Any other codec keeps its bytes; only a header that carries nothing gives no parameters. */
  lemma OtherParams(pkt: EncodedPacket, init: bytes)
    ensures pkt.codec != H264 && Carries(pkt, init) ==>
              ParamsOf(pkt) == Some(CodecParams(pkt.codec, if pkt.codec in {Aac, Mp3, Opus} then Audio else Video,
                                                90000, Some(init)))
    ensures ParamsOf(pkt).None? <==> pkt.extradata in {None, Some([])} && pkt.data == []
  {
    assert pkt.extradata.Some? && pkt.extradata.value == [] ==> pkt.extradata == Some([]);
  }

  predicate Usable(pkt: EncodedPacket, t: MediaType)
  {
    pkt.isSequenceHeader && TypeOf(pkt.codec) == t && ParamsOf(pkt).Some?
  }

  /** Parameters of the first usable header of a media type. */
  function FirstUsable(pkts: seq<EncodedPacket>, t: MediaType): (r: Option<CodecParams>)
  {
    if pkts == [] then None
    else if Usable(pkts[0], t) then ParamsOf(pkts[0])
    else FirstUsable(pkts[1..], t)
  }

  lemma {:induction false} FirstUsableSnoc(pkts: seq<EncodedPacket>, p: EncodedPacket, t: MediaType)
    ensures FirstUsable(pkts + [p], t)
            == if FirstUsable(pkts, t).Some? then FirstUsable(pkts, t)
               else if Usable(p, t) then ParamsOf(p) else None
  {
    if pkts == [] {
      assert pkts + [p] == [p] && [p][1..] == [];
    } else {
      FirstUsableSnoc(pkts[1..], p, t);
      assert (pkts + [p])[1..] == pkts[1..] + [p];
    }
  }

  /** Packet `i` starts the build: a header that completes both types, or a media packet
      with at least one type known before it. */
  predicate Triggers(pkts: seq<EncodedPacket>, i: nat)
    requires i < |pkts|
  {
    if pkts[i].isSequenceHeader
    then FirstUsable(pkts[..i + 1], Video).Some? && FirstUsable(pkts[..i + 1], Audio).Some?
    else FirstUsable(pkts[..i], Video).Some? || FirstUsable(pkts[..i], Audio).Some?
  }

  /** A sequence header of type `t` that carries anything. */
  predicate IsHeaderOf(t: MediaType, pkt: EncodedPacket)
  {
    && pkt.isSequenceHeader && (pkt.data != [] || pkt.extradata !in {None, Some([])})
    && (t == Audio <==> pkt.codec in {Aac, Mp3, Opus})
  }

  ghost predicate Announced(t: MediaType, pkts: seq<EncodedPacket>)
  {
    exists i :: 0 <= i < |pkts| && IsHeaderOf(t, pkts[i])
  }

  lemma UsableIs(pkt: EncodedPacket, t: MediaType)
    ensures Usable(pkt, t) <==> IsHeaderOf(t, pkt)
  {
    OtherParams(pkt, []);
  }

  /** The parameters kept are those of the first header of the type, if there is any. */
  lemma {:induction false} FirstUsableIs(pkts: seq<EncodedPacket>, t: MediaType, i: nat)
    requires i <= |pkts| && forall j :: 0 <= j < i ==> !IsHeaderOf(t, pkts[j])
    requires i < |pkts| ==> IsHeaderOf(t, pkts[i])
    ensures FirstUsable(pkts, t) == if i == |pkts| then None else ParamsOf(pkts[i])
    ensures FirstUsable(pkts, t).Some? <==> Announced(t, pkts)
  {
    if pkts != [] {
      UsableIs(pkts[0], t);
      if i > 0 {
        FirstUsableIs(pkts[1..], t, i - 1);
        if k :| 0 <= k < |pkts| && IsHeaderOf(t, pkts[k]) {
          assert pkts[1..][k - 1] == pkts[k];
        }
        if k :| 0 <= k < |pkts[1..]| && IsHeaderOf(t, pkts[1..][k]) {
          assert pkts[k + 1] == pkts[1..][k];
        }
      }
    }
  }

  lemma UsableIffAnnounced(pkts: seq<EncodedPacket>, t: MediaType)
    ensures FirstUsable(pkts, t).Some? <==> Announced(t, pkts)
  {
    var i := 0;
    while i < |pkts| && !IsHeaderOf(t, pkts[i])
      invariant i <= |pkts| && forall j :: 0 <= j < i ==> !IsHeaderOf(t, pkts[j])
    {
      i := i + 1;
    }
    FirstUsableIs(pkts, t, i);
  }

  /** The build starts with a header once both types were announced, with any other packet as soon
      as one was. */
  lemma TriggersIff(pkts: seq<EncodedPacket>, i: nat)
    requires i < |pkts|
    ensures Triggers(pkts, i)
            <==> if pkts[i].isSequenceHeader then Announced(Video, pkts[..i + 1]) && Announced(Audio, pkts[..i + 1])
                 else Announced(Video, pkts[..i]) || Announced(Audio, pkts[..i])
  {
    UsableIffAnnounced(pkts[..i + 1], Video);
    UsableIffAnnounced(pkts[..i + 1], Audio);
    UsableIffAnnounced(pkts[..i], Video);
    UsableIffAnnounced(pkts[..i], Audio);
  }

  datatype Build = Build(at: nat, params: seq<CodecParams>)

  /** `record_sequence_header`: keep the first parameters of each type; true once both are known. */
  method RecordSequenceHeader(pkt: EncodedPacket, video: Option<CodecParams>, audio: Option<CodecParams>)
    returns (both: bool, video': Option<CodecParams>, audio': Option<CodecParams>)
    requires pkt.isSequenceHeader
    ensures video' == if video.None? && Usable(pkt, Video) then ParamsOf(pkt) else video
    ensures audio' == if audio.None? && Usable(pkt, Audio) then ParamsOf(pkt) else audio
    ensures both == (ParamsOf(pkt).Some? && video'.Some? && audio'.Some?)
  {
    video', audio' := video, audio;
    var params := ParamsOf(pkt);
    if params.None? {
      return false, video', audio';
    }
    match TypeOf(pkt.codec) {
      case Video =>
        if video'.None? {
          video' := params;
        }
      case Audio =>
        if audio'.None? {
          audio' := params;
        }
    }
    both := video'.Some? && audio'.Some?;
  }

  /** `deferred_hls_init` on the packets received before the channel closes or it is
      cancelled: the build happens at the first trigger and only there, with the first usable
      video header and then the first usable audio header seen up to it. */
  method DeferredInit(pkts: seq<EncodedPacket>) returns (built: Option<Build>)
    ensures built.None? ==> forall i :: 0 <= i < |pkts| ==> !Triggers(pkts, i)
    ensures built.Some? ==>
              && built.value.at < |pkts| && Triggers(pkts, built.value.at)
              && (forall i :: 0 <= i < built.value.at ==> !Triggers(pkts, i))
              && built.value.params != []
              && built.value.params == Present(FirstUsable(pkts[..built.value.at + 1], Video))
                                       + Present(FirstUsable(pkts[..built.value.at + 1], Audio))
  {
    var video: Option<CodecParams>, audio: Option<CodecParams> := None, None;
    var i := 0;
    while i < |pkts|
      invariant 0 <= i <= |pkts|
      invariant video == FirstUsable(pkts[..i], Video) && audio == FirstUsable(pkts[..i], Audio)
      invariant video.None? || audio.None?
      invariant forall k :: 0 <= k < i ==> !Triggers(pkts, k)
    {
      var pkt := pkts[i];
      assert pkts[..i + 1] == pkts[..i] + [pkt];
      FirstUsableSnoc(pkts[..i], pkt, Video);
      FirstUsableSnoc(pkts[..i], pkt, Audio);
      if pkt.isSequenceHeader {
        var both, v, a := RecordSequenceHeader(pkt, video, audio);
        video, audio := v, a;
        if both {
          return Some(Build(i, [video.value, audio.value]));
        }
      } else if video.Some? || audio.Some? {
        return Some(Build(i, Present(video) + Present(audio)));
      }
      i := i + 1;
    }
    built := None;
  }
}
