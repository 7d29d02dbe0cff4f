/** Codecs and the packets that travel through the pipeline. */
module Media {
  import opened Bytes

  type u32 = n: int | 0 <= n < 0x1_0000_0000

  const U32_MAX: u32 := 0xFFFF_FFFF

  datatype Codec = H264 | H265 | Aac | Mp3 | Opus | Av1 | Mjpeg

  datatype MediaType = Video | Audio

  /** A compressed frame or a sequence header; times are milliseconds. */
  datatype EncodedPacket = EncodedPacket(
    codec: Codec,
    data: bytes,
    ptsMs: Option<int>,
    dtsMs: Option<int>,
    isKeyframe: bool,
    isSequenceHeader: bool,
    extradata: Option<bytes>)

  datatype CodecParams = CodecParams(
    codec: Codec,
    mediaType: MediaType,
    clockRate: nat,
    extradata: Option<bytes>)

  function Max(a: int, b: int): (m: int)
  {
    if a >= b then a else b
  }

  function Min(a: int, b: int): (m: int)
  {
    if a <= b then a else b
  }
}
