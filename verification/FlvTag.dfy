/** FLV tags, their encoding and decoding, and whole FLV streams. */
module FlvTag {
  import opened Bytes
  import opened Media

  /** A handle for the metadata of a script tag; its fields are not modelled. */
  type Metadata = nat

  datatype Tag =
    | AudioTag(timestamp: u32, payload: bytes)
    | VideoTag(timestamp: u32, payload: bytes, isKeyframe: bool)
    | ScriptTag(metadata: Metadata)

  /** The AMF0 library that writes and reads script tag bodies. */
  datatype Amf = Amf(serialize: Metadata -> Result<bytes>, parse: bytes -> Result<Metadata>)

  const MAX_PAYLOAD: nat := 0xFF_FFFF
  const HEADER_LEN: nat := 11

  // --------------------------------------------------- constructors and classifiers

  /** FrameType is bits 4-6 of the first byte; 1 means keyframe. */
  predicate IsVideoKeyframe(payload: bytes)
  {
    payload != [] && payload[0] / 16 % 8 == 1
  }

  function MakeVideo(timestamp: u32, payload: bytes): (t: Tag)
  {
    VideoTag(timestamp, payload, IsVideoKeyframe(payload))
  }

  predicate IsAudioSeqHeader(payload: bytes)
  {
    |payload| >= 2 && payload[0] / 16 == 10 && payload[1] == 0
  }

  predicate IsVideoSeqHeader(payload: bytes)
  {
    |payload| >= 2 &&
    if payload[0] >= 0x80 then payload[0] % 16 == 0
    else payload[0] % 16 in {7, 12} && payload[1] == 0
  }

  predicate IsSequenceHeader(tag: Tag)
  {
    match tag
    case AudioTag(_, payload) => IsAudioSeqHeader(payload)
    case VideoTag(_, payload, _) => IsVideoSeqHeader(payload)
    case ScriptTag(_) => true
  }

  /** What makes a tag a sequence header or a keyframe. Classic video: codec 7 or 12 and packet
      type 0. Extended video, bit 7 set: packet type 0 in the low bits. Audio: format 10 and packet
      type 0. Frame type 1 is a keyframe in both video forms. */
  lemma TagHeaders(timestamp: u32, high: nat, low: nat, second: byte, rest: bytes)
    requires high < 8 && low < 16
    ensures var classic := MakeVideo(timestamp, [16 * high + low, second] + rest);
            && (IsSequenceHeader(classic) <==> low in {7, 12} && second == 0)
            && (classic.isKeyframe <==> high == 1)
    ensures var extended := MakeVideo(timestamp, [128 + 16 * high + low, second] + rest);
            && (IsSequenceHeader(extended) <==> low == 0)
            && (extended.isKeyframe <==> high == 1)
    ensures !IsSequenceHeader(AudioTag(timestamp, [16 * high + low, second] + rest))
    ensures IsSequenceHeader(AudioTag(timestamp, [128 + 16 * high + low, second] + rest)) <==> high == 2 && second == 0
  {
  }

  /** Payloads too short to say are neither, and metadata counts as a header. */
  lemma ShortTags(timestamp: u32, payload: bytes, m: Metadata)
    requires |payload| < 2
    ensures !IsSequenceHeader(MakeVideo(timestamp, payload)) && !IsSequenceHeader(AudioTag(timestamp, payload))
    ensures payload == [] ==> !MakeVideo(timestamp, payload).isKeyframe
    ensures IsSequenceHeader(ScriptTag(m))
  {
  }

  // ----------------------------------------------------------------- one tag

  function Header(kind: byte, timestamp: u32, size: nat): (h: bytes)
    ensures |h| == HEADER_LEN
  {
    [kind] + Be(3, size) + Be(3, timestamp % 0x100_0000) + [timestamp / 0x100_0000] + Be(3, 0)
  }

  /** Tag header, payload and PreviousTagSize. */
  function Block(kind: byte, timestamp: u32, payload: bytes): (b: bytes)
    ensures |b| == HEADER_LEN + |payload| + 4
  {
    Header(kind, timestamp, |payload|) + payload + Be(4, HEADER_LEN + |payload|)
  }

  function Kind(tag: Tag): (k: byte)
  {
    match tag
    case AudioTag(_, _) => 8
    case VideoTag(_, _, _) => 9
    case ScriptTag(_) => 18
  }

  function Time(tag: Tag): (t: u32)
  {
    if tag.ScriptTag? then 0 else tag.timestamp
  }

  function Body(amf: Amf, tag: Tag): (r: Result<bytes>)
  {
    if tag.ScriptTag? then amf.serialize(tag.metadata) else Ok(tag.payload)
  }

  function Encode(amf: Amf, tag: Tag): (r: Result<bytes>)
  {
    match Body(amf, tag)
    case Err => Err
    case Ok(payload) => if |payload| > MAX_PAYLOAD then Err else Ok(Block(Kind(tag), Time(tag), payload))
  }

  /** `put_u24`: append the three low bytes of a value, one at a time. */
  method PutU24(buffer: bytes, value: nat) returns (r: bytes)
    ensures r == buffer + Be(3, value)
  {
    r := buffer + [value / 0x1_0000 % 0x100];
    r := r + [value / 0x100 % 0x100];
    r := r + [value % 0x100];
    assert Be(3, value) == Be(2, value / 256) + [value % 256];
    assert Be(2, value / 256) == Be(1, value / 256 / 256) + [value / 256 % 256];
    assert Be(1, value / 256 / 256) == [value / 256 / 256 % 256];
  }

  /** `encode_flv_tag`: the buffer is filled field by field. */
  method EncodeFlvTag(amf: Amf, tag: Tag) returns (r: Result<bytes>)
    ensures r == Encode(amf, tag)
  {
    var body := Body(amf, tag);
    if body.Err? {
      return Err;
    }
    var payload := body.value;
    if |payload| > MAX_PAYLOAD {
      return Err;
    }
    var buffer: bytes := [Kind(tag)];
    buffer := PutU24(buffer, |payload|);
    buffer := PutU24(buffer, Time(tag) % 0x100_0000);
    buffer := buffer + [Time(tag) / 0x100_0000 % 0x100];
    buffer := PutU24(buffer, 0);
    assert buffer == Header(Kind(tag), Time(tag), |payload|);
    buffer := buffer + payload;
    buffer := buffer + Be(4, HEADER_LEN + |payload|);
    r := Ok(buffer);
  }

  /** The DataSize field. */
  function DataSize(data: bytes): (n: nat)
    requires |data| >= 4
  {
    FromBe(data[1..4])
  }

  /** `TryFrom<Bytes>`: one tag at the front of the buffer; bytes behind it are ignored. */
  function Decode(amf: Amf, data: bytes): (r: Result<Tag>)
  {
    if |data| < 15 then Err
    else
      var size := DataSize(data);
      if |data| < HEADER_LEN + size + 4 then Err
      else
        Capacities();
        var timestamp: u32 := data[7] * 0x100_0000 + FromBe(data[4..7]);
        var payload := data[HEADER_LEN..HEADER_LEN + size];
        match data[0]
        case 8 => Ok(AudioTag(timestamp, payload))
        case 9 => Ok(MakeVideo(timestamp, payload))
        case 18 =>
          (match amf.parse(payload)
           case Err => Err
           case Ok(m) => Ok(ScriptTag(m)))
        case _ => Err
  }

  /** A tag the constructors can build and the encoder accepts; for script tags this asks
      the AMF0 library to read back what it wrote. */
  predicate WellMade(amf: Amf, tag: Tag)
  {
    && Encode(amf, tag).Ok?
    && (tag.VideoTag? ==> tag.isKeyframe == IsVideoKeyframe(tag.payload))
    && (tag.ScriptTag? ==> amf.parse(amf.serialize(tag.metadata).value) == Ok(tag.metadata))
  }

  /** Where the fields of a block lie, whatever follows it. */
  lemma BlockFields(kind: byte, timestamp: u32, payload: bytes, rest: bytes)
    requires |payload| <= MAX_PAYLOAD
    ensures var data := Block(kind, timestamp, payload) + rest;
            && |data| >= 15
            && data[0] == kind
            && DataSize(data) == |payload|
            && data[4..7] == Be(3, timestamp % 0x100_0000)
            && data[7] == timestamp / 0x100_0000
            && data[HEADER_LEN..HEADER_LEN + |payload|] == payload
            && data[HEADER_LEN + |payload| + 4..] == rest
  {
    var data := Block(kind, timestamp, payload) + rest;
    Capacities();
    FromBeOfBe(3, |payload|);
    var header := Header(kind, timestamp, |payload|);
    assert data[..HEADER_LEN] == header;
    assert header[1..4] == Be(3, |payload|);
    assert header[4..7] == Be(3, timestamp % 0x100_0000);
    assert data[1..4] == data[..HEADER_LEN][1..4];
    assert data[4..7] == data[..HEADER_LEN][4..7];
  }

  /** The layout of section E.4.1 of the FLV specification, for every payload of up to 24 bits'
      length: type, size, time with its high byte last, stream 0, payload, size of it all. */
  ghost predicate IsLayout(data: bytes, kind: byte, timestamp: u32, payload: bytes)
  {
    && |data| == 15 + |payload|
    && data[0] == kind
    && FromBe(data[1..4]) == |payload|
    && FromBe([data[7]] + data[4..7]) == timestamp
    && data[8..11] == [0, 0, 0]
    && data[11..11 + |payload|] == payload
    && FromBe(data[11 + |payload|..]) == 11 + |payload|
  }

  lemma TagLayout(amf: Amf, tag: Tag, payload: bytes)
    requires if tag.ScriptTag? then amf.serialize(tag.metadata) == Ok(payload) else tag.payload == payload
    ensures Encode(amf, tag).Ok? <==> |payload| <= 0xFF_FFFF
    ensures Encode(amf, tag).Ok? ==>
              IsLayout(Encode(amf, tag).value, if tag.AudioTag? then 8 else if tag.VideoTag? then 9 else 18,
                       if tag.ScriptTag? then 0 else tag.timestamp, payload)
  {
    if |payload| <= MAX_PAYLOAD {
      BlockLayout(Kind(tag), Time(tag), payload);
    }
  }

  lemma BlockLayout(kind: byte, timestamp: u32, payload: bytes)
    requires |payload| <= MAX_PAYLOAD
    ensures IsLayout(Block(kind, timestamp, payload), kind, timestamp, payload)
  {
    var data := Block(kind, timestamp, payload);
    assert data + [] == data;
    BlockFields(kind, timestamp, payload, []);
    BlockEnds(Header(kind, timestamp, |payload|), payload, Be(4, 11 + |payload|));
    StreamZero(kind, timestamp, |payload|);
    assert FromBe(Be(4, 11 + |payload|)) == 11 + |payload| by {
      Capacities();
      FromBeOfBe(4, 11 + |payload|);
    }
    TimeField(timestamp);
  }

  lemma BlockEnds<T>(header: seq<T>, payload: seq<T>, end: seq<T>)
    requires |header| == 11
    ensures var data := header + payload + end;
            data[8..11] == header[8..11] && data[11 + |payload|..] == end
  {
  }

  lemma StreamZero(kind: byte, timestamp: u32, size: nat)
    ensures Header(kind, timestamp, size)[8..11] == [0, 0, 0]
  {
    ThreeZeros();
  }

  /** The time field: its most significant byte stands behind the other three. */
  lemma TimeField(timestamp: u32)
    ensures FromBe([timestamp / 0x100_0000] + Be(3, timestamp % 0x100_0000)) == timestamp
  {
    var s: bytes := [timestamp / 0x100_0000] + Be(3, timestamp % 0x100_0000);
    Capacities();
    FromBeOfBe(3, timestamp % 0x100_0000);
    MostSignificantFirst(s);
    assert s[1..] == Be(3, timestamp % 0x100_0000);
  }

  /** Decoding what was encoded gives the tag back: all 32 timestamp bits, the payload and
      the keyframe flag, whatever bytes follow. */
  lemma DecodeOfEncode(amf: Amf, tag: Tag, rest: bytes)
    requires WellMade(amf, tag)
    ensures Decode(amf, Encode(amf, tag).value + rest) == Ok(tag)
  {
    var payload := Body(amf, tag).value;
    BlockFields(Kind(tag), Time(tag), payload, rest);
    Capacities();
    FromBeOfBe(3, Time(tag) % 0x100_0000);
  }

  /** The header fields the decoder reads, written again. */
  lemma HeaderOfFields(data: bytes, timestamp: u32)
    requires |data| >= HEADER_LEN
    requires timestamp == data[7] * 0x100_0000 + FromBe(data[4..7])
    ensures Header(data[0], timestamp, DataSize(data)) == data[..8] + Be(3, 0)
  {
    Capacities();
    BeOfFromBe(data[1..4]);
    BeOfFromBe(data[4..7]);
    assert timestamp % 0x100_0000 == FromBe(data[4..7]) && timestamp / 0x100_0000 == data[7];
    assert data[..8] == [data[0]] + data[1..4] + data[4..7] + [data[7]];
  }

  /** Re-encoding an audio or video tag read from a buffer reproduces the buffer exactly
      when the fields the decoder ignores hold what the encoder writes. */
  lemma EncodeOfDecode(amf: Amf, data: bytes)
    requires Decode(amf, data).Ok? && !Decode(amf, data).value.ScriptTag?
    ensures var n := HEADER_LEN + DataSize(data);
            Encode(amf, Decode(amf, data).value) == Ok(data[..n + 4])
            <==> data[8..11] == Be(3, 0) && data[n..n + 4] == Be(4, n)
  {
    var tag, n := Decode(amf, data).value, HEADER_LEN + DataSize(data);
    Capacities();
    HeaderOfFields(data, tag.timestamp);
    assert Encode(amf, tag) == Ok((data[..8] + Be(3, 0)) + tag.payload + Be(4, n));
    SliceOfTake(data, n + 4, 0, 8);
    SliceOfTake(data, n + 4, 8, 11);
    SliceOfTake(data, n + 4, 11, n);
    SliceOfTake(data, n + 4, n, n + 4);
    SameParts(data[..n + 4], data[..8], Be(3, 0), tag.payload, Be(4, n));
  }

  lemma SliceOfTake<T>(s: seq<T>, end: nat, i: nat, j: nat)
    requires i <= j <= end <= |s|
    ensures s[..end][i..j] == s[i..j]
  {
  }

  /** A buffer and a block that share their front and payload. */
  lemma SameParts<T>(s: seq<T>, front: seq<T>, mid: seq<T>, payload: seq<T>, end: seq<T>)
    requires |s| == |front| + |mid| + |payload| + |end|
    requires s[0..|front|] == front
    requires s[|front| + |mid|..|front| + |mid| + |payload|] == payload
    ensures (front + mid) + payload + end == s
            <==> s[|front|..|front| + |mid|] == mid && s[|front| + |mid| + |payload|..|s|] == end
  {
    var i, j := |front| + |mid|, |front| + |mid| + |payload|;
    assert s[0..i] == s[0..|front|] + s[|front|..i];
    assert s[0..j] == s[0..i] + s[i..j];
    assert s == s[0..j] + s[j..|s|];
    var block := (front + mid) + payload + end;
    assert block[|front|..i] == mid;
    assert block[j..|s|] == end;
  }

  // ------------------------------------------------------------- a stream of tags

  ghost predicate AllWellMade(amf: Amf, tags: seq<Tag>)
  {
    forall i :: 0 <= i < |tags| ==> WellMade(amf, tags[i])
  }

  ghost function EncodeStream(amf: Amf, tags: seq<Tag>): (s: bytes)
    requires AllWellMade(amf, tags)
  {
    if tags == [] then []
    else Encode(amf, tags[0]).value + EncodeStream(amf, tags[1..])
  }

  /** Decode tag after tag until the bytes run out. */
  function DecodeStream(amf: Amf, data: bytes): (r: Result<seq<Tag>>)
    decreases |data|
  {
    if data == [] then Ok([])
    else
      match Decode(amf, data)
      case Err => Err
      case Ok(tag) =>
        match DecodeStream(amf, data[HEADER_LEN + DataSize(data) + 4..])
        case Err => Err
        case Ok(tags) => Ok([tag] + tags)
  }

  lemma DecodeStreamStep(amf: Amf, tag: Tag, rest: bytes, tags: seq<Tag>)
    requires WellMade(amf, tag) && DecodeStream(amf, rest) == Ok(tags)
    ensures DecodeStream(amf, Encode(amf, tag).value + rest) == Ok([tag] + tags)
  {
    var data := Encode(amf, tag).value + rest;
    BlockFields(Kind(tag), Time(tag), Body(amf, tag).value, rest);
    DecodeOfEncode(amf, tag, rest);
    assert data[HEADER_LEN + DataSize(data) + 4..] == rest;
  }

  /** The round trip of a whole stream. */
  lemma {:induction false} StreamRoundTrip(amf: Amf, tags: seq<Tag>)
    requires AllWellMade(amf, tags)
    ensures DecodeStream(amf, EncodeStream(amf, tags)) == Ok(tags)
  {
    if tags != [] {
      var rest := EncodeStream(amf, tags[1..]);
      StreamRoundTrip(amf, tags[1..]);
      DecodeStreamStep(amf, tags[0], rest, tags[1..]);
      assert EncodeStream(amf, tags) == Encode(amf, tags[0]).value + rest;
      assert [tags[0]] + tags[1..] == tags;
    }
  }

  /** Hence no two tag lists share an encoding. */
  lemma StreamIsInjective(amf: Amf, a: seq<Tag>, b: seq<Tag>)
    requires AllWellMade(amf, a) && AllWellMade(amf, b)
    requires EncodeStream(amf, a) == EncodeStream(amf, b)
    ensures a == b
  {
    StreamRoundTrip(amf, a);
    StreamRoundTrip(amf, b);
  }

  /** Tag boundaries found from the back, by following PreviousTagSize. */
  function WalkBack(data: bytes): (r: Result<seq<nat>>)
    decreases |data|
  {
    if data == [] then Ok([])
    else if |data| < 4 || FromBe(data[|data| - 4..]) + 4 > |data| then Err
    else
      var start := |data| - 4 - FromBe(data[|data| - 4..]);
      match WalkBack(data[..start])
      case Err => Err
      case Ok(starts) => Ok(starts + [start])
  }

  /** Where each tag of the stream begins. */
  ghost function Starts(amf: Amf, tags: seq<Tag>): (r: seq<nat>)
    requires AllWellMade(amf, tags)
  {
    seq(|tags|, i requires 0 <= i < |tags| => |EncodeStream(amf, tags[..i])|)
  }

  lemma {:induction false} EncodeStreamSnoc(amf: Amf, tags: seq<Tag>, last: Tag)
    requires AllWellMade(amf, tags) && WellMade(amf, last)
    ensures EncodeStream(amf, tags + [last]) == EncodeStream(amf, tags) + Encode(amf, last).value
  {
    if tags == [] {
      assert tags + [last] == [last];
    } else {
      EncodeStreamSnoc(amf, tags[1..], last);
      assert (tags + [last])[1..] == tags[1..] + [last];
      Assoc(Encode(amf, tags[0]).value, EncodeStream(amf, tags[1..]), Encode(amf, last).value);
    }
  }

  lemma BlockEnd(before: bytes, kind: byte, timestamp: u32, payload: bytes)
    requires |payload| <= MAX_PAYLOAD
    ensures var data := before + Block(kind, timestamp, payload);
            && FromBe(data[|data| - 4..]) == HEADER_LEN + |payload|
            && data[..|data| - 4 - (HEADER_LEN + |payload|)] == before
  {
    var data := before + Block(kind, timestamp, payload);
    Capacities();
    FromBeOfBe(4, HEADER_LEN + |payload|);
    assert data[|data| - 4..] == Be(4, HEADER_LEN + |payload|);
  }

  lemma StartsSnoc(amf: Amf, tags: seq<Tag>)
    requires tags != [] && AllWellMade(amf, tags)
    ensures var before := tags[..|tags| - 1];
            Starts(amf, tags) == Starts(amf, before) + [|EncodeStream(amf, before)|]
  {
    var before := tags[..|tags| - 1];
    assert forall i :: 0 <= i < |before| ==> before[..i] == tags[..i];
  }

  lemma WalkBackStep(before: bytes, kind: byte, timestamp: u32, payload: bytes, starts: seq<nat>)
    requires |payload| <= MAX_PAYLOAD && WalkBack(before) == Ok(starts)
    ensures WalkBack(before + Block(kind, timestamp, payload)) == Ok(starts + [|before|])
  {
    BlockEnd(before, kind, timestamp, payload);
  }

  /** Walking the stream backwards finds exactly the boundaries of the forward reading. */
  lemma {:induction false} WalkBackFindsStarts(amf: Amf, tags: seq<Tag>)
    requires AllWellMade(amf, tags)
    ensures WalkBack(EncodeStream(amf, tags)) == Ok(Starts(amf, tags))
    decreases |tags|
  {
    if tags != [] {
      var n := |tags| - 1;
      var before, last := tags[..n], tags[n];
      assert before + [last] == tags;
      EncodeStreamSnoc(amf, before, last);
      WalkBackFindsStarts(amf, before);
      WalkBackStep(EncodeStream(amf, before), Kind(last), Time(last), Body(amf, last).value, Starts(amf, before));
      StartsSnoc(amf, tags);
    } else {
      assert Starts(amf, tags) == [];
    }
  }
}
