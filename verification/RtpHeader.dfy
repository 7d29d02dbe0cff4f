/** RTP packets (section 5.1 of RFC 3550): header parsing and packet construction. */
module RtpHeader {
  import opened Bytes
  import opened Media

  datatype Parsed = Parsed(
    payloadType: nat, marker: bool, sequenceNumber: nat, rtpTimestamp: nat, ssrc: nat, payload: bytes)

  // ------------------------------------------------------------------- parsing

  predicate HasPadding(first: byte) { first / 32 % 2 == 1 }

  predicate HasExtension(first: byte) { first / 16 % 2 == 1 }

  /** Fixed header, CSRC list and extension; `None` when the buffer is shorter than they say. */
  function HeaderLen(data: bytes): (n: Option<nat>)
    requires |data| >= 12
    ensures n.Some? ==> 12 <= n.value <= |data|
  {
    var base := 12 + data[0] % 16 * 4;
    if !HasExtension(data[0]) then
      if |data| < base then None else Some(base)
    else if |data| < base + 4 then None
    else
      var len := base + 4 + FromBe(data[base + 2..base + 4]) * 4;
      if |data| < len then None else Some(len)
  }

  /** Drop the padding counted by the last byte; the count includes that byte. */
  function Unpad(hasPadding: bool, payload: bytes): (r: Option<bytes>)
  {
    if !hasPadding then Some(payload)
    else if payload == [] then None
    else
      var padLen := payload[|payload| - 1];
      if padLen == 0 || padLen > |payload| then None else Some(payload[..|payload| - padLen])
  }

  /** `parse_rtp_header`. */
  function Parse(data: bytes): (r: Option<Parsed>)
  {
    if |data| < 12 || data[0] / 64 != 2 then None
    else
      match HeaderLen(data)
      case None => None
      case Some(headerLen) =>
        match Unpad(HasPadding(data[0]), data[headerLen..])
        case None => None
        case Some(payload) => Some(Fields(data, payload))
  }

  function Fields(data: bytes, payload: bytes): (p: Parsed)
    requires |data| >= 12
  {
    Parsed(data[1] % 128, data[1] >= 128, FromBe(data[2..4]), FromBe(data[4..8]), FromBe(data[8..12]), payload)
  }

  // ------------------------------------------------ the layout a packet may have

  datatype Extension = Extension(profile: bytes, data: bytes)

  /** A packet as RFC 3550 lays it out; `padding` includes the count byte at its end. */
  datatype Layout = Layout(
    fields: Parsed, csrcs: bytes, extension: Option<Extension>, padding: Option<bytes>)

  predicate ValidExtension(e: Extension)
  {
    |e.profile| == 2 && |e.data| % 4 == 0 && |e.data| / 4 < 0x1_0000
  }

  predicate ValidPadding(p: bytes)
  {
    1 <= |p| < 256 && p[|p| - 1] == |p|
  }

  predicate ValidFields(f: Parsed)
  {
    f.payloadType < 128 && f.sequenceNumber < 0x1_0000 &&
    f.rtpTimestamp < 0x1_0000_0000 && f.ssrc < 0x1_0000_0000
  }

  predicate Valid(l: Layout)
  {
    && ValidFields(l.fields)
    && |l.csrcs| % 4 == 0 && |l.csrcs| <= 60
    && (l.extension.Some? ==> ValidExtension(l.extension.value))
    && (l.padding.Some? ==> ValidPadding(l.padding.value))
  }

  function FirstByte(csrcs: bytes, extension: bool, padding: bool): (b: byte)
    requires |csrcs| <= 60
  {
    128 + (if padding then 32 else 0) + (if extension then 16 else 0) + |csrcs| / 4
  }

  function Fixed(first: byte, f: Parsed): (h: bytes)
    requires ValidFields(f)
    ensures |h| == 12
  {
    [first, (if f.marker then 128 else 0) + f.payloadType]
    + Be(2, f.sequenceNumber) + Be(4, f.rtpTimestamp) + Be(4, f.ssrc)
  }

  function PrintExtension(e: Option<Extension>): (s: bytes)
    requires e.Some? ==> ValidExtension(e.value)
  {
    if e.None? then [] else e.value.profile + Be(2, |e.value.data| / 4) + e.value.data
  }

  function PrintPadding(p: Option<bytes>): (s: bytes)
  {
    if p.None? then [] else p.value
  }

  /** Everything before the payload. */
  function PrintHeader(l: Layout): (s: bytes)
    requires Valid(l)
  {
    Fixed(FirstByte(l.csrcs, l.extension.Some?, l.padding.Some?), l.fields)
    + (l.csrcs + PrintExtension(l.extension))
  }

  function Print(l: Layout): (s: bytes)
    requires Valid(l)
  {
    PrintHeader(l) + (l.fields.payload + PrintPadding(l.padding))
  }

  // ------------------------------------------------------------------ round trips

  lemma FixedFields(first: byte, f: Parsed, rest: bytes)
    requires ValidFields(f)
    ensures var data := Fixed(first, f) + rest;
            data[0] == first && Fields(data, f.payload) == f
  {
    var h := Fixed(first, f);
    var data := h + rest;
    Capacities();
    assert data[2..4] == h[2..4] && h[2..4] == Be(2, f.sequenceNumber);
    assert data[4..8] == h[4..8] && h[4..8] == Be(4, f.rtpTimestamp);
    assert data[8..12] == h[8..12] && h[8..12] == Be(4, f.ssrc);
    FromBeOfBe(2, f.sequenceNumber);
    FromBeOfBe(4, f.rtpTimestamp);
    FromBeOfBe(4, f.ssrc);
  }

  lemma ExtensionLength(front: bytes, e: Extension, rest: bytes)
    requires ValidExtension(e)
    ensures var data := front + (PrintExtension(Some(e)) + rest);
            && |data| >= |front| + 4
            && FromBe(data[|front| + 2..|front| + 4]) == |e.data| / 4
  {
    Capacities();
    FromBeOfBe(2, |e.data| / 4);
  }

  lemma FirstByteSays(csrcs: bytes, extension: bool, padding: bool)
    requires |csrcs| % 4 == 0 && |csrcs| <= 60
    ensures var first := FirstByte(csrcs, extension, padding);
            && first / 64 == 2 && first % 16 * 4 == |csrcs|
            && HasExtension(first) == extension && HasPadding(first) == padding
  {
  }

  /** Fixed header and CSRC list, then an extension. */
  lemma HeaderLenExtended(front: bytes, e: Extension, rest: bytes)
    requires ValidExtension(e)
    requires |front| >= 12 && |front| == 12 + front[0] % 16 * 4 && HasExtension(front[0])
    ensures HeaderLen(front + (PrintExtension(Some(e)) + rest)) == Some(|front| + |PrintExtension(Some(e))|)
  {
    ExtensionLength(front, e, rest);
  }

  lemma HeaderLenOfPrint(l: Layout, rest: bytes)
    requires Valid(l)
    ensures HeaderLen(PrintHeader(l) + rest) == Some(|PrintHeader(l)|)
  {
    var first := FirstByte(l.csrcs, l.extension.Some?, l.padding.Some?);
    var front := Fixed(first, l.fields) + l.csrcs;
    assert front[0] == first;
    FirstByteSays(l.csrcs, l.extension.Some?, l.padding.Some?);
    Assoc(Fixed(first, l.fields), l.csrcs, PrintExtension(l.extension));
    Assoc(front, PrintExtension(l.extension), rest);
    if l.extension.Some? {
      HeaderLenExtended(front, l.extension.value, rest);
    } else {
      assert PrintHeader(l) + rest == front + rest;
    }
  }

  lemma UnpadOfPrint(payload: bytes, padding: Option<bytes>)
    requires padding.Some? ==> ValidPadding(padding.value)
    ensures Unpad(padding.Some?, payload + PrintPadding(padding)) == Some(payload)
  {
    var all := payload + PrintPadding(padding);
    if padding.Some? {
      assert all[|all| - 1] == |padding.value|;
      Prefixed(payload, padding.value);
    } else {
      assert all == payload;
    }
  }

  lemma FirstOfPrint(l: Layout, rest: bytes)
    requires Valid(l)
    ensures var data := PrintHeader(l) + rest;
            && |data| >= 12
            && data[0] / 64 == 2 && HasPadding(data[0]) == l.padding.Some?
            && Fields(data, l.fields.payload) == l.fields
  {
    var first := FirstByte(l.csrcs, l.extension.Some?, l.padding.Some?);
    var more := l.csrcs + PrintExtension(l.extension);
    Assoc(Fixed(first, l.fields), more, rest);
    FixedFields(first, l.fields, more + rest);
    FirstByteSays(l.csrcs, l.extension.Some?, l.padding.Some?);
  }

  /** Every packet laid out by section 5.1 parses to its fields and payload. */
  lemma ParseOfPrint(l: Layout)
    requires Valid(l)
    ensures Parse(Print(l)) == Some(l.fields)
  {
    var rest := l.fields.payload + PrintPadding(l.padding);
    FirstOfPrint(l, rest);
    HeaderLenOfPrint(l, rest);
    Prefixed(PrintHeader(l), rest);
    UnpadOfPrint(l.fields.payload, l.padding);
  }

  lemma TwelveBytes<T>(s: seq<T>)
    requires |s| >= 12
    ensures s[..12] == [s[0], s[1]] + s[2..4] + s[4..8] + s[8..12]
  {
  }

  lemma PrintOfFields(data: bytes, payload: bytes)
    requires |data| >= 12
    ensures ValidFields(Fields(data, payload))
    ensures Fixed(data[0], Fields(data, payload)) == data[..12]
  {
    Capacities();
    BeOfFromBe(data[2..4]);
    BeOfFromBe(data[4..8]);
    BeOfFromBe(data[8..12]);
    assert (if data[1] >= 128 then 128 else 0) + data[1] % 128 == data[1];
    TwelveBytes(data);
  }

  /** The CSRC list and the extension of an accepted buffer. */
  lemma HeaderParts(data: bytes) returns (csrcs: bytes, extension: Option<Extension>)
    requires |data| >= 12 && HeaderLen(data).Some?
    ensures |csrcs| == data[0] % 16 * 4 && (extension.Some? == HasExtension(data[0]))
    ensures extension.Some? ==> ValidExtension(extension.value)
    ensures data[12..HeaderLen(data).value] == csrcs + PrintExtension(extension)
  {
    var base, end := 12 + data[0] % 16 * 4, HeaderLen(data).value;
    csrcs := data[12..base];
    if HasExtension(data[0]) {
      Capacities();
      var words := FromBe(data[base + 2..base + 4]);
      extension := Some(Extension(data[base..base + 2], data[base + 4..end]));
      assert |data[base + 4..end]| / 4 == words;
      BeOfFromBe(data[base + 2..base + 4]);
      assert data[base..end] == data[base..base + 2] + data[base + 2..base + 4] + data[base + 4..end];
      assert data[12..end] == data[12..base] + data[base..end];
    } else {
      extension := None;
      assert csrcs + [] == csrcs;
    }
  }

  lemma PaddingPart(hasPadding: bool, all: bytes) returns (padding: Option<bytes>)
    requires Unpad(hasPadding, all).Some?
    ensures padding.Some? == hasPadding
    ensures padding.Some? ==> ValidPadding(padding.value)
    ensures all == Unpad(hasPadding, all).value + PrintPadding(padding)
  {
    if hasPadding {
      padding := Some(all[|all| - all[|all| - 1]..]);
    } else {
      padding := None;
      assert all + [] == all;
    }
  }

  lemma FirstByteBits(b: byte, csrcs: bytes)
    requires b / 64 == 2 && |csrcs| == b % 16 * 4
    ensures FirstByte(csrcs, HasExtension(b), HasPadding(b)) == b
  {
  }

  lemma PrintedHeader(data: bytes, l: Layout)
    requires |data| >= 12 && data[0] / 64 == 2 && HeaderLen(data).Some? && Valid(l)
    requires l.fields == Fields(data, l.fields.payload)
    requires |l.csrcs| == data[0] % 16 * 4
    requires l.extension.Some? == HasExtension(data[0]) && l.padding.Some? == HasPadding(data[0])
    requires data[12..HeaderLen(data).value] == l.csrcs + PrintExtension(l.extension)
    ensures PrintHeader(l) == data[..HeaderLen(data).value]
  {
    FirstByteBits(data[0], l.csrcs);
    PrintOfFields(data, l.fields.payload);
    JoinSlices(data, 12, HeaderLen(data).value);
  }

  lemma CsrcSize(first: byte, n: nat)
    requires n == first % 16 * 4
    ensures n % 4 == 0 && n <= 60
  {
  }

  lemma LayoutOf(data: bytes, n: nat, payload: bytes) returns (l: Layout)
    requires |data| >= 12 && data[0] / 64 == 2 && HeaderLen(data) == Some(n)
    requires Unpad(HasPadding(data[0]), data[n..]) == Some(payload)
    ensures Valid(l) && l.fields == Fields(data, payload)
    ensures PrintHeader(l) == data[..n] && payload + PrintPadding(l.padding) == data[n..]
  {
    var csrcs, extension := HeaderParts(data);
    var padding := PaddingPart(HasPadding(data[0]), data[n..]);
    l := Layout(Fields(data, payload), csrcs, extension, padding);
    assert Valid(l) by {
      PrintOfFields(data, payload);
      CsrcSize(data[0], |csrcs|);
    }
    PrintedHeader(data, l);
  }

  /** Conversely an accepted buffer splits exactly into header, payload and padding: it is
      the print of a valid layout with the parsed fields. */
  lemma PrintOfParse(data: bytes) returns (l: Layout)
    requires Parse(data).Some?
    ensures Valid(l) && Print(l) == data && l.fields == Parse(data).value
  {
    var n := HeaderLen(data).value;
    l := LayoutOf(data, n, Parse(data).value.payload);
    JoinSlices(data, n, n);
  }

  /** The parser accepts exactly the valid packets. */
  lemma AcceptsExactlyValid(data: bytes)
    ensures Parse(data).Some? <==> exists l :: Valid(l) && Print(l) == data
  {
    if Parse(data).Some? {
      var l := PrintOfParse(data);
    }
    if l :| Valid(l) && Print(l) == data {
      ParseOfPrint(l);
    }
  }

  // ------------------------------------------------------------- RtpPacket::new

  datatype RtpPacket = RtpPacket(payloadType: byte, channel: byte, rtpTimestamp: u32, marker: bool, data: bytes)

  /** `RtpPacket::new`: the header is pushed field by field. The packet keeps the payload
      type it was given while the header carries its low seven bits, so parsing the data
      gives back the packet's own fields exactly for payload types below 128. */
  method NewPacket(payloadType: byte, channel: byte, rtpTimestamp: u32, marker: bool,
                   sequenceNumber: nat, ssrc: u32, payload: bytes)
    returns (p: RtpPacket)
    requires sequenceNumber < 0x1_0000
    ensures p.payloadType == payloadType && p.channel == channel
    ensures p.rtpTimestamp == rtpTimestamp && p.marker == marker
    ensures Parse(p.data) == Some(Parsed(payloadType % 128, marker, sequenceNumber, rtpTimestamp, ssrc, payload))
    ensures Parse(p.data).value.payloadType == p.payloadType <==> payloadType < 128
  {
    ghost var fields := Parsed(payloadType % 128, marker, sequenceNumber, rtpTimestamp, ssrc, payload);
    var data: bytes := [0x80];
    data := data + [(if marker then 0x80 else 0) + payloadType % 128];
    data := data + Be(2, sequenceNumber);
    data := data + Be(4, rtpTimestamp);
    data := data + Be(4, ssrc);
    assert data == Fixed(0x80, fields);
    PlainPacket(fields);
    data := data + payload;
    p := RtpPacket(payloadType, channel, rtpTimestamp, marker, data);
  }

  /** A packet without CSRCs, extension and padding. */
  lemma PlainPacket(fields: Parsed)
    requires ValidFields(fields)
    ensures Parse(Fixed(0x80, fields) + fields.payload) == Some(fields)
  {
    var layout := Layout(fields, [], None, None);
    var fixed := Fixed(0x80, fields);
    assert fixed + ([] + []) == fixed && fields.payload + [] == fields.payload;
    assert Print(layout) == fixed + fields.payload;
    ParseOfPrint(layout);
  }
}
