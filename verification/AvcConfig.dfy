/** The AVCDecoderConfigurationRecord (section 5.3.3.1 of ISO/IEC 14496-15): the writer in the
    transcoder, the reader that prepares HLS extradata, and their agreement. */
module AvcConfig {
  import opened Bytes
  import opened Media
  import opened AnnexB

  // ------------------------------------------------------------- parameter sets

  /** Parameter sets, each behind its 16-bit length (truncated like `as u16`). */
  function PrintSets(sets: seq<bytes>): (s: bytes)
  {
    if sets == [] then [] else (Be(2, |sets[0]|) + sets[0]) + PrintSets(sets[1..])
  }

  ghost predicate SetsFit(sets: seq<bytes>)
  {
    forall i :: 0 <= i < |sets| ==> |sets[i]| < 0x1_0000
  }

  /** Read `n` length-prefixed sets: their concatenation and what follows them. */
  function TakeSets(data: bytes, n: nat): (r: Result<(bytes, bytes)>)
    ensures r.Ok? ==> |r.value.0| + 2 * n + |r.value.1| == |data|
    decreases n
  {
    if n == 0 then Ok(([], data))
    else if |data| < 2 || 2 + FromBe(data[..2]) > |data| then Err
    else
      var len := FromBe(data[..2]);
      Prepend(data[2..2 + len], TakeSets(data[2 + len..], n - 1))
  }

  lemma SetSlices<T>(length: seq<T>, set0: seq<T>, more: seq<T>)
    requires |length| == 2
    ensures var s := (length + set0) + more;
            s[..2] == length && s[2..2 + |set0|] == set0 && s[2 + |set0|..] == more
  {
  }

  lemma FirstSet(set0: bytes, more: bytes)
    requires |set0| < 0x1_0000
    ensures var data := (Be(2, |set0|) + set0) + more;
            && FromBe(data[..2]) == |set0|
            && data[2..2 + |set0|] == set0
            && data[2 + |set0|..] == more
  {
    Capacities();
    FromBeOfBe(2, |set0|);
    SetSlices(Be(2, |set0|), set0, more);
  }

  /** Reading inverts printing, whatever follows. */
  lemma {:induction false} TakeSetsOfPrint(sets: seq<bytes>, tail: bytes)
    requires SetsFit(sets)
    ensures TakeSets(PrintSets(sets) + tail, |sets|) == Ok((Concat(sets), tail))
  {
    if sets == [] {
      assert PrintSets(sets) + tail == tail;
    } else {
      FirstSet(sets[0], PrintSets(sets[1..]) + tail);
      Assoc(Be(2, |sets[0]|) + sets[0], PrintSets(sets[1..]), tail);
      TakeSetsOfPrint(sets[1..], tail);
    }
  }

  /** Everything the reader accepts was printed: the sets it found, then the rest. */
  lemma {:induction false} TakeSetsIsPrinted(data: bytes, n: nat) returns (sets: seq<bytes>)
    requires TakeSets(data, n).Ok?
    ensures |sets| == n && SetsFit(sets)
    ensures data == PrintSets(sets) + TakeSets(data, n).value.1
    ensures TakeSets(data, n).value.0 == Concat(sets)
    decreases n
  {
    if n == 0 {
      sets := [];
    } else {
      var len := FromBe(data[..2]);
      var more := TakeSetsIsPrinted(data[2 + len..], n - 1);
      sets := [data[2..2 + len]] + more;
      Capacities();
      BeOfFromBe(data[..2]);
      ThreeParts(data, 2, 2 + len);
      assert sets[1..] == more;
      Assoc(data[..2] + data[2..2 + len], PrintSets(more), TakeSets(data, n).value.1);
    }
  }

  // --------------------------------------------------------------------- reader

  /** What follows the fixed bytes of a record: `n` SPS, then, if anything is left, a count
      and that many PPS. */
  function ReadSections(data: bytes, n: nat): (r: Result<bytes>)
  {
    match TakeSets(data, n)
    case Err => Err
    case Ok((sps, rest)) =>
      if rest == [] then Ok(sps)
      else
        match TakeSets(rest[1..], rest[0])
        case Err => Err
        case Ok((pps, _)) => Ok(sps + pps)
  }

  /** `hls_extradata`: the parameter sets of an avcC record without their framing; anything
      else, and every malformed record, comes back unchanged. */
  function HlsExtradata(codec: Codec, extradata: bytes): (r: bytes)
  {
    if codec != H264 || |extradata| < 7 then extradata
    else
      match ReadSections(extradata[6..], extradata[5] % 32)
      case Err => extradata
      case Ok(out) => out
  }

  lemma TakeSetsStep(d: bytes, first: bytes, more: bytes, n: nat)
    requires n > 0 && |d| >= 2 && 2 + FromBe(d[..2]) <= |d|
    requires first == d[2..2 + FromBe(d[..2])] && more == d[2 + FromBe(d[..2])..]
    ensures TakeSets(d, n) == Prepend(first, TakeSets(more, n - 1))
  {
  }

  lemma TakeSetsAt(data: bytes, pos: nat, next: nat, n: nat)
    requires n > 0 && pos + 2 <= next <= |data| && next == pos + 2 + FromBe(data[pos..pos + 2])
    ensures TakeSets(data[pos..], n) == Prepend(data[pos + 2..next], TakeSets(data[next..], n - 1))
  {
    SliceOfDrop(data, pos, 0, 2);
    SliceOfDrop(data, pos, 2, next - pos);
    DropOfDrop(data, pos, next - pos);
    TakeSetsStep(data[pos..], data[pos + 2..next], data[next..], n);
  }

  lemma TakeSetsFails(data: bytes, pos: nat, n: nat)
    requires n > 0 && pos <= |data|
    requires pos + 2 <= |data| ==> pos + 2 + FromBe(data[pos..pos + 2]) > |data|
    ensures TakeSets(data[pos..], n).Err?
  {
    if pos + 2 <= |data| {
      SliceOfDrop(data, pos, 0, 2);
    }
  }

  function Prepend(first: bytes, r: Result<(bytes, bytes)>): (p: Result<(bytes, bytes)>)
  {
    if r.Err? then Err else Ok((first + r.value.0, r.value.1))
  }

  lemma PrependTwice(a: bytes, b: bytes, r: Result<(bytes, bytes)>)
    ensures Prepend(a, Prepend(b, r)) == Prepend(a + b, r)
  {
    if r.Ok? {
      Assoc(a, b, r.value.0);
    }
  }

  lemma ReadStep(data: bytes, pos: nat, next: nat, n: nat, out: bytes)
    requires n > 0 && pos + 2 <= next <= |data| && next == pos + 2 + FromBe(data[pos..pos + 2])
    ensures Prepend(out, TakeSets(data[pos..], n))
            == Prepend(out + data[pos + 2..next], TakeSets(data[next..], n - 1))
  {
    TakeSetsAt(data, pos, next, n);
    PrependTwice(out, data[pos + 2..next], TakeSets(data[next..], n - 1));
  }

  /** One of the two reading loops; `ok` is false where the source returns early. */
  method ReadSets(data: bytes, start: nat, count: nat, already: bytes)
    returns (ok: bool, pos: nat, out: bytes)
    requires start <= |data|
    ensures pos <= |data|
    ensures Prepend(already, TakeSets(data[start..], count)) == if ok then Ok((out, data[pos..])) else Err
  {
    ok, pos, out := true, start, already;
    ghost var all := Prepend(already, TakeSets(data[start..], count));
    for i := 0 to count
      invariant pos <= |data|
      invariant Prepend(out, TakeSets(data[pos..], count - i)) == all
    {
      if pos + 2 > |data| || pos + 2 + FromBe(data[pos..pos + 2]) > |data| {
        TakeSetsFails(data, pos, count - i);
        ok := false;
        return;
      }
      var next := pos + 2 + FromBe(data[pos..pos + 2]);
      ReadStep(data, pos, next, count - i, out);
      out := out + data[pos + 2..next];
      pos := next;
    }
    assert out + [] == out;
  }

  method ReadHlsExtradata(codec: Codec, extradata: bytes) returns (r: bytes)
    ensures r == HlsExtradata(codec, extradata)
  {
    if codec != H264 || |extradata| < 7 {
      return extradata;
    }
    var sections := ReadBothSections(extradata);
    r := if sections.Some? then sections.value else extradata;
  }

  method ReadBothSections(extradata: bytes) returns (r: Option<bytes>)
    requires |extradata| >= 7
    ensures ReadSections(extradata[6..], extradata[5] % 32) == if r.Some? then Ok(r.value) else Err
  {
    var ok, pos, sps := ReadSets(extradata, 6, extradata[5] % 32, []);
    ghost var first := TakeSets(extradata[6..], extradata[5] % 32);
    assert first.Ok? ==> [] + first.value.0 == first.value.0;
    if !ok {
      return None;
    }
    if pos >= |extradata| {
      return Some(sps);
    }
    DropOfDrop(extradata, pos, 1);
    var okPps, _, both := ReadSets(extradata, pos + 1, extradata[pos], sps);
    r := if okPps then Some(both) else None;
  }

  /** A configuration record: five fixed bytes, reserved bits with the SPS count, the SPS,
      the PPS count, the PPS, and whatever extension fields follow. */
  datatype Record = Record(head: bytes, reserved: nat, sps: seq<bytes>, pps: seq<bytes>, tail: bytes)

  ghost predicate ValidRecord(r: Record)
  {
    && |r.head| == 5 && r.reserved < 8
    && |r.sps| <= 31 && |r.pps| <= 255
    && SetsFit(r.sps) && SetsFit(r.pps)
  }

  ghost function PrintStart(r: Record): (s: bytes)
    requires ValidRecord(r)
  {
    r.head + [r.reserved * 32 + |r.sps|]
  }

  ghost function PrintRecord(r: Record): (s: bytes)
    requires ValidRecord(r)
  {
    PrintStart(r) + (PrintSets(r.sps) + ([|r.pps|] + (PrintSets(r.pps) + r.tail)))
  }

  lemma {:induction false} ReadSectionsOfPrint(sps: seq<bytes>, pps: seq<bytes>, tail: bytes)
    requires SetsFit(sps) && SetsFit(pps) && |pps| <= 255
    ensures ReadSections(PrintSets(sps) + ([|pps|] + (PrintSets(pps) + tail)), |sps|)
            == Ok(Concat(sps) + Concat(pps))
  {
    var second := PrintSets(pps) + tail;
    var rest := [|pps|] + second;
    TakeSetsOfPrint(sps, rest);
    TakeSetsOfPrint(pps, tail);
    assert rest[1..] == second;
  }

  /** The reader inverts any record with 0..31 SPS and 0..255 PPS. */
  lemma ReaderInvertsRecord(r: Record)
    requires ValidRecord(r)
    ensures HlsExtradata(H264, PrintRecord(r)) == Concat(r.sps) + Concat(r.pps)
  {
    var count := r.reserved * 32 + |r.sps|;
    Prefixed(r.head + [count], PrintSets(r.sps) + ([|r.pps|] + (PrintSets(r.pps) + r.tail)));
    assert PrintRecord(r)[5] == count && count % 32 == |r.sps|;
    ReadSectionsOfPrint(r.sps, r.pps, r.tail);
  }

  lemma ReadSectionsIsPrinted(data: bytes, n: nat)
    returns (sps: seq<bytes>, pps: seq<bytes>, tail: bytes)
    requires ReadSections(data, n).Ok?
    ensures SetsFit(sps) && SetsFit(pps) && |sps| == n && |pps| <= 255
    ensures data == PrintSets(sps) + ([|pps|] + (PrintSets(pps) + tail))
            || (data == PrintSets(sps) && pps == [])
    ensures ReadSections(data, n).value == Concat(sps) + Concat(pps)
  {
    sps := TakeSetsIsPrinted(data, n);
    pps, tail := [], [];
    var rest := TakeSets(data, n).value.1;
    if rest == [] {
      assert PrintSets(sps) + rest == PrintSets(sps);
      assert Concat(sps) + Concat(pps) == Concat(sps);
    } else {
      pps, tail := CountedSets(rest);
    }
  }

  /** A count byte and that many sets. */
  lemma CountedSets(rest: bytes) returns (sets: seq<bytes>, tail: bytes)
    requires rest != [] && TakeSets(rest[1..], rest[0]).Ok?
    ensures SetsFit(sets) && |sets| <= 255 && rest == [|sets|] + (PrintSets(sets) + tail)
    ensures TakeSets(rest[1..], rest[0]).value.0 == Concat(sets)
  {
    sets := TakeSetsIsPrinted(rest[1..], rest[0]);
    tail := TakeSets(rest[1..], rest[0]).value.1;
    assert rest == [rest[0]] + rest[1..];
  }

  /** A buffer the reader rewrites (rather than returns as it is) is such a record, or one
      that ends right after its SPS. */
  lemma RewrittenIsRecord(data: bytes) returns (r: Record)
    requires |data| >= 7 && HlsExtradata(H264, data) != data
    ensures ValidRecord(r)
    ensures data == PrintRecord(r) || (data == PrintStart(r) + PrintSets(r.sps) && r.pps == [])
    ensures HlsExtradata(H264, data) == Concat(r.sps) + Concat(r.pps)
  {
    var sps, pps, tail := ReadSectionsIsPrinted(data[6..], data[5] % 32);
    r := Record(data[..5], data[5] / 32, sps, pps, tail);
    StartOf(data, r);
  }

  lemma StartOf(data: bytes, r: Record)
    requires |data| >= 6 && ValidRecord(r)
    requires r.head == data[..5] && r.reserved == data[5] / 32 && |r.sps| == data[5] % 32
    ensures data == PrintStart(r) + data[6..]
  {
    assert data[5] == data[5] / 32 * 32 + data[5] % 32;
    assert data == (data[..5] + [data[5]]) + data[6..];
  }

  // --------------------------------------------------------------------- writer

  /** One SPS, the PPS count and one PPS. */
  function Pair(sps: bytes, pps: bytes): (s: bytes)
    ensures |s| == 5 + |sps| + |pps|
  {
    (Be(2, |sps|) + sps) + ([1] + (Be(2, |pps|) + pps))
  }

  /** The record the transcoder writes for one SPS and one PPS. */
  function BuildAvcc(sps: bytes, pps: bytes): (r: bytes)
    requires |sps| >= 4
  {
    ([1] + sps[1..4] + [0xFF, 0xE1]) + Pair(sps, pps)
  }

  lemma ReadsRecord(profile: bytes, rest: bytes)
    requires |profile| == 3 && rest != []
    ensures var data := ([1] + profile + [0xFF, 0xE1]) + rest;
            HlsExtradata(H264, data) == match ReadSections(rest, 1) { case Err => data case Ok(out) => out }
  {
    RecordStart(profile, rest);
    var data := ([1] + profile + [0xFF, 0xE1]) + rest;
    assert data[5] % 32 == 1 && data[6..] == rest && |data| >= 7;
  }

  lemma RecordStart(profile: bytes, rest: bytes)
    requires |profile| == 3
    ensures var r := ([1] + profile + [0xFF, 0xE1]) + rest;
            && |r| == 6 + |rest| && r[6..] == rest
            && r[0] == 1 && r[1..4] == profile && r[4] == 0xFF && r[5] == 0xE1
  {
  }

  lemma OneSetLength(data: bytes)
    requires TakeSets(data, 1).Ok?
    ensures |data| >= 2 && |TakeSets(data, 1).value.0| == FromBe(data[..2]) < 0x1_0000
  {
    Capacities();
    var len := FromBe(data[..2]);
    TakeSetsStep(data, data[2..2 + len], data[2 + len..], 1);
    assert TakeSets(data[2 + len..], 0) == Ok(([], data[2 + len..]));
  }

  /** A set longer than its length field can say is read short. */
  lemma FirstSetTooLong(sps: bytes, more: bytes)
    requires |sps| >= 0x1_0000
    ensures var r := TakeSets((Be(2, |sps|) + sps) + more, 1);
            r.Ok? ==> |r.value.0| <= |sps| - 0x1_0000
  {
    var data := (Be(2, |sps|) + sps) + more;
    Capacities();
    FromBeOfTruncated(2, |sps|);
    SetSlices(Be(2, |sps|), sps, more);
    if TakeSets(data, 1).Ok? {
      OneSetLength(data);
    }
  }

  /** What is read behind a first set of `taken` bytes cannot make up for what it missed. */
  lemma SecondIsShort(rest: bytes, total: nat, taken: nat)
    requires rest != [] && TakeSets(rest[1..], rest[0]).Ok?
    requires taken + 2 + |rest| == total + 5 && taken + 0x1_0000 <= total
    ensures taken + |TakeSets(rest[1..], rest[0]).value.0| != total
  {
    if rest[0] == 1 {
      OneSetLength(rest[1..]);
    }
  }

  lemma SpsTooLong(sps: bytes, pps: bytes)
    requires |sps| >= 0x1_0000
    ensures var r := ReadSections(Pair(sps, pps), 1);
            r.Ok? ==> |r.value| != |sps| + |pps|
  {
    var first := TakeSets(Pair(sps, pps), 1);
    FirstSetTooLong(sps, [1] + (Be(2, |pps|) + pps));
    if first.Ok? && first.value.1 != [] && ReadSections(Pair(sps, pps), 1).Ok? {
      SecondIsShort(first.value.1, |sps| + |pps|, |first.value.0|);
    }
  }

  /** Behind an SPS that fits, the PPS is read as it stands. */
  lemma PpsAfterSps(sps: bytes, second: bytes)
    requires |sps| < 0x1_0000
    ensures var pps := TakeSets(second, 1);
            ReadSections((Be(2, |sps|) + sps) + ([1] + second), 1)
            == if pps.Err? then Err else Ok(sps + pps.value.0)
  {
    var rest := [1] + second;
    assert rest[1..] == second;
    TakeSetsOfPrint([sps], rest);
    assert PrintSets([sps]) == Be(2, |sps|) + sps && Concat([sps]) == sps;
  }

  lemma PpsTooLong(sps: bytes, pps: bytes)
    requires |sps| < 0x1_0000 <= |pps|
    ensures var r := ReadSections(Pair(sps, pps), 1);
            r.Ok? ==> |r.value| < |sps| + |pps|
  {
    var second := Be(2, |pps|) + pps;
    PpsAfterSps(sps, second);
    if TakeSets(second, 1).Ok? {
      OneSetLength(second);
    }
  }

  lemma BothFit(sps: bytes, pps: bytes)
    requires |sps| < 0x1_0000 && |pps| < 0x1_0000
    ensures ReadSections(Pair(sps, pps), 1) == Ok(sps + pps)
  {
    var second := Be(2, |pps|) + pps;
    PpsAfterSps(sps, second);
    TakeSetsOfPrint([pps], []);
    assert PrintSets([pps]) + [] == second && Concat([pps]) == pps;
  }

  /** Writer and reader agree, SPS then PPS byte for byte, exactly when both lengths fit the
      record's 16-bit fields. */
  lemma WriterReaderAgree(sps: bytes, pps: bytes)
    requires |sps| >= 4
    ensures HlsExtradata(H264, BuildAvcc(sps, pps)) == sps + pps
            <==> |sps| < 0x1_0000 && |pps| < 0x1_0000
  {
    ReadsRecord(sps[1..4], Pair(sps, pps));
    if |sps| >= 0x1_0000 {
      SpsTooLong(sps, pps);
    } else if |pps| >= 0x1_0000 {
      PpsTooLong(sps, pps);
    } else {
      BothFit(sps, pps);
    }
  }

  // ------------------------------------------------ sequence header of the transcoder

  predicate HasType(nal: bytes, t: nat)
  {
    nal != [] && nal[0] % 32 == t
  }

  /** The first NAL of a type. */
  function FirstOfType(nals: seq<bytes>, t: nat): (r: Option<bytes>)
  {
    if nals == [] then None
    else if HasType(nals[0], t) then Some(nals[0])
    else FirstOfType(nals[1..], t)
  }

  lemma {:induction false} FirstOfTypeIs(nals: seq<bytes>, t: nat)
    ensures FirstOfType(nals, t).None? <==> forall i :: 0 <= i < |nals| ==> !HasType(nals[i], t)
    ensures FirstOfType(nals, t).Some?
            ==> exists i :: && 0 <= i < |nals| && FirstOfType(nals, t) == Some(nals[i])
                            && HasType(nals[i], t) && forall j :: 0 <= j < i ==> !HasType(nals[j], t)
  {
    if nals != [] && !HasType(nals[0], t) {
      FirstOfTypeIs(nals[1..], t);
      if FirstOfType(nals, t).Some? {
        var i :| && 0 <= i < |nals[1..]| && FirstOfType(nals[1..], t) == Some(nals[1..][i])
                 && HasType(nals[1..][i], t) && forall j :: 0 <= j < i ==> !HasType(nals[1..][j], t);
        forall j | 0 <= j < i + 1
          ensures !HasType(nals[j], t)
        {
          if j > 0 {
            assert nals[j] == nals[1..][j - 1];
          }
        }
        assert nals[i + 1] == nals[1..][i];
      }
    }
  }

  /** First SPS (type 7, at least four bytes) and first PPS (type 8) of an access unit. */
  function SpsPps(annexb: bytes): (r: Option<(bytes, bytes)>)
  {
    var sps, pps := FirstOfType(Nals(annexb), 7), FirstOfType(Nals(annexb), 8);
    if sps.Some? && pps.Some? && |sps.value| >= 4 then Some((sps.value, pps.value)) else None
  }

  /** The first NAL unit whose type, the low five bits of its first byte, is `t`. */
  ghost predicate IsFirst(nals: seq<bytes>, t: nat, nal: bytes)
  {
    exists i :: && 0 <= i < |nals| && nals[i] == nal && nal != [] && nal[0] % 32 == t
                && forall j :: 0 <= j < i ==> nals[j] == [] || nals[j][0] % 32 != t
  }

  lemma FirstIsFirst(nals: seq<bytes>, t: nat, nal: bytes)
    ensures FirstOfType(nals, t) == Some(nal) <==> IsFirst(nals, t, nal)
  {
    FirstOfTypeIs(nals, t);
    if i :| && 0 <= i < |nals| && nals[i] == nal && nal != [] && nal[0] % 32 == t
            && forall j :: 0 <= j < i ==> nals[j] == [] || nals[j][0] % 32 != t {
      assert HasType(nals[i], t);
      assert forall j :: 0 <= j < i ==> !HasType(nals[j], t);
    }
  }

  /** The pair is the first NAL unit of type 7 and the first of type 8, the former with the three
      profile bytes behind its first. */
  lemma SpsPpsAre(annexb: bytes, sps: bytes, pps: bytes)
    ensures SpsPps(annexb) == Some((sps, pps))
            <==> IsFirst(Nals(annexb), 7, sps) && IsFirst(Nals(annexb), 8, pps) && |sps| >= 4
  {
    FirstIsFirst(Nals(annexb), 7, sps);
    FirstIsFirst(Nals(annexb), 8, pps);
  }

  function Either<T>(a: Option<T>, b: Option<T>): (r: Option<T>)
  {
    if a.Some? then a else b
  }

  /** `extract_sps_pps`: one pass that stops as soon as both are found. */
  method ExtractSpsPps(annexb: bytes) returns (r: Option<(bytes, bytes)>)
    ensures r == SpsPps(annexb)
  {
    var nals := SplitAnnexB(annexb);
    var sps: Option<bytes>, pps: Option<bytes> := None, None;
    var i := 0;
    assert nals[0..] == nals;
    while i < |nals|
      invariant 0 <= i <= |nals|
      invariant FirstOfType(nals, 7) == Either(sps, FirstOfType(nals[i..], 7))
      invariant FirstOfType(nals, 8) == Either(pps, FirstOfType(nals[i..], 8))
    {
      var nal := nals[i];
      assert nals[i..][1..] == nals[i + 1..];
      i := i + 1;
      if nal == [] {
        continue;
      }
      if nal[0] % 32 == 7 && sps.None? {
        sps := Some(nal);
      } else if nal[0] % 32 == 8 && pps.None? {
        pps := Some(nal);
      }
      if sps.Some? && pps.Some? {
        break;
      }
    }
    if sps.Some? && pps.Some? && |sps.value| >= 4 {
      r := Some((sps.value, pps.value));
    } else {
      r := None;
    }
  }

  function FirstKeyframe(out: seq<EncodedPacket>): (r: Option<EncodedPacket>)
  {
    if out == [] then None
    else if out[0].isKeyframe && !out[0].isSequenceHeader then Some(out[0])
    else FirstKeyframe(out[1..])
  }

  /** The first keyframe of a batch, sequence headers not counted. */
  lemma {:induction false} FirstKeyframeIs(out: seq<EncodedPacket>, i: nat)
    requires i <= |out| && forall j :: 0 <= j < i ==> !out[j].isKeyframe || out[j].isSequenceHeader
    requires i < |out| ==> out[i].isKeyframe && !out[i].isSequenceHeader
    ensures FirstKeyframe(out) == if i == |out| then None else Some(out[i])
  {
    if i > 0 {
      FirstKeyframeIs(out[1..], i - 1);
    }
  }

  /** The synthesized sequence header. */
  function HeaderPacket(sps: bytes, pps: bytes): (p: EncodedPacket)
    requires |sps| >= 4
  {
    EncodedPacket(H264, [], None, None, true, true, Some(BuildAvcc(sps, pps)))
  }

  /** The part of the transcoder that announces the stream once. */
  class HeaderEmitter {
    var emitted: bool
    var outputParams: Option<bytes>

    constructor ()
      ensures !emitted && outputParams == None
    {
      emitted := false;
      outputParams := None;
    }

    /** The first batch with a keyframe settles the matter for good: its packets leave behind
        one header, or without one when the keyframe has no usable SPS and PPS. */
    method MaybeEmitSequenceHeader(batch: seq<EncodedPacket>) returns (out: seq<EncodedPacket>)
      modifies this
      ensures old(emitted) || FirstKeyframe(batch).None?
              ==> out == batch && emitted == old(emitted) && outputParams == old(outputParams)
      ensures !old(emitted) && FirstKeyframe(batch).Some?
              ==> && emitted
                  && match SpsPps(FirstKeyframe(batch).value.data)
                     case None => out == batch && outputParams == old(outputParams)
                     case Some((sps, pps)) =>
                       && out == [HeaderPacket(sps, pps)] + batch
                       && outputParams == (if old(outputParams).Some? then old(outputParams) else Some(sps + pps))
                       && (|sps| < 0x1_0000 && |pps| < 0x1_0000
                           <==> HlsExtradata(H264, out[0].extradata.value) == sps + pps)
    {
      out := batch;
      if emitted {
        return;
      }
      var keyframe: Option<EncodedPacket> := None;
      var i := 0;
      assert batch[0..] == batch;
      while i < |batch| && keyframe.None?
        invariant 0 <= i <= |batch|
        invariant FirstKeyframe(batch) == Either(keyframe, FirstKeyframe(batch[i..]))
      {
        if batch[i].isKeyframe && !batch[i].isSequenceHeader {
          keyframe := Some(batch[i]);
        }
        i := i + 1;
      }
      if keyframe.None? {
        return;
      }
      var sets := ExtractSpsPps(keyframe.value.data);
      if sets.Some? {
        var (sps, pps) := sets.value;
        out := [HeaderPacket(sps, pps)] + batch;
        if outputParams.None? {
          outputParams := Some(sps + pps);
        }
        WriterReaderAgree(sps, pps);
      }
      emitted := true;
    }
  }
}
