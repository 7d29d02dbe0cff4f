/** The two framings of H.264 NAL units (Annex B start codes of ITU-T H.264 and the
    4-byte length prefixes of FLV/AVCC) and the conversions between them. */
module AnnexB {
  import opened Bytes

  // ---------------------------------------------------------------- start codes

  /** `00 00 00 01` when `long`, else `00 00 01`. */
  function StartCode(long: bool): (s: bytes)
  {
    if long then [0, 0, 0, 1] else [0, 0, 1]
  }

  predicate ShortAt(data: bytes, i: nat)
  {
    i + 3 <= |data| && data[i] == 0 && data[i + 1] == 0 && data[i + 2] == 1
  }

  predicate LongAt(data: bytes, i: nat)
  {
    i + 4 <= |data| && data[i] == 0 && data[i + 1] == 0 && data[i + 2] == 0 && data[i + 3] == 1
  }

  /** No `00 00 01` anywhere inside. */
  ghost predicate Free(nal: bytes)
  {
    forall i: nat :: !ShortAt(nal, i)
  }

  ghost predicate AllFree(nals: seq<bytes>)
  {
    forall i :: 0 <= i < |nals| ==> Free(nals[i])
  }

  // ---------------------------------------------------- splitting and its inverse

  /** A NAL unit with the width of the start code in front of it. */
  datatype Unit = Unit(long: bool, nal: bytes)

  /** A byte string cut at its start codes: what precedes the first one, then the units. */
  datatype Split = Split(head: bytes, units: seq<Unit>)

  function PrintUnits(units: seq<Unit>): (s: bytes)
  {
    if units == [] then []
    else StartCode(units[0].long) + (units[0].nal + PrintUnits(units[1..]))
  }

  function Print(s: Split): (r: bytes)
  {
    s.head + PrintUnits(s.units)
  }

  function NalsOf(units: seq<Unit>): (nals: seq<bytes>)
    ensures |nals| == |units|
    ensures forall i :: 0 <= i < |units| ==> nals[i] == units[i].nal
  {
    seq(|units|, i requires 0 <= i < |units| => units[i].nal)
  }

  /** The left-to-right scan, on values: `cur` holds the bytes since the last start code. */
  function Scan(cur: bytes, rest: bytes): (s: Split)
    decreases |rest|
  {
    if ShortAt(rest, 0) then
      var s := Scan([], rest[3..]);
      Split(cur, [Unit(false, s.head)] + s.units)
    else if LongAt(rest, 0) then
      var s := Scan([], rest[4..]);
      Split(cur, [Unit(true, s.head)] + s.units)
    else if rest == [] then Split(cur, [])
    else Scan(cur + [rest[0]], rest[1..])
  }

  /** The NAL units of an Annex B byte string. */
  function Nals(data: bytes): (nals: seq<bytes>)
  {
    NalsOf(Scan([], data).units)
  }

  /** A short start code may not follow a zero byte: that zero would belong to the code. */
  ghost predicate CanonicalUnits(prev: bytes, units: seq<Unit>)
    decreases |units|
  {
    units != [] ==>
      && Free(units[0].nal)
      && (units[0].long || prev == [] || prev[|prev| - 1] != 0)
      && CanonicalUnits(units[0].nal, units[1..])
  }

  ghost predicate Canonical(s: Split)
  {
    Free(s.head) && CanonicalUnits(s.head, s.units)
  }

  /** No start code begins inside `cur`, even when it would run on into `rest`. */
  ghost predicate Settled(cur: bytes, rest: bytes)
  {
    forall i: nat :: i < |cur| ==> !ShortAt(cur + rest, i) && !LongAt(cur + rest, i)
  }

  lemma SettledFree(cur: bytes, rest: bytes)
    requires Settled(cur, rest)
    ensures Free(cur)
    ensures ShortAt(rest, 0) ==> cur == [] || cur[|cur| - 1] != 0
  {
    forall i: nat
      ensures !ShortAt(cur, i)
    {
      if ShortAt(cur, i) {
        assert ShortAt(cur + rest, i);
      }
    }
    if ShortAt(rest, 0) && cur != [] && cur[|cur| - 1] == 0 {
      assert LongAt(cur + rest, |cur| - 1);
    }
  }

  lemma SettledStep(cur: bytes, rest: bytes)
    requires Settled(cur, rest) && rest != []
    requires !ShortAt(rest, 0) && !LongAt(rest, 0)
    ensures Settled(cur + [rest[0]], rest[1..])
  {
    assert cur + [rest[0]] + rest[1..] == cur + rest;
    assert !ShortAt(cur + rest, |cur|) && !LongAt(cur + rest, |cur|);
  }

  /** Printing with one more unit in front. */
  lemma PrintCons(long: bool, s: Split)
    ensures PrintUnits([Unit(long, s.head)] + s.units) == StartCode(long) + Print(s)
  {
    assert ([Unit(long, s.head)] + s.units)[1..] == s.units;
  }

  /** Splitting loses nothing: printing the pieces gives the input back. */
  lemma {:induction false} PrintOfScan(cur: bytes, rest: bytes)
    ensures Print(Scan(cur, rest)) == cur + rest
    decreases |rest|
  {
    if ShortAt(rest, 0) {
      PrintOfScan([], rest[3..]);
      CodeThenRest(rest, false);
      PrintedAfterCode(cur, false, rest[3..]);
    } else if LongAt(rest, 0) {
      PrintOfScan([], rest[4..]);
      CodeThenRest(rest, true);
      PrintedAfterCode(cur, true, rest[4..]);
    } else if rest != [] {
      PrintOfScan(cur + [rest[0]], rest[1..]);
      Assoc(cur, [rest[0]], rest[1..]);
      assert rest == [rest[0]] + rest[1..];
    }
  }

  /** And the pieces are in canonical form; in particular none contains a start code. */
  lemma {:induction false} ScanIsCanonical(cur: bytes, rest: bytes)
    requires Settled(cur, rest)
    ensures Canonical(Scan(cur, rest))
    decreases |rest|
  {
    SettledFree(cur, rest);
    if ShortAt(rest, 0) {
      ScanIsCanonical([], rest[3..]);
      CanonicalCons(cur, false, Scan([], rest[3..]));
    } else if LongAt(rest, 0) {
      ScanIsCanonical([], rest[4..]);
      CanonicalCons(cur, true, Scan([], rest[4..]));
    } else if rest != [] {
      SettledStep(cur, rest);
      ScanIsCanonical(cur + [rest[0]], rest[1..]);
    }
  }

  lemma CanonicalCons(cur: bytes, long: bool, s: Split)
    requires Free(cur) && Canonical(s)
    requires long || cur == [] || cur[|cur| - 1] != 0
    ensures Canonical(Split(cur, [Unit(long, s.head)] + s.units))
  {
    assert ([Unit(long, s.head)] + s.units)[1..] == s.units;
  }

  lemma CodeThenRest(rest: bytes, long: bool)
    requires if long then LongAt(rest, 0) else ShortAt(rest, 0)
    ensures rest == StartCode(long) + rest[|StartCode(long)|..]
  {
    assert rest[..|StartCode(long)|] == StartCode(long);
  }

  lemma PrintedAfterCode(cur: bytes, long: bool, tail: bytes)
    requires Print(Scan([], tail)) == tail
    ensures Print(Scan(cur, StartCode(long) + tail)) == cur + (StartCode(long) + tail)
  {
    ScanAtCode(cur, long, tail);
    PrintCons(long, Scan([], tail));
  }

  /** A free run of bytes in front of printed units does not complete a start code early. */
  lemma NoEarlyCode(cur: bytes, x: bytes, units: seq<Unit>)
    requires x != [] && Free(x) && CanonicalUnits(cur + x, units)
    ensures !ShortAt(x + PrintUnits(units), 0) && !LongAt(x + PrintUnits(units), 0)
  {
    var p := PrintUnits(units);
    assert !ShortAt(x, 0) && !ShortAt(x, 1);
    assert units != [] ==> p[0] == 0 && p[1] == 0 && (!units[0].long || p[2] == 0);
    assert (cur + x)[|cur + x| - 1] == x[|x| - 1];
  }

  lemma ScanAtCode(cur: bytes, long: bool, tail: bytes)
    ensures var s := Scan([], tail);
            Scan(cur, StartCode(long) + tail) == Split(cur, [Unit(long, s.head)] + s.units)
  {
    var rest := StartCode(long) + tail;
    assert if long then LongAt(rest, 0) && !ShortAt(rest, 0) else ShortAt(rest, 0);
    assert rest[|StartCode(long)|..] == tail;
  }

  lemma ScanAtByte(cur: bytes, x: bytes, p: bytes)
    requires x != [] && !ShortAt(x + p, 0) && !LongAt(x + p, 0)
    ensures Scan(cur, x + p) == Scan(cur + [x[0]], x[1..] + p)
    ensures cur + [x[0]] + x[1..] == cur + x
  {
    assert (x + p)[1..] == x[1..] + p;
  }

  /** Printing a canonical split and scanning it gives the split back: with `PrintOfScan`,
      splitting is a bijection between byte strings and canonical splits. */
  lemma {:induction false} ScanOfPrint(cur: bytes, x: bytes, units: seq<Unit>)
    requires Free(x) && CanonicalUnits(cur + x, units)
    ensures Scan(cur, x + PrintUnits(units)) == Split(cur + x, units)
    decreases |units|, |x|
  {
    if x != [] {
      NoEarlyCode(cur, x, units);
      ScanAtByte(cur, x, PrintUnits(units));
      FreeTail(x);
      ScanOfPrint(cur + [x[0]], x[1..], units);
    } else {
      assert x + PrintUnits(units) == PrintUnits(units) && cur + x == cur;
      if units != [] {
        var nal := units[0].nal;
        assert [] + nal == nal;
        ScanOfPrint([], nal, units[1..]);
        ScanAtUnit(cur, units);
      }
    }
  }

  lemma ScanAtUnit(cur: bytes, units: seq<Unit>)
    requires units != [] && Scan([], units[0].nal + PrintUnits(units[1..])) == Split(units[0].nal, units[1..])
    ensures Scan(cur, PrintUnits(units)) == Split(cur, units)
  {
    ScanAtCode(cur, units[0].long, units[0].nal + PrintUnits(units[1..]));
    assert [units[0]] + units[1..] == units;
  }

  lemma FreeTail(x: bytes)
    requires x != [] && Free(x)
    ensures Free(x[1..])
  {
    forall i: nat
      ensures !ShortAt(x[1..], i)
    {
      assert !ShortAt(x, i + 1);
    }
  }

  /** Both directions for a whole byte string. */
  lemma SplitBijection(data: bytes, s: Split)
    requires Canonical(s)
    ensures Canonical(Scan([], data)) && Print(Scan([], data)) == data
    ensures Scan([], Print(s)) == s
    ensures Scan([], data) == s <==> data == Print(s)
  {
    PrintOfScan([], data);
    ScanIsCanonical([], data);
    assert [] + data == data && [] + s.head == s.head;
    ScanOfPrint([], s.head, s.units);
  }

  lemma {:induction false} CanonicalNals(prev: bytes, units: seq<Unit>)
    requires CanonicalUnits(prev, units)
    ensures AllFree(NalsOf(units))
    decreases |units|
  {
    if units != [] {
      CanonicalNals(units[0].nal, units[1..]);
      assert NalsOf(units) == [units[0].nal] + NalsOf(units[1..]);
    }
  }

  /** No unit returned by the splitter contains `00 00 01`. */
  lemma NalsAreFree(data: bytes)
    ensures AllFree(Nals(data))
  {
    ScanIsCanonical([], data);
    CanonicalNals(Scan([], data).head, Scan([], data).units);
  }

  /** The NAL in front of the first unit, and those of the units. */
  function Heads(s: Split): (nals: seq<bytes>)
  {
    [s.head] + NalsOf(s.units)
  }

  lemma HeadsCons(cur: bytes, long: bool, s: Split)
    ensures NalsOf([Unit(long, s.head)] + s.units) == Heads(s)
    ensures Heads(Split(cur, [Unit(long, s.head)] + s.units)) == [cur] + Heads(s)
  {
    assert NalsOf([Unit(long, s.head)] + s.units) == [s.head] + NalsOf(s.units);
  }

  /** The NAL that ends at `i`, once a start code was seen. */
  function Ended(data: bytes, start: Option<nat>, i: nat): (nals: seq<bytes>)
    requires i <= |data| && (start.Some? ==> start.value <= i)
  {
    if start.Some? then [data[start.value..i]] else []
  }

  /** The scan by index: what the splitter still finds from `i` on. */
  function Rest(data: bytes, start: Option<nat>, i: nat): (nals: seq<bytes>)
    requires i <= |data| && (start.Some? ==> start.value <= i)
    decreases |data| - i
  {
    if ShortAt(data, i) then Ended(data, start, i) + Rest(data, Some(i + 3), i + 3)
    else if LongAt(data, i) then Ended(data, start, i) + Rest(data, Some(i + 4), i + 4)
    else if i == |data| then Ended(data, start, i)
    else Rest(data, start, i + 1)
  }

  lemma RestAtCode(data: bytes, start: Option<nat>, i: nat, long: bool)
    requires i <= |data| && (start.Some? ==> start.value <= i)
    requires if long then LongAt(data, i) else ShortAt(data, i)
    ensures var j := i + |StartCode(long)|;
            Rest(data, start, i) == Ended(data, start, i) + Rest(data, Some(j), j)
  {
  }

  lemma ScanCodeAt(cur: bytes, data: bytes, i: nat, long: bool)
    requires if long then LongAt(data, i) else ShortAt(data, i)
    ensures var s := Scan([], data[i + |StartCode(long)|..]);
            Scan(cur, data[i..]) == Split(cur, [Unit(long, s.head)] + s.units)
  {
    var k := |StartCode(long)|;
    assert data[i..i + k] == StartCode(long);
    assert data[i..] == StartCode(long) + data[i + k..];
    ScanAtCode(cur, long, data[i + k..]);
  }

  lemma ScanByteAt(cur: bytes, data: bytes, i: nat)
    requires i < |data| && !ShortAt(data, i) && !LongAt(data, i)
    ensures Scan(cur, data[i..]) == Scan(cur + [data[i]], data[i + 1..])
  {
    var rest := data[i..];
    assert !ShortAt(rest, 0) && !LongAt(rest, 0) && rest[1..] == data[i + 1..];
  }

  lemma {:induction false} RestOpen(data: bytes, start: nat, i: nat)
    requires start <= i <= |data|
    ensures Rest(data, Some(start), i) == Heads(Scan(data[start..i], data[i..]))
    decreases |data| - i, 1
  {
    var cur := data[start..i];
    if ShortAt(data, i) {
      OpenAtCode(data, start, i, false);
    } else if LongAt(data, i) {
      OpenAtCode(data, start, i, true);
    } else if i < |data| {
      RestOpen(data, start, i + 1);
      ScanByteAt(cur, data, i);
      assert cur + [data[i]] == data[start..i + 1];
    } else {
      assert Scan(cur, []) == Split(cur, []) && NalsOf([]) == [];
    }
  }

  lemma {:induction false} OpenAtCode(data: bytes, start: nat, i: nat, long: bool)
    requires start <= i && if long then LongAt(data, i) else ShortAt(data, i)
    ensures Rest(data, Some(start), i) == Heads(Scan(data[start..i], data[i..]))
    decreases |data| - i, 0
  {
    var j := i + |StartCode(long)|;
    RestOpen(data, j, j);
    assert data[j..j] == [];
    ScanCodeAt(data[start..i], data, i, long);
    HeadsCons(data[start..i], long, Scan([], data[j..]));
    RestAtCode(data, Some(start), i, long);
  }

  lemma {:induction false} RestUnopened(data: bytes, cur: bytes, i: nat)
    requires i <= |data|
    ensures Rest(data, None, i) == NalsOf(Scan(cur, data[i..]).units)
    decreases |data| - i
  {
    if ShortAt(data, i) {
      UnopenedAtCode(data, cur, i, false);
    } else if LongAt(data, i) {
      UnopenedAtCode(data, cur, i, true);
    } else if i < |data| {
      RestUnopened(data, cur + [data[i]], i + 1);
      ScanByteAt(cur, data, i);
    } else {
      assert Scan(cur, []) == Split(cur, []) && NalsOf([]) == [];
    }
  }

  lemma UnopenedAtCode(data: bytes, cur: bytes, i: nat, long: bool)
    requires if long then LongAt(data, i) else ShortAt(data, i)
    ensures Rest(data, None, i) == NalsOf(Scan(cur, data[i..]).units)
  {
    var j := i + |StartCode(long)|;
    RestOpen(data, j, j);
    assert data[j..j] == [];
    ScanCodeAt(cur, data, i, long);
    HeadsCons(cur, long, Scan([], data[j..]));
    RestAtCode(data, None, i, long);
    assert [] + Rest(data, Some(j), j) == Rest(data, Some(j), j);
  }

  lemma RestIsNals(data: bytes)
    ensures Rest(data, None, 0) == Nals(data)
  {
    RestUnopened(data, [], 0);
    assert data[0..] == data;
  }

  lemma RestAtEnd(data: bytes, start: Option<nat>, i: nat)
    requires i <= |data| <= i + 2 && (start.Some? ==> start.value <= i)
    ensures Rest(data, start, i) == Ended(data, start, |data|)
    decreases |data| - i
  {
    if i < |data| {
      RestAtEnd(data, start, i + 1);
    }
  }

  /** `split_annexb`: the scanning loop. */
  method SplitAnnexB(data: bytes) returns (nals: seq<bytes>)
    ensures nals == Nals(data)
    ensures AllFree(nals)
  {
    nals := [];
    var start: Option<nat> := None;
    var i := 0;
    while i + 2 < |data|
      invariant 0 <= i <= |data|
      invariant start.Some? ==> start.value <= i
      invariant nals + Rest(data, start, i) == Rest(data, None, 0)
    {
      if data[i] == 0 && data[i + 1] == 0 && data[i + 2] == 1 {
        Assoc(nals, Ended(data, start, i), Rest(data, Some(i + 3), i + 3));
        nals := nals + Ended(data, start, i);
        i := i + 3;
        start := Some(i);
        continue;
      }
      if i + 3 < |data| && data[i] == 0 && data[i + 1] == 0 && data[i + 2] == 0 && data[i + 3] == 1 {
        Assoc(nals, Ended(data, start, i), Rest(data, Some(i + 4), i + 4));
        nals := nals + Ended(data, start, i);
        i := i + 4;
        start := Some(i);
        continue;
      }
      i := i + 1;
    }
    RestAtEnd(data, start, i);
    nals := nals + Ended(data, start, |data|);
    RestIsNals(data);
    NalsAreFree(data);
  }

  // ------------------------------------------------- Annex B with long start codes

  /** Every NAL behind a `00 00 00 01`. */
  function PrintLong(nals: seq<bytes>): (s: bytes)
  {
    if nals == [] then [] else (StartCode(true) + nals[0]) + PrintLong(nals[1..])
  }

  /** The pieces a single NAL breaks into when it contains start codes; `[nal]` when it is free. */
  function Pieces(nal: bytes): (r: seq<bytes>)
  {
    Heads(Scan([], nal))
  }

  function AllPieces(nals: seq<bytes>): (r: seq<bytes>)
  {
    if nals == [] then [] else Pieces(nals[0]) + AllPieces(nals[1..])
  }

  /** The units the scan finds in `PrintLong(nals)`, written down without scanning. */
  ghost function FoundUnits(nals: seq<bytes>): (units: seq<Unit>)
  {
    if nals == [] then []
    else
      var s := Scan([], nals[0]);
      [Unit(true, s.head)] + s.units + FoundUnits(nals[1..])
  }

  lemma {:induction false} PrintUnitsAppend(a: seq<Unit>, b: seq<Unit>)
    ensures PrintUnits(a + b) == PrintUnits(a) + PrintUnits(b)
  {
    if a == [] {
      assert a + b == b;
    } else {
      var code, nal, p, q := StartCode(a[0].long), a[0].nal, PrintUnits(a[1..]), PrintUnits(b);
      PrintUnitsAppend(a[1..], b);
      assert (a + b)[1..] == a[1..] + b;
      Assoc(nal, p, q);
      Assoc(code, nal + p, q);
    }
  }

  lemma NalsOfAppend(a: seq<Unit>, b: seq<Unit>)
    ensures NalsOf(a + b) == NalsOf(a) + NalsOf(b)
  {
  }

  lemma {:induction false} CanonicalAppend(prev: bytes, a: seq<Unit>, b: seq<Unit>, prev': bytes)
    requires CanonicalUnits(prev, a)
    requires b == [] || (b[0].long && CanonicalUnits(prev', b))
    ensures CanonicalUnits(prev, a + b)
    decreases |a|
  {
    if a == [] {
      assert a + b == b;
    } else {
      CanonicalAppend(a[0].nal, a[1..], b, prev');
      assert (a + b)[1..] == a[1..] + b;
    }
  }

  lemma {:induction false} FoundUnitsPrint(nals: seq<bytes>)
    ensures PrintUnits(FoundUnits(nals)) == PrintLong(nals)
    ensures NalsOf(FoundUnits(nals)) == AllPieces(nals)
  {
    if nals != [] {
      var s, rest := Scan([], nals[0]), FoundUnits(nals[1..]);
      FoundUnitsPrint(nals[1..]);
      FoundInOne(nals[0]);
      PrintUnitsAppend([Unit(true, s.head)] + s.units, rest);
      NalsOfAppend([Unit(true, s.head)] + s.units, rest);
    }
  }

  lemma LongUnit(s: Split)
    ensures var first := [Unit(true, s.head)] + s.units;
            && PrintUnits(first) == StartCode(true) + Print(s)
            && NalsOf(first) == [s.head] + NalsOf(s.units)
  {
    PrintCons(true, s);
    NalsOfAppend([Unit(true, s.head)], s.units);
    assert NalsOf([Unit(true, s.head)]) == [s.head];
  }

  lemma FoundInOne(nal: bytes)
    ensures var s := Scan([], nal);
            var first := [Unit(true, s.head)] + s.units;
            && PrintUnits(first) == StartCode(true) + nal
            && NalsOf(first) == Pieces(nal)
  {
    PrintOfScan([], nal);
    assert [] + nal == nal;
    LongUnit(Scan([], nal));
  }

  lemma {:induction false} FoundUnitsCanonical(nals: seq<bytes>, prev: bytes)
    ensures CanonicalUnits(prev, FoundUnits(nals))
    ensures FoundUnits(nals) != [] ==> FoundUnits(nals)[0].long
    decreases |nals|
  {
    if nals != [] {
      var s, rest := Scan([], nals[0]), FoundUnits(nals[1..]);
      var first := [Unit(true, s.head)] + s.units;
      ScanIsCanonical([], nals[0]);
      FoundUnitsCanonical(nals[1..], prev);
      assert first[1..] == s.units;
      CanonicalAppend(prev, first, rest, prev);
    }
  }

  /** Scanning printed NALs finds exactly the pieces of each NAL, for every list of NALs. */
  lemma NalsOfPrintLong(nals: seq<bytes>)
    ensures Nals(PrintLong(nals)) == AllPieces(nals)
  {
    FoundUnitsPrint(nals);
    FoundUnitsCanonical(nals, []);
    ScanOfPrint([], [], FoundUnits(nals));
    assert [] + PrintLong(nals) == PrintLong(nals);
  }

  lemma PiecesOfFree(nal: bytes)
    requires Free(nal)
    ensures Pieces(nal) == [nal]
  {
    ScanOfPrint([], nal, []);
    assert nal + PrintUnits([]) == nal && [] + nal == nal;
  }

  lemma {:induction false} AllPiecesOfFree(nals: seq<bytes>)
    requires AllFree(nals)
    ensures AllPieces(nals) == nals
  {
    if nals != [] {
      PiecesOfFree(nals[0]);
      AllPiecesOfFree(nals[1..]);
    }
  }

  // ------------------------------------------------------------- length prefixes

  /** Each NAL behind its 32-bit length; a longer NAL has its length truncated, as `as u32` does. */
  function PrintAvcc(nals: seq<bytes>): (s: bytes)
  {
    if nals == [] then [] else Be(4, |nals[0]|) + nals[0] + PrintAvcc(nals[1..])
  }

  /** The NALs of a length-prefixed byte string; reading stops at the first one cut short. */
  function AvccNals(data: bytes): (nals: seq<bytes>)
    decreases |data|
  {
    if |data| < 4 || 4 + FromBe(data[..4]) > |data| then []
    else
      var n := FromBe(data[..4]);
      [data[4..4 + n]] + AvccNals(data[4 + n..])
  }

  ghost predicate Fit(nals: seq<bytes>)
  {
    forall i :: 0 <= i < |nals| ==> |nals[i]| < 0x1_0000_0000
  }

  /** A sequence of whole length-prefixed NALs, none with a start code inside. */
  ghost predicate WellFramed(body: bytes)
    decreases |body|
  {
    body != [] ==>
      && |body| >= 4
      && 4 + FromBe(body[..4]) <= |body|
      && Free(body[4..4 + FromBe(body[..4])])
      && WellFramed(body[4 + FromBe(body[..4])..])
  }

  lemma PrintAvccFirst(nals: seq<bytes>)
    requires nals != [] && |nals[0]| < 0x1_0000_0000
    ensures var s := PrintAvcc(nals);
            && |s| >= 4 + |nals[0]|
            && FromBe(s[..4]) == |nals[0]|
            && s[4..4 + |nals[0]|] == nals[0]
            && s[4 + |nals[0]|..] == PrintAvcc(nals[1..])
  {
    Capacities();
    FromBeOfBe(4, |nals[0]|);
    assert PrintAvcc(nals)[..4] == Be(4, |nals[0]|);
  }

  lemma {:induction false} AvccNalsOfPrint(nals: seq<bytes>)
    requires Fit(nals)
    ensures AvccNals(PrintAvcc(nals)) == nals
  {
    if nals != [] {
      PrintAvccFirst(nals);
      AvccNalsOfPrint(nals[1..]);
    }
  }

  lemma {:induction false} AvccNalsFit(data: bytes)
    ensures Fit(AvccNals(data))
    decreases |data|
  {
    Capacities();
    if |data| >= 4 && 4 + FromBe(data[..4]) <= |data| {
      AvccNalsFit(data[4 + FromBe(data[..4])..]);
    }
  }

  lemma {:induction false} WellFramedPrint(nals: seq<bytes>)
    requires Fit(nals) && AllFree(nals)
    ensures WellFramed(PrintAvcc(nals))
  {
    if nals != [] {
      PrintAvccFirst(nals);
      WellFramedPrint(nals[1..]);
    }
  }

  lemma PrintAvccCons(nal: bytes, nals: seq<bytes>)
    ensures PrintAvcc([nal] + nals) == Be(4, |nal|) + nal + PrintAvcc(nals)
  {
    assert ([nal] + nals)[1..] == nals;
  }

  lemma {:induction false} WellFramedIsPrinted(body: bytes)
    requires WellFramed(body)
    ensures AllFree(AvccNals(body)) && PrintAvcc(AvccNals(body)) == body
    decreases |body|
  {
    if body != [] {
      var n := FromBe(body[..4]);
      WellFramedIsPrinted(body[4 + n..]);
      BeOfFromBe(body[..4]);
      ThreeParts(body, 4, 4 + n);
      PrintAvccCons(body[4..4 + n], AvccNals(body[4 + n..]));
    }
  }

  lemma AvccNalsAt(data: bytes, pos: nat)
    requires pos + 4 <= |data|
    ensures var n := FromBe(data[pos..pos + 4]);
            AvccNals(data[pos..])
            == if pos + 4 + n > |data| then []
               else [data[pos + 4..pos + 4 + n]] + AvccNals(data[pos + 4 + n..])
  {
    var n := FromBe(data[pos..pos + 4]);
    SliceOfDrop(data, pos, 0, 4);
    if pos + 4 + n <= |data| {
      SliceOfDrop(data, pos, 4, 4 + n);
      DropOfDrop(data, pos, 4 + n);
    }
  }

  lemma PrintLongStep(out: bytes, all: seq<bytes>, nal: bytes, nals: seq<bytes>)
    requires all == [nal] + nals
    ensures out + PrintLong(all) == out + [0, 0, 0, 1] + nal + PrintLong(nals)
  {
    assert all[0] == nal && all[1..] == nals;
    Assoc(out, StartCode(true) + nal, PrintLong(nals));
    Assoc(out, StartCode(true), nal);
  }

  lemma AvccStep(data: bytes, pos: nat, next: nat, out: bytes)
    requires pos + 4 <= next <= |data| && next == pos + 4 + FromBe(data[pos..pos + 4])
    ensures out + PrintLong(AvccNals(data[pos..]))
            == out + [0, 0, 0, 1] + data[pos + 4..next] + PrintLong(AvccNals(data[next..]))
  {
    AvccNalsAt(data, pos);
    PrintLongStep(out, AvccNals(data[pos..]), data[pos + 4..next], AvccNals(data[next..]));
  }

  /** `avcc_to_annex_b`: the reading loop. */
  method AvccToAnnexB(data: bytes) returns (out: bytes)
    ensures out == PrintLong(AvccNals(data))
  {
    out := [];
    var pos := 0;
    assert data[0..] == data;
    while pos + 4 <= |data|
      invariant 0 <= pos <= |data|
      invariant out + PrintLong(AvccNals(data[pos..])) == PrintLong(AvccNals(data))
    {
      var nalLen := FromBe(data[pos..pos + 4]);
      if pos + 4 + nalLen > |data| {
        AvccNalsAt(data, pos);
        break;
      }
      var next := pos + 4 + nalLen;
      AvccStep(data, pos, next, out);
      out := out + [0, 0, 0, 1];
      out := out + data[pos + 4..next];
      pos := next;
    }
  }
}
