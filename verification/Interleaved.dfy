/** The reader of an RTSP connection that is recording: interleaved frames (section 10.12 of
    RFC 2326), in-band requests and stray bytes. */
module Interleaved {
  import opened Bytes

  const DOLLAR: byte := 0x24
  const SPACE: byte := 0x20
  const LF: byte := 0x0A
  const CR: byte := 0x0D
  const MAX_REQUEST_LINE: nat := 4096
  const MAX_REQUEST: nat := 64 * 1024

  datatype Item = Frame(channel: byte, payload: bytes) | Request(data: bytes) | Stray(data: bytes)

  /** The Content-Length value found in a header block, if any; the text search itself is a
      parameter, so everything below holds for whatever it finds. */
  type ContentLength = bytes -> Option<nat>

  // --------------------------------------------------------------- request lines

  predicate MethodByte(b: byte)
  {
    0x41 <= b <= 0x5A || 0x30 <= b <= 0x39 || b == 0x5F
  }

  function StripSuffix(s: bytes, b: byte): (r: bytes)
  {
    if s != [] && s[|s| - 1] == b then s[..|s| - 1] else s
  }

  const RTSP_SLASH: bytes := [0x52, 0x54, 0x53, 0x50, 0x2F]

  predicate MethodUriVersion(parts: seq<bytes>)
  {
    && |parts| == 3 && parts[0] != [] && parts[1] != []
    && (forall i :: 0 <= i < |parts[0]| ==> MethodByte(parts[0][i]))
    && RTSP_SLASH <= parts[2]
  }

  /** `is_rtsp_request_line`. */
  predicate IsRequestLine(line: bytes)
  {
    MethodUriVersion(SplitOn(StripSuffix(StripSuffix(line, LF), CR), SPACE))
  }

  predicate IsAscii(s: string)
  {
    forall i :: 0 <= i < |s| ==> s[i] < 128 as char
  }

  function Ascii(s: string): (b: bytes)
    requires IsAscii(s)
    ensures |b| == |s|
  {
    seq(|s|, i requires 0 <= i < |s| => s[i] as int)
  }

  predicate IsMethodChar(c: char)
  {
    'A' <= c <= 'Z' || '0' <= c <= '9' || c == '_'
  }

  predicate IsMethodName(m: string)
  {
    m != [] && forall i :: 0 <= i < |m| ==> IsMethodChar(m[i])
  }

  /** METHOD SP URI SP RTSP/..., without further spaces. */
  predicate IsShape(line: bytes, m: bytes, u: bytes, v: bytes)
  {
    && line == m + ([0x20] + (u + ([0x20] + v))) && 0x20 !in m && 0x20 !in u && 0x20 !in v
    && m != [] && (forall i :: 0 <= i < |m| ==> IsMethodChar(m[i] as char))
    && u != []
    && Ascii("RTSP/") <= v
  }

  ghost predicate HasShape(line: bytes)
  {
    exists m, u, v :: IsShape(line, m, u, v)
  }

  lemma SplitThree(m: bytes, u: bytes, v: bytes)
    requires SPACE !in m && SPACE !in u && SPACE !in v
    ensures SplitOn(m + ([SPACE] + (u + ([SPACE] + v))), SPACE) == [m, u, v]
  {
    SplitOfJoin(m, u + ([SPACE] + v), SPACE);
    SplitOfJoin(u, v, SPACE);
    SplitOfNoSep(v, SPACE);
  }

  lemma TextShape(text: bytes)
    ensures MethodUriVersion(SplitOn(text, SPACE)) <==> HasShape(text)
  {
    var parts := SplitOn(text, SPACE);
    assert Ascii("RTSP/") == RTSP_SLASH;
    if MethodUriVersion(parts) {
      JoinOfSplit(text, SPACE);
      var m, u, v := parts[0], parts[1], parts[2];
      assert parts == [m, u, v] && parts[1..] == [u, v] && parts[1..][1..] == [v];
      assert Join([v], SPACE) == v && Join([u, v], SPACE) == u + ([SPACE] + v);
      assert Join(parts, SPACE) == m + ([SPACE] + Join([u, v], SPACE));
      assert IsShape(text, m, u, v);
    }
    if m, u, v :| IsShape(text, m, u, v) {
      SplitThree(m, u, v);
    }
  }

  /** Neither line end can be part of what the shape asks for. */
  lemma StripKeepsShape(line: bytes, b: byte)
    requires b in {LF, CR}
    ensures HasShape(line) <==> HasShape(StripSuffix(line, b))
  {
    var text := StripSuffix(line, b);
    if text != line {
      assert line == text + [b];
      if m, u, v :| IsShape(line, m, u, v) {
        assert v[|v| - 1] == b && |v| > 5;
        assert IsShape(text, m, u, v[..|v| - 1]);
      }
      if m, u, v :| IsShape(text, m, u, v) {
        assert line == m + ([0x20] + (u + ([0x20] + (v + [b]))));
        assert IsShape(line, m, u, v + [b]);
      }
    }
  }

  /** Request lines are exactly METHOD SP URI SP RTSP/..., the method being of upper-case letters,
      digits and underscores; the line ends that are stripped first make no difference. */
  lemma RequestLineShape(line: bytes)
    ensures IsRequestLine(line) <==> HasShape(line)
  {
    StripKeepsShape(line, LF);
    StripKeepsShape(StripSuffix(line, LF), CR);
    TextShape(StripSuffix(StripSuffix(line, LF), CR));
  }

  /** The methods in use, with any URI. */
  lemma MethodsInUse(u: bytes)
    requires u != [] && SPACE !in u
    ensures forall m :: m in {"OPTIONS", "ANNOUNCE", "SETUP", "RECORD", "TEARDOWN", "GET_PARAMETER", "SET_PARAMETER"} ==>
              IsAscii(m) && IsRequestLine(Ascii(m) + ([SPACE] + (u + ([SPACE] + Ascii("RTSP/1.0\r\n")))))
  {
    forall m | m in {"OPTIONS", "ANNOUNCE", "SETUP", "RECORD", "TEARDOWN", "GET_PARAMETER", "SET_PARAMETER"}
      ensures IsAscii(m) && IsRequestLine(Ascii(m) + ([SPACE] + (u + ([SPACE] + Ascii("RTSP/1.0\r\n")))))
    {
      assert IsMethodName(m);
      NameMakesLine(m, u);
    }
  }

  lemma NameMakesLine(name: string, u: bytes)
    requires IsMethodName(name) && u != [] && SPACE !in u
    ensures IsAscii(name) && IsRequestLine(Ascii(name) + ([SPACE] + (u + ([SPACE] + Ascii("RTSP/1.0\r\n")))))
  {
    assert forall i :: 0 <= i < |name| ==> IsMethodChar(name[i]) && name[i] < 128 as char;
    var m, v := Ascii(name), Ascii("RTSP/1.0\r\n");
    assert v[..5] == Ascii("RTSP/");
    assert IsShape(m + ([SPACE] + (u + ([SPACE] + v))), m, u, v);
    RequestLineShape(m + ([SPACE] + (u + ([SPACE] + v))));
  }

  /** Whatever stands between two spaces, the method and the version decide. */
  lemma LineOfParts(m: bytes, u: bytes, v: bytes)
    requires SPACE !in m && SPACE !in u && SPACE !in v
    ensures var line := m + ([SPACE] + (u + ([SPACE] + v)));
            IsRequestLine(line) <==> IsShape(line, m, u, v)
  {
    var line := m + ([SPACE] + (u + ([SPACE] + v)));
    RequestLineShape(line);
    if m', u', v' :| IsShape(line, m', u', v') {
      SplitThree(m, u, v);
      SplitThree(m', u', v');
      assert [m, u, v][0] == [m', u', v'][0] && [m, u, v][1] == [m', u', v'][1] && [m, u, v][2] == [m', u', v'][2];
    }
  }

  // ---------------------------------------------------------- what the reader finds

  /** Length of the line that starts `input`, when `n` bytes of it are read: up to the
      first newline behind the first byte, or the cap; `None` when the input ends before. */
  function LineEnd(input: bytes, n: nat): (m: Option<nat>)
    requires n <= |input|
    ensures m.Some? ==> n <= m.value <= |input|
    decreases |input| - n
  {
    if n >= MAX_REQUEST_LINE then Some(n)
    else if n == |input| then None
    else if input[n] == LF then Some(n + 1)
    else LineEnd(input, n + 1)
  }

  predicate EndsHeaders(input: bytes, n: nat)
  {
    4 <= n <= |input| && input[n - 4] == CR && input[n - 3] == LF && input[n - 2] == CR && input[n - 1] == LF
  }

  /** Where the header block ends, when `n` bytes of it are read. */
  function HeaderEnd(input: bytes, n: nat): (h: Option<nat>)
    requires n <= |input|
    ensures h.Some? ==> n <= h.value <= |input| && EndsHeaders(input, h.value)
    decreases |input| - n
  {
    if EndsHeaders(input, n) then Some(n)
    else if n >= MAX_REQUEST || n == |input| then None
    else HeaderEnd(input, n + 1)
  }

  /** Length of a whole request whose header block has length `h`. */
  function WithBody(cl: ContentLength, input: bytes, h: nat): (n: Option<nat>)
    requires h <= |input|
    ensures n.Some? ==> h <= n.value <= |input|
  {
    match cl(input[..h])
    case None => Some(h)
    case Some(len) => if h + len > MAX_REQUEST || h + len > |input| then None else Some(h + len)
  }

  predicate IsRequestStart(line: bytes)
  {
    line != [] && line[|line| - 1] == LF && IsRequestLine(line)
  }

  function NextText(cl: ContentLength, input: bytes): (r: Result<(Item, nat)>)
    requires input != []
  {
    match LineEnd(input, 1)
    case None => Err
    case Some(m) =>
      if !IsRequestStart(input[..m]) then Ok((Stray(input[..m]), m))
      else
        match HeaderEnd(input, m)
        case None => Err
        case Some(h) =>
          match WithBody(cl, input, h)
          case None => Err
          case Some(n) => Ok((Request(input[..n]), n))
  }

  function NextFrame(input: bytes): (r: Result<(Item, nat)>)
    requires input != []
  {
    if |input| < 4 || 4 + FromBe(input[2..4]) > |input| then Err
    else
      var end := 4 + FromBe(input[2..4]);
      Ok((Frame(input[1], input[4..end]), end))
  }

  /** `next_item`: the next item and how many bytes it took; `Err` at end of input or when a
      request is too large. */
  function NextItem(cl: ContentLength, input: bytes): (r: Result<(Item, nat)>)
  {
    if input == [] then Err
    else if input[0] == DOLLAR then NextFrame(input)
    else NextText(cl, input)
  }

  function Print(item: Item): (s: bytes)
  {
    match item
    case Frame(channel, payload) => [DOLLAR, channel] + Be(2, |payload|) + payload
    case Request(data) => data
    case Stray(data) => data
  }

  // ------------------------------------------------------------------ valid items

  /** `m` bytes form the first line: no newline behind the first byte and before the last. */
  predicate IsLine(s: bytes, m: nat)
  {
    && 2 <= m <= |s| && m <= MAX_REQUEST_LINE
    && (s[m - 1] == LF || m == MAX_REQUEST_LINE)
    && forall k :: 1 <= k < m - 1 ==> s[k] != LF
  }

  /** `h` is the first end of headers at or behind `m`. */
  predicate IsHeaderEnd(s: bytes, m: nat, h: nat)
  {
    && m <= h && h <= MAX_REQUEST && EndsHeaders(s, h)
    && forall k: nat :: m <= k < h ==> !EndsHeaders(s, k)
  }

  ghost predicate ValidRequest(cl: ContentLength, s: bytes)
  {
    s != [] && s[0] != DOLLAR &&
    exists m: nat, h: nat ::
      && IsLine(s, m) && IsRequestStart(s[..m])
      && IsHeaderEnd(s, m, h)
      && match cl(s[..h])
         case None => |s| == h
         case Some(len) => |s| == h + len <= MAX_REQUEST
  }

  ghost predicate ValidItem(cl: ContentLength, item: Item)
  {
    match item
    case Frame(_, payload) => |payload| < 0x1_0000
    case Request(data) => ValidRequest(cl, data) && |data| <= MAX_REQUEST
    case Stray(data) => data != [] && data[0] != DOLLAR && IsLine(data, |data|) && !IsRequestStart(data)
  }

  lemma {:induction false} LineEndFinds(input: bytes, n: nat, m: nat)
    requires 1 <= n <= m - 1 && IsLine(input, m)
    ensures LineEnd(input, n) == Some(m)
    decreases m - n
  {
    if n < m - 1 {
      LineEndFinds(input, n + 1, m);
    } else if input[n] != LF {
      assert LineEnd(input, n + 1) == Some(m);
    }
  }

  lemma {:induction false} LineEndIs(input: bytes, n: nat)
    requires 1 <= n <= |input| && LineEnd(input, n).Some?
    requires n < MAX_REQUEST_LINE && forall k :: 1 <= k < n ==> input[k] != LF
    ensures IsLine(input, LineEnd(input, n).value)
    decreases |input| - n
  {
    if input[n] != LF && n + 1 < MAX_REQUEST_LINE {
      LineEndIs(input, n + 1);
    }
  }

  lemma {:induction false} HeaderEndFinds(input: bytes, n: nat, h: nat)
    requires n <= |input| && IsHeaderEnd(input, n, h)
    ensures HeaderEnd(input, n) == Some(h)
    decreases h - n
  {
    if n < h {
      HeaderEndFinds(input, n + 1, h);
    }
  }

  lemma {:induction false} HeaderEndIs(input: bytes, m: nat, n: nat)
    requires m <= n <= |input| && n <= MAX_REQUEST && HeaderEnd(input, n).Some?
    requires forall k: nat :: m <= k < n ==> !EndsHeaders(input, k)
    ensures IsHeaderEnd(input, m, HeaderEnd(input, n).value)
    decreases |input| - n
  {
    if !EndsHeaders(input, n) {
      HeaderEndIs(input, m, n + 1);
    }
  }

  // ------------------------------------------------- every item read is what was there

  lemma FrameRead(input: bytes)
    requires input != [] && input[0] == DOLLAR && NextFrame(input).Ok?
    ensures var (item, n) := NextFrame(input).value;
            n <= |input| && Print(item) == input[..n] && |item.payload| < 0x1_0000
  {
    var n := NextFrame(input).value.1;
    Capacities();
    BeOfFromBe(input[2..4]);
    assert input[..n] == [input[0], input[1]] + input[2..4] + input[4..n];
  }

  lemma TextRead(cl: ContentLength, input: bytes)
    requires input != [] && input[0] != DOLLAR && NextText(cl, input).Ok?
    ensures var (item, n) := NextText(cl, input).value;
            1 <= n <= |input| && Print(item) == input[..n] && ValidItem(cl, item)
  {
    var m := LineEnd(input, 1).value;
    LineEndIs(input, 1);
    var (item, n) := NextText(cl, input).value;
    if item.Stray? {
      assert IsLine(input[..m], m);
    } else {
      var h := HeaderEnd(input, m).value;
      HeaderEndIs(input, m, m);
      RequestPrefix(cl, input, m, h, n);
    }
  }

  lemma RequestPrefix(cl: ContentLength, input: bytes, m: nat, h: nat, n: nat)
    requires input != [] && input[0] != DOLLAR && h <= n <= |input|
    requires IsLine(input, m) && IsRequestStart(input[..m]) && IsHeaderEnd(input, m, h)
    requires WithBody(cl, input, h) == Some(n)
    ensures ValidRequest(cl, input[..n]) && n <= MAX_REQUEST
  {
    var s := input[..n];
    assert s[..m] == input[..m] && s[..h] == input[..h];
    assert IsLine(s, m);
    assert IsHeaderEnd(s, m, h) by {
      assert forall k: nat :: m <= k < h ==> (EndsHeaders(s, k) <==> EndsHeaders(input, k));
    }
  }

  /** Lossless: an item, printed, is exactly the bytes it was read from, and it respects the
      limits (4096 for stray bytes, 64 KiB for requests). */
  lemma ItemRead(cl: ContentLength, input: bytes)
    requires NextItem(cl, input).Ok?
    ensures var (item, n) := NextItem(cl, input).value;
            && 1 <= n <= |input| && Print(item) == input[..n] && ValidItem(cl, item)
            && (item.Stray? ==> n <= 4096) && (item.Request? ==> n <= 65536)
  {
    if input[0] == DOLLAR {
      FrameRead(input);
    } else {
      TextRead(cl, input);
    }
  }

  // -------------------------------------------------- every valid item is read back

  lemma FrameSlices<T>(head: seq<T>, length: seq<T>, payload: seq<T>, rest: seq<T>)
    requires |head| == 2 && |length| == 2
    ensures var s := (head + length + payload) + rest;
            && |s| == 4 + |payload| + |rest| && s[..2] == head
            && s[2..4] == length && s[4..4 + |payload|] == payload
  {
  }

  lemma FrameFound(channel: byte, payload: bytes, rest: bytes)
    requires |payload| < 0x1_0000
    ensures NextFrame(Print(Frame(channel, payload)) + rest)
            == Ok((Frame(channel, payload), 4 + |payload|))
  {
    Capacities();
    FromBeOfBe(2, |payload|);
    FrameSlices([DOLLAR, channel], Be(2, |payload|), payload, rest);
    var input := Print(Frame(channel, payload)) + rest;
    assert input[1] == input[..2][1];
  }

  lemma StrayFound(cl: ContentLength, data: bytes, rest: bytes)
    requires ValidItem(cl, Stray(data))
    ensures NextText(cl, data + rest) == Ok((Stray(data), |data|))
  {
    var input := data + rest;
    Prefixed(data, rest);
    assert IsLine(input, |data|);
    LineEndFinds(input, 1, |data|);
  }

  lemma RequestFound(cl: ContentLength, data: bytes, rest: bytes)
    requires ValidItem(cl, Request(data))
    ensures NextText(cl, data + rest) == Ok((Request(data), |data|))
  {
    var input := data + rest;
    Prefixed(data, rest);
    var m: nat, h: nat :|
      && IsLine(data, m) && IsRequestStart(data[..m]) && IsHeaderEnd(data, m, h)
      && match cl(data[..h])
         case None => |data| == h
         case Some(len) => |data| == h + len <= MAX_REQUEST;
    assert input[..m] == data[..m] && input[..h] == data[..h];
    assert IsLine(input, m);
    LineEndFinds(input, 1, m);
    assert IsHeaderEnd(input, m, h) by {
      assert forall k: nat :: m <= k < h ==> (EndsHeaders(input, k) <==> EndsHeaders(data, k));
    }
    HeaderEndFinds(input, m, h);
  }

  lemma ItemFound(cl: ContentLength, item: Item, rest: bytes)
    requires ValidItem(cl, item)
    ensures NextItem(cl, Print(item) + rest) == Ok((item, |Print(item)|))
    ensures Print(item) != []
  {
    var input := Print(item) + rest;
    match item
    case Frame(channel, payload) => FrameFound(channel, payload, rest);
    case Request(data) =>
      assert input[0] == data[0];
      RequestFound(cl, data, rest);
    case Stray(data) =>
      assert input[0] == data[0];
      StrayFound(cl, data, rest);
  }

  // ------------------------------------------------------------------- on the wire

  /** A frame: `$`, the channel, two length bytes and the payload; nothing if it is cut short. */
  lemma FrameOnTheWire(cl: ContentLength, channel: byte, high: byte, low: byte, more: bytes)
    ensures var n := (high as int) * 256 + low;
            NextItem(cl, Ascii("$") + ([channel, high, low] + more))
            == if n <= |more| then Ok((Frame(channel, more[..n]), 4 + n)) else Err
  {
    var input: bytes := Ascii("$") + ([channel, high, low] + more);
    var len := input[2..4];
    assert len == [high, low] && len[..1] == [high] && [high][..0] == [];
    assert FromBe(len) == 256 * FromBe([high]) + low && FromBe([high]) == high;
    assert input[4..] == more;
    if FromBe(len) <= |more| {
      assert input[4..4 + FromBe(len)] == more[..FromBe(len)];
    }
  }

  /** The first line: up to the first line feed behind its first byte, or 4096 bytes. */
  predicate IsFirstLine(line: bytes)
  {
    && 2 <= |line| <= 4096 && line[0] as char != '$'
    && (line[|line| - 1] as char == '\n' || |line| == 4096)
    && forall k :: 1 <= k < |line| - 1 ==> line[k] as char != '\n'
  }

  predicate EmptyLineEnds(s: bytes, n: nat)
  {
    4 <= n <= |s| && s[n - 4..n] == Ascii("\r\n\r\n")
  }

  /** A request line and headers up to the first empty line. */
  ghost predicate IsHead(line: bytes, head: bytes)
  {
    && IsFirstLine(line) && line[|line| - 1] as char == '\n' && HasShape(line)
    && line <= head && EmptyLineEnds(head, |head|)
    && forall k: nat :: |line| <= k < |head| ==> !EmptyLineEnds(head, k)
  }

  /** A request: its head and the announced body, 64 KiB at most together. */
  lemma RequestOnTheWire(cl: ContentLength, line: bytes, head: bytes, body: bytes, rest: bytes)
    requires IsHead(line, head) && |head| + |body| <= 65536
    requires cl(head) == Some(|body|) || (cl(head).None? && body == [])
    ensures NextItem(cl, head + body + rest) == Ok((Request(head + body), |head| + |body|))
  {
    HeadIsValid(cl, line, head, body);
    ItemFound(cl, Request(head + body), rest);
  }

  lemma HeadIsValid(cl: ContentLength, line: bytes, head: bytes, body: bytes)
    requires IsHead(line, head) && |head| + |body| <= 65536
    requires cl(head) == Some(|body|) || (cl(head).None? && body == [])
    ensures ValidItem(cl, Request(head + body))
  {
    assert IsRequestStart(line) by {
      RequestLineShape(line);
    }
    assert IsHeaderEnd(head + body, |line|, |head|) by {
      HeadersEnd(line, head, body);
    }
    LineOfRequest(line, head, body);
  }

  lemma LineOfRequest(line: bytes, head: bytes, body: bytes)
    requires line <= head && IsFirstLine(line)
    ensures IsLine(head + body, |line|) && (head + body)[..|line|] == line
    ensures (head + body)[..|head|] == head && (head + body)[0] == line[0]
  {
  }

  lemma HeadersEnd(line: bytes, head: bytes, body: bytes)
    requires line <= head && EmptyLineEnds(head, |head|) && |head| <= 65536
    requires forall k: nat :: |line| <= k < |head| ==> !EmptyLineEnds(head, k)
    ensures IsHeaderEnd(head + body, |line|, |head|)
  {
    forall k: nat | k <= |head|
      ensures EndsHeaders(head + body, k) <==> EmptyLineEnds(head, k)
    {
      EndsAtEmptyLine(head, k);
    }
  }

  lemma EndsAtEmptyLine(s: bytes, n: nat)
    ensures EndsHeaders(s, n) <==> EmptyLineEnds(s, n)
  {
    assert Ascii("\r\n\r\n") == [CR, LF, CR, LF];
    if 4 <= n <= |s| {
      assert s[n - 4..n] == [s[n - 4], s[n - 3], s[n - 2], s[n - 1]];
    }
  }

  /** Any other first line comes out as it is. */
  lemma StrayOnTheWire(cl: ContentLength, line: bytes, rest: bytes)
    requires IsFirstLine(line) && (line[|line| - 1] as char != '\n' || !HasShape(line))
    ensures NextItem(cl, line + rest) == Ok((Stray(line), |line|))
  {
    RequestLineShape(line);
    ItemFound(cl, Stray(line), rest);
  }

  // ---------------------------------------------------------------- whole connections

  ghost predicate AllValid(cl: ContentLength, items: seq<Item>)
  {
    forall i :: 0 <= i < |items| ==> ValidItem(cl, items[i])
  }

  function PrintAll(items: seq<Item>): (s: bytes)
  {
    if items == [] then [] else Print(items[0]) + PrintAll(items[1..])
  }

  /** Read items until the reader fails: the items and the bytes not consumed. */
  function ReadAll(cl: ContentLength, input: bytes): (r: (seq<Item>, bytes))
    decreases |input|
  {
    match NextItem(cl, input)
    case Err => ([], input)
    case Ok((item, n)) =>
      if 1 <= n <= |input| then
        var (items, rest) := ReadAll(cl, input[n..]);
        ([item] + items, rest)
      else ([], input)
  }

  /** For every input, printing the items read gives exactly the bytes consumed. */
  lemma {:induction false} ReadAllIsLossless(cl: ContentLength, input: bytes)
    ensures var (items, rest) := ReadAll(cl, input);
            && PrintAll(items) + rest == input
            && AllValid(cl, items)
            && NextItem(cl, rest).Err?
    decreases |input|
  {
    var r := NextItem(cl, input);
    if r.Ok? {
      var (item, n) := r.value;
      ItemRead(cl, input);
      ReadAllIsLossless(cl, input[n..]);
      var (items, rest) := ReadAll(cl, input[n..]);
      JoinSlices(input, n, n);
      assert ReadAll(cl, input) == ([item] + items, rest);
    } else {
      assert PrintAll([]) + input == input;
    }
  }

  /** Any list of valid items, printed, reads back as itself with nothing left over. */
  lemma {:induction false} ReadAllOfPrint(cl: ContentLength, items: seq<Item>)
    requires AllValid(cl, items)
    ensures ReadAll(cl, PrintAll(items)) == (items, [])
  {
    if items != [] {
      var rest := PrintAll(items[1..]);
      ItemFound(cl, items[0], rest);
      Prefixed(Print(items[0]), rest);
      ReadAllOfPrint(cl, items[1..]);
      assert [items[0]] + items[1..] == items;
    }
  }

  // --------------------------------------------------------------------- the reader

  class Reader {
    const input: bytes
    const cl: ContentLength
    var pos: nat

    ghost predicate Valid()
      reads this
    {
      pos <= |input|
    }

    constructor (input: bytes, cl: ContentLength)
      ensures Valid() && pos == 0 && this.input == input && this.cl == cl
    {
      this.input, this.cl, pos := input, cl, 0;
    }

    method ReadU8() returns (r: Option<byte>)
      requires Valid()
      modifies this
      ensures Valid()
      ensures if old(pos) < |input| then r == Some(input[old(pos)]) && pos == old(pos) + 1
              else r == None && pos == old(pos)
    {
      if pos == |input| {
        return None;
      }
      r := Some(input[pos]);
      pos := pos + 1;
    }

    /** `read_exact` into a fresh buffer. */
    method ReadExact(len: nat) returns (r: Option<bytes>)
      requires Valid()
      modifies this
      ensures Valid()
      ensures if old(pos) + len <= |input| then r == Some(input[old(pos)..old(pos) + len]) && pos == old(pos) + len
              else r == None
    {
      if pos + len > |input| {
        return None;
      }
      r := Some(input[pos..pos + len]);
      pos := pos + len;
    }

    /** `read_request_line`, called with the first byte already read. */
    method ReadRequestLine(first: byte) returns (line: Option<bytes>)
      requires Valid() && 1 <= pos && input[pos - 1] == first
      modifies this
      ensures Valid()
      ensures var rest := input[old(pos) - 1..];
              match LineEnd(rest, 1)
              case None => line.None?
              case Some(m) => line == Some(rest[..m]) && pos == old(pos) - 1 + m
    {
      ghost var rest := input[pos - 1..];
      var buf := [first];
      while |buf| < MAX_REQUEST_LINE
        invariant Valid() && pos == old(pos) - 1 + |buf| && |buf| <= |rest|
        invariant buf == rest[..|buf|]
        invariant LineEnd(rest, 1) == LineEnd(rest, |buf|)
        decreases MAX_REQUEST_LINE - |buf|
      {
        var b := ReadU8();
        if b.None? {
          return None;
        }
        assert rest[|buf|] == b.value && rest[..|buf| + 1] == rest[..|buf|] + [b.value];
        buf := buf + [b.value];
        if b.value == LF {
          assert LineEnd(rest, 1) == Some(|buf|);
          return Some(buf);
        }
      }
      assert LineEnd(rest, 1) == Some(|buf|);
      line := Some(buf);
    }

    /** The first loop of `read_request`: headers up to the blank line. */
    method ReadHeaders(line: bytes) returns (headers: Option<bytes>)
      requires Valid() && |line| <= pos && line == input[pos - |line|..pos]
      modifies this
      ensures Valid()
      ensures var rest := input[old(pos) - |line|..];
              match HeaderEnd(rest, |line|)
              case None => headers.None?
              case Some(h) => headers == Some(rest[..h]) && pos == old(pos) - |line| + h
    {
      var buf := line;
      ghost var start := pos - |line|;
      ghost var rest := input[start..];
      while !EndsHeaders(buf, |buf|)
        invariant Valid() && pos == start + |buf| && |buf| <= |rest|
        invariant buf == rest[..|buf|]
        invariant HeaderEnd(rest, |line|) == HeaderEnd(rest, |buf|)
        decreases |rest| - |buf|
      {
        assert !EndsHeaders(rest, |buf|);
        if |buf| >= MAX_REQUEST {
          return None;
        }
        var b := ReadU8();
        if b.None? {
          return None;
        }
        buf := buf + [b.value];
      }
      assert EndsHeaders(rest, |buf|);
      headers := Some(buf);
    }

    /** `read_request`: headers, then the body they announce. */
    method ReadRequest(line: bytes) returns (request: Option<bytes>)
      requires Valid() && |line| <= pos && line == input[pos - |line|..pos]
      modifies this
      ensures Valid()
      ensures var rest := input[old(pos) - |line|..];
              match HeaderEnd(rest, |line|)
              case None => request.None?
              case Some(h) =>
                match WithBody(cl, rest, h)
                case None => request.None?
                case Some(n) => request == Some(rest[..n]) && pos == old(pos) - |line| + n
    {
      ghost var start := pos - |line|;
      request := ReadHeaders(line);
      if request.None? {
        return;
      }
      var buf := request.value;
      var len := cl(buf);
      if len.Some? {
        if |buf| + len.value > MAX_REQUEST {
          return None;
        }
        var body := ReadExact(len.value);
        if body.None? {
          return None;
        }
        assert input[start..][..|buf| + len.value] == buf + body.value;
        request := Some(buf + body.value);
      }
    }

    /** `read_frame_payload`. */
    method ReadFramePayload() returns (payload: Option<bytes>)
      requires Valid()
      modifies this
      ensures Valid()
      ensures var p := old(pos);
              if p + 2 <= |input| && p + 2 + FromBe(input[p..p + 2]) <= |input|
              then payload == Some(input[p + 2..p + 2 + FromBe(input[p..p + 2])])
                   && pos == p + 2 + FromBe(input[p..p + 2])
              else payload.None?
    {
      var len := ReadExact(2);
      if len.None? {
        return None;
      }
      payload := ReadExact(FromBe(len.value));
    }

    method Next() returns (r: Result<Item>)
      requires Valid()
      modifies this
      ensures Valid()
      ensures match NextItem(cl, input[old(pos)..])
              case Err => r.Err?
              case Ok((item, n)) => r == Ok(item) && pos == old(pos) + n
    {
      ghost var p, rest := pos, input[pos..];
      var first := ReadU8();
      if first.None? {
        return Err;
      }
      if first.value == DOLLAR {
        var channel := ReadU8();
        if channel.None? {
          return Err;
        }
        FrameAt(p);
        var payload := ReadFramePayload();
        return if payload.None? then Err else Ok(Frame(channel.value, payload.value));
      }
      var line := ReadRequestLine(first.value);
      if line.None? {
        return Err;
      }
      if !IsRequestStart(line.value) {
        return Ok(Stray(line.value));
      }
      assert line.value == input[pos - |line.value|..pos];
      var request := ReadRequest(line.value);
      return if request.None? then Err else Ok(Request(request.value));
    }

    /** A frame at position `p`, in terms of the whole input. */
    lemma FrameAt(p: nat)
      requires p + 2 <= |input|
      ensures NextFrame(input[p..])
              == if p + 4 <= |input| && p + 4 + FromBe(input[p + 2..p + 4]) <= |input|
                 then var end := p + 4 + FromBe(input[p + 2..p + 4]);
                      Ok((Frame(input[p + 1], input[p + 4..end]), end - p))
                 else Err
    {
      if p + 4 <= |input| {
        SliceOfDrop(input, p, 2, 4);
        var n := FromBe(input[p + 2..p + 4]);
        if p + 4 + n <= |input| {
          SliceOfDrop(input, p, 4, 4 + n);
        }
      }
    }
  }
}
