/** The bounded packet queue between the RTSP source and FFmpeg's RTP demuxer. */
module RtpQueue {
  import opened Bytes
  import opened Media

  const MAX_BYTES: nat := 0x10_0000

  /** A packet being read and how much of it was handed out already. */
  datatype Partial = Partial(pkt: bytes, offset: nat)

  datatype Buf = Buf(packets: seq<bytes>, current: Option<Partial>, probationSatisfied: bool)

  const EMPTY := Buf([], None, false)

  /** What the read callback returns: EINVAL, EAGAIN or bytes. */
  datatype ReadResult = Invalid | Again | Data(chunk: bytes)

  function Total(packets: seq<bytes>): (n: nat)
  {
    if packets == [] then 0 else |packets[0]| + Total(packets[1..])
  }

  function CurrentLen(current: Option<Partial>): (n: nat)
  {
    if current.Some? then |current.value.pkt| else 0
  }

  /** Bytes held, counting a partly read packet in full. */
  function Load(q: Buf): (n: nat)
  {
    Total(q.packets) + CurrentLen(q.current)
  }

  // ----------------------------------------------------------- specification of a step

  /** Drop packets from the front while they exceed `room`. */
  function Evicted(packets: seq<bytes>, room: int): (r: seq<bytes>)
  {
    if packets == [] || Total(packets) <= room then packets else Evicted(packets[1..], room)
  }

  predicate Doubles(q: Buf)
  {
    !q.probationSatisfied && q.packets != []
  }

  /** The queue after the probation step: the waiting packet is doubled, once. */
  function Probed(q: Buf): (packets: seq<bytes>)
  {
    if Doubles(q) then [q.packets[0]] + q.packets else q.packets
  }

  function Fed(q: Buf, data: bytes): (r: Buf)
  {
    Buf(Evicted(Probed(q), MAX_BYTES - CurrentLen(q.current) - |data|) + [data],
        q.current, q.probationSatisfied || Doubles(q))
  }

  predicate ValidCurrent(q: Buf)
  {
    q.current.Some? ==> q.current.value.offset < |q.current.value.pkt|
  }

  function AfterRead(q: Buf, size: int): (r: (Buf, ReadResult))
    requires ValidCurrent(q)
    ensures ValidCurrent(r.0)
  {
    if size <= 0 then (q, Invalid)
    else if q.current.Some? then
      var Partial(pkt, offset) := q.current.value;
      var n := Min(size, |pkt| - offset);
      (q.(current := if offset + n >= |pkt| then None else Some(Partial(pkt, offset + n))),
       Data(pkt[offset..offset + n]))
    else if q.packets == [] then (q, Again)
    else
      var pkt := q.packets[0];
      var n := Min(size, |pkt|);
      (Buf(q.packets[1..], if n < |pkt| then Some(Partial(pkt, n)) else None, q.probationSatisfied),
       Data(pkt[..n]))
  }

  /** Every read: never more than was asked for, less only where the packet ends; EINVAL exactly
      for a size that is not positive, EAGAIN exactly when nothing is left. */
  ghost predicate ReadRight(q: Buf, size: int, q': Buf, r: ReadResult)
  {
    && (r.Invalid? <==> size <= 0)
    && (r.Again? <==> size > 0 && q.current.None? && q.packets == [])
    && (r.Data? ==> |r.chunk| <= size && (|r.chunk| < size ==> q'.current.None?))
    && (!r.Data? ==> q' == q)
  }

  /** What a feed keeps of `probed` in front of `data`: all but `k` packets, the longest part that
      fits into 1 MiB together with the packet and the `held` bytes of the one in flight. */
  ghost predicate KeepsLongest(probed: seq<bytes>, k: nat, held: nat, data: bytes, packets: seq<bytes>)
  {
    && k <= |probed| && packets == probed[k..] + [data]
    && (k < |probed| ==> Total(probed[k..]) + held + |data| <= 0x10_0000)
    && (k > 0 ==> Total(probed[k - 1..]) + held + |data| > 0x10_0000)
  }

  /** Every feed: a waiting packet is doubled once, the longest part that fits stays, and the packet
      goes in last. */
  lemma FedIsLongestFit(q: Buf, data: bytes) returns (k: nat)
    ensures KeepsLongest(if q.probationSatisfied || q.packets == [] then q.packets else q.packets[..1] + q.packets,
                         k, CurrentLen(q.current), data, Fed(q, data).packets)
    ensures Fed(q, data).current == q.current
    ensures Fed(q, data).probationSatisfied <==> q.probationSatisfied || q.packets != []
  {
    k := EvictionKeepsLongest(Probed(q), CurrentLen(q.current), data);
    if Doubles(q) {
      assert q.packets[..1] == [q.packets[0]];
    }
  }

  lemma EvictionKeepsLongest(probed: seq<bytes>, held: nat, data: bytes) returns (k: nat)
    ensures KeepsLongest(probed, k, held, data, Evicted(probed, MAX_BYTES - held - |data|) + [data])
  {
    k := EvictedIsLongestFit(probed, MAX_BYTES - held - |data|);
  }

  lemma {:induction false} TotalAppend(a: seq<bytes>, b: seq<bytes>)
    ensures Total(a + b) == Total(a) + Total(b)
  {
    if a == [] {
      assert a + b == b;
    } else {
      TotalAppend(a[1..], b);
      assert (a + b)[1..] == a[1..] + b;
    }
  }

  /** Eviction keeps the longest suffix that fits: `k` packets go, and no fewer would do. */
  lemma {:induction false} EvictedIsLongestFit(packets: seq<bytes>, room: int) returns (k: nat)
    ensures k <= |packets| && Evicted(packets, room) == packets[k..]
    ensures k < |packets| ==> Total(packets[k..]) <= room
    ensures forall j: nat :: j < k ==> Total(packets[j..]) > room
  {
    if packets == [] || Total(packets) <= room {
      k := 0;
    } else {
      var k' := EvictedIsLongestFit(packets[1..], room);
      k := k' + 1;
      forall j: nat | j < k
        ensures Total(packets[j..]) > room
      {
        if j > 0 {
          assert packets[j..] == packets[1..][j - 1..];
        } else {
          assert packets[0..] == packets;
        }
      }
    }
  }

  // ------------------------------------------------------------------ the queue object

  class RtpBuf {
    var packets: seq<bytes>
    var current: Option<Partial>
    var probationSatisfied: bool

    ghost function State(): (q: Buf)
      reads this
    {
      Buf(packets, current, probationSatisfied)
    }

    constructor ()
      ensures State() == EMPTY
    {
      packets, current, probationSatisfied := [], None, false;
    }

    /** The byte count the eviction loop recomputes. */
    method SumBytes() returns (n: nat)
      ensures n == Load(State())
    {
      n := 0;
      assert packets[..0] == [];
      for i := 0 to |packets|
        invariant n == Total(packets[..i])
      {
        assert packets[..i + 1] == packets[..i] + [packets[i]];
        TotalAppend(packets[..i], [packets[i]]);
        assert Total([packets[i]]) == |packets[i]|;
        n := n + |packets[i]|;
      }
      assert packets[..|packets|] == packets;
      if current.Some? {
        n := n + |current.value.pkt|;
      }
    }

    method Feed(data: bytes)
      requires ValidCurrent(State())
      modifies this
      ensures State() == Fed(old(State()), data)
      ensures |data| + CurrentLen(old(current)) <= MAX_BYTES ==> Load(State()) <= MAX_BYTES
    {
      if !probationSatisfied && packets != [] {
        packets := [packets[0]] + packets;
        probationSatisfied := true;
      }
      ghost var room := MAX_BYTES - CurrentLen(current) - |data|;
      while true
        invariant current == old(current)
        invariant probationSatisfied == Fed(old(State()), data).probationSatisfied
        invariant Evicted(packets, room) == Evicted(Probed(old(State())), room)
        decreases |packets|
      {
        var currentBytes := SumBytes();
        if currentBytes + |data| <= MAX_BYTES {
          break;
        }
        if packets == [] {
          break;
        }
        packets := packets[1..];
      }
      TotalAppend(packets, [data]);
      assert Total([data]) == |data|;
      packets := packets + [data];
    }

    method Read(size: int) returns (r: ReadResult)
      requires ValidCurrent(State())
      modifies this
      ensures (State(), r) == AfterRead(old(State()), size)
      ensures ReadRight(old(State()), size, State(), r)
      ensures ValidCurrent(State())
    {
      if size <= 0 {
        return Invalid;
      }
      if current.Some? {
        var pkt, offset := current.value.pkt, current.value.offset;
        var remaining := |pkt| - offset;
        var n := if size < remaining then size else remaining;
        r := Data(pkt[offset..offset + n]);
        current := if offset + n >= |pkt| then None else Some(Partial(pkt, offset + n));
        return;
      }
      if packets == [] {
        return Again;
      }
      var pkt := packets[0];
      packets := packets[1..];
      var n := if size < |pkt| then size else |pkt|;
      r := Data(pkt[..n]);
      if n < |pkt| {
        current := Some(Partial(pkt, n));
      }
    }
  }

  // ------------------------------------------------------------- runs and their history

  datatype Event = Feed(data: bytes) | Read(size: int)

  /** What a run did: `fed` is what came in; `stream` is the same with the doubled packet
      in place (`doubled` says which); `taken` are the positions in `stream` of the packets
      reads started, `groups` the chunks each of them was handed out in, `chunks` all chunks
      in the order of the reads, and `asked` the size each of those reads asked for. */
  datatype History = History(
    fed: seq<bytes>, stream: seq<bytes>, doubled: Option<nat>,
    taken: seq<nat>, groups: seq<seq<bytes>>, chunks: seq<bytes>, asked: seq<int>)

  const NOTHING := History([], [], None, [], [], [], [])

  datatype Run = Run(q: Buf, h: History)

  function Head(r: Run): (n: int)
  {
    |r.h.stream| - |r.q.packets|
  }

  /** One event, with the bookkeeping of the history. */
  function Step(r: Run, e: Event): (r': Run)
    requires ValidCurrent(r.q)
    ensures ValidCurrent(r'.q)
  {
    match e
    case Feed(data) =>
      var q := Fed(r.q, data);
      var doubled := if Doubles(r.q) then Some(Max(|r.h.fed| - 1, 0)) else r.h.doubled;
      var stream := if Doubles(r.q) then r.h.stream + [r.q.packets[0]] else r.h.stream;
      Run(q, r.h.(fed := r.h.fed + [data], stream := stream + [data], doubled := doubled))
    case Read(size) =>
      var (q, result) := AfterRead(r.q, size);
      if !result.Data? then Run(q, r.h)
      else if r.q.current.Some? && r.h.groups != [] then
        var last := |r.h.groups| - 1;
        Run(q, r.h.(groups := r.h.groups[last := r.h.groups[last] + [result.chunk]],
                    chunks := r.h.chunks + [result.chunk], asked := r.h.asked + [size]))
      else
        Run(q, r.h.(taken := r.h.taken + [Max(Head(r), 0)], groups := r.h.groups + [[result.chunk]],
                    chunks := r.h.chunks + [result.chunk], asked := r.h.asked + [size]))
  }

  /** The stream is the fed packets, with at most one doubled in place. */
  predicate StreamOf(h: History)
  {
    match h.doubled
    case None => h.stream == h.fed
    case Some(k) => k < |h.fed| && h.stream == h.fed[..k + 1] + h.fed[k..]
  }

  predicate Queued(r: Run)
  {
    && StreamOf(r.h)
    && 0 <= Head(r) && r.q.packets == r.h.stream[Head(r)..]
    && (r.q.probationSatisfied <==> r.h.doubled.Some?)
    && (!r.q.probationSatisfied ==> |r.q.packets| <= 1)
  }

  /** Reads start packets in stream order, each at most once. */
  ghost predicate InOrder(r: Run)
  {
    && |r.h.groups| == |r.h.taken|
    && (forall i :: 0 <= i < |r.h.taken| ==> r.h.taken[i] < Head(r))
    && (forall i, j :: 0 <= i < j < |r.h.taken| ==> r.h.taken[i] < r.h.taken[j])
  }

  /** What packet number `i` of those taken should have yielded so far. */
  function Expected(r: Run, i: nat): (b: bytes)
    requires i < |r.h.taken| && r.h.taken[i] < |r.h.stream|
  {
    if r.q.current.Some? && i == |r.h.taken| - 1
    then r.q.current.value.pkt[..Min(r.q.current.value.offset, |r.q.current.value.pkt|)]
    else r.h.stream[r.h.taken[i]]
  }

  /** Every group of chunks joins to its packet; the packet in flight is the last one
      taken, still whole, and its chunks join to what was handed out of it. */
  ghost predicate Reassembled(r: Run)
    requires Queued(r) && InOrder(r)
  {
    && ValidCurrent(r.q)
    && (r.q.current.Some? ==>
          && r.h.taken != []
          && r.q.current.value.pkt == r.h.stream[r.h.taken[|r.h.taken| - 1]])
    && (forall i :: 0 <= i < |r.h.taken| ==> Concat(r.h.groups[i]) == Expected(r, i))
    && Flatten(r.h.groups) == r.h.chunks
  }

  function Flatten(groups: seq<seq<bytes>>): (s: seq<bytes>)
  {
    if groups == [] then [] else groups[0] + Flatten(groups[1..])
  }

  /** No read was handed more than it asked for. */
  ghost predicate ChunksFit(h: History)
  {
    |h.asked| == |h.chunks| && forall i :: 0 <= i < |h.chunks| ==> |h.chunks[i]| <= h.asked[i]
  }

  ghost predicate Inv(r: Run)
  {
    Queued(r) && InOrder(r) && Reassembled(r)
  }

  lemma StepFits(r: Run, e: Event)
    requires ValidCurrent(r.q) && ChunksFit(r.h)
    ensures ChunksFit(Step(r, e).h)
  {
  }

  lemma {:induction false} FlattenSnoc(groups: seq<seq<bytes>>, g: seq<bytes>)
    ensures Flatten(groups + [g]) == Flatten(groups) + g
  {
    if groups == [] {
      assert groups + [g] == [g];
      assert Flatten([g]) == g + Flatten([]);
    } else {
      FlattenSnoc(groups[1..], g);
      assert (groups + [g])[1..] == groups[1..] + [g];
      Assoc(groups[0], Flatten(groups[1..]), g);
    }
  }

  lemma FlattenExtendLast(groups: seq<seq<bytes>>, chunk: bytes)
    requires groups != []
    ensures var last := |groups| - 1;
            Flatten(groups[last := groups[last] + [chunk]]) == Flatten(groups) + [chunk]
  {
    var last := |groups| - 1;
    var front := groups[..last];
    assert groups == front + [groups[last]];
    assert groups[last := groups[last] + [chunk]] == front + [groups[last] + [chunk]];
    FlattenSnoc(front, groups[last]);
    FlattenSnoc(front, groups[last] + [chunk]);
    Assoc(Flatten(front), groups[last], [chunk]);
  }

  lemma StreamAppend(h: History, data: bytes)
    requires StreamOf(h)
    ensures StreamOf(h.(fed := h.fed + [data], stream := h.stream + [data]))
  {
    if h.doubled.Some? {
      var k := h.doubled.value;
      assert (h.fed + [data])[..k + 1] == h.fed[..k + 1];
      assert (h.fed + [data])[k..] == h.fed[k..] + [data];
    }
  }

  lemma StreamDouble(h: History, data: bytes)
    requires h.doubled.None? && StreamOf(h) && h.fed != []
    ensures var k := |h.fed| - 1;
            StreamOf(h.(fed := h.fed + [data], stream := h.stream + [h.fed[k]] + [data], doubled := Some(k)))
  {
    var k := |h.fed| - 1;
    assert (h.fed + [data])[..k + 1] == h.fed;
    assert (h.fed + [data])[k..] == [h.fed[k]] + [data];
  }

  /** The queue behind a feed is a suffix again. */
  lemma SuffixFed(h: History, q: Buf, probed: seq<bytes>, data: bytes)
    requires |probed| <= |h.stream| && probed == h.stream[|h.stream| - |probed|..]
    ensures var packets := Evicted(probed, MAX_BYTES - CurrentLen(q.current) - |data|) + [data];
            var stream := h.stream + [data];
            |packets| <= |stream| && packets == stream[|stream| - |packets|..]
  {
    var k := EvictedIsLongestFit(probed, MAX_BYTES - CurrentLen(q.current) - |data|);
    SuffixAfterFeed(h.stream, probed, k, data);
  }

  lemma FeedPlain(r: Run, data: bytes)
    requires Queued(r) && ValidCurrent(r.q) && !Doubles(r.q)
    ensures Queued(Step(r, Feed(data)))
  {
    SuffixFed(r.h, r.q, r.q.packets, data);
    StreamAppend(r.h, data);
    if !r.q.probationSatisfied {
      assert r.q.packets == [];
    }
  }

  lemma FeedDoubling(r: Run, data: bytes)
    requires Queued(r) && ValidCurrent(r.q) && Doubles(r.q)
    ensures Queued(Step(r, Feed(data)))
  {
    var probed, last := Probed(r.q), |r.h.fed| - 1;
    assert r.q.packets == [r.h.fed[last]];
    StreamDouble(r.h, data);
    assert (r.h.stream + [r.h.fed[last]])[Head(r)..] == probed;
    SuffixFed(r.h.(stream := r.h.stream + [r.h.fed[last]]), r.q, probed, data);
  }

  lemma FeedKeepsQueue(r: Run, data: bytes)
    requires Queued(r) && ValidCurrent(r.q)
    ensures Queued(Step(r, Feed(data)))
    ensures Head(Step(r, Feed(data))) >= Head(r)
    ensures r.h.stream <= Step(r, Feed(data)).h.stream
  {
    if Doubles(r.q) {
      FeedDoubling(r, data);
    } else {
      FeedPlain(r, data);
    }
    var k := EvictedIsLongestFit(Probed(r.q), MAX_BYTES - CurrentLen(r.q.current) - |data|);
  }

  lemma SuffixAfterFeed(stream: seq<bytes>, suffix: seq<bytes>, k: nat, data: bytes)
    requires |suffix| <= |stream| && suffix == stream[|stream| - |suffix|..] && k <= |suffix|
    ensures var s := stream + [data];
            var q := suffix[k..] + [data];
            q == s[|s| - |q|..]
  {
    assert suffix[k..] == stream[|stream| - |suffix| + k..];
  }

  /** More stream behind what was read changes nothing of it. */
  lemma LongerStream(r: Run, r': Run)
    requires Inv(r) && Queued(r') && InOrder(r') && r'.q.current == r.q.current && r.h.stream <= r'.h.stream
    requires r'.h.taken == r.h.taken && r'.h.groups == r.h.groups && r'.h.chunks == r.h.chunks
    ensures Reassembled(r')
  {
    forall i | 0 <= i < |r'.h.taken|
      ensures Concat(r'.h.groups[i]) == Expected(r', i)
    {
      assert r'.h.stream[r.h.taken[i]] == r.h.stream[r.h.taken[i]];
      assert Concat(r.h.groups[i]) == Expected(r, i);
    }
  }

  lemma FeedStep(r: Run, data: bytes)
    requires Inv(r)
    ensures Inv(Step(r, Feed(data)))
  {
    FeedKeepsQueue(r, data);
    LongerStream(r, Step(r, Feed(data)));
  }

  lemma StartReadQueue(r: Run, size: int)
    requires Inv(r) && size > 0 && r.q.current.None? && r.q.packets != []
    ensures Queued(Step(r, Read(size))) && InOrder(Step(r, Read(size)))
    ensures r.h.stream[Head(r)] == r.q.packets[0]
  {
    DropOfDrop(r.h.stream, Head(r), 1);
  }

  lemma StartRead(r: Run, size: int)
    requires Inv(r) && size > 0 && r.q.current.None? && r.q.packets != []
    ensures Inv(Step(r, Read(size)))
  {
    StartReadQueue(r, size);
    var r' := Step(r, Read(size));
    var chunk := AfterRead(r.q, size).1.chunk;
    FlattenSnoc(r.h.groups, [chunk]);
    assert Concat([chunk]) == chunk + Concat([]);
    assert r.q.packets[0][..|r.q.packets[0]|] == r.q.packets[0];
    forall i | 0 <= i < |r'.h.taken|
      ensures Concat(r'.h.groups[i]) == Expected(r', i)
    {
      if i < |r.h.taken| {
        assert r'.h.groups[i] == r.h.groups[i];
        assert Expected(r, i) == r.h.stream[r.h.taken[i]];
      }
    }
  }

  /** The next chunk of the packet in flight joins its group. */
  lemma ChunkJoins(groups: seq<seq<bytes>>, pkt: bytes, offset: nat, n: nat)
    requires groups != [] && offset + n <= |pkt| && Concat(groups[|groups| - 1]) == pkt[..offset]
    ensures Concat(groups[|groups| - 1] + [pkt[offset..offset + n]]) == pkt[..offset + n]
  {
    ConcatSnoc(groups[|groups| - 1], pkt[offset..offset + n]);
    assert pkt[..offset] + pkt[offset..offset + n] == pkt[..offset + n];
  }

  /** What a run does when it hands out `n` more bytes of the packet in flight. */
  predicate HandsOut(r: Run, r': Run, n: nat)
  {
    && r.q.current.Some? && r.q.current.value.offset + n <= |r.q.current.value.pkt| && r.h.groups != []
    && var Partial(pkt, offset) := r.q.current.value;
       var chunk, last := pkt[offset..offset + n], |r.h.groups| - 1;
    && r'.q.current == (if offset + n >= |pkt| then None else Some(Partial(pkt, offset + n)))
    && r'.h.stream == r.h.stream && r'.h.taken == r.h.taken
    && r'.h.groups == r.h.groups[last := r.h.groups[last] + [chunk]]
    && r'.h.chunks == r.h.chunks + [chunk]
  }

  lemma ContinueGroup(r: Run, r': Run, n: nat, i: nat)
    requires Inv(r) && Queued(r') && InOrder(r') && HandsOut(r, r', n) && i < |r.h.taken|
    ensures Concat(r'.h.groups[i]) == Expected(r', i)
  {
    var Partial(pkt, offset) := r.q.current.value;
    assert Concat(r.h.groups[i]) == Expected(r, i);
    if i == |r.h.taken| - 1 {
      ChunkJoins(r.h.groups, pkt, offset, n);
      assert pkt[..|pkt|] == pkt;
    } else {
      assert r'.h.groups[i] == r.h.groups[i];
    }
  }

  lemma ContinueChunks(r: Run, r': Run, n: nat)
    requires HandsOut(r, r', n) && Flatten(r.h.groups) == r.h.chunks
    ensures Flatten(r'.h.groups) == r'.h.chunks
  {
    var Partial(pkt, offset) := r.q.current.value;
    FlattenExtendLast(r.h.groups, pkt[offset..offset + n]);
  }

  lemma ContinueCurrent(r: Run, r': Run, n: nat)
    requires Inv(r) && HandsOut(r, r', n)
    ensures ValidCurrent(r'.q)
    ensures r'.q.current.Some? ==>
              && r'.h.taken != [] && r'.h.taken[|r'.h.taken| - 1] < |r'.h.stream|
              && r'.q.current.value.pkt == r'.h.stream[r'.h.taken[|r'.h.taken| - 1]]
  {
  }

  lemma ContinueGroups(r: Run, r': Run, n: nat)
    requires Inv(r) && Queued(r') && InOrder(r') && HandsOut(r, r', n)
    ensures Reassembled(r')
  {
    ContinueChunks(r, r', n);
    ContinueCurrent(r, r', n);
    forall i | 0 <= i < |r'.h.taken|
      ensures Concat(r'.h.groups[i]) == Expected(r', i)
    {
      ContinueGroup(r, r', n, i);
    }
  }

  lemma ContinueRead(r: Run, size: int)
    requires Inv(r) && size > 0 && r.q.current.Some?
    ensures Inv(Step(r, Read(size)))
  {
    var Partial(pkt, offset) := r.q.current.value;
    ContinueGroups(r, Step(r, Read(size)), Min(size, |pkt| - offset));
  }

  lemma ReadStep(r: Run, size: int)
    requires Inv(r)
    ensures Inv(Step(r, Read(size)))
  {
    if size > 0 && r.q.current.Some? {
      ContinueRead(r, size);
    } else if size > 0 && r.q.packets != [] {
      StartRead(r, size);
    }
  }

  /** Packets as RTSP interleaving can deliver them. */
  ghost predicate RtpSized(e: Event)
  {
    e.Feed? ==> |e.data| <= 0xFFFF
  }

  ghost predicate Sized(packets: seq<bytes>)
  {
    forall i :: 0 <= i < |packets| ==> |packets[i]| <= 0xFFFF
  }

  /** The byte bound, kept by every event. */
  ghost predicate Bounded(q: Buf)
  {
    Load(q) <= MAX_BYTES && CurrentLen(q.current) <= 0xFFFF && Sized(q.packets)
  }

  lemma StepBounded(r: Run, e: Event)
    requires ValidCurrent(r.q) && Bounded(r.q) && RtpSized(e)
    ensures Bounded(Step(r, e).q)
  {
    match e
    case Feed(data) =>
      FedBounded(r.q, data);
    case Read(size) =>
  }

  lemma FedBounded(q: Buf, data: bytes)
    requires Bounded(q) && |data| <= 0xFFFF
    ensures Bounded(Fed(q, data))
  {
    assert Sized(Probed(q));
    EvictedBounded(Probed(q), data, MAX_BYTES - CurrentLen(q.current));
  }

  lemma EvictedBounded(probed: seq<bytes>, data: bytes, limit: int)
    requires Sized(probed) && |data| <= 0xFFFF && |data| <= limit
    ensures var packets := Evicted(probed, limit - |data|) + [data];
            Sized(packets) && Total(packets) <= limit
  {
    var k := EvictedIsLongestFit(probed, limit - |data|);
    TotalAppend(probed[k..], [data]);
    assert Total([data]) == |data|;
  }

  function RunOf(r: Run, events: seq<Event>): (r': Run)
    requires ValidCurrent(r.q)
    ensures ValidCurrent(r'.q)
    decreases |events|
  {
    if events == [] then r
    else
      var next := Step(r, events[0]);
      RunOf(next, events[1..])
  }

  /** Queue refinement: after every run, the queue is a suffix of what was fed with at most
      one packet doubled; reads took packets in order; each was handed out in chunks that
      join to the whole packet, the chunks of different packets never mixing and none longer
      than its read asked for; and the packet in flight survives every eviction. */
  lemma {:induction false} EveryRun(r: Run, events: seq<Event>)
    requires Inv(r) && ChunksFit(r.h)
    ensures Inv(RunOf(r, events)) && ChunksFit(RunOf(r, events).h)
    decreases |events|
  {
    if events != [] {
      match events[0] {
        case Feed(data) => FeedStep(r, data);
        case Read(size) => ReadStep(r, size);
      }
      StepFits(r, events[0]);
      EveryRun(Step(r, events[0]), events[1..]);
    }
  }

  /** And with packets of RTP size it never holds more than 1 MiB. */
  lemma {:induction false} EveryRunBounded(r: Run, events: seq<Event>)
    requires ValidCurrent(r.q) && Bounded(r.q)
    requires forall i :: 0 <= i < |events| ==> RtpSized(events[i])
    ensures Bounded(RunOf(r, events).q)
    decreases |events|
  {
    if events != [] {
      StepBounded(r, events[0]);
      EveryRunBounded(Step(r, events[0]), events[1..]);
    }
  }

  const BEGIN := Run(EMPTY, NOTHING)

  lemma BeginsRight()
    ensures Inv(BEGIN) && ChunksFit(BEGIN.h) && Bounded(BEGIN.q)
  {
    assert BEGIN.h.stream[0..] == [];
  }

  /** Both, for the queue as it is created. */
  lemma EveryRunFromStart(events: seq<Event>)
    ensures Inv(RunOf(BEGIN, events)) && ChunksFit(RunOf(BEGIN, events).h)
    ensures (forall i :: 0 <= i < |events| ==> RtpSized(events[i])) ==> Load(RunOf(BEGIN, events).q) <= 0x10_0000
  {
    BeginsRight();
    EveryRun(BEGIN, events);
    if forall i :: 0 <= i < |events| ==> RtpSized(events[i]) {
      EveryRunBounded(BEGIN, events);
    }
  }
}
