/** What FFmpeg's sequence probation gets out of the packet queue: which packet is doubled, and
    whether it is handed out twice. */
module RtpProbation {
  import opened Bytes
  import opened RtpQueue

  // -------------------------------------------------------------- which packet is doubled

  ghost predicate OnlyReads(events: seq<Event>)
  {
    forall i :: 0 <= i < |events| ==> events[i].Read?
  }

  /** No read in the list asks for any bytes. */
  ghost predicate NothingRead(events: seq<Event>)
  {
    forall i :: 0 <= i < |events| ==> events[i].Read? && events[i].size <= 0
  }

  lemma {:induction false} RunAppend(r: Run, a: seq<Event>, b: seq<Event>)
    requires ValidCurrent(r.q)
    ensures RunOf(r, a + b) == RunOf(RunOf(r, a), b)
    decreases |a|
  {
    if a == [] {
      assert a + b == b;
    } else {
      RunAppend(Step(r, a[0]), a[1..], b);
      assert (a + b)[1..] == a[1..] + b;
    }
  }

  /** Reads leave an empty queue alone. */
  lemma {:induction false} ReadsOfEmpty(r: Run, events: seq<Event>)
    requires ValidCurrent(r.q) && r.q.packets == [] && OnlyReads(events)
    ensures var r' := RunOf(r, events);
            && r'.q.packets == [] && r'.q.probationSatisfied == r.q.probationSatisfied
            && r'.h.fed == r.h.fed && r'.h.doubled == r.h.doubled
            && (r.q.current.None? ==> r' == r)
    decreases |events|
  {
    if events != [] {
      ReadsOfEmpty(Step(r, events[0]), events[1..]);
    }
  }

  /** A single waiting packet stays if and only if no read asks for bytes. */
  lemma {:induction false} ReadsOfOne(r: Run, events: seq<Event>)
    requires r.q.current.None? && |r.q.packets| == 1 && OnlyReads(events)
    ensures var r' := RunOf(r, events);
            && r'.q.probationSatisfied == r.q.probationSatisfied
            && r'.h.fed == r.h.fed && r'.h.doubled == r.h.doubled
            && (if NothingRead(events) then r' == r else r'.q.packets == [])
    decreases |events|
  {
    if events != [] {
      if events[0].size <= 0 {
        assert Step(r, events[0]) == r;
        ReadsOfOne(r, events[1..]);
        assert NothingRead(events) <==> NothingRead(events[1..]);
      } else {
        ReadsOfEmpty(Step(r, events[0]), events[1..]);
      }
    }
  }

  /** Once decided, the doubled packet stays; past the second feed it is never the first. */
  lemma {:induction false} DoubledStays(r: Run, events: seq<Event>)
    requires ValidCurrent(r.q) && |r.h.fed| >= 2 && (r.q.probationSatisfied <==> r.h.doubled.Some?)
    ensures RunOf(r, events).h.doubled == Some(0) <==> r.h.doubled == Some(0)
    decreases |events|
  {
    if events != [] {
      DoubledStays(Step(r, events[0]), events[1..]);
    }
  }

  /** The queue doubles the first packet if and only if no read asks for bytes between the first
      and the second feed. */
  lemma FirstIsDoubled(pre: seq<Event>, a: bytes, mid: seq<Event>, b: bytes, post: seq<Event>)
    requires OnlyReads(pre) && OnlyReads(mid)
    ensures RunOf(BEGIN, pre + ([Feed(a)] + (mid + ([Feed(b)] + post)))).h.doubled == Some(0) <==> NothingRead(mid)
  {
    UpToSecondFeed(pre, a, mid, b, post);
    ReadsOfOne(Step(BEGIN, Feed(a)), mid);
    var r2 := RunOf(Step(BEGIN, Feed(a)), mid);
    StepFirst(r2, Feed(b), post);
    DoubledStays(Step(r2, Feed(b)), post);
  }

  lemma StepFirst(r: Run, e: Event, more: seq<Event>)
    requires ValidCurrent(r.q)
    ensures RunOf(r, [e] + more) == RunOf(Step(r, e), more)
  {
    assert ([e] + more)[1..] == more;
  }

  /** The run that doubles the second packet instead: the first is read before it arrives. */
  lemma SecondIsDoubled()
    ensures RunOf(BEGIN, [Feed([1])] + ([Read(1)] + ([Feed([2])] + ([Feed([3])] + [])))).h.doubled == Some(1)
  {
    var r1 := Step(BEGIN, Feed([1]));
    var r2 := Step(r1, Read(1));
    assert r2.q == Buf([], None, false);
    var r3 := Step(r2, Feed([2]));
    assert r3.q.packets == [] + [[2]] && r3.h.fed == [[1], [2]];
    StepFirst(BEGIN, Feed([1]), [Read(1)] + ([Feed([2])] + ([Feed([3])] + [])));
    StepFirst(r1, Read(1), [Feed([2])] + ([Feed([3])] + []));
    StepFirst(r2, Feed([2]), [Feed([3])] + []);
    StepFirst(r3, Feed([3]), []);
  }

  // ------------------------------------------------------ what FFmpeg's probation gets

  /** Feeding the packet makes the queue throw some away. */
  predicate Overflows(q: Buf, data: bytes)
  {
    Total(Probed(q)) + CurrentLen(q.current) + |data| > MAX_BYTES
  }

  /** No feed overflows before the read that starts packet number `n`. */
  ghost predicate NoOverflow(r: Run, events: seq<Event>, n: nat)
    requires ValidCurrent(r.q)
    decreases |events|
  {
    events != [] ==>
      && (events[0].Feed? && |r.h.taken| < n ==> !Overflows(r.q, events[0].data))
      && NoOverflow(Step(r, events[0]), events[1..], n)
  }

  /** The packets started first are the first ones of the stream, up to `n` of them. */
  ghost predicate FirstTaken(h: History, n: nat)
  {
    forall i :: 0 <= i < |h.taken| && i < n ==> h.taken[i] == i
  }

  /** Reads have kept up: nothing was thrown away in front of packet number `n`. */
  ghost predicate InStep(r: Run, n: nat)
  {
    FirstTaken(r.h, n) && (|r.h.taken| < n ==> Head(r) == |r.h.taken|)
  }

  /** Some packet was thrown away instead of being started. */
  ghost predicate LostOne(r: Run, n: nat)
  {
    if |r.h.taken| < n then Head(r) > |r.h.taken| else !FirstTaken(r.h, n)
  }

  lemma EvictsSome(packets: seq<bytes>, room: int)
    ensures |Evicted(packets, room)| <= |packets|
    ensures packets != [] ==> (|Evicted(packets, room)| < |packets| <==> Total(packets) > room)
  {
    var k := EvictedIsLongestFit(packets, room);
    assert packets[0..] == packets;
  }

  lemma HeadAfterFeed(r: Run, data: bytes)
    requires Inv(r) && r.q.probationSatisfied
    ensures var r' := Step(r, Feed(data));
            && r'.q.probationSatisfied && r'.h.doubled == r.h.doubled && r.h.stream <= r'.h.stream
            && r'.h.taken == r.h.taken && Head(r') >= Head(r)
            && (r.q.packets != [] ==> (Head(r') > Head(r) <==> Overflows(r.q, data)))
  {
    EvictsSome(r.q.packets, MAX_BYTES - CurrentLen(r.q.current) - |data|);
  }

  /** What one event does to the front of the queue. */
  lemma HeadStep(r: Run, e: Event)
    requires Inv(r) && r.q.probationSatisfied
    ensures var r' := Step(r, e);
            && Inv(r') && r'.q.probationSatisfied && r'.h.doubled == r.h.doubled && r.h.stream <= r'.h.stream
            && (e.Feed? ==> && r'.h.taken == r.h.taken && Head(r') >= Head(r)
                            && (r.q.packets != [] ==> (Head(r') > Head(r) <==> Overflows(r.q, e.data))))
            && (e.Read? ==> || (r'.h.taken == r.h.taken && Head(r') == Head(r))
                            || (r'.h.taken == r.h.taken + [Head(r)] && Head(r') == Head(r) + 1))
  {
    match e
    case Feed(data) =>
      FeedStep(r, data);
      HeadAfterFeed(r, data);
    case Read(size) =>
      ReadStep(r, size);
  }

  lemma LostOneStays(r: Run, e: Event, n: nat)
    requires Inv(r) && r.q.probationSatisfied && LostOne(r, n)
    ensures LostOne(Step(r, e), n)
  {
    HeadStep(r, e);
    var r' := Step(r, e);
    if |r.h.taken| >= n {
      var i :| 0 <= i < |r.h.taken| && i < n && r.h.taken[i] != i;
      assert r'.h.taken[i] == r.h.taken[i];
    } else if |r'.h.taken| == n {
      assert r'.h.taken[|r.h.taken|] != |r.h.taken|;
    }
  }

  lemma {:induction false} LostForGood(r: Run, events: seq<Event>, n: nat)
    requires Inv(r) && r.q.probationSatisfied && LostOne(r, n)
    ensures LostOne(RunOf(r, events), n)
    decreases |events|
  {
    if events != [] {
      LostOneStays(r, events[0], n);
      HeadStep(r, events[0]);
      LostForGood(Step(r, events[0]), events[1..], n);
    }
  }

  /** From a queue whose reads have kept up, the first `n` packets started are the first of the
      stream if and only if no feed overflows before. */
  lemma {:induction false} KeepsUpIff(r: Run, events: seq<Event>, n: nat)
    requires Inv(r) && r.q.probationSatisfied && InStep(r, n) && n <= |r.h.stream|
    ensures |RunOf(r, events).h.taken| >= n ==> (FirstTaken(RunOf(r, events).h, n) <==> NoOverflow(r, events, n))
    decreases |events|
  {
    if events != [] {
      var e := events[0];
      HeadStep(r, e);
      if e.Feed? && |r.h.taken| < n && Overflows(r.q, e.data) {
        assert r.q.packets != [];
        LostForGood(Step(r, e), events[1..], n);
      } else {
        KeepsUpIff(Step(r, e), events[1..], n);
      }
    }
  }

  /** The queue behind the second feed, when the first packet is still there. */
  lemma SecondFeed(r: Run, a: bytes, b: bytes)
    requires r.q == Buf([a], None, false) && r.h == NOTHING.(fed := [a], stream := [a])
    ensures var r' := Step(r, Feed(b));
            && Inv(r') && r'.q.probationSatisfied && r'.h.doubled == Some(0)
            && r'.h.stream == [a, a, b] && r'.h.taken == []
            && (Head(r') > 0 <==> Overflows(r.q, b))
  {
    var r' := Step(r, Feed(b));
    assert Inv(r') by {
      assert r.h.stream[0..] == r.h.stream;
      FeedStep(r, b);
    }
    assert r'.h.stream == [a, a, b];
    EvictsSome([a] + [a], MAX_BYTES - |b|);
    assert |r'.q.packets| == |Evicted([a] + [a], MAX_BYTES - |b|)| + 1;
  }

  /** FFmpeg's probation starts with the first packet, its copy and, for `n` = 3, the second
      packet, in every run that starts that many packets, if and only if no read asks for bytes
      between the first two feeds and no feed from the second on overflows before the last of
      them is started. */
  lemma ProbationGets(pre: seq<Event>, a: bytes, mid: seq<Event>, b: bytes, post: seq<Event>, n: nat)
    requires OnlyReads(pre) && OnlyReads(mid) && 2 <= n <= 3
    requires |RunOf(BEGIN, pre + ([Feed(a)] + (mid + ([Feed(b)] + post)))).h.taken| >= n
    ensures var h := RunOf(BEGIN, pre + ([Feed(a)] + (mid + ([Feed(b)] + post)))).h;
            && (h.doubled == Some(0) && FirstTaken(h, n)
                <==> NothingRead(mid) && NoOverflow(RunOf(Step(BEGIN, Feed(a)), mid), [Feed(b)] + post, n))
            && (h.doubled == Some(0) ==> [a, a, b] <= h.stream)
  {
    FirstIsDoubled(pre, a, mid, b, post);
    UpToSecondFeed(pre, a, mid, b, post);
    if NothingRead(mid) {
      var r1 := Step(BEGIN, Feed(a));
      ReadsOfOne(r1, mid);
      ProbationFrom(r1, a, b, post, n);
    }
  }

  lemma UpToSecondFeed(pre: seq<Event>, a: bytes, mid: seq<Event>, b: bytes, post: seq<Event>)
    requires OnlyReads(pre) && OnlyReads(mid)
    ensures RunOf(BEGIN, pre + ([Feed(a)] + (mid + ([Feed(b)] + post))))
            == RunOf(RunOf(Step(BEGIN, Feed(a)), mid), [Feed(b)] + post)
  {
    ReadsOfEmpty(BEGIN, pre);
    RunAppend(BEGIN, pre, [Feed(a)] + (mid + ([Feed(b)] + post)));
    StepFirst(BEGIN, Feed(a), mid + ([Feed(b)] + post));
    RunAppend(Step(BEGIN, Feed(a)), mid, [Feed(b)] + post);
  }

  lemma ProbationFrom(r: Run, a: bytes, b: bytes, post: seq<Event>, n: nat)
    requires r.q == Buf([a], None, false) && r.h == NOTHING.(fed := [a], stream := [a]) && 2 <= n <= 3
    ensures var h := RunOf(r, [Feed(b)] + post).h;
            && (|h.taken| >= n ==> (FirstTaken(h, n) <==> NoOverflow(r, [Feed(b)] + post, n)))
            && [a, a, b] <= h.stream
  {
    var r1 := Step(r, Feed(b));
    StepFirst(r, Feed(b), post);
    assert ([Feed(b)] + post)[1..] == post;
    SecondFeed(r, a, b);
    StreamGrows(r1, post);
    if Overflows(r.q, b) {
      LostForGood(r1, post, n);
    } else {
      KeepsUpIff(r1, post, n);
    }
  }

  lemma {:induction false} StreamGrows(r: Run, events: seq<Event>)
    requires Inv(r) && r.q.probationSatisfied
    ensures r.h.stream <= RunOf(r, events).h.stream
    decreases |events|
  {
    if events != [] {
      HeadStep(r, events[0]);
      StreamGrows(Step(r, events[0]), events[1..]);
    }
  }

  // ------------------------------------------- a run in which probation misses the first

  /** `n` copies of a packet, and the feeds that bring them. */
  function Copies(packet: bytes, n: nat): (packets: seq<bytes>)
  {
    if n == 0 then [] else [packet] + Copies(packet, n - 1)
  }

  function FeedCopies(packet: bytes, n: nat): (events: seq<Event>)
  {
    if n == 0 then [] else [Feed(packet)] + FeedCopies(packet, n - 1)
  }

  lemma {:induction false} TotalCopies(packet: bytes, n: nat)
    ensures Total(Copies(packet, n)) == |packet| * n && |Copies(packet, n)| == n
  {
    if n > 0 {
      TotalCopies(packet, n - 1);
      assert Copies(packet, n)[1..] == Copies(packet, n - 1);
    }
  }

  lemma CopyFits(r: Run, packet: bytes)
    requires r.q.current.None? && r.q.probationSatisfied && Total(r.q.packets) + |packet| <= MAX_BYTES
    ensures var r' := Step(r, Feed(packet));
            && r'.q == Buf(r.q.packets + [packet], None, true)
            && r'.h == r.h.(fed := r.h.fed + [packet], stream := r.h.stream + [packet])
            && Total(r'.q.packets) == Total(r.q.packets) + |packet|
  {
    TotalAppend(r.q.packets, [packet]);
    assert Total([packet]) == |packet|;
  }

  /** Feeds that fit are appended. */
  lemma {:induction false} CopiesFit(r: Run, packet: bytes, n: nat)
    requires r.q.current.None? && r.q.probationSatisfied && Total(r.q.packets) + |packet| * n <= MAX_BYTES
    ensures var r' := RunOf(r, FeedCopies(packet, n));
            && r'.q == Buf(r.q.packets + Copies(packet, n), None, true)
            && r'.h.stream == r.h.stream + Copies(packet, n)
            && r'.h.taken == r.h.taken && r'.h.doubled == r.h.doubled
    decreases n
  {
    if n == 0 {
      assert r.q.packets + [] == r.q.packets && r.h.stream + [] == r.h.stream;
    } else {
      assert |packet| * n == |packet| + |packet| * (n - 1);
      CopyFits(r, packet);
      CopiesFit(Step(r, Feed(packet)), packet, n - 1);
      StepFirst(r, Feed(packet), FeedCopies(packet, n - 1));
      Assoc(r.q.packets, [packet], Copies(packet, n - 1));
      Assoc(r.h.stream, [packet], Copies(packet, n - 1));
    }
  }

  /** Two packets of one byte, fed without a read in between. */
  function SmallPair(): (r: Run)
    ensures ValidCurrent(r.q)
  {
    Step(Step(BEGIN, Feed([1])), Feed([2]))
  }

  lemma SmallPairIs()
    ensures var r := SmallPair();
            && r.q == Buf([[1], [1], [2]], None, true) && Total(r.q.packets) == 3
            && r.h.stream == [[1], [1], [2]] && r.h.taken == [] && r.h.doubled == Some(0)
  {
    var r := Step(BEGIN, Feed([1]));
    TotalAppend([[1]], [[1]]);
    assert Total([[1]]) == 1;
    SecondFeed(r, [1], [2]);
    var three: seq<bytes> := [[1], [1], [2]];
    assert three[0..] == three;
    assert three == ([[1]] + [[1]]) + [[2]];
    TotalAppend([[1]] + [[1]], [[2]]);
    assert Total([[2]]) == 1;
  }

  lemma CopiesWeigh(small: seq<bytes>, packet: bytes, n: nat, k: nat)
    requires k <= |small|
    ensures Total((small + Copies(packet, n))[k..]) >= |packet| * n
  {
    TotalCopies(packet, n);
    assert (small + Copies(packet, n))[k..] == small[k..] + Copies(packet, n);
    TotalAppend(small[k..], Copies(packet, n));
  }

  /** One more copy throws away everything in front of the others. */
  lemma SmallOnesGo(small: seq<bytes>, packet: bytes, n: nat)
    requires n > 0 && |packet| * n + |packet| > MAX_BYTES
    ensures |Evicted(small + Copies(packet, n), MAX_BYTES - |packet|)| < n
  {
    var k := EvictedIsLongestFit(small + Copies(packet, n), MAX_BYTES - |packet|);
    TotalCopies(packet, n);
    if k <= |small| {
      CopiesWeigh(small, packet, n, k);
      assert false;
    }
  }

  lemma FloodedQueue(r: Run, small: seq<bytes>, packet: bytes, n: nat)
    requires r.q == Buf(small + Copies(packet, n), None, true)
    requires r.h.stream == small + Copies(packet, n) && r.h.taken == []
    requires n > 0 && |packet| * n + |packet| > MAX_BYTES
    ensures var r' := Step(Step(r, Feed(packet)), Read(1));
            && r'.h.doubled == r.h.doubled && small <= r'.h.stream
            && |r'.h.taken| == 1 && r'.h.taken[0] > |small|
  {
    var r1 := Step(r, Feed(packet));
    TotalCopies(packet, n);
    SmallOnesGo(small, packet, n);
    assert |r1.h.stream| == |small| + n + 1 && |r1.q.packets| <= n;
    assert r1.q.packets != [] && r1.q.current.None?;
  }

  /** Behind two small packets, 17 of the largest size throw away both copies of the first packet
      and the second before anything is read. So the first packet started is a large one, although
      the first was doubled and no read came between the first two feeds. */
  lemma EvictionBeatsProbation(large: bytes, n: nat)
    requires |large| == 0xFFFF && n == 16
    ensures var r := Step(Step(RunOf(SmallPair(), FeedCopies(large, n)), Feed(large)), Read(1));
            && r.h.doubled == Some(0) && [[1], [1], [2]] <= r.h.stream
            && |r.h.taken| == 1 && r.h.taken[0] > 3
  {
    SmallPairIs();
    CopiesFit(SmallPair(), large, n);
    FloodedQueue(RunOf(SmallPair(), FeedCopies(large, n)), [[1], [1], [2]], large, n);
  }
}
