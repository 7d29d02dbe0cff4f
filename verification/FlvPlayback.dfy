/** What a player of the live channel sees: how the video resumes behind a lag, and which
    sequence header it works with. */
module FlvPlayback {
  import opened Bytes
  import opened FlvTag
  import opened FlvChannel

  // ------------------------------------------------------------------ behind a lag

  /** Positions of the tags in `a..b` that are not video. */
  function NonVideo(log: seq<Tag>, a: nat, b: nat): (r: seq<nat>)
    requires a <= b <= |log|
    decreases b - a
  {
    if a == b then []
    else if log[a].VideoTag? then NonVideo(log, a + 1, b)
    else [a] + NonVideo(log, a + 1, b)
  }

  /** Whether the player still waits when it has come to `end`, and which tags it gets on the way. */
  function WaitsAfter(log: seq<Tag>, pos: nat, waiting: bool, end: nat): (w: bool)
    requires pos <= end <= |log|
    decreases end - pos
  {
    if pos == end then waiting else WaitsAfter(log, pos + 1, SkipWhileWaiting(waiting, log[pos]).1, end)
  }

  function Gets(log: seq<Tag>, pos: nat, waiting: bool, end: nat): (r: seq<nat>)
    requires pos <= end <= |log|
    decreases end - pos
  {
    if pos == end then []
    else
      var (skip, still) := SkipWhileWaiting(waiting, log[pos]);
      if skip then Gets(log, pos + 1, still, end) else [pos] + Gets(log, pos + 1, still, end)
  }

  lemma ReceivesOne(y: Sys)
    requires Ready(y.s) && y.s.pos < |y.c.log|
    ensures var y1 := Next(y, Receive);
            var (skip, still) := SkipWhileWaiting(y.s.waiting, y.c.log[y.s.pos]);
            && y1.c == y.c && Ready(y1.s) && y1.s.pos == y.s.pos + 1 && y1.s.waiting == still
            && y1.s.delivered == if skip then y.s.delivered else y.s.delivered + [y.s.pos]
  {
  }

  lemma GetsOne(log: seq<Tag>, pos: nat, waiting: bool, end: nat, delivered: seq<nat>)
    requires pos < end <= |log|
    ensures var (skip, still) := SkipWhileWaiting(waiting, log[pos]);
            && WaitsAfter(log, pos, waiting, end) == WaitsAfter(log, pos + 1, still, end)
            && delivered + Gets(log, pos, waiting, end)
               == (if skip then delivered else delivered + [pos]) + Gets(log, pos + 1, still, end)
  {
    var (skip, still) := SkipWhileWaiting(waiting, log[pos]);
    Assoc(delivered, [pos], Gets(log, pos + 1, still, end));
  }

  ghost predicate NoLag(events: seq<Event>)
  {
    forall i :: 0 <= i < |events| ==> !events[i].Lag?
  }

  /** A step other than a receive or a lag leaves a ready subscriber alone. */
  lemma OtherStep(y: Sys, e: Event)
    requires Ready(y.s) && !e.Lag? && (e.Receive? ==> y.s.pos >= |y.c.log|)
    ensures Next(y, e).s == y.s && y.c.log <= Next(y, e).c.log
  {
    if e.ReadSlot? {
      EveryKindRead(y.s, e.kind);
    }
  }

  lemma EveryKindRead(s: Subscriber, k: Kind)
    requires Ready(s)
    ensures k in s.got
  {
    match k
    case MetaKind =>
    case VideoKind =>
    case AudioKind =>
  }

  /** What a player has got at the end of a run, in terms of the log of that moment. */
  ghost predicate Got(y: Sys, y': Sys)
    requires y.s.Joined?
  {
    && y.c.log <= y'.c.log && y'.s.Joined? && y.s.pos <= y'.s.pos <= |y'.c.log|
    && y'.s.waiting == WaitsAfter(y'.c.log, y.s.pos, y.s.waiting, y'.s.pos)
    && y'.s.delivered == y.s.delivered + Gets(y'.c.log, y.s.pos, y.s.waiting, y'.s.pos)
  }

  /** Between two lags, with broadcasts in between or not, the player gets what `Gets` says. */
  lemma {:induction false} RunGets(y: Sys, events: seq<Event>)
    requires Ready(y.s) && y.s.pos <= |y.c.log| && NoLag(events)
    ensures Got(y, RunOf(y, events))
    decreases |events|
  {
    if events == [] {
      assert y.s.delivered + [] == y.s.delivered;
    } else if events[0].Receive? && y.s.pos < |y.c.log| {
      ReceivesOne(y);
      RunGets(Next(y, Receive), events[1..]);
      var y' := RunOf(y, events);
      assert y'.c.log[y.s.pos] == y.c.log[y.s.pos];
      GetsOne(y'.c.log, y.s.pos, y.s.waiting, y'.s.pos, y.s.delivered);
    } else {
      OtherStep(y, events[0]);
      RunGets(Next(y, events[0]), events[1..]);
    }
  }

  /** The positions from `a` up to `b`. */
  function Span(a: nat, b: nat): (r: seq<nat>)
    decreases b - a
  {
    if a >= b then [] else [a] + Span(a + 1, b)
  }

  /** While the player does not wait it gets every tag. */
  lemma {:induction false} GetsAll(log: seq<Tag>, pos: nat, end: nat)
    requires pos <= end <= |log|
    ensures Gets(log, pos, false, end) == Span(pos, end) && !WaitsAfter(log, pos, false, end)
    decreases end - pos
  {
    if pos < end {
      GetsAll(log, pos + 1, end);
    }
  }

  /** A tag that does not end the wait. */
  lemma GetsWaiting(log: seq<Tag>, pos: nat, end: nat, rest: seq<nat>)
    requires pos < end <= |log| && !IsKey(log[pos]) && Gets(log, pos + 1, true, end) == rest
    ensures Gets(log, pos, true, end) == if log[pos].VideoTag? then rest else [pos] + rest
    ensures WaitsAfter(log, pos, true, end) == WaitsAfter(log, pos + 1, true, end)
  {
  }

  lemma {:induction false} GetsPastKey(log: seq<Tag>, pos: nat, n: nat, end: nat)
    requires pos <= n < end <= |log| && IsKey(log[n]) && forall i :: pos <= i < n ==> !IsKey(log[i])
    ensures Gets(log, pos, true, end) == NonVideo(log, pos, n) + Span(n, end)
    ensures !WaitsAfter(log, pos, true, end)
    decreases n - pos
  {
    if pos == n {
      GetsAll(log, n + 1, end);
      assert [] + Span(n, end) == Span(n, end);
    } else {
      GetsPastKey(log, pos + 1, n, end);
      GetsWaiting(log, pos, end, NonVideo(log, pos + 1, n) + Span(n, end));
      Assoc([pos], NonVideo(log, pos + 1, n), Span(n, end));
    }
  }

  /** How a wait ends, in every run without a further lag that gets past the first tag flagged as
      keyframe, at `n`: the player got every tag that is not video and no video tag before `n`,
      and from there on every tag. */
  lemma ResumesAtNextKey(y: Sys, events: seq<Event>, n: nat)
    requires Ready(y.s) && y.s.waiting && y.s.pos <= |y.c.log| && NoLag(events)
    requires RunOf(y, events).s.Joined? && y.s.pos <= n < RunOf(y, events).s.pos <= |RunOf(y, events).c.log|
    requires IsKey(RunOf(y, events).c.log[n])
    requires forall i :: y.s.pos <= i < n ==> !IsKey(RunOf(y, events).c.log[i])
    ensures var y' := RunOf(y, events);
            && !y'.s.waiting
            && y'.s.delivered == y.s.delivered + (NonVideo(y'.c.log, y.s.pos, n) + Span(n, y'.s.pos))
  {
    var y' := RunOf(y, events);
    RunGets(y, events);
    GetsPastKey(y'.c.log, y.s.pos, n, y'.s.pos);
  }

  /** A video tag with coded data, as opposed to a sequence header. */
  predicate IsCoded(tag: Tag)
  {
    tag.VideoTag? && !IsSequenceHeader(tag)
  }

  predicate IsPicture(tag: Tag)
  {
    IsCoded(tag) && tag.isKeyframe
  }

  /** The first of the positions that holds coded video. */
  function FirstCoded(log: seq<Tag>, at: seq<nat>): (p: Option<nat>)
    requires forall i :: 0 <= i < |at| ==> at[i] < |log|
  {
    if at == [] then None
    else if IsCoded(log[at[0]]) then Some(at[0])
    else FirstCoded(log, at[1..])
  }

  lemma {:induction false} NonVideoPositions(log: seq<Tag>, a: nat, b: nat)
    requires a <= b <= |log|
    ensures forall i :: 0 <= i < |NonVideo(log, a, b)| ==>
              NonVideo(log, a, b)[i] < |log| && !log[NonVideo(log, a, b)[i]].VideoTag?
    decreases b - a
  {
    if a < b {
      NonVideoPositions(log, a + 1, b);
    }
  }

  ghost predicate FirstCodedIs(log: seq<Tag>, at: seq<nat>, v: nat)
  {
    (forall i :: 0 <= i < |at| ==> at[i] < |log|) && FirstCoded(log, at) == Some(v)
  }

  lemma {:induction false} SpanPositions(log: seq<Tag>, a: nat, v: nat, end: nat)
    requires a <= v < end <= |log| && IsCoded(log[v]) && forall i :: a <= i < v ==> !IsCoded(log[i])
    ensures FirstCodedIs(log, Span(a, end), v)
    decreases v - a
  {
    if a < v {
      SpanPositions(log, a + 1, v, end);
      FirstCodedSkips(log, a, Span(a + 1, end), v);
    } else {
      SpanInRange(a, end);
    }
  }

  lemma {:induction false} SpanInRange(a: nat, end: nat)
    ensures forall i :: 0 <= i < |Span(a, end)| ==> Span(a, end)[i] < end
    decreases end - a
  {
    if a < end {
      SpanInRange(a + 1, end);
    }
  }

  lemma FirstCodedSkips(log: seq<Tag>, first: nat, at: seq<nat>, v: nat)
    requires first < |log| && !IsCoded(log[first]) && FirstCodedIs(log, at, v)
    ensures FirstCodedIs(log, [first] + at, v)
  {
    assert ([first] + at)[1..] == at;
  }

  lemma {:induction false} FirstCodedBehind(log: seq<Tag>, a: seq<nat>, b: seq<nat>, v: nat)
    requires forall i :: 0 <= i < |a| ==> a[i] < |log| && !log[a[i]].VideoTag?
    requires FirstCodedIs(log, b, v)
    ensures FirstCodedIs(log, a + b, v)
    decreases |a|
  {
    if a == [] {
      assert a + b == b;
    } else {
      FirstCodedBehind(log, a[1..], b, v);
      FirstCodedSkips(log, a[0], a[1..] + b, v);
      assert a + b == [a[0]] + (a[1..] + b);
    }
  }

  /** What a player sees behind a lag, in every run without a further one that gets past the first
      coded video, at `v`, from the next tag flagged as keyframe, at `n`, on: it got the tags that
      are not video before `n` and then all of them, so its first coded video is `v`. That is a
      picture if and only if the tag is a keyframe, which it is whenever the tag at `n` is not a
      sequence header. */
  lemma ResumesWithPicture(y: Sys, events: seq<Event>, n: nat, v: nat)
    requires Ready(y.s) && y.s.waiting && y.s.pos <= |y.c.log| && NoLag(events)
    requires RunOf(y, events).s.Joined? && y.s.pos <= n <= v < RunOf(y, events).s.pos <= |RunOf(y, events).c.log|
    requires IsKey(RunOf(y, events).c.log[n])
    requires forall i :: y.s.pos <= i < n ==> !IsKey(RunOf(y, events).c.log[i])
    requires IsCoded(RunOf(y, events).c.log[v])
    requires forall i :: n <= i < v ==> !IsCoded(RunOf(y, events).c.log[i])
    ensures var y' := RunOf(y, events);
            var news := NonVideo(y'.c.log, y.s.pos, n) + Span(n, y'.s.pos);
            y'.s.delivered == y.s.delivered + news && FirstCodedIs(y'.c.log, news, v)
    ensures IsPicture(RunOf(y, events).c.log[v]) <==> IsKey(RunOf(y, events).c.log[v])
    ensures !IsSequenceHeader(RunOf(y, events).c.log[n]) ==> v == n && IsPicture(RunOf(y, events).c.log[v])
  {
    var y' := RunOf(y, events);
    ResumesAtNextKey(y, events, n);
    NewsFirstCoded(y'.c.log, y.s.pos, n, v, y'.s.pos);
    assert !IsSequenceHeader(y'.c.log[n]) ==> IsCoded(y'.c.log[n]);
  }

  lemma NewsFirstCoded(log: seq<Tag>, pos: nat, n: nat, v: nat, end: nat)
    requires pos <= n <= v < end <= |log| && IsCoded(log[v]) && forall i :: n <= i < v ==> !IsCoded(log[i])
    ensures FirstCodedIs(log, NonVideo(log, pos, n) + Span(n, end), v)
  {
    NonVideoPositions(log, pos, n);
    SpanPositions(log, n, v, end);
    FirstCodedBehind(log, NonVideo(log, pos, n), Span(n, end), v);
  }

  // ------------------------------------------------------- two runs the ring allows

  lemma {:induction false} RunAppend(y: Sys, a: seq<Event>, b: seq<Event>)
    requires RingRun(y, a) && RingRun(RunOf(y, a), b)
    ensures RunOf(y, a + b) == RunOf(RunOf(y, a), b) && RingRun(y, a + b)
    decreases |a|
  {
    if a == [] {
      assert a + b == b;
    } else {
      RunAppend(Next(y, a[0]), a[1..], b);
      assert (a + b)[1..] == a[1..] + b;
    }
  }

  /** A subscriber joins, without any other step in between. */
  function Joining(): (events: seq<Event>)
  {
    [TakeReceiver] + ([ReadSlot(MetaKind)] + ([ReadSlot(VideoKind)] + [ReadSlot(AudioKind)]))
  }

  lemma OneStep(y: Sys, e: Event, more: seq<Event>)
    requires RingStep(y, e) && RingRun(Next(y, e), more)
    ensures RunOf(y, [e] + more) == RunOf(Next(y, e), more) && RingRun(y, [e] + more)
  {
    assert ([e] + more)[1..] == more;
  }

  lemma LastStep(y: Sys, e: Event)
    requires RingStep(y, e)
    ensures RunOf(y, [e]) == Next(y, e) && RingRun(y, [e])
  {
    OneStep(y, e, []);
    assert [e] + [] == [e];
  }

  /** A subscriber of an empty channel that holds nothing yet. */
  predicate JustJoined(s: Subscriber)
  {
    && Ready(s) && s.pos == s.start == 0 && !s.waiting && s.delivered == [] && s.missed == {}
    && s.got[MetaKind] == s.got[VideoKind] == s.got[AudioKind] == CacheRead(None, 0)
  }

  lemma JoiningRun()
    ensures RingRun(START, Joining())
    ensures RunOf(START, Joining()).c == NEW_CHANNEL && JustJoined(RunOf(START, Joining()).s)
  {
    var y1 := Next(START, TakeReceiver);
    var y2 := Next(y1, ReadSlot(MetaKind));
    var y3 := Next(y2, ReadSlot(VideoKind));
    LastStep(y3, ReadSlot(AudioKind));
    OneStep(y2, ReadSlot(VideoKind), [ReadSlot(AudioKind)]);
    OneStep(y1, ReadSlot(MetaKind), [ReadSlot(VideoKind)] + [ReadSlot(AudioKind)]);
    OneStep(START, TakeReceiver, [ReadSlot(MetaKind)] + ([ReadSlot(VideoKind)] + [ReadSlot(AudioKind)]));
  }

  /** Broadcast calls, one after the other. */
  function Sending(tags: seq<Tag>): (events: seq<Event>)
  {
    if tags == [] then [] else [Cache(tags[0])] + ([Send] + Sending(tags[1..]))
  }

  lemma {:induction false} SendingRun(y: Sys, tags: seq<Tag>)
    requires y.c.pending.None?
    ensures RingRun(y, Sending(tags))
    ensures var y' := RunOf(y, Sending(tags));
            y'.c.log == y.c.log + tags && y'.c.pending.None? && y'.s == y.s
    decreases |tags|
  {
    if tags == [] {
      assert y.c.log + tags == y.c.log;
    } else {
      var y1 := Next(y, Cache(tags[0]));
      var y2 := Next(y1, Send);
      SendingRun(y2, tags[1..]);
      OneStep(y1, Send, Sending(tags[1..]));
      OneStep(y, Cache(tags[0]), [Send] + Sending(tags[1..]));
      assert y2.c.log + tags[1..] == y.c.log + tags;
    }
  }

  /** Join, miss the first of `CAPACITY` + 1 tags, and notice. */
  function LosingOne(first: Tag, rest: seq<Tag>): (events: seq<Event>)
  {
    (Joining() + Sending([first] + rest)) + [Lag(1)]
  }

  lemma LosingOneRun(first: Tag, rest: seq<Tag>)
    requires |rest| == CAPACITY
    ensures RingRun(START, LosingOne(first, rest))
    ensures var y := RunOf(START, LosingOne(first, rest));
            && y.c.log == [first] + rest && Ready(y.s) && y.s.got[AudioKind] == CacheRead(None, 0)
            && y.s.start == 0 && y.s.pos == 1 && y.s.waiting && y.s.delivered == [] && y.s.missed == {0}
  {
    JoiningRun();
    var y1 := RunOf(START, Joining());
    SendingRun(y1, [first] + rest);
    RunAppend(START, Joining(), Sending([first] + rest));
    var y2 := RunOf(y1, Sending([first] + rest));
    LastStep(y2, Lag(1));
    RunAppend(START, Joining() + Sending([first] + rest), [Lag(1)]);
    assert Range(0, 1) == {0};
  }

  /** A sequence header is flagged as a keyframe too, so the wait can end without a picture: the
      only picture is lost in a lag, and the first coded video delivered is an inter frame. */
  lemma HeaderEndsTheWait() returns (events: seq<Event>)
    ensures RingRun(START, events)
    ensures var y := RunOf(START, events);
            && |y.c.log| == 1025 && IsPicture(y.c.log[0])
            && y.s.Joined? && y.s.delivered == [1, 2]
            && IsSequenceHeader(y.c.log[1]) && IsCoded(y.c.log[2]) && !IsPicture(y.c.log[2])
  {
    var picture, header, inter := MakeVideo(0, [0x17, 1]), MakeVideo(40, [0x17, 0]), MakeVideo(40, [0x27, 1]);
    var rest := [header] + seq(CAPACITY - 1, _ => inter);
    assert rest[0] == header && rest[1] == inter;
    LosingOneRun(picture, rest);
    var y := RunOf(START, LosingOne(picture, rest));
    assert y.c.log[1] == header && y.c.log[2] == inter;
    TwoReceives(y);
    events := LosingOne(picture, rest) + ([Receive] + [Receive]);
    RunAppend(START, LosingOne(picture, rest), [Receive] + [Receive]);
  }

  lemma TwoReceives(y: Sys)
    requires Ready(y.s) && y.s.waiting && y.s.pos == 1 && y.s.delivered == []
    requires |y.c.log| == CAPACITY + 1 && IsKey(y.c.log[1])
    ensures RingRun(y, [Receive] + [Receive])
    ensures var y' := RunOf(y, [Receive] + [Receive]);
            y'.c == y.c && y'.s.Joined? && y'.s.delivered == [1, 2]
  {
    var y1 := Next(y, Receive);
    assert y1.s.delivered == [1] && !y1.s.waiting;
    LastStep(y1, Receive);
    OneStep(y, Receive, [Receive]);
    assert [1] + [2] == [1, 2];
  }

  // ------------------------------------------------ the header a player works with

  /** Where the newest header of a kind is; -1 without one. */
  function HeaderAt(k: Kind, tags: seq<Tag>): (p: int)
    ensures -1 <= p < |tags|
    decreases |tags|
  {
    if tags == [] then -1
    else if IsHeader(k, tags[|tags| - 1]) then |tags| - 1
    else HeaderAt(k, tags[..|tags| - 1])
  }

  lemma {:induction false} HeaderAtIs(k: Kind, tags: seq<Tag>)
    ensures var p := HeaderAt(k, tags);
            && LastHeader(k, tags) == (if p < 0 then None else Some(tags[p]))
            && (p >= 0 ==> IsHeader(k, tags[p]))
            && forall i :: p < i < |tags| ==> !IsHeader(k, tags[i])
    decreases |tags|
  {
    if tags != [] && !IsHeader(k, tags[|tags| - 1]) {
      var front := tags[..|tags| - 1];
      HeaderAtIs(k, front);
      assert forall i :: 0 <= i < |front| ==> front[i] == tags[i];
    }
  }

  function TagsAt(log: seq<Tag>, at: seq<nat>): (r: seq<Tag>)
    requires forall i :: 0 <= i < |at| ==> at[i] < |log|
    ensures |r| == |at|
    ensures forall i :: 0 <= i < |at| ==> r[i] == log[at[i]]
  {
    seq(|at|, i requires 0 <= i < |at| => log[at[i]])
  }

  /** Everything handed to the player: the cached header of the kind, then the live tags. */
  ghost function HandedOver(y: Sys, k: Kind): (r: seq<Tag>)
    requires Positions(y) && y.s.Joined? && k in y.s.got
  {
    Present(y.s.got[k].value) + TagsAt(y.c.log, y.s.delivered)
  }

  /** Position of the header the player works with: the last one delivered, else the cached one. */
  ghost function Known(y: Sys, k: Kind): (p: int)
    requires Positions(y) && y.s.Joined? && k in y.s.got && y.s.got[k].at <= |Heard(y.c)|
    ensures -1 <= p < |Heard(y.c)|
  {
    var i := HeaderAt(k, TagsAt(y.c.log, y.s.delivered));
    if i >= 0 then y.s.delivered[i] else HeaderAt(k, Heard(y.c)[..y.s.got[k].at])
  }

  /** From where on a header is news to the player. */
  ghost function Since(y: Sys, k: Kind): (p: nat)
    requires Positions(y) && y.s.Joined? && k in y.s.got
  {
    var i := HeaderAt(k, TagsAt(y.c.log, y.s.delivered));
    if i >= 0 then y.s.delivered[i] + 1 else y.s.got[k].at
  }

  lemma LastOfBoth(k: Kind, cached: seq<Tag>, live: seq<Tag>)
    ensures LastHeader(k, Present(LastHeader(k, cached)) + live)
            == if HeaderAt(k, live) >= 0 then Some(live[HeaderAt(k, live)]) else LastHeader(k, cached)
  {
    HeaderAtIs(k, live);
    LastHeaderAppend(k, Present(LastHeader(k, cached)), live);
    if LastHeader(k, cached).Some? {
      LastHeaderOfOne(k, cached, LastHeader(k, cached).value);
    }
  }

  lemma LastOfValues(k: Kind, log: seq<Tag>, heard: seq<Tag>, delivered: seq<nat>, at: nat)
    requires log <= heard && at <= |heard| && forall i :: 0 <= i < |delivered| ==> delivered[i] < |log|
    ensures var live := TagsAt(log, delivered);
            var i := HeaderAt(k, live);
            var p := if i >= 0 then delivered[i] else HeaderAt(k, heard[..at]);
            && -1 <= p < |heard|
            && LastHeader(k, Present(LastHeader(k, heard[..at])) + live) == if p < 0 then None else Some(heard[p])
  {
    LastOfBoth(k, heard[..at], TagsAt(log, delivered));
    HeaderAtIs(k, heard[..at]);
  }

  lemma KnownIsLast(y: Sys, k: Kind)
    requires Positions(y) && ReadsRight(y) && y.s.Joined? && k in y.s.got
    ensures var p := Known(y, k);
            LastHeader(k, HandedOver(y, k)) == if p < 0 then None else Some(Heard(y.c)[p])
  {
    LastOfValues(k, y.c.log, Heard(y.c), y.s.delivered, y.s.got[k].at);
  }

  /** A header of the kind was jumped over by a lag, or skipped in the wait behind one, after
      the header the player works with. */
  ghost predicate LostHeader(y: Sys, k: Kind)
    requires Positions(y) && y.s.Joined? && k in y.s.got
  {
    exists i :: && Since(y, k) <= i < y.s.pos && IsHeader(k, y.c.log[i])
                && (i in y.s.missed || (y.c.log[i].VideoTag? && !y.c.log[i].isKeyframe))
  }

  lemma NoneDelivered(y: Sys, k: Kind, i: nat)
    requires Positions(y) && y.s.Joined? && k in y.s.got
    requires Since(y, k) <= i < y.s.pos && IsHeader(k, y.c.log[i])
    ensures i !in y.s.delivered
  {
    HeaderAtIs(k, TagsAt(y.c.log, y.s.delivered));
  }

  lemma NewestOf(k: Kind, log: seq<Tag>, pos: nat, known: int, since: nat)
    requires -1 <= known < since && pos <= |log|
    requires forall i :: known < i < since && i < pos ==> !IsHeader(k, log[i])
    ensures HeaderAt(k, log[..pos]) <= known <==> forall i :: since <= i < pos ==> !IsHeader(k, log[i])
  {
    HeaderAtIs(k, log[..pos]);
    assert forall i :: 0 <= i < pos ==> log[..pos][i] == log[i];
  }

  lemma KnownBeforeSince(y: Sys, k: Kind)
    requires Positions(y) && ReadsRight(y) && y.s.Joined? && k in y.s.got
    ensures Known(y, k) < Since(y, k)
    ensures forall i :: Known(y, k) < i < Since(y, k) && i < y.s.pos ==> !IsHeader(k, y.c.log[i])
  {
    HeaderAtIs(k, Heard(y.c)[..y.s.got[k].at]);
    assert forall i :: 0 <= i < y.s.pos ==> Heard(y.c)[i] == y.c.log[i];
  }

  /** The receive loops do not read the cache again, so a header can be lost for good: in every
      run the player works with a header as new as anything broadcast up to where it is, if and
      only if no header was lost to a lag since. */
  lemma PlayerUpToDate(events: seq<Event>, k: Kind)
    requires Ready(RunOf(START, events).s)
    ensures var y := RunOf(START, events);
            Inv(y) && k in y.s.got && WorksWith(y, k)
  {
    EveryRun(START, events);
    EveryKindRead(RunOf(START, events).s, k);
    UpToDateIff(RunOf(START, events), k);
  }

  ghost predicate WorksWith(y: Sys, k: Kind)
    requires Inv(y) && y.s.Joined? && k in y.s.got
  {
    && LastHeader(k, HandedOver(y, k)) == (if Known(y, k) < 0 then None else Some(Heard(y.c)[Known(y, k)]))
    && (HeaderAt(k, y.c.log[..y.s.pos]) <= Known(y, k) <==> !LostHeader(y, k))
    && (y.s.missed == {} ==> !LostHeader(y, k))
  }

  lemma LostOrNot(y: Sys, k: Kind)
    requires Positions(y) && Accounted(y) && ReadsRight(y) && y.s.Joined? && k in y.s.got
    ensures LostHeader(y, k) <==> exists i :: Since(y, k) <= i < y.s.pos && IsHeader(k, y.c.log[i])
    ensures y.s.missed == {} ==> !LostHeader(y, k)
  {
    forall i | Since(y, k) <= i < y.s.pos && IsHeader(k, y.c.log[i])
      ensures i in y.s.missed || (y.c.log[i].VideoTag? && !y.c.log[i].isKeyframe && y.s.missed != {})
    {
      NoneDelivered(y, k, i);
    }
  }

  lemma UpToDateIff(y: Sys, k: Kind)
    requires Inv(y) && y.s.Joined? && k in y.s.got
    ensures WorksWith(y, k)
  {
    KnownIsLast(y, k);
    KnownBeforeSince(y, k);
    NewestOf(k, y.c.log, y.s.pos, Known(y, k), Since(y, k));
    LostOrNot(y, k);
  }

  /** The run that loses one: the only audio header falls into a lag. */
  lemma LagLosesHeader() returns (events: seq<Event>)
    ensures RingRun(START, events) && Ready(RunOf(START, events).s)
    ensures var y := RunOf(START, events);
            Positions(y) && AudioKind in y.s.got && LostHeader(y, AudioKind)
  {
    var header, frame := AudioTag(0, [0xAF, 0]), AudioTag(0, [0xAF, 1]);
    var rest := seq(CAPACITY, _ => frame);
    events := LosingOne(header, rest);
    LosingOneRun(header, rest);
    var y := RunOf(START, events);
    assert y.c.log[0] == header && IsHeader(AudioKind, header);
    assert Since(y, AudioKind) == 0;
  }
}
