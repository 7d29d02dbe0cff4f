/** The live FLV channel: one broadcaster, header caches for late joiners, and a subscriber
    that may lag behind. Every mutex section and every channel operation is one step, and the
    steps of the two sides interleave freely. */
module FlvChannel {
  import opened Bytes
  import opened FlvTag

  // ------------------------------------------------------------------------ tags

  datatype Kind = MetaKind | VideoKind | AudioKind

  function KindOf(tag: Tag): (k: Kind)
  {
    match tag
    case ScriptTag(_) => MetaKind
    case VideoTag(_, _, _) => VideoKind
    case AudioTag(_, _) => AudioKind
  }

  predicate IsHeader(k: Kind, tag: Tag)
  {
    IsSequenceHeader(tag) && KindOf(tag) == k
  }

  predicate IsKey(tag: Tag)
  {
    tag.VideoTag? && tag.isKeyframe
  }

  /** The newest header of a kind. */
  function LastHeader(k: Kind, tags: seq<Tag>): (r: Option<Tag>)
    decreases |tags|
  {
    if tags == [] then None
    else
      var last := tags[|tags| - 1];
      if IsHeader(k, last) then Some(last) else LastHeader(k, tags[..|tags| - 1])
  }

  lemma LastHeaderSnoc(k: Kind, tags: seq<Tag>, tag: Tag)
    ensures LastHeader(k, tags + [tag]) == if IsHeader(k, tag) then Some(tag) else LastHeader(k, tags)
  {
    assert (tags + [tag])[..|tags|] == tags;
  }

  lemma {:induction false} LastHeaderAppend(k: Kind, a: seq<Tag>, b: seq<Tag>)
    ensures LastHeader(k, a + b) == if LastHeader(k, b).Some? then LastHeader(k, b) else LastHeader(k, a)
    decreases |b|
  {
    if b == [] {
      assert a + b == a;
    } else {
      LastHeaderAppend(k, a, b[..|b| - 1]);
      assert (a + b)[..|a + b| - 1] == a + b[..|b| - 1];
    }
  }

  lemma {:induction false} LastHeaderIs(k: Kind, tags: seq<Tag>, i: nat) returns (j: nat)
    requires i < |tags| && IsHeader(k, tags[i])
    ensures i <= j < |tags| && IsHeader(k, tags[j]) && LastHeader(k, tags) == Some(tags[j])
    ensures forall m :: j < m < |tags| ==> !IsHeader(k, tags[m])
    decreases |tags|
  {
    j := |tags| - 1;
    if !IsHeader(k, tags[j]) {
      j := LastHeaderIs(k, tags[..|tags| - 1], i);
    }
  }

  // --------------------------------------------------------------------- channel

  /** `log` is everything sent; `pending` the tag a broadcast call has cached, not yet sent. */
  datatype Channel = Channel(log: seq<Tag>, pending: Option<Tag>, slots: map<Kind, Tag>)

  const NEW_CHANNEL := Channel([], None, map[])

  /** `cache_seq_header`. */
  function Cached(c: Channel, tag: Tag): (r: Channel)
  {
    Channel(c.log, Some(tag), if IsSequenceHeader(tag) then c.slots[KindOf(tag) := tag] else c.slots)
  }

  /** `sender.send`. */
  function Sent(c: Channel): (r: Channel)
    requires c.pending.Some?
  {
    Channel(c.log + [c.pending.value], None, c.slots)
  }

  function Slot(c: Channel, k: Kind): (r: Option<Tag>)
  {
    if k in c.slots then Some(c.slots[k]) else None
  }

  /** Every tag broadcast so far, the pending one included. */
  function Heard(c: Channel): (s: seq<Tag>)
  {
    if c.pending.Some? then c.log + [c.pending.value] else c.log
  }

  /** `FlvLiveChannel`, used from one thread: what the two calls amount to. */
  class FlvLiveChannel {
    var log: seq<Tag>
    var videoSeq: Option<Tag>
    var audioSeq: Option<Tag>
    var metadata: Option<Tag>

    constructor ()
      ensures log == [] && videoSeq == None && audioSeq == None && metadata == None
    {
      log, videoSeq, audioSeq, metadata := [], None, None, None;
    }

    ghost predicate Valid()
      reads this
    {
      && metadata == LastHeader(MetaKind, log)
      && videoSeq == LastHeader(VideoKind, log)
      && audioSeq == LastHeader(AudioKind, log)
    }

    method Broadcast(tag: Tag)
      requires Valid()
      modifies this
      ensures Valid() && log == old(log) + [tag]
    {
      if IsSequenceHeader(tag) {
        match tag {
          case VideoTag(_, _, _) => videoSeq := Some(tag);
          case AudioTag(_, _) => audioSeq := Some(tag);
          case ScriptTag(_) => metadata := Some(tag);
        }
      }
      LastHeaderSnoc(MetaKind, log, tag);
      LastHeaderSnoc(VideoKind, log, tag);
      LastHeaderSnoc(AudioKind, log, tag);
      log := log + [tag];
    }

    /** Start position and cached headers, in the order metadata, video, audio. */
    method Subscribe() returns (start: nat, cached: seq<Tag>)
      requires Valid()
      ensures start == |log|
      ensures cached == Present(LastHeader(MetaKind, log)) + Present(LastHeader(VideoKind, log))
                        + Present(LastHeader(AudioKind, log))
    {
      start := |log|;
      cached := [];
      if metadata.Some? {
        cached := cached + [metadata.value];
      }
      if videoSeq.Some? {
        cached := cached + [videoSeq.value];
      }
      if audioSeq.Some? {
        cached := cached + [audioSeq.value];
      }
    }
  }

  // ------------------------------------------------------------------ subscriber

  /** A value read from a cache slot, and how much had been broadcast at that moment. */
  datatype CacheRead = CacheRead(value: Option<Tag>, at: nat)

  /** `got` grows in the order metadata, video, audio; with all three the receive loop
      runs. `delivered` lists the log positions handed to the player, `missed` those a lag
      jumped over. */
  datatype Subscriber =
    | Absent
    | Joined(start: nat, got: map<Kind, CacheRead>, pos: nat, waiting: bool, delivered: seq<nat>,
             missed: set<nat>)

  predicate Ready(s: Subscriber)
  {
    s.Joined? && MetaKind in s.got && VideoKind in s.got && AudioKind in s.got
  }

  predicate NextRead(s: Subscriber, k: Kind)
  {
    && s.Joined? && k !in s.got
    && (k != MetaKind ==> MetaKind in s.got)
    && (k == AudioKind ==> VideoKind in s.got)
  }

  datatype Sys = Sys(c: Channel, s: Subscriber)

  const START := Sys(NEW_CHANNEL, Absent)

  datatype Event =
    | Cache(tag: Tag)
    | Send
    | TakeReceiver
    | ReadSlot(kind: Kind)
    | Receive
    | Lag(to: nat)

  /** `should_skip_while_waiting_keyframe`: the decision and the new flag. */
  function SkipWhileWaiting(waiting: bool, tag: Tag): (r: (bool, bool))
  {
    if !waiting then (false, false)
    else if IsKey(tag) then (false, false)
    else (tag.VideoTag?, true)
  }

  class Player {
    var waitingKeyframe: bool

    method ShouldSkip(tag: Tag) returns (skip: bool)
      modifies this
      ensures (skip, waitingKeyframe) == SkipWhileWaiting(old(waitingKeyframe), tag)
    {
      if !waitingKeyframe {
        return false;
      }
      match tag {
        case VideoTag(_, _, isKeyframe) =>
          if isKeyframe {
            waitingKeyframe := false;
            return false;
          }
          return true;
        case _ => return false;
      }
    }
  }

  function Received(c: Channel, s: Subscriber): (r: Subscriber)
    requires s.Joined? && s.pos < |c.log|
  {
    var (skip, waiting) := SkipWhileWaiting(s.waiting, c.log[s.pos]);
    s.(pos := s.pos + 1, waiting := waiting, delivered := if skip then s.delivered else s.delivered + [s.pos])
  }

  function Range(a: nat, b: nat): (s: set<nat>)
    requires a <= b
    ensures forall i :: i in s <==> a <= i < b
    decreases b - a
  {
    if a == b then {} else {a} + Range(a + 1, b)
  }

  predicate Enabled(y: Sys, e: Event)
  {
    match e
    case Cache(_) => y.c.pending.None?
    case Send => y.c.pending.Some?
    case TakeReceiver => y.s.Absent?
    case ReadSlot(k) => NextRead(y.s, k)
    case Receive => Ready(y.s) && y.s.pos < |y.c.log|
    case Lag(to) => Ready(y.s) && y.s.pos < to <= |y.c.log|
  }

  /** One step; an event that is not enabled changes nothing. A lag may skip to any later
      position, so that what holds of every run holds for every capacity of the ring. */
  function Next(y: Sys, e: Event): (y': Sys)
  {
    if !Enabled(y, e) then y
    else
      match e
      case Cache(tag) => y.(c := Cached(y.c, tag))
      case Send => y.(c := Sent(y.c))
      case TakeReceiver => y.(s := Joined(|y.c.log|, map[], |y.c.log|, false, [], {}))
      case ReadSlot(k) => y.(s := y.s.(got := y.s.got[k := CacheRead(Slot(y.c, k), |Heard(y.c)|)]))
      case Receive => y.(s := Received(y.c, y.s))
      case Lag(to) => y.(s := y.s.(pos := to, waiting := true, missed := y.s.missed + Range(y.s.pos, to)))
  }

  /** Slots of the broadcast ring. */
  const CAPACITY: nat := 1024

  /** What the ring lets happen: a tag is there for as long as fewer than `CAPACITY` newer ones
      are, and a receiver that lost tags resumes at the oldest one left. */
  predicate RingStep(y: Sys, e: Event)
  {
    && Enabled(y, e)
    && (e.Receive? ==> |y.c.log| <= y.s.pos + CAPACITY)
    && (e.Lag? ==> |y.c.log| == e.to + CAPACITY)
  }

  ghost predicate RingRun(y: Sys, events: seq<Event>)
    decreases |events|
  {
    events != [] ==> RingStep(y, events[0]) && RingRun(Next(y, events[0]), events[1..])
  }

  function RunOf(y: Sys, events: seq<Event>): (y': Sys)
    decreases |events|
  {
    if events == [] then y else RunOf(Next(y, events[0]), events[1..])
  }

  // ------------------------------------------------------------------ invariants

  /** Each slot holds the newest header of its kind among all tags heard. */
  ghost predicate SlotsCurrent(c: Channel)
  {
    forall k :: Slot(c, k) == LastHeader(k, Heard(c))
  }

  /** A cache read saw the newest header of that moment, not before the subscription. */
  ghost predicate ReadsRight(y: Sys)
  {
    y.s.Joined? ==>
      && y.s.start <= |y.c.log|
      && forall k :: k in y.s.got ==>
           && y.s.start <= y.s.got[k].at <= |Heard(y.c)|
           && y.s.got[k].value == LastHeader(k, Heard(y.c)[..y.s.got[k].at])
  }

  ghost predicate Positions(y: Sys)
  {
    y.s.Joined? ==>
      && y.s.start <= y.s.pos <= |y.c.log|
      && (forall i :: 0 <= i < |y.s.delivered| ==> y.s.start <= y.s.delivered[i] < y.s.pos)
      && (forall i, j :: 0 <= i < j < |y.s.delivered| ==> y.s.delivered[i] < y.s.delivered[j])
  }

  /** The last video tag among the first `k` delivered ones, or the subscription point. */
  function PrevVideo(log: seq<Tag>, start: nat, delivered: seq<nat>, k: nat): (p: int)
    requires k <= |delivered| && forall i :: 0 <= i < |delivered| ==> delivered[i] < |log|
    decreases k
  {
    if k == 0 then start - 1
    else if log[delivered[k - 1]].VideoTag? then delivered[k - 1]
    else PrevVideo(log, start, delivered, k - 1)
  }

  ghost predicate NoVideoBetween(log: seq<Tag>, a: int, b: nat)
  {
    forall i :: 0 <= i < |log| && a < i < b ==> !log[i].VideoTag?
  }

  /** Every delivered non-key video tag directly follows, among the video tags broadcast, the
      previously delivered video tag or the subscription point. */
  ghost predicate NoHiddenGap(y: Sys)
    requires Positions(y)
  {
    y.s.Joined? ==>
      forall k :: 0 <= k < |y.s.delivered| ==>
        var d := y.s.delivered[k];
        y.c.log[d].VideoTag? && !y.c.log[d].isKeyframe ==>
          NoVideoBetween(y.c.log, PrevVideo(y.c.log, y.s.start, y.s.delivered, k), d)
  }

  /** While not waiting nothing was missed since the last delivered video tag. */
  ghost predicate CaughtUp(y: Sys)
    requires Positions(y)
  {
    y.s.Joined? && !y.s.waiting ==>
      NoVideoBetween(y.c.log, PrevVideo(y.c.log, y.s.start, y.s.delivered, |y.s.delivered|), y.s.pos)
  }

  /** Everything received is delivered, except non-key video tags behind a lag; so audio,
      metadata and keyframes are never skipped, and without lag nothing is. */
  ghost predicate Accounted(y: Sys)
    requires Positions(y)
  {
    y.s.Joined? ==>
      && (y.s.waiting ==> y.s.missed != {})
      && (forall m :: m in y.s.missed ==> m < y.s.pos)
      && forall i :: y.s.start <= i < y.s.pos ==>
           || i in y.s.delivered
           || i in y.s.missed
           || (y.c.log[i].VideoTag? && !y.c.log[i].isKeyframe && exists m :: m in y.s.missed && m < i)
  }

  ghost predicate Inv(y: Sys)
  {
    SlotsCurrent(y.c) && ReadsRight(y) && Positions(y) && NoHiddenGap(y) && CaughtUp(y) && Accounted(y)
  }

  // ------------------------------------------------------------- preservation, step by step

  lemma CacheKeepsSlots(c: Channel, tag: Tag)
    requires SlotsCurrent(c) && c.pending.None?
    ensures SlotsCurrent(Cached(c, tag))
  {
    var c' := Cached(c, tag);
    assert Heard(c')[..|c.log|] == c.log;
    forall k
      ensures Slot(c', k) == LastHeader(k, Heard(c'))
    {
      assert Slot(c, k) == LastHeader(k, c.log);
    }
  }

  lemma {:induction false} PrevVideoStable(log: seq<Tag>, log': seq<Tag>, start: nat, a: seq<nat>, b: seq<nat>, k: nat)
    requires k <= |a| && k <= |b| && a[..k] == b[..k] && log <= log'
    requires forall i :: 0 <= i < |a| ==> a[i] < |log|
    requires forall i :: 0 <= i < |b| ==> b[i] < |log'|
    ensures PrevVideo(log, start, a, k) == PrevVideo(log', start, b, k)
    decreases k
  {
    if k > 0 {
      assert a[k - 1] == a[..k][k - 1] && b[k - 1] == b[..k][k - 1];
      assert a[..k - 1] == a[..k][..k - 1] && b[..k - 1] == b[..k][..k - 1];
      PrevVideoStable(log, log', start, a, b, k - 1);
    }
  }

  lemma {:induction false} PrevVideoBound(log: seq<Tag>, start: nat, delivered: seq<nat>, k: nat)
    requires k <= |delivered| && forall i :: 0 <= i < |delivered| ==> start <= delivered[i] < |log|
    ensures start - 1 <= PrevVideo(log, start, delivered, k)
    decreases k
  {
    if k > 0 {
      PrevVideoBound(log, start, delivered, k - 1);
    }
  }

  /** A longer log changes nothing for what was delivered. */
  lemma GrowLog(y: Sys, c: Channel)
    requires Inv(y) && SlotsCurrent(c)
    requires y.c.log <= c.log && Heard(y.c) <= Heard(c)
    ensures Inv(y.(c := c))
  {
    var y' := y.(c := c);
    if y.s.Joined? {
      forall k | k in y.s.got
        ensures Heard(c)[..y.s.got[k].at] == Heard(y.c)[..y.s.got[k].at]
      {
      }
      forall k: nat | k <= |y.s.delivered|
        ensures PrevVideo(c.log, y.s.start, y.s.delivered, k) == PrevVideo(y.c.log, y.s.start, y.s.delivered, k)
      {
        PrevVideoStable(y.c.log, c.log, y.s.start, y.s.delivered, y.s.delivered, k);
      }
      GrowGap(y, c);
    }
  }

  lemma GrowGap(y: Sys, c: Channel)
    requires Positions(y) && NoHiddenGap(y) && CaughtUp(y) && y.s.Joined? && y.c.log <= c.log
    requires forall k: nat :: k <= |y.s.delivered| ==>
               PrevVideo(c.log, y.s.start, y.s.delivered, k) == PrevVideo(y.c.log, y.s.start, y.s.delivered, k)
    ensures Positions(y.(c := c)) && NoHiddenGap(y.(c := c)) && CaughtUp(y.(c := c))
  {
    forall k | 0 <= k < |y.s.delivered| && y.c.log[y.s.delivered[k]].VideoTag? && !y.c.log[y.s.delivered[k]].isKeyframe
      ensures NoVideoBetween(c.log, PrevVideo(c.log, y.s.start, y.s.delivered, k), y.s.delivered[k])
    {
    }
  }

  /** Receiving does not change what came before among the tags delivered already. */
  lemma ReceivePrevVideo(y: Sys)
    requires Positions(y) && Enabled(y, Receive)
    ensures Positions(Next(y, Receive))
    ensures forall k: nat :: k <= |y.s.delivered| ==>
              PrevVideo(y.c.log, y.s.start, Next(y, Receive).s.delivered, k)
              == PrevVideo(y.c.log, y.s.start, y.s.delivered, k)
  {
    var delivered := Next(y, Receive).s.delivered;
    forall k: nat | k <= |y.s.delivered|
      ensures PrevVideo(y.c.log, y.s.start, delivered, k) == PrevVideo(y.c.log, y.s.start, y.s.delivered, k)
    {
      assert delivered[..k] == y.s.delivered[..k];
      PrevVideoStable(y.c.log, y.c.log, y.s.start, y.s.delivered, delivered, k);
    }
  }

  lemma ReceiveKeepsGap(y: Sys)
    requires Positions(y) && NoHiddenGap(y) && CaughtUp(y) && Enabled(y, Receive)
    ensures Positions(Next(y, Receive)) && NoHiddenGap(Next(y, Receive)) && CaughtUp(Next(y, Receive))
  {
    var y' := Next(y, Receive);
    ReceivePrevVideo(y);
    forall k | 0 <= k < |y'.s.delivered|
      ensures var d := y'.s.delivered[k];
              y.c.log[d].VideoTag? && !y.c.log[d].isKeyframe ==>
                NoVideoBetween(y.c.log, PrevVideo(y.c.log, y.s.start, y'.s.delivered, k), d)
    {
      if k < |y.s.delivered| {
        assert y'.s.delivered[k] == y.s.delivered[k];
      }
    }
  }

  lemma ReceiveAccounts(y: Sys)
    requires Positions(y) && Accounted(y) && Enabled(y, Receive)
    ensures Positions(Next(y, Receive)) && Accounted(Next(y, Receive))
  {
    var y' := Next(y, Receive);
    forall i | y.s.start <= i < y'.s.pos
      ensures || i in y'.s.delivered
              || i in y'.s.missed
              || (y.c.log[i].VideoTag? && !y.c.log[i].isKeyframe && exists m :: m in y'.s.missed && m < i)
    {
      if i < y.s.pos {
        assert i in y.s.delivered ==> i in y'.s.delivered;
      } else if y'.s.delivered != y.s.delivered {
        assert y'.s.delivered[|y.s.delivered|] == i;
      } else {
        var m :| m in y.s.missed;
        assert m < i;
      }
    }
  }

  lemma StepKeepsInv(y: Sys, e: Event)
    requires Inv(y)
    ensures Inv(Next(y, e))
  {
    if Enabled(y, e) {
      match e
      case Cache(tag) =>
        CacheKeepsSlots(y.c, tag);
        GrowLog(y, Cached(y.c, tag));
      case Send =>
        assert Heard(Sent(y.c)) == Heard(y.c);
        GrowLog(y, Sent(y.c));
      case TakeReceiver =>
      case ReadSlot(k) =>
        assert Heard(y.c)[..|Heard(y.c)|] == Heard(y.c);
      case Receive =>
        ReceiveKeepsGap(y);
        ReceiveAccounts(y);
      case Lag(to) =>
        assert y.s.pos in Next(y, e).s.missed;
    }
  }

  lemma {:induction false} EveryRun(y: Sys, events: seq<Event>)
    requires Inv(y)
    ensures Inv(RunOf(y, events))
    decreases |events|
  {
    if events != [] {
      StepKeepsInv(y, events[0]);
      EveryRun(Next(y, events[0]), events[1..]);
    }
  }

  // ---------------------------------------------------------------- what a subscriber gets

  /** Late joiners: in every run, a header sent before the subscription is in the cache
      reads, or superseded there by a newer header of its kind. */
  lemma LateJoinerHasHeader(events: seq<Event>, k: Kind, i: nat) returns (j: nat)
    requires Ready(RunOf(START, events).s)
    requires i < RunOf(START, events).s.start && i < |RunOf(START, events).c.log|
    requires IsHeader(k, RunOf(START, events).c.log[i])
    ensures var y := RunOf(START, events);
            && i <= j < |Heard(y.c)| && IsHeader(k, Heard(y.c)[j])
            && k in y.s.got && y.s.got[k].value == Some(Heard(y.c)[j])
  {
    var y := RunOf(START, events);
    EveryRun(START, events);
    j := LastHeaderIs(k, Heard(y.c)[..y.s.got[k].at], i);
  }

  /** And nothing newer is missed either: with the broadcaster idle, cached header followed by
      the live tags ends in the same newest header, of every kind, as the whole broadcast. */
  lemma LateJoinerConverges(events: seq<Event>, k: Kind)
    requires Ready(RunOf(START, events).s) && RunOf(START, events).c.pending.None?
    ensures var y := RunOf(START, events);
            && y.s.start <= |y.c.log|
            && k in y.s.got
            && LastHeader(k, Present(y.s.got[k].value) + y.c.log[y.s.start..]) == LastHeader(k, y.c.log)
  {
    var y := RunOf(START, events);
    EveryRun(START, events);
    Converges(k, y.c.log, y.s.start, y.s.got[k].at);
  }

  lemma Converges(k: Kind, log: seq<Tag>, start: nat, at: nat)
    requires start <= at <= |log|
    ensures LastHeader(k, Present(LastHeader(k, log[..at])) + log[start..]) == LastHeader(k, log)
  {
    var value, live := LastHeader(k, log[..at]), log[start..];
    JoinSlices(log, start, start);
    JoinSlices(log, start, at);
    LastHeaderAppend(k, log[..start], live);
    LastHeaderAppend(k, log[..start], log[start..at]);
    LastHeaderAppend(k, Present(value), live);
    if value.Some? {
      LastHeaderOfOne(k, log[..at], value.value);
    } else {
      assert Present(value) == [];
    }
    if LastHeader(k, live).None? {
      assert live == log[start..at] + log[at..];
      LastHeaderAppend(k, log[start..at], log[at..]);
    }
  }

  lemma {:induction false} LastHeaderOfOne(k: Kind, tags: seq<Tag>, t: Tag)
    requires LastHeader(k, tags) == Some(t)
    ensures LastHeader(k, [t]) == Some(t)
    decreases |tags|
  {
    if !IsHeader(k, tags[|tags| - 1]) {
      LastHeaderOfOne(k, tags[..|tags| - 1], t);
    }
  }

  /** Lag recovery: in every run the delivered tags are a subsequence of the broadcast, a
      delivered non-key video tag directly follows the previously delivered one, and only lags
      and the wait behind them keep tags from the player. */
  lemma LagRecovery(events: seq<Event>)
    ensures var y := RunOf(START, events);
            Positions(y) && NoHiddenGap(y) && Accounted(y)
  {
    EveryRun(START, events);
  }

  /** Consequence for a player: going back from any delivered video tag, every video tag was
      delivered down to a keyframe tag or to the subscription point. */
  lemma {:induction false} GroupIsComplete(y: Sys, k: nat) returns (g: nat)
    requires Inv(y) && y.s.Joined? && k < |y.s.delivered| && y.c.log[y.s.delivered[k]].VideoTag?
    ensures y.s.start <= g <= y.s.delivered[k]
    ensures g == y.s.start || (g in y.s.delivered && IsKey(y.c.log[g]))
    ensures forall i :: g <= i <= y.s.delivered[k] && y.c.log[i].VideoTag? ==> i in y.s.delivered
    decreases k
  {
    var d := y.s.delivered[k];
    if IsKey(y.c.log[d]) {
      g := d;
    } else {
      var j := PrevVideoAt(y, k);
      if j < 0 {
        g := y.s.start;
      } else {
        g := GroupIsComplete(y, j);
      }
    }
  }

  lemma {:induction false} PrevVideoAt(y: Sys, k: nat) returns (j: int)
    requires Positions(y) && y.s.Joined? && k <= |y.s.delivered|
    ensures -1 <= j < k
    ensures var p := PrevVideo(y.c.log, y.s.start, y.s.delivered, k);
            if j < 0 then p == y.s.start - 1
            else p == y.s.delivered[j] && y.c.log[p].VideoTag?
    decreases k
  {
    if k == 0 {
      j := -1;
    } else if y.c.log[y.s.delivered[k - 1]].VideoTag? {
      j := k - 1;
    } else {
      j := PrevVideoAt(y, k - 1);
    }
  }
}
