/** What the segmenter guarantees over whole runs, with and without failing calls. */
module HlsRuns {
  import opened Bytes
  import opened Media
  import opened TimestampRepair
  import opened Playlist
  import opened HlsSegmenter

  /** A packet and how the foreign calls made for it end. */
  datatype Input = Input(pkt: EncodedPacket, env: Env)

  datatype Trace = Trace(h: Hls, segments: seq<Segment>)

  function After(cfg: Config, t: Trace, i: Input): (t': Trace)
    requires t.h.playlist.size >= 1
    ensures t'.h.playlist.size == t.h.playlist.size
  {
    var (h, r) := Processed(cfg, t.h, i.pkt, i.env);
    Trace(h, if r.Ok? then t.segments + r.value else t.segments)
  }

  /** The state and the emitted segments after a list of inputs. */
  function Run(cfg: Config, inputs: seq<Input>): (t: Trace)
    ensures t.h.playlist.size >= 1
    decreases |inputs|
  {
    if inputs == [] then Trace(Initial(cfg), [])
    else After(cfg, Run(cfg, inputs[..|inputs| - 1]), inputs[|inputs| - 1])
  }

  // ---------------------------------------------------------- what goes in, what comes out

  predicate Keeps(cfg: Config, pkt: EncodedPacket)
  {
    !pkt.isSequenceHeader && pkt.codec in cfg.streams
  }

  /** The input without sequence headers and packets no muxer stream takes. */
  function Routed(cfg: Config, inputs: seq<Input>): (r: seq<EncodedPacket>)
    decreases |inputs|
  {
    if inputs == [] then []
    else
      var front, last := Routed(cfg, inputs[..|inputs| - 1]), inputs[|inputs| - 1].pkt;
      if Keeps(cfg, last) then front + [last] else front
  }

  function Pkts(ws: seq<Written>): (r: seq<EncodedPacket>)
    ensures |r| == |ws|
  {
    seq(|ws|, i requires 0 <= i < |ws| => ws[i].pkt)
  }

  function Times(ws: seq<Written>): (r: seq<int>)
    ensures |r| == |ws|
  {
    seq(|ws|, i requires 0 <= i < |ws| => ws[i].time)
  }

  /** The packets' own times in 90 kHz ticks, 0 where there is none. */
  function WantedTimes(ws: seq<Written>): (r: seq<int>)
    ensures |r| == |ws|
  {
    seq(|ws|, i requires 0 <= i < |ws| => if ws[i].pkt.ptsMs.None? then 0 else ws[i].pkt.ptsMs.value * 90)
  }

  /** The packets of all segments, one after the other. */
  function Packets(segments: seq<Segment>): (r: seq<EncodedPacket>)
    decreases |segments|
  {
    if segments == [] then []
    else Packets(segments[..|segments| - 1]) + Pkts(segments[|segments| - 1].packets)
  }

  /** Emitted and still buffered. */
  function Kept(t: Trace): (r: seq<EncodedPacket>)
  {
    Packets(t.segments) + Pkts(t.h.buffer)
  }

  function Entries(segments: seq<Segment>): (r: seq<Entry>)
    ensures |r| == |segments|
  {
    seq(|segments|, i requires 0 <= i < |segments| => Entry(segments[i].sequence, segments[i].durationMs))
  }

  lemma PktsSnoc(ws: seq<Written>, w: Written)
    ensures Pkts(ws + [w]) == Pkts(ws) + [w.pkt]
    ensures Times(ws + [w]) == Times(ws) + [w.time]
    ensures WantedTimes(ws + [w]) == WantedTimes(ws) + [Wanted(w.pkt)]
  {
  }

  lemma PacketsSnoc(segments: seq<Segment>, s: Segment)
    ensures Packets(segments + [s]) == Packets(segments) + Pkts(s.packets)
    ensures Entries(segments + [s]) == Entries(segments) + [Entry(s.sequence, s.durationMs)]
  {
    assert (segments + [s])[..|segments|] == segments;
  }

  // --------------------------------------------------------------- runs that may fail

  /** `a` is `b` with some elements left out. */
  predicate Subseq<T(==)>(a: seq<T>, b: seq<T>)
    decreases |b|
  {
    if b == [] then a == []
    else
      var front := b[..|b| - 1];
      Subseq(a, front) || (a != [] && a[|a| - 1] == b[|b| - 1] && Subseq(a[..|a| - 1], front))
  }

  lemma SubseqSnoc<T>(a: seq<T>, b: seq<T>, x: T)
    requires Subseq(a, b)
    ensures Subseq(a, b + [x]) && Subseq(a + [x], b + [x])
  {
    assert (b + [x])[..|b|] == b && (a + [x])[..|a|] == a;
  }

  lemma {:induction false} SubseqPrefix<T>(a: seq<T>, k: nat, b: seq<T>)
    requires Subseq(a, b) && k <= |a|
    ensures Subseq(a[..k], b)
    decreases |b|
  {
    if b == [] {
      assert a[..k] == [];
    } else {
      var front := b[..|b| - 1];
      if Subseq(a, front) {
        SubseqPrefix(a, k, front);
      } else if k < |a| {
        SubseqPrefix(a[..|a| - 1], k, front);
        assert a[..|a| - 1][..k] == a[..k];
      } else {
        assert a[..k] == a;
      }
    }
  }

  /** Strictly increasing positive times, none earlier than the packet's own. */
  ghost predicate WellTimed(ws: seq<Written>)
  {
    Increasing(0, Times(ws)) && Dominates(Times(ws), WantedTimes(ws))
  }

  ghost predicate Numbered(segments: seq<Segment>, next: nat)
  {
    && |segments| <= next
    && (forall i :: 0 <= i < |segments| ==> i <= segments[i].sequence < next)
    && (forall i, j :: 0 <= i < j < |segments| ==> segments[i].sequence < segments[j].sequence)
  }

  /** The muxer's own state: `lastDts` bounds everything in the buffer. */
  ghost predicate BufferOk(h: Hls)
  {
    && WellTimed(h.buffer)
    && h.lastDts >= 0
    && forall i :: 0 <= i < |h.buffer| ==> h.buffer[i].time <= h.lastDts
  }

  ghost predicate Safe(cfg: Config, t: Trace, routed: seq<EncodedPacket>)
  {
    && Subseq(Kept(t), routed)
    && Numbered(t.segments, t.h.nextSequence)
    && (forall i :: 0 <= i < |t.segments| ==> WellTimed(t.segments[i].packets))
    && BufferOk(t.h)
    && t.h.playlist == PushAll(New(cfg.playlistSize), Entries(t.segments))
  }

  lemma BufferAfterWrite(cfg: Config, h: Hls, pkt: EncodedPacket, env: Env)
    requires BufferOk(h)
    ensures BufferOk(WriteOrReset(cfg, h, pkt, env))
    ensures var b := WriteOrReset(cfg, h, pkt, env).buffer;
            b == [] || b == h.buffer || (pkt.codec in cfg.streams && Pkts(b) == Pkts(h.buffer) + [pkt])
  {
    var next := Max(Wanted(pkt), h.lastDts + 1);
    PktsSnoc(h.buffer, Written(pkt, next));
    assert WellTimed([]);
    assert WellTimed(h.buffer + [Written(pkt, next)]) by {
      assert forall i :: 0 <= i < |h.buffer| ==> Times(h.buffer)[i] == h.buffer[i].time;
    }
  }

  /** Writing the packet of this step, when everything before is in `routed`. */
  lemma WriteSafe(cfg: Config, t: Trace, pkt: EncodedPacket, env: Env, routed: seq<EncodedPacket>)
    requires Safe(cfg, t, routed) && !pkt.isSequenceHeader
    ensures Safe(cfg, t.(h := WriteOrReset(cfg, t.h, pkt, env)),
                 if Keeps(cfg, pkt) then routed + [pkt] else routed)
  {
    var h := WriteOrReset(cfg, t.h, pkt, env);
    BufferAfterWrite(cfg, t.h, pkt, env);
    SubseqSnoc(Kept(t), routed, pkt);
    if h.buffer == [] {
      DropBuffer(t, routed);
      SubseqSnoc(Packets(t.segments), routed, pkt);
      assert Packets(t.segments) + Pkts([]) == Packets(t.segments);
    } else if h.buffer != t.h.buffer {
      Assoc(Packets(t.segments), Pkts(t.h.buffer), [pkt]);
    }
  }

  lemma DropBuffer(t: Trace, routed: seq<EncodedPacket>)
    requires Subseq(Kept(t), routed)
    ensures Subseq(Packets(t.segments), routed)
  {
    SubseqPrefix(Kept(t), |Packets(t.segments)|, routed);
    Prefixed(Packets(t.segments), Pkts(t.h.buffer));
  }

  /** A rollover that fails loses at most the buffer and a sequence number. */
  lemma FailedRolloverSafe(cfg: Config, t: Trace, ms: nat, env: Env, routed: seq<EncodedPacket>)
    requires Safe(cfg, t, routed) && Rollover(t.h, ms, env).1.None?
    ensures Safe(cfg, t.(h := Rollover(t.h, ms, env).0), routed)
  {
    DropBuffer(t, routed);
    assert Packets(t.segments) + Pkts([]) == Packets(t.segments);
    assert WellTimed([]);
  }

  /** A segment cut off the buffer, whatever else the step did to the segmenter. */
  lemma CutSafe(cfg: Config, t: Trace, s: Segment, h: Hls, routed: seq<EncodedPacket>)
    requires Safe(cfg, t, routed) && s.packets == t.h.buffer && s.sequence == t.h.nextSequence
    requires h.buffer == [] && h.lastDts == 0 && h.nextSequence == t.h.nextSequence + 1
    requires t.h.playlist.size >= 1 && h.playlist == Push(t.h.playlist, Entry(s.sequence, s.durationMs))
    ensures Safe(cfg, Trace(h, t.segments + [s]), routed)
  {
    var t' := Trace(h, t.segments + [s]);
    assert Kept(t') == Kept(t) by {
      PacketsSnoc(t.segments, s);
      assert Packets(t'.segments) + Pkts([]) == Packets(t'.segments);
    }
    assert Numbered(t'.segments, h.nextSequence);
    assert BufferOk(h) by {
      assert WellTimed([]);
    }
    assert h.playlist == PushAll(New(cfg.playlistSize), Entries(t'.segments)) by {
      PacketsSnoc(t.segments, s);
      assert Entries(t'.segments)[..|t.segments|] == Entries(t.segments);
    }
  }

  lemma StepSafe(cfg: Config, t: Trace, i: Input, routed: seq<EncodedPacket>)
    requires Safe(cfg, t, routed)
    ensures t.h.playlist.size >= 1
    ensures Safe(cfg, After(cfg, t, i), if Keeps(cfg, i.pkt) then routed + [i.pkt] else routed)
  {
    var seen := Observe(t.h, i.pkt);
    var t1 := t.(h := seen);
    assert Kept(t1) == Kept(t);
    if i.pkt.isSequenceHeader {
    } else if !ShouldCut(cfg, seen, i.pkt) {
      assert t.segments + [] == t.segments;
      WriteSafe(cfg, t1, i.pkt, i.env, routed);
    } else {
      var (rolled, seg) := Rollover(seen, Elapsed(seen), i.env);
      if seg.None? {
        FailedRolloverSafe(cfg, t1, Elapsed(seen), i.env, routed);
        SubseqSnoc(Kept(t.(h := rolled)), routed, i.pkt);
      } else {
        var h2 := Listed(Restart(rolled, i.pkt), seg.value);
        CutSafe(cfg, t1, seg.value, h2, routed);
        WriteSafe(cfg, Trace(h2, t.segments + [seg.value]), i.pkt, i.env, routed);
      }
    }
  }

  /** Whatever fails: emitted and buffered packets are the routed input with some left out
      (never reordered, repeated or invented); sequence numbers strictly increase; times in
      every segment strictly increase, are positive and never earlier than wanted; and the
      playlist is made of the emitted segments. */
  lemma {:induction false} EveryRunIsSafe(cfg: Config, inputs: seq<Input>)
    ensures Safe(cfg, Run(cfg, inputs), Routed(cfg, inputs))
    decreases |inputs|
  {
    if inputs == [] {
      assert Kept(Run(cfg, inputs)) == [];
      assert WellTimed([]);
      assert Entries([]) == [];
    } else {
      var front, last := inputs[..|inputs| - 1], inputs[|inputs| - 1];
      EveryRunIsSafe(cfg, front);
      StepSafe(cfg, Run(cfg, front), last, Routed(cfg, front));
    }
  }

  // ------------------------------------------------------------ behind a failed write

  /** The same segmenter but for the playlist and `n` numbers taken already. */
  ghost predicate Twin(a: Hls, b: Hls, n: nat)
  {
    && a.firstPts == b.firstPts && a.lastPts == b.lastPts && a.hasKeyframe == b.hasKeyframe
    && a.hasCtx == b.hasCtx && a.buffer == b.buffer && a.lastDts == b.lastDts
    && a.nextSequence + n == b.nextSequence
  }

  function Renumbered(segments: seq<Segment>, n: nat): (r: seq<Segment>)
    ensures |r| == |segments|
  {
    seq(|segments|, i requires 0 <= i < |segments| => segments[i].(sequence := segments[i].sequence + n))
  }

  lemma RenumberedJoin(a: seq<Segment>, b: seq<Segment>, c: seq<Segment>, n: nat)
    ensures c + Renumbered(a, n) + Renumbered(b, n) == c + Renumbered(a + b, n)
  {
  }

  lemma TwinWrite(cfg: Config, a: Hls, b: Hls, n: nat, i: Input)
    requires Twin(a, b, n)
    ensures Twin(WriteOrReset(cfg, a, i.pkt, i.env), WriteOrReset(cfg, b, i.pkt, i.env), n)
  {
  }

  lemma TwinCut(cfg: Config, a: Hls, b: Hls, n: nat, i: Input, ms: nat)
    requires Twin(a, b, n) && a.playlist.size >= 1 && b.playlist.size >= 1
    ensures TwinResults(CutOff(cfg, a, i.pkt, ms, i.env), CutOff(cfg, b, i.pkt, ms, i.env), n)
  {
    var (ra, sa) := Rollover(a, ms, i.env);
    var (rb, sb) := Rollover(b, ms, i.env);
    assert Twin(ra, rb, n);
    if sa.Some? {
      assert sb == Some(sa.value.(sequence := sa.value.sequence + n));
      assert Renumbered([sa.value], n) == [sb.value];
      TwinWrite(cfg, Listed(Restart(ra, i.pkt), sa.value), Listed(Restart(rb, i.pkt), sb.value), n, i);
    }
  }

  ghost predicate TwinResults(a: (Hls, Result<seq<Segment>>), b: (Hls, Result<seq<Segment>>), n: nat)
  {
    && Twin(a.0, b.0, n)
    && (if a.1.Ok? then b.1 == Ok(Renumbered(a.1.value, n)) else b.1.Err?)
  }

  lemma TwinStep(cfg: Config, a: Hls, b: Hls, n: nat, i: Input)
    requires Twin(a, b, n) && a.playlist.size >= 1 && b.playlist.size >= 1
    ensures TwinResults(Processed(cfg, a, i.pkt, i.env), Processed(cfg, b, i.pkt, i.env), n)
  {
    var sa, sb := Observe(a, i.pkt), Observe(b, i.pkt);
    assert Renumbered([], n) == [];
    if !i.pkt.isSequenceHeader {
      assert Twin(sa, sb, n) && Elapsed(sa) == Elapsed(sb);
      if ShouldCut(cfg, sa, i.pkt) {
        TwinCut(cfg, sa, sb, n, i, Elapsed(sa));
      } else {
        TwinWrite(cfg, sa, sb, n, i);
      }
    }
  }

  ghost predicate TwinTraces(t: Trace, t': Trace, start: seq<Segment>, n: nat)
  {
    Twin(t.h, t'.h, n) && t'.segments == start + Renumbered(t.segments, n)
  }

  lemma TwinAfter(cfg: Config, t: Trace, t': Trace, start: seq<Segment>, n: nat, i: Input)
    requires TwinTraces(t, t', start, n) && t.h.playlist.size >= 1 && t'.h.playlist.size >= 1
    ensures TwinTraces(After(cfg, t, i), After(cfg, t', i), start, n)
  {
    TwinStep(cfg, t.h, t'.h, n, i);
    var made := Processed(cfg, t.h, i.pkt, i.env).1;
    if made.Ok? {
      RenumberedJoin(t.segments, made.value, start, n);
    }
  }

  lemma RunLast(cfg: Config, front: seq<Input>, last: Input)
    ensures Run(cfg, front + [last]) == After(cfg, Run(cfg, front), last)
  {
    assert (front + [last])[..|front|] == front;
  }

  lemma {:induction false} TwinRun(cfg: Config, before: seq<Input>, n: nat, more: seq<Input>)
    requires Twin(Initial(cfg), Run(cfg, before).h, n)
    ensures TwinTraces(Run(cfg, more), Run(cfg, before + more), Run(cfg, before).segments, n)
    decreases |more|
  {
    if more == [] {
      assert before + more == before;
      assert TwinTraces(Trace(Initial(cfg), []), Run(cfg, before), Run(cfg, before).segments, n);
    } else {
      var front, last := more[..|more| - 1], more[|more| - 1];
      TwinRun(cfg, before, n, front);
      TwinAfter(cfg, Run(cfg, front), Run(cfg, before + front), Run(cfg, before).segments, n, last);
      assert Run(cfg, more) == After(cfg, Run(cfg, front), last) by {
        assert more == front + [last];
        RunLast(cfg, front, last);
      }
      assert Run(cfg, before + more) == After(cfg, Run(cfg, before + front), last) by {
        assert before + more == before + front + [last];
        RunLast(cfg, before + front, last);
      }
    }
  }

  /** A write that fails while everything else works, the new context included. */
  predicate OnlyWriteFails(cfg: Config, i: Input)
  {
    && !i.pkt.isSequenceHeader
    && (!i.env.convertOk || (i.pkt.codec in cfg.streams && !i.env.writeOk))
    && i.env.trailerOk && i.env.createOk && i.env.diskOk && i.env.recreateOk
  }

  lemma FailedWrite(cfg: Config, h: Hls, i: Input)
    requires OnlyWriteFails(cfg, i)
    ensures var h' := WriteOrReset(cfg, h, i.pkt, i.env);
            Twin(Initial(cfg), h', h'.nextSequence)
  {
  }

  lemma FailureIsNew(cfg: Config, h: Hls, i: Input)
    requires OnlyWriteFails(cfg, i) && h.playlist.size >= 1
    ensures var h' := Processed(cfg, h, i.pkt, i.env).0;
            Twin(Initial(cfg), h', h'.nextSequence)
  {
    var seen := Observe(h, i.pkt);
    if ShouldCut(cfg, seen, i.pkt) {
      var (rolled, seg) := Rollover(seen, Elapsed(seen), i.env);
      FailedWrite(cfg, Listed(Restart(rolled, i.pkt), seg.value), i);
    } else {
      FailedWrite(cfg, seen, i);
    }
  }

  /** Recovery: behind such a failure the segmenter goes on as one that was just created. Whatever
      comes next, failures included, gives the segments a new one would give for it, with the
      numbers continued. */
  lemma RecoversAsNew(cfg: Config, before: seq<Input>, failed: Input, more: seq<Input>)
    requires OnlyWriteFails(cfg, failed)
    ensures var n := Run(cfg, before + [failed]).h.nextSequence;
            Run(cfg, before + [failed] + more).segments
            == Run(cfg, before + [failed]).segments + Renumbered(Run(cfg, more).segments, n)
  {
    var h := Run(cfg, before + [failed]).h;
    assert Twin(Initial(cfg), h, h.nextSequence) by {
      RunLast(cfg, before, failed);
      FailureIsNew(cfg, Run(cfg, before).h, failed);
    }
    TwinRun(cfg, before + [failed], h.nextSequence, more);
  }

  // -------------------------------------------------------------- runs without failure

  ghost predicate AllClean(inputs: seq<Input>)
  {
    forall i :: 0 <= i < |inputs| ==> inputs[i].env == CLEAN
  }

  /** Nothing is lost, numbers are consecutive, times are the minimal repair. */
  ghost predicate Exact(t: Trace, routed: seq<EncodedPacket>)
  {
    && t.h.hasCtx
    && Kept(t) == routed
    && t.h.nextSequence == |t.segments|
    && (forall i :: 0 <= i < |t.segments| ==> t.segments[i].sequence == i)
    && (forall i :: 0 <= i < |t.segments| ==> Repaired(t.segments[i].packets))
    && Repaired(t.h.buffer)
    && t.h.lastDts == LastOr(0, Times(t.h.buffer))
  }

  ghost predicate Repaired(ws: seq<Written>)
  {
    Times(ws) == Repair(0, WantedTimes(ws))
  }

  lemma WriteExact(cfg: Config, t: Trace, pkt: EncodedPacket, routed: seq<EncodedPacket>)
    requires Exact(t, routed) && !pkt.isSequenceHeader
    ensures var h := WriteOrReset(cfg, t.h, pkt, CLEAN);
            && Exact(t.(h := h), if Keeps(cfg, pkt) then routed + [pkt] else routed)
            && Pkts(h.buffer) == (if Keeps(cfg, pkt) then Pkts(t.h.buffer) + [pkt] else Pkts(t.h.buffer))
            && h.firstPts == t.h.firstPts && h.lastPts == t.h.lastPts && h.hasKeyframe == t.h.hasKeyframe
  {
    if Keeps(cfg, pkt) {
      AppendRepaired(t.h.buffer, pkt);
      Assoc(Packets(t.segments), Pkts(t.h.buffer), [pkt]);
    }
  }

  lemma AppendRepaired(buffer: seq<Written>, pkt: EncodedPacket)
    requires Repaired(buffer)
    ensures var w := Written(pkt, Max(Wanted(pkt), LastOr(0, Times(buffer)) + 1));
            && Repaired(buffer + [w])
            && LastOr(0, Times(buffer + [w])) == w.time
            && Pkts(buffer + [w]) == Pkts(buffer) + [pkt]
  {
    PktsSnoc(buffer, Written(pkt, Max(Wanted(pkt), LastOr(0, Times(buffer)) + 1)));
    RepairSnoc(0, WantedTimes(buffer), Wanted(pkt));
  }

  lemma CutExact(t: Trace, ms: nat, routed: seq<EncodedPacket>)
    requires Exact(t, routed) && t.h.playlist.size >= 1
    ensures var (h, seg) := Rollover(t.h, ms, CLEAN);
            && seg.Some? && seg.value.durationMs == ms && h.playlist.size >= 1
            && Exact(Trace(Listed(h, seg.value), t.segments + [seg.value]), routed)
            && Packets(t.segments + [seg.value]) == routed
            && h.buffer == []
  {
    var (h, seg) := Rollover(t.h, ms, CLEAN);
    PacketsSnoc(t.segments, seg.value);
    assert Packets(t.segments + [seg.value]) + Pkts([]) == Packets(t.segments + [seg.value]);
    assert Repaired([]);
  }

  /** One clean step, with what it does at a cut. */
  lemma StepExact(cfg: Config, t: Trace, pkt: EncodedPacket, routed: seq<EncodedPacket>)
    requires Exact(t, routed) && t.h.playlist.size >= 1
    ensures var t' := After(cfg, t, Input(pkt, CLEAN));
            var cut := !pkt.isSequenceHeader && ShouldCut(cfg, Observe(t.h, pkt), pkt);
            && Exact(t', if Keeps(cfg, pkt) then routed + [pkt] else routed)
            && |t'.segments| == |t.segments| + (if cut then 1 else 0)
            && t.segments <= t'.segments
            && (cut ==> && t'.segments[|t.segments|].durationMs == Elapsed(Observe(t.h, pkt))
                        && Packets(t'.segments) == routed
                        && Pkts(t'.h.buffer) == if Keeps(cfg, pkt) then [pkt] else [])
            && (pkt.isSequenceHeader ==> t' == t)
            && (!pkt.isSequenceHeader ==>
                  && t'.h.firstPts == (if cut || t.h.firstPts.None? then pkt.ptsMs else t.h.firstPts)
                  && t'.h.hasKeyframe == (if cut then pkt.isKeyframe else t.h.hasKeyframe || pkt.isKeyframe))
  {
    var seen := Observe(t.h, pkt);
    var t1 := t.(h := seen);
    assert t.segments + [] == t.segments;
    if pkt.isSequenceHeader {
    } else if !ShouldCut(cfg, seen, pkt) {
      WriteExact(cfg, t1, pkt, routed);
    } else {
      CutExact(t1, Elapsed(seen), routed);
      var (rolled, seg) := Rollover(seen, Elapsed(seen), CLEAN);
      WriteExact(cfg, Trace(Listed(Restart(rolled, pkt), seg.value), t.segments + [seg.value]), pkt, routed);
    }
  }

  lemma {:induction false} CleanRunIsExact(cfg: Config, inputs: seq<Input>)
    requires AllClean(inputs)
    ensures Exact(Run(cfg, inputs), Routed(cfg, inputs))
    decreases |inputs|
  {
    if inputs == [] {
      assert Kept(Run(cfg, inputs)) == [];
      assert Repaired([]);
    } else {
      var front, last := inputs[..|inputs| - 1], inputs[|inputs| - 1];
      CleanRunIsExact(cfg, front);
      StepExact(cfg, Run(cfg, front), last.pkt, Routed(cfg, front));
      assert last == Input(last.pkt, CLEAN);
    }
  }

  /** Segment conservation: once closed, the segments hold exactly the routed input, in
      order, numbered 0, 1, 2, ... */
  lemma SegmentConservation(cfg: Config, inputs: seq<Input>)
    requires AllClean(inputs)
    ensures var t := Run(cfg, inputs);
            var final := Closed(t.h, CLEAN).1;
            && final.Some? && final.value.isFinal
            && var all := t.segments + [final.value];
            && Packets(all) == Routed(cfg, inputs)
            && (forall i :: 0 <= i < |all| ==> all[i].sequence == i && Repaired(all[i].packets))
  {
    CleanRunIsExact(cfg, inputs);
    var t := Run(cfg, inputs);
    PacketsSnoc(t.segments, Closed(t.h, CLEAN).1.value);
  }

  lemma RunSnoc(cfg: Config, inputs: seq<Input>, k: nat)
    requires k < |inputs|
    ensures Run(cfg, inputs[..k + 1]) == After(cfg, Run(cfg, inputs[..k]), inputs[k])
  {
    assert inputs[..k + 1][..k] == inputs[..k];
  }

  /** When packet `k` completes a segment, the segments so far hold exactly what came before
      it, and the packet itself is the first of the new one. */
  lemma CutBoundary(cfg: Config, inputs: seq<Input>, k: nat)
    requires AllClean(inputs) && k < |inputs|
    requires |Run(cfg, inputs[..k + 1]).segments| > |Run(cfg, inputs[..k]).segments|
    ensures Packets(Run(cfg, inputs[..k + 1]).segments) == Routed(cfg, inputs[..k])
    ensures Pkts(Run(cfg, inputs[..k + 1]).h.buffer)
            == if Keeps(cfg, inputs[k].pkt) then [inputs[k].pkt] else []
  {
    CleanRunIsExact(cfg, inputs[..k]);
    StepExact(cfg, Run(cfg, inputs[..k]), inputs[k].pkt, Routed(cfg, inputs[..k]));
    assert inputs[k] == Input(inputs[k].pkt, CLEAN);
    RunSnoc(cfg, inputs, k);
  }

  // -------------------------------------------------------------------- cut discipline

  ghost predicate SeenKeyframe(inputs: seq<Input>)
  {
    exists i :: 0 <= i < |inputs| && inputs[i].pkt.isKeyframe && !inputs[i].pkt.isSequenceHeader
  }

  lemma KeyframeStep(cfg: Config, t: Trace, pkt: EncodedPacket, routed: seq<EncodedPacket>)
    requires Exact(t, routed) && t.h.playlist.size >= 1
    ensures After(cfg, t, Input(pkt, CLEAN)).h.hasKeyframe
            <==> t.h.hasKeyframe || (pkt.isKeyframe && !pkt.isSequenceHeader)
  {
    StepExact(cfg, t, pkt, routed);
  }

  lemma SeenSnoc(inputs: seq<Input>)
    requires inputs != []
    ensures var n := |inputs| - 1;
            SeenKeyframe(inputs)
            <==> SeenKeyframe(inputs[..n]) || (inputs[n].pkt.isKeyframe && !inputs[n].pkt.isSequenceHeader)
  {
    var front := inputs[..|inputs| - 1];
    if SeenKeyframe(front) {
      var i :| 0 <= i < |front| && front[i].pkt.isKeyframe && !front[i].pkt.isSequenceHeader;
      assert inputs[i] == front[i];
    }
    if SeenKeyframe(inputs) {
      var i :| 0 <= i < |inputs| && inputs[i].pkt.isKeyframe && !inputs[i].pkt.isSequenceHeader;
      if i < |front| {
        assert front[i] == inputs[i];
      }
    }
  }

  lemma {:induction false} KeyframeRemembered(cfg: Config, inputs: seq<Input>)
    requires AllClean(inputs)
    ensures Run(cfg, inputs).h.hasKeyframe <==> SeenKeyframe(inputs)
    decreases |inputs|
  {
    if inputs != [] {
      var front, last := inputs[..|inputs| - 1], inputs[|inputs| - 1];
      KeyframeRemembered(cfg, front);
      CleanRunIsExact(cfg, front);
      assert last == Input(last.pkt, CLEAN);
      KeyframeStep(cfg, Run(cfg, front), last.pkt, Routed(cfg, front));
      SeenSnoc(inputs);
    }
  }

  /** Once any keyframe went by, every later cut is made by a keyframe. */
  lemma LaterCutsAreKeyframes(cfg: Config, inputs: seq<Input>, k: nat)
    requires AllClean(inputs) && k < |inputs| && SeenKeyframe(inputs[..k])
    requires |Run(cfg, inputs[..k + 1]).segments| > |Run(cfg, inputs[..k]).segments|
    ensures inputs[k].pkt.isKeyframe
  {
    KeyframeRemembered(cfg, inputs[..k]);
    CleanRunIsExact(cfg, inputs[..k]);
    StepExact(cfg, Run(cfg, inputs[..k]), inputs[k].pkt, Routed(cfg, inputs[..k]));
    assert inputs[k] == Input(inputs[k].pkt, CLEAN);
    RunSnoc(cfg, inputs, k);
  }

  function TotalMs(segments: seq<Segment>): (n: nat)
    decreases |segments|
  {
    if segments == [] then 0
    else TotalMs(segments[..|segments| - 1]) + segments[|segments| - 1].durationMs
  }

  /** The first PTS of a packet that is not a sequence header. */
  function StreamStart(inputs: seq<Input>): (t: Option<int>)
  {
    if inputs == [] then None
    else if inputs[0].pkt.isSequenceHeader || inputs[0].pkt.ptsMs.None? then StreamStart(inputs[1..])
    else inputs[0].pkt.ptsMs
  }

  /** The PTS of the last packet that is not a sequence header. */
  function LastPts(inputs: seq<Input>): (t: Option<int>)
    decreases |inputs|
  {
    if inputs == [] then None
    else
      var last := inputs[|inputs| - 1].pkt;
      if last.isSequenceHeader then LastPts(inputs[..|inputs| - 1]) else last.ptsMs
  }

  lemma {:induction false} StreamStartSnoc(inputs: seq<Input>, last: Input)
    ensures StreamStart(inputs + [last])
            == if StreamStart(inputs).Some? then StreamStart(inputs)
               else if last.pkt.isSequenceHeader then None else last.pkt.ptsMs
  {
    if inputs == [] {
      assert inputs + [last] == [last];
      assert StreamStart([last][1..]) == None;
    } else {
      StreamStartSnoc(inputs[1..], last);
      assert (inputs + [last])[1..] == inputs[1..] + [last];
    }
  }

  ghost predicate Telescoped(cfg: Config, t: Trace, start: Option<int>)
  {
    && t.h.firstPts.Some? == start.Some?
    && (start.None? ==> t.segments == [])
    && (start.Some? ==> TotalMs(t.segments) == t.h.firstPts.value - start.value)
    && (forall i :: 0 <= i < |t.segments| ==> t.segments[i].durationMs >= cfg.targetMs && !t.segments[i].isFinal)
  }

  /** The segments of a run are not final, their durations are at least the target, and together
      they are exactly the PTS distance from the start of the stream to the start of the current
      segment, packets without PTS or not. A target above 0 is what the configuration check
      enforces. */
  lemma {:induction false} DurationsTelescope(cfg: Config, inputs: seq<Input>)
    requires AllClean(inputs) && cfg.targetMs > 0
    ensures Telescoped(cfg, Run(cfg, inputs), StreamStart(inputs))
    ensures Run(cfg, inputs).h.lastPts == LastPts(inputs)
    decreases |inputs|
  {
    if inputs != [] {
      var front, last := inputs[..|inputs| - 1], inputs[|inputs| - 1];
      DurationsTelescope(cfg, front);
      CleanRunIsExact(cfg, front);
      assert last == Input(last.pkt, CLEAN) && inputs == front + [last];
      StreamStartSnoc(front, last);
      TelescopeStep(cfg, Run(cfg, front), last.pkt, StreamStart(front));
      StepClock(cfg, Run(cfg, front), last.pkt);
    }
  }

  lemma TelescopeStep(cfg: Config, t: Trace, pkt: EncodedPacket, start: Option<int>)
    requires t.h.hasCtx && t.h.playlist.size >= 1 && cfg.targetMs > 0
    requires Telescoped(cfg, t, start)
    ensures Telescoped(cfg, After(cfg, t, Input(pkt, CLEAN)),
                       if start.Some? then start else if pkt.isSequenceHeader then None else pkt.ptsMs)
  {
    StepClock(cfg, t, pkt);
    if !pkt.isSequenceHeader && ShouldCut(cfg, Observe(t.h, pkt), pkt) {
      assert After(cfg, t, Input(pkt, CLEAN)).segments[..|t.segments|] == t.segments;
    }
  }

  /** What a clean step does to the segment list and its clock. */
  lemma StepClock(cfg: Config, t: Trace, pkt: EncodedPacket)
    requires t.h.hasCtx && t.h.playlist.size >= 1
    ensures var t' := After(cfg, t, Input(pkt, CLEAN));
            var seen := Observe(t.h, pkt);
            var cut := !pkt.isSequenceHeader && ShouldCut(cfg, seen, pkt);
            && (if cut then |t'.segments| == |t.segments| + 1
                            && t'.segments == t.segments + [t'.segments[|t.segments|]]
                            && t'.segments[|t.segments|].durationMs == Elapsed(seen)
                            && !t'.segments[|t.segments|].isFinal
                else t'.segments == t.segments)
            && t'.h.firstPts == (if pkt.isSequenceHeader then t.h.firstPts else if cut then pkt.ptsMs else seen.firstPts)
            && t'.h.lastPts == (if pkt.isSequenceHeader then t.h.lastPts else pkt.ptsMs)
  {
    assert t.segments + [] == t.segments;
  }

  /** What `close` may make of a run: a final segment that lasts from the end of the segments
      before it to the last PTS, or 0 ms where that PTS is missing or lies further back. */
  ghost predicate FinalIs(segments: seq<Segment>, start: Option<int>, last: Option<int>, final: Segment)
  {
    && final.isFinal
    && (start.None? || last.None? ==> final.durationMs == 0)
    && (start.Some? && last.Some? ==>
          && final.durationMs == Max(0, last.value - (start.value + TotalMs(segments)))
          && (last.value >= start.value + TotalMs(segments)
              ==> TotalMs(segments + [final]) == last.value - start.value))
  }

  /** The segment written by `close` makes all durations add up to the length of the stream. A
      close fails exactly with one of its three calls. */
  lemma FinalDuration(cfg: Config, inputs: seq<Input>, env: Env)
    requires AllClean(inputs) && cfg.targetMs > 0
    ensures var t := Run(cfg, inputs);
            var final := Closed(t.h, env).1;
            && (final.Some? <==> env.trailerOk && env.createOk && env.diskOk)
            && (final.Some? ==> FinalIs(t.segments, StreamStart(inputs), LastPts(inputs), final.value))
  {
    DurationsTelescope(cfg, inputs);
    assert Run(cfg, inputs).h.hasCtx by {
      CleanRunIsExact(cfg, inputs);
    }
    FinalOfClock(cfg, Run(cfg, inputs), StreamStart(inputs), env);
  }

  lemma FinalOfClock(cfg: Config, t: Trace, start: Option<int>, env: Env)
    requires Telescoped(cfg, t, start) && t.h.hasCtx && t.h.playlist.size >= 1
    ensures var final := Closed(t.h, env).1;
            && (final.Some? <==> env.trailerOk && env.createOk && env.diskOk)
            && (final.Some? ==> FinalIs(t.segments, start, t.h.lastPts, final.value))
  {
    CloseLasts(t.h, env);
    var final := Closed(t.h, env).1;
    if final.Some? {
      TotalSnoc(t.segments, final.value);
    }
  }

  lemma CloseLasts(h: Hls, env: Env)
    requires h.hasCtx && h.playlist.size >= 1
    ensures var final := Closed(h, env).1;
            && (final.Some? <==> env.trailerOk && env.createOk && env.diskOk)
            && (final.Some? ==> final.value.isFinal && final.value.durationMs == Elapsed(h))
  {
  }

  lemma TotalSnoc(segments: seq<Segment>, s: Segment)
    ensures TotalMs(segments + [s]) == TotalMs(segments) + s.durationMs
  {
    assert (segments + [s])[..|segments|] == segments;
  }

  /** When a packet cuts, said without the segmenter's state: it lies at least the target behind
      the end of the segments emitted so far, and it is a keyframe or none went by yet. */
  lemma CutsExactly(cfg: Config, inputs: seq<Input>, k: nat)
    requires AllClean(inputs) && cfg.targetMs > 0 && k < |inputs| && !inputs[k].pkt.isSequenceHeader
    ensures var done := Run(cfg, inputs[..k]).segments;
            var start, pts := StreamStart(inputs[..k]), inputs[k].pkt.ptsMs;
            |Run(cfg, inputs[..k + 1]).segments| > |done|
            <==> && start.Some? && pts.Some?
                 && pts.value >= start.value + TotalMs(done) + cfg.targetMs
                 && (inputs[k].pkt.isKeyframe || !SeenKeyframe(inputs[..k]))
  {
    var front, pkt := inputs[..k], inputs[k].pkt;
    DurationsTelescope(cfg, front);
    KeyframeRemembered(cfg, front);
    assert Run(cfg, front).h.hasCtx by {
      CleanRunIsExact(cfg, front);
    }
    StepClock(cfg, Run(cfg, front), pkt);
    assert inputs[k] == Input(pkt, CLEAN);
    RunSnoc(cfg, inputs, k);
  }

  // ------------------------------------------------------------------ playlist window

  /** Entry `k` is the segment numbered `mediaSequence + k`. */
  ghost predicate NumbersAgree(p: List)
  {
    forall k :: 0 <= k < |p.entries| ==> p.entries[k].sequence == p.mediaSequence + k
  }

  /** The list shows exactly the last segments, the rest being counted as removed. */
  ghost predicate ShowsLast(p: List, segments: seq<Segment>)
  {
    && p.mediaSequence + |p.entries| == |segments|
    && p.entries == Entries(segments)[p.mediaSequence..]
  }

  /** The window over `segments`: the last min(n, size) of them, with the right numbers if and
      only if `agree`. */
  ghost predicate Window(configured: nat, p: List, segments: seq<Segment>, agree: bool)
  {
    && |p.entries| == Min(|segments|, Max(configured, 1))
    && ShowsLast(p, segments)
    && (segments != [] ==> (NumbersAgree(p) <==> agree))
  }

  /** After any run without failure the playlist shows the last min(n, size) segments, entry
      `k` being the segment numbered `mediaSequence + k`. */
  lemma PlaylistWindow(cfg: Config, inputs: seq<Input>)
    requires AllClean(inputs)
    ensures var t := Run(cfg, inputs);
            Window(cfg.playlistSize, t.h.playlist, t.segments, true)
  {
    EveryRunIsSafe(cfg, inputs);
    CleanRunIsExact(cfg, inputs);
    WindowOf(cfg, Run(cfg, inputs), Routed(cfg, inputs), 0);
  }

  /** In a safe trace whose last segment counts `before` numbers used up in front of it. */
  lemma WindowOf(cfg: Config, t: Trace, routed: seq<EncodedPacket>, before: nat)
    requires Safe(cfg, t, routed)
    requires t.segments != [] ==> t.segments[|t.segments| - 1].sequence == |t.segments| - 1 + before
    ensures Window(cfg.playlistSize, t.h.playlist, t.segments, before == 0)
  {
    PushedNumbers(cfg.playlistSize, t.segments, t.h.nextSequence);
  }

  // --------------------------------------------------------------- numbers used up

  /** The input makes a rollover take a sequence number and then fail, because the next
      context or the file cannot be created. */
  predicate Burns(cfg: Config, h: Hls, i: Input)
  {
    && !i.pkt.isSequenceHeader && ShouldCut(cfg, Observe(h, i.pkt), i.pkt)
    && (h.hasCtx ==> i.env.trailerOk) && !(i.env.createOk && i.env.diskOk)
  }

  /** How many inputs did so. */
  function Burned(cfg: Config, inputs: seq<Input>): (n: nat)
    decreases |inputs|
  {
    if inputs == [] then 0
    else
      var front := inputs[..|inputs| - 1];
      Burned(cfg, front) + if Burns(cfg, Run(cfg, front).h, inputs[|inputs| - 1]) then 1 else 0
  }

  /** The inputs before the one that emitted the last segment. */
  function BeforeLast(cfg: Config, inputs: seq<Input>): (r: seq<Input>)
    decreases |inputs|
  {
    if inputs == [] then []
    else
      var front := inputs[..|inputs| - 1];
      if |Run(cfg, inputs).segments| > |Run(cfg, front).segments| then front else BeforeLast(cfg, front)
  }

  lemma NumberStep(cfg: Config, t: Trace, i: Input)
    requires t.h.playlist.size >= 1
    ensures var t' := After(cfg, t, i);
            && t'.h.nextSequence - |t'.segments|
               == t.h.nextSequence - |t.segments| + (if Burns(cfg, t.h, i) then 1 else 0)
            && (if |t'.segments| > |t.segments|
                then t'.segments == t.segments + [t'.segments[|t.segments|]]
                     && t'.segments[|t.segments|].sequence == t.h.nextSequence
                else t'.segments == t.segments)
  {
  }

  /** Every number taken belongs to an emitted segment or is one of `all` used up; the last
      segment's number counts those used up `before` it. */
  ghost predicate Counted(t: Trace, all: nat, before: nat)
  {
    && t.h.nextSequence == |t.segments| + all
    && (t.segments != [] ==> t.segments[|t.segments| - 1].sequence == |t.segments| - 1 + before)
  }

  lemma CountStep(cfg: Config, t: Trace, i: Input, all: nat, before: nat)
    requires t.h.playlist.size >= 1 && Counted(t, all, before)
    ensures Counted(After(cfg, t, i), all + (if Burns(cfg, t.h, i) then 1 else 0),
                    if |After(cfg, t, i).segments| > |t.segments| then all else before)
  {
    NumberStep(cfg, t, i);
  }

  lemma {:induction false} NumbersCounted(cfg: Config, inputs: seq<Input>)
    ensures Counted(Run(cfg, inputs), Burned(cfg, inputs), Burned(cfg, BeforeLast(cfg, inputs)))
    decreases |inputs|
  {
    if inputs != [] {
      var front, last := inputs[..|inputs| - 1], inputs[|inputs| - 1];
      NumbersCounted(cfg, front);
      CountStep(cfg, Run(cfg, front), last, Burned(cfg, front), Burned(cfg, BeforeLast(cfg, front)));
    }
  }

  /** In every run, failures included, the playlist shows the last emitted segments. Entry
      numbers agree with the media sequence if and only if no failed rollover had used up a
      number before the last segment was emitted. */
  lemma PlaylistNumbers(cfg: Config, inputs: seq<Input>)
    ensures var t := Run(cfg, inputs);
            Window(cfg.playlistSize, t.h.playlist, t.segments, Burned(cfg, BeforeLast(cfg, inputs)) == 0)
  {
    EveryRunIsSafe(cfg, inputs);
    NumbersCounted(cfg, inputs);
    WindowOf(cfg, Run(cfg, inputs), Routed(cfg, inputs), Burned(cfg, BeforeLast(cfg, inputs)));
  }

  /** The final playlist, written by `close` when the last segment could be stored: it shows the
      last segments, that one included, and their numbers agree with the media sequence if and
      only if no failed rollover used one up before. */
  lemma FinalPlaylist(cfg: Config, inputs: seq<Input>, env: Env)
    requires Closed(Run(cfg, inputs).h, env).1.Some?
    ensures var t := Run(cfg, inputs);
            var (h, last) := Closed(t.h, env);
            Window(cfg.playlistSize, h.playlist, t.segments + [last.value], Burned(cfg, inputs) == 0)
  {
    EveryRunIsSafe(cfg, inputs);
    NumbersCounted(cfg, inputs);
    FinalOf(cfg, Run(cfg, inputs), env, Routed(cfg, inputs), Burned(cfg, inputs), Burned(cfg, BeforeLast(cfg, inputs)));
  }

  lemma FinalOf(cfg: Config, t: Trace, env: Env, routed: seq<EncodedPacket>, all: nat, before: nat)
    requires Safe(cfg, t, routed) && Counted(t, all, before) && t.h.playlist.size >= 1
    requires Closed(t.h, env).1.Some?
    ensures var (h, last) := Closed(t.h, env);
            Window(cfg.playlistSize, h.playlist, t.segments + [last.value], all == 0)
  {
    var (h, last) := Closed(t.h, env);
    CutSafe(cfg, t, last.value, h, routed);
    WindowOf(cfg, Trace(h, t.segments + [last.value]), routed, all);
  }

  /** The input that shows them apart: storing the first segment fails, so the only entry of
      the playlist is segment 1 while the media sequence is 0. */
  lemma FailedRolloverShiftsNumbers()
    ensures var cfg := Config({H264}, 1000, 5);
            var a := EncodedPacket(H264, [], Some(0), None, true, false, None);
            var t1 := After(cfg, Trace(Initial(cfg), []), Input(a, CLEAN));
            var t2 := After(cfg, t1, Input(a.(ptsMs := Some(1000)), CLEAN.(diskOk := false)));
            var t3 := After(cfg, t2, Input(a.(ptsMs := Some(2000)), CLEAN));
            t3.h.playlist.entries == [Entry(1, 2000)] && t3.h.playlist.mediaSequence == 0
  {
  }

  lemma PushedNumbers(configured: nat, segments: seq<Segment>, next: nat)
    requires Numbered(segments, next)
    ensures var p := PushAll(New(configured), Entries(segments));
            && |p.entries| == Min(|segments|, Max(configured, 1))
            && ShowsLast(p, segments)
            && (segments != [] ==> (NumbersAgree(p) <==> segments[|segments| - 1].sequence == |segments| - 1))
  {
    WindowOfPushes(configured, Entries(segments));
    if segments != [] {
      NumbersAgreeIff(PushAll(New(configured), Entries(segments)), segments, next);
    }
  }

  lemma NumbersAgreeIff(p: List, segments: seq<Segment>, next: nat)
    requires ShowsLast(p, segments) && p.entries != [] && Numbered(segments, next)
    ensures NumbersAgree(p) <==> segments[|segments| - 1].sequence == |segments| - 1
  {
    var n := |segments|;
    assert forall k :: 0 <= k < |p.entries| ==> p.entries[k].sequence == segments[p.mediaSequence + k].sequence;
    if segments[n - 1].sequence == n - 1 {
      ConsecutiveNumbers(segments, n);
    } else {
      assert p.entries[|p.entries| - 1].sequence == segments[n - 1].sequence;
    }
  }

  lemma {:induction false} ConsecutiveNumbers(segments: seq<Segment>, n: nat)
    requires |segments| == n && Numbered(segments, n)
    ensures forall i :: 0 <= i < n ==> segments[i].sequence == i
    decreases n
  {
    if n > 0 {
      var front := segments[..n - 1];
      assert forall i :: 0 <= i < n - 1 ==> front[i].sequence < segments[n - 1].sequence < n;
      ConsecutiveNumbers(front, n - 1);
    }
  }
}
