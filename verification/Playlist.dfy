/** The sliding HLS media playlist (sections 4.3.3 and 6.2.2 of RFC 8216). */
module Playlist {
  import opened Media

  /** One listed segment; its number stands for the file name made from it. */
  datatype Entry = Entry(sequence: nat, durationMs: nat)

  datatype List = List(size: nat, entries: seq<Entry>, mediaSequence: nat)

  /** A configured size of 0 is raised to 1. */
  function New(configured: nat): (p: List)
  {
    List(Max(configured, 1), [], 0)
  }

  /** Make room for one more, then append. */
  function Push(p: List, e: Entry): (r: List)
    requires p.size >= 1
  {
    var dropped := Max(|p.entries| - p.size + 1, 0);
    List(p.size, p.entries[dropped..] + [e], p.mediaSequence + dropped)
  }

  class PlaylistState {
    const size: nat
    var entries: seq<Entry>
    var mediaSequence: nat

    ghost function State(): (p: List)
      reads this
    {
      List(size, entries, mediaSequence)
    }

    constructor (configured: nat)
      ensures State() == New(configured) && size >= 1
    {
      size := if configured >= 1 then configured else 1;
      entries, mediaSequence := [], 0;
    }

    /** `push_segment`: pop while the window is full. */
    method PushSegment(e: Entry)
      requires size >= 1
      modifies this
      ensures State() == Push(old(State()), e)
    {
      while |entries| >= size
        invariant |old(entries)| >= |entries| && (entries != old(entries) ==> |entries| >= size - 1)
        invariant entries == old(entries)[|old(entries)| - |entries|..]
        invariant mediaSequence == old(mediaSequence) + |old(entries)| - |entries|
        decreases |entries|
      {
        entries := entries[1..];
        mediaSequence := mediaSequence + 1;
      }
      entries := entries + [e];
    }
  }

  /** What `render` writes, line by line. */
  datatype Rendered = Rendered(targetDuration: nat, mediaSequence: nat, listed: seq<Entry>, ended: bool)

  function CeilSeconds(ms: nat): (s: nat)
  {
    (ms + 999) / 1000
  }

  function MaxCeil(entries: seq<Entry>): (s: nat)
  {
    if entries == [] then 0
    else Max(CeilSeconds(entries[0].durationMs), MaxCeil(entries[1..]))
  }

  function Render(p: List, isFinal: bool): (r: Rendered)
  {
    Rendered(if p.entries == [] then 1 else MaxCeil(p.entries), p.mediaSequence, p.entries, isFinal)
  }

  /** A target of `t` seconds covers a duration, also when that is rounded to the nearest second
      as section 4.3.3.1 of RFC 8216 asks. */
  predicate Covers(t: nat, ms: nat)
  {
    ms <= 1000 * t && ms + 500 < 1000 * (t + 1)
  }

  /** The target duration covers every listed duration, and no smaller number of whole seconds
      would: entry `k` is longer. */
  lemma TargetDurationCovers(p: List, isFinal: bool) returns (k: nat)
    ensures forall i :: 0 <= i < |p.entries| ==>
              Covers(Render(p, isFinal).targetDuration, p.entries[i].durationMs)
    ensures p.entries != [] ==>
              k < |p.entries| && p.entries[k].durationMs > 1000 * (Render(p, isFinal).targetDuration - 1)
  {
    k := MaxCeilIs(p.entries);
  }

  lemma {:induction false} MaxCeilIs(entries: seq<Entry>) returns (k: nat)
    ensures forall i :: 0 <= i < |entries| ==> entries[i].durationMs <= 1000 * MaxCeil(entries)
    ensures entries != [] ==> k < |entries| && entries[k].durationMs > 1000 * (MaxCeil(entries) - 1)
  {
    k := 0;
    if entries != [] {
      var rest := MaxCeilIs(entries[1..]);
      if CeilSeconds(entries[0].durationMs) < MaxCeil(entries[1..]) {
        k := rest + 1;
      }
    }
  }

  function PushAll(p: List, es: seq<Entry>): (r: List)
    requires p.size >= 1
    ensures r.size == p.size
    decreases |es|
  {
    if es == [] then p else Push(PushAll(p, es[..|es| - 1]), es[|es| - 1])
  }

  /** The window: after any pushes the list holds exactly the last min(n, size) entries, in
      order, and the media sequence counts the removed ones. */
  lemma {:induction false} WindowOfPushes(configured: nat, es: seq<Entry>)
    ensures var p := PushAll(New(configured), es);
            && p.size == Max(configured, 1)
            && |p.entries| == Min(|es|, p.size)
            && p.entries == es[|es| - |p.entries|..]
            && p.mediaSequence == |es| - |p.entries|
    decreases |es|
  {
    if es != [] {
      var front := es[..|es| - 1];
      WindowOfPushes(configured, front);
      assert es == front + [es[|es| - 1]];
    }
  }

  /** What is written after any pushes: the last min(n, size) segments, the number of those gone,
      the end mark exactly when asked for, and a target of 1 while there is nothing to list. */
  lemma RenderedWindow(configured: nat, es: seq<Entry>, isFinal: bool)
    ensures var r := Render(PushAll(New(configured), es), isFinal);
            && |r.listed| == Min(|es|, Max(configured, 1))
            && r.mediaSequence <= |es| && es[r.mediaSequence..] == r.listed
            && (r.ended <==> isFinal)
            && (es == [] ==> r.targetDuration == 1)
  {
    WindowOfPushes(configured, es);
  }
}
