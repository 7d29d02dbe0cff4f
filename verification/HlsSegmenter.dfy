/** The HLS segmenter: cut decisions, timestamp repair, sequence numbers and recovery. The TS
    muxer is modelled by the packets written to it; every foreign call may fail. */
module HlsSegmenter {
  import opened Bytes
  import opened Media
  import opened Playlist

  datatype Config = Config(streams: set<Codec>, targetMs: nat, playlistSize: nat)

  /** A packet inside the muxer, with the 90 kHz time used for both PTS and DTS. */
  datatype Written = Written(pkt: EncodedPacket, time: int)

  datatype Segment = Segment(sequence: nat, durationMs: nat, packets: seq<Written>, isFinal: bool)

  /** How the calls into FFmpeg and the file system end while one packet is handled. */
  datatype Env = Env(convertOk: bool, writeOk: bool, trailerOk: bool, createOk: bool, diskOk: bool, recreateOk: bool)

  const CLEAN := Env(true, true, true, true, true, true)

  datatype Hls = Hls(
    firstPts: Option<int>, lastPts: Option<int>, hasKeyframe: bool,
    hasCtx: bool, buffer: seq<Written>, nextSequence: nat, lastDts: int,
    playlist: List)

  function Initial(cfg: Config): (h: Hls)
  {
    Hls(None, None, false, true, [], 0, 0, New(cfg.playlistSize))
  }

  // -------------------------------------------------------- specification of a step

  function Elapsed(h: Hls): (ms: nat)
  {
    if h.firstPts.Some? && h.lastPts.Some? && h.lastPts.value > h.firstPts.value
    then h.lastPts.value - h.firstPts.value else 0
  }

  function Observe(h: Hls, pkt: EncodedPacket): (r: Hls)
  {
    h.(firstPts := if h.firstPts.None? then pkt.ptsMs else h.firstPts,
       lastPts := pkt.ptsMs,
       hasKeyframe := h.hasKeyframe || pkt.isKeyframe)
  }

  /** Asked after the packet was observed. */
  predicate ShouldCut(cfg: Config, h: Hls, pkt: EncodedPacket)
  {
    Elapsed(h) >= cfg.targetMs && (pkt.isKeyframe || !h.hasKeyframe)
  }

  /** Milliseconds to 90 kHz ticks; a missing PTS counts as 0. */
  function Wanted(pkt: EncodedPacket): (t: int)
  {
    if pkt.ptsMs.Some? then 90 * pkt.ptsMs.value else 0
  }

  /** `write_packet`; the flag is false where the source returns an error. */
  function Write(cfg: Config, h: Hls, pkt: EncodedPacket, env: Env): (r: (Hls, bool))
  {
    if !env.convertOk then (h, false)
    else if pkt.codec !in cfg.streams then (h, true)
    else
      var next := Max(Wanted(pkt), h.lastDts + 1);
      var h' := h.(lastDts := next);
      if !h.hasCtx || !env.writeOk then (h', false)
      else (h'.(buffer := h.buffer + [Written(pkt, next)]), true)
  }

  /** `reset_after_write_error`. */
  function Reset(h: Hls, env: Env): (r: Hls)
  {
    h.(firstPts := None, lastPts := None, hasKeyframe := false,
       hasCtx := env.recreateOk, buffer := [], lastDts := 0)
  }

  function WriteOrReset(cfg: Config, h: Hls, pkt: EncodedPacket, env: Env): (r: Hls)
  {
    var (h', ok) := Write(cfg, h, pkt, env);
    if ok then h' else Reset(h', env)
  }

  /** `rollover`: close the context, take its bytes and a sequence number, open the next
      context, and store the file. Each failure leaves what was done so far. */
  function Rollover(h: Hls, durationMs: nat, env: Env): (r: (Hls, Option<Segment>))
  {
    if h.hasCtx && !env.trailerOk then (h, None)
    else
      var taken := h.(buffer := [], nextSequence := h.nextSequence + 1);
      if !env.createOk then (taken, None)
      else
        var reopened := taken.(hasCtx := true, lastDts := 0);
        (reopened, if env.diskOk then Some(Segment(h.nextSequence, durationMs, h.buffer, false)) else None)
  }

  function Listed(h: Hls, s: Segment): (r: Hls)
    requires h.playlist.size >= 1
  {
    h.(playlist := Push(h.playlist, Entry(s.sequence, s.durationMs)))
  }

  /** The packet opens the new segment. */
  function Restart(h: Hls, pkt: EncodedPacket): (r: Hls)
  {
    h.(firstPts := pkt.ptsMs, lastPts := pkt.ptsMs, hasKeyframe := pkt.isKeyframe)
  }

  /** `process`. */
  function Processed(cfg: Config, h: Hls, pkt: EncodedPacket, env: Env): (r: (Hls, Result<seq<Segment>>))
    requires h.playlist.size >= 1
  {
    if pkt.isSequenceHeader then (h, Ok([]))
    else
      var seen := Observe(h, pkt);
      if ShouldCut(cfg, seen, pkt) then CutOff(cfg, seen, pkt, Elapsed(seen), env)
      else (WriteOrReset(cfg, seen, pkt, env), Ok([]))
  }

  /** The part of `process` behind a decision to cut. */
  function CutOff(cfg: Config, h: Hls, pkt: EncodedPacket, ms: nat, env: Env): (r: (Hls, Result<seq<Segment>>))
    requires h.playlist.size >= 1
  {
    var (rolled, seg) := Rollover(h, ms, env);
    if seg.None? then (rolled, Err)
    else (WriteOrReset(cfg, Listed(Restart(rolled, pkt), seg.value), pkt, env), Ok([seg.value]))
  }

  /** `close`: the final segment, if it could be stored. */
  function Closed(h: Hls, env: Env): (r: (Hls, Option<Segment>))
    requires h.playlist.size >= 1
  {
    var (rolled, seg) := Rollover(h, Elapsed(h), env);
    if seg.None? then (rolled, None)
    else
      var last := seg.value.(isFinal := true);
      (Listed(rolled, last), Some(last))
  }

  // --------------------------------------------------------------------- the object

  class Segmenter {
    const cfg: Config
    var firstPts: Option<int>
    var lastPts: Option<int>
    var hasKeyframe: bool
    var hasCtx: bool
    var buffer: seq<Written>
    var nextSequence: nat
    var lastDts: int
    const playlist: PlaylistState

    ghost function State(): (h: Hls)
      reads this, playlist
    {
      Hls(firstPts, lastPts, hasKeyframe, hasCtx, buffer, nextSequence, lastDts, playlist.State())
    }

    ghost predicate Valid()
    {
      playlist.size >= 1
    }

    constructor (cfg: Config)
      ensures Valid() && State() == Initial(cfg) && this.cfg == cfg && fresh(playlist)
    {
      this.cfg := cfg;
      firstPts, lastPts, hasKeyframe := None, None, false;
      hasCtx, buffer, nextSequence, lastDts := true, [], 0, 0;
      playlist := new PlaylistState(cfg.playlistSize);
    }

    method WritePacket(pkt: EncodedPacket, env: Env) returns (ok: bool)
      requires Valid()
      modifies this
      ensures (State(), ok) == Write(cfg, old(State()), pkt, env)
    {
      if !env.convertOk {
        return false;
      }
      if pkt.codec !in cfg.streams {
        return true;
      }
      var next := if pkt.ptsMs.Some? then pkt.ptsMs.value * 90 else 0;
      if next < lastDts + 1 {
        next := lastDts + 1;
      }
      lastDts := next;
      if !hasCtx || !env.writeOk {
        return false;
      }
      buffer := buffer + [Written(pkt, next)];
      ok := true;
    }

    method WritePacketOrReset(pkt: EncodedPacket, env: Env)
      requires Valid()
      modifies this
      ensures State() == WriteOrReset(cfg, old(State()), pkt, env)
    {
      var ok := WritePacket(pkt, env);
      if !ok {
        firstPts, lastPts, hasKeyframe := None, None, false;
        buffer, lastDts := [], 0;
        hasCtx := env.recreateOk;
      }
    }

    method DoRollover(durationMs: nat, env: Env) returns (seg: Option<Segment>)
      requires Valid()
      modifies this
      ensures (State(), seg) == Rollover(old(State()), durationMs, env)
    {
      if hasCtx && !env.trailerOk {
        return None;
      }
      var sequence, taken := nextSequence, buffer;
      buffer := [];
      nextSequence := nextSequence + 1;
      if !env.createOk {
        return None;
      }
      hasCtx := true;
      lastDts := 0;
      if !env.diskOk {
        return None;
      }
      seg := Some(Segment(sequence, durationMs, taken, false));
    }

    method ElapsedMs() returns (ms: nat)
      requires Valid()
      ensures ms == Elapsed(State())
    {
      ms := 0;
      if firstPts.Some? && lastPts.Some? && lastPts.value > firstPts.value {
        ms := lastPts.value - firstPts.value;
      }
    }

    method Process(pkt: EncodedPacket, env: Env) returns (r: Result<seq<Segment>>)
      requires Valid()
      modifies this, playlist
      ensures (State(), r) == Processed(cfg, old(State()), pkt, env)
    {
      if pkt.isSequenceHeader {
        return Ok([]);
      }
      if firstPts.None? {
        firstPts := pkt.ptsMs;
      }
      lastPts := pkt.ptsMs;
      if pkt.isKeyframe {
        hasKeyframe := true;
      }
      var elapsed := ElapsedMs();
      if elapsed >= cfg.targetMs && (pkt.isKeyframe || !hasKeyframe) {
        r := CutAt(pkt, elapsed, env);
      } else {
        WritePacketOrReset(pkt, env);
        r := Ok([]);
      }
    }

    method CutAt(pkt: EncodedPacket, elapsed: nat, env: Env) returns (r: Result<seq<Segment>>)
      requires Valid()
      modifies this, playlist
      ensures (State(), r) == CutOff(cfg, old(State()), pkt, elapsed, env)
    {
      var seg := DoRollover(elapsed, env);
      if seg.None? {
        return Err;
      }
      firstPts, lastPts, hasKeyframe := pkt.ptsMs, pkt.ptsMs, pkt.isKeyframe;
      playlist.PushSegment(Entry(seg.value.sequence, seg.value.durationMs));
      WritePacketOrReset(pkt, env);
      r := Ok([seg.value]);
    }

    method Close(env: Env) returns (seg: Option<Segment>)
      requires Valid()
      modifies this, playlist
      ensures (State(), seg) == Closed(old(State()), env)
    {
      var elapsed := ElapsedMs();
      seg := DoRollover(elapsed, env);
      if seg.Some? {
        seg := Some(seg.value.(isFinal := true));
        playlist.PushSegment(Entry(seg.value.sequence, seg.value.durationMs));
      }
    }
  }
}
