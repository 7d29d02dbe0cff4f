/** The transcoder's frame-rate filter and its frame-rate fraction. */
module FpsFilter {
  import opened Bytes
  import opened Media

  // ------------------------------------------------------------------- the filter

  /** `framesSinceInit` counts encoded frames; the slot matters once it is positive. */
  datatype Filter = Filter(framesSinceInit: nat, lastKeptSlot: int)

  /** Rust division: towards zero. */
  function TruncDiv(a: int, b: int): (q: int)
    requires b > 0
  {
    if a >= 0 then a / b else -((-a) / b)
  }

  /** `should_keep_frame` for a configured frame rate: the answer and the new state. */
  function ShouldKeep(interval: int, f: Filter, pts: int): (r: (bool, Filter))
    requires interval > 0
  {
    var slot := TruncDiv(pts, interval);
    if f.framesSinceInit > 0 && slot <= f.lastKeptSlot then (false, f)
    else (true, f.(lastKeptSlot := slot))
  }

  /** One frame through filter and encoder; a failed encode is not counted. */
  function Handle(interval: int, f: Filter, pts: int, encodes: bool): (r: (bool, Filter))
    requires interval > 0
  {
    var (keep, f') := ShouldKeep(interval, f, pts);
    if keep && encodes then (true, f'.(framesSinceInit := f'.framesSinceInit + 1)) else (keep, f')
  }

  /** How long a frame of the configured rate lasts. */
  function Period(fps: real): (ms: real)
    requires fps > 0.0
    ensures ms > 0.0 && ms * fps == 1000.0
  {
    1000.0 / fps
  }

  /** The slot length in whole milliseconds; 0 for rates above 1000. */
  function Interval(fps: real): (ms: nat)
    requires fps > 0.0
  {
    Period(fps).Floor
  }

  lemma RealMul(a: real, b: real, m: real)
    requires a <= b && m > 0.0
    ensures a * m <= b * m && (a < b ==> a * m < b * m)
  {
  }

  class TranscodeState {
    var framesSinceInit: nat
    var lastKeptSlot: int

    ghost function State(): (f: Filter)
      reads this
    {
      Filter(framesSinceInit, lastKeptSlot)
    }

    /** Without a configured rate every frame is kept; a rate above 1000 divides by zero. */
    method ShouldKeepFrame(fps: Option<real>, pts: int) returns (r: Result<bool>)
      requires fps.Some? ==> fps.value > 0.0
      modifies this
      ensures fps.None? ==> r == Ok(true) && State() == old(State())
      ensures fps.Some? && fps.value > 1000.0 ==> r == Err && State() == old(State())
      ensures fps.Some? && fps.value <= 1000.0 ==>
                Interval(fps.value) >= 1 && r.Ok? && (r.value, State()) == ShouldKeep(Interval(fps.value), old(State()), pts)
    {
      if fps.None? {
        return Ok(true);
      }
      var interval := Interval(fps.value);
      SlotLengths(fps.value);
      if interval == 0 {
        return Err;
      }
      var slot := TruncDiv(pts, interval);
      if framesSinceInit > 0 {
        if slot <= lastKeptSlot {
          return Ok(false);
        }
      }
      lastKeptSlot := slot;
      r := Ok(true);
    }
  }

  lemma SlotLengths(fps: real)
    requires fps > 0.0
    ensures Interval(fps) >= 1 <==> fps <= 1000.0
  {
    var q := Period(fps);
    if q < 1.0 {
      RealMul(q, 1.0, fps);
    } else {
      RealMul(1.0, q, fps);
    }
  }

  /** A decoded frame, and whether the encoder will take it. */
  datatype Frame = Frame(pts: int, encodes: bool)

  /** The frames the filter lets through to the encoder. */
  function Kept(interval: int, f: Filter, frames: seq<Frame>): (r: seq<Frame>)
    requires interval > 0
    ensures |r| <= |frames|
    decreases |frames|
  {
    if frames == [] then []
    else
      var (keep, f') := Handle(interval, f, frames[0].pts, frames[0].encodes);
      (if keep then [frames[0]] else []) + Kept(interval, f', frames[1..])
  }

  /** The PTS of those the encoder took. */
  function Encoded(frames: seq<Frame>): (r: seq<int>)
  {
    if frames == [] then []
    else (if frames[0].encodes then [frames[0].pts] else []) + Encoded(frames[1..])
  }

  function Output(interval: int, lastKeptSlot: int, frames: seq<Frame>): (r: seq<int>)
    requires interval > 0
  {
    Encoded(Kept(interval, Filter(0, lastKeptSlot), frames))
  }

  // Small facts about multiplication and division, kept apart from everything else.

  lemma MulMono(a: int, b: int, m: nat)
    requires a <= b
    ensures a * m <= b * m
  {
  }

  lemma LessFromMul(a: int, b: int, m: nat)
    requires a * m < b * m
    ensures a < b
  {
    if a >= b {
      MulMono(b, a, m);
    }
  }

  lemma DivBounds(x: int, m: int)
    requires m > 0
    ensures x / m * m <= x < (x / m + 1) * m
  {
  }

  lemma Distribute(a: int, b: int, m: int)
    ensures (a - b) * m == a * m - b * m
    ensures (a - b - 1) * m == a * m - (b + 1) * m
  {
  }

  lemma DivMonotone(a: int, b: int, m: int)
    requires a <= b && m > 0
    ensures a / m <= b / m
  {
    DivBounds(a, m);
    DivBounds(b, m);
    LessFromMul(a / m, b / m + 1, m);
  }

  lemma TruncMonotone(a: int, b: int, m: int)
    requires a <= b && m > 0
    ensures TruncDiv(a, m) <= TruncDiv(b, m)
  {
    if a >= 0 {
      DivMonotone(a, b, m);
    } else if b < 0 {
      DivMonotone(-b, -a, m);
    } else {
      DivMonotone(0, -a, m);
      DivMonotone(0, b, m);
    }
  }

  /** Quotients of numbers less than `width` apart. */
  lemma DivDistance(a: int, b: int, width: nat, m: int)
    requires m > 0 && a <= b < a + width
    ensures b / m - a / m <= (width + m - 1) / m
  {
    var lo, hi, c := a / m, b / m, (width + m - 1) / m;
    DivBounds(a, m);
    DivBounds(b, m);
    DivBounds(width + m - 1, m);
    Distribute(hi, lo, m);
    Distribute(c, -1, m);
    LessFromMul(hi - lo - 1, c, m);
  }

  lemma DivSum(a: nat, b: nat, m: int)
    requires m > 0
    ensures a / m + b / m <= (a + b) / m
  {
    DivBounds(a, m);
    DivBounds(b, m);
    DivBounds(a + b, m);
    Distribute(a / m, -(b / m), m);
    LessFromMul(a / m + b / m, (a + b) / m + 1, m);
  }

  /** Slots of times less than `width` apart; around 0, where a slot is twice as wide, too. */
  lemma SlotDistance(a: int, b: int, width: nat, m: int)
    requires m > 0 && a <= b < a + width
    ensures TruncDiv(b, m) - TruncDiv(a, m) <= (width + m - 1) / m
  {
    if a >= 0 {
      DivDistance(a, b, width, m);
    } else if b < 0 {
      DivDistance(-b, -a, width, m);
    } else {
      DivSum(b, -a, m);
      DivMonotone(b - a, width + m - 1, m);
    }
  }

  // ------------------------------------------------------------------ rate bound

  /** Slots strictly increase, from above `prev` on. */
  ghost predicate SlotsClimb(interval: int, prev: int, ptss: seq<int>)
    requires interval > 0
  {
    && (forall i :: 0 <= i < |ptss| ==> prev < TruncDiv(ptss[i], interval))
    && (forall i, j :: 0 <= i < j < |ptss| ==> TruncDiv(ptss[i], interval) < TruncDiv(ptss[j], interval))
  }

  lemma ClimbCons(interval: int, prev: int, first: int, rest: seq<int>)
    requires interval > 0 && prev < TruncDiv(first, interval)
    requires SlotsClimb(interval, TruncDiv(first, interval), rest)
    ensures SlotsClimb(interval, prev, [first] + rest)
  {
  }

  lemma ClimbWeaker(interval: int, prev: int, lower: int, ptss: seq<int>)
    requires interval > 0 && lower <= prev && SlotsClimb(interval, prev, ptss)
    ensures SlotsClimb(interval, lower, ptss)
  {
  }

  lemma EncodedCons(frame: Frame, rest: seq<Frame>)
    ensures Encoded([frame] + rest) == (if frame.encodes then [frame.pts] else []) + Encoded(rest)
  {
    assert ([frame] + rest)[1..] == rest;
  }

  lemma {:induction false} EncodedClimbs(interval: int, f: Filter, frames: seq<Frame>)
    requires interval > 0 && f.framesSinceInit > 0
    ensures SlotsClimb(interval, f.lastKeptSlot, Encoded(Kept(interval, f, frames)))
    decreases |frames|
  {
    if frames != [] {
      var (keep, f') := Handle(interval, f, frames[0].pts, frames[0].encodes);
      var rest := Kept(interval, f', frames[1..]);
      EncodedClimbs(interval, f', frames[1..]);
      if keep {
        EncodedCons(frames[0], rest);
        if frames[0].encodes {
          ClimbCons(interval, f.lastKeptSlot, frames[0].pts, Encoded(rest));
        } else {
          assert [] + Encoded(rest) == Encoded(rest);
          ClimbWeaker(interval, f'.lastKeptSlot, f.lastKeptSlot, Encoded(rest));
        }
      } else {
        assert [] + rest == rest;
      }
    }
  }

  /** The first frame the encoder would take. */
  function FirstTaken(frames: seq<Frame>): (r: seq<int>)
  {
    if frames == [] then []
    else if frames[0].encodes then [frames[0].pts]
    else FirstTaken(frames[1..])
  }

  /** From a fresh encoder on, whichever encodes fail: output begins with the first frame the
      encoder takes, and output frames lie in strictly increasing slots. */
  lemma {:induction false} OutputSlotsIncrease(interval: int, lastKeptSlot: int, frames: seq<Frame>)
    requires interval > 0
    ensures var out := Output(interval, lastKeptSlot, frames);
            && FirstTaken(frames) <= out
            && forall i, j :: 0 <= i < j < |out| ==> TruncDiv(out[i], interval) < TruncDiv(out[j], interval)
    decreases |frames|
  {
    if frames != [] {
      var pts := frames[0].pts;
      var slot := TruncDiv(pts, interval);
      var f' := Handle(interval, Filter(0, lastKeptSlot), pts, frames[0].encodes).1;
      var rest := Kept(interval, f', frames[1..]);
      EncodedCons(frames[0], rest);
      if frames[0].encodes {
        EncodedClimbs(interval, f', frames[1..]);
        ClimbCons(interval, slot - 1, pts, Encoded(rest));
      } else {
        OutputSlotsIncrease(interval, slot, frames[1..]);
        assert [] + Encoded(rest) == Encoded(rest);
      }
    }
  }

  /** How many frames fall into the window of `width` milliseconds at `from`. */
  function InWindow(ptss: seq<int>, from: int, width: nat): (n: nat)
  {
    if ptss == [] then 0
    else (if from <= ptss[0] < from + width then 1 else 0) + InWindow(ptss[1..], from, width)
  }

  lemma {:induction false} CountBound(interval: int, prev: int, out: seq<int>, from: int, width: nat)
    requires interval > 0 && width > 0 && SlotsClimb(interval, prev, out)
    ensures var lo, hi := TruncDiv(from, interval), TruncDiv(from + width - 1, interval);
            InWindow(out, from, width) <= Max(0, hi - Max(prev, lo - 1))
    decreases |out|
  {
    if out != [] {
      CountBound(interval, TruncDiv(out[0], interval), out[1..], from, width);
      if from <= out[0] < from + width {
        TruncMonotone(from, out[0], interval);
        TruncMonotone(out[0], from + width - 1, interval);
      }
    }
  }

  /** The rate bound: no window of `width` ms holds more than ceil(width / interval) + 1 output
      frames, whatever the PTS and whichever encodes fail. */
  lemma RateBound(interval: int, lastKeptSlot: int, frames: seq<Frame>, from: int, width: nat)
    requires interval > 0
    ensures InWindow(Output(interval, lastKeptSlot, frames), from, width) <= (width + interval - 1) / interval + 1
  {
    var out := Output(interval, lastKeptSlot, frames);
    if width == 0 {
      EmptyWindow(out, from);
    } else if out != [] {
      OutputSlotsIncrease(interval, lastKeptSlot, frames);
      SlotDistance(from, from + width - 1, width, interval);
      CountBound(interval, TruncDiv(out[0], interval) - 1, out, from, width);
    }
  }

  lemma {:induction false} EmptyWindow(ptss: seq<int>, from: int)
    ensures InWindow(ptss, from, 0) == 0
  {
    if ptss != [] {
      EmptyWindow(ptss[1..], from);
    }
  }

  // ----------------------------------------------------------------- slow sources

  /** Two frames in the double-width slot around 0. */
  predicate Straddle(interval: int, a: int, b: int)
  {
    -interval < a && b < interval
  }

  lemma NextSlot(a: int, b: int, interval: int)
    requires interval > 0 && b >= a + interval
    ensures TruncDiv(a, interval) < TruncDiv(b, interval) <==> !Straddle(interval, a, b)
  {
    if a >= 0 {
      NextQuotient(a, b, interval);
    } else if b < 0 {
      NextQuotient(-b, -a, interval);
    } else {
      SmallQuotient(-a, interval);
      SmallQuotient(b, interval);
    }
  }

  lemma NextQuotient(a: int, b: int, m: int)
    requires m > 0 && b >= a + m
    ensures a / m < b / m
  {
    DivBounds(a, m);
    DivBounds(b, m);
    Distribute(a / m, -1, m);
    LessFromMul(a / m + 1, b / m + 1, m);
  }

  lemma SmallQuotient(a: nat, m: int)
    requires m > 0
    ensures a / m >= 0 && (a / m == 0 <==> a < m)
  {
    DivMonotone(0, a, m);
    if a >= m {
      NextQuotient(0, a, m);
    }
  }

  /** No neighbours straddle 0 once an encode succeeded. */
  ghost predicate NeverStraddles(interval: int, started: bool, frames: seq<Frame>)
    decreases |frames|
  {
    |frames| >= 2 ==>
      var started' := started || frames[0].encodes;
      && (started' ==> !Straddle(interval, frames[0].pts, frames[1].pts))
      && NeverStraddles(interval, started', frames[1..])
  }

  /** A source whose frames are at least one interval apart loses none, if and only if, once a
      frame was encoded, no two neighbours lie in the double-width slot around 0; so always with
      PTS of one sign. */
  lemma {:induction false} SlowSourceLosesNone(interval: int, f: Filter, frames: seq<Frame>)
    requires interval > 0
    requires forall i :: 0 <= i < |frames| - 1 ==> frames[i + 1].pts >= frames[i].pts + interval
    requires frames != [] && f.framesSinceInit > 0 ==> f.lastKeptSlot < TruncDiv(frames[0].pts, interval)
    ensures Kept(interval, f, frames) == frames <==> NeverStraddles(interval, f.framesSinceInit > 0, frames)
    decreases |frames|
  {
    if frames != [] {
      var f' := Handle(interval, f, frames[0].pts, frames[0].encodes).1;
      var rest := frames[1..];
      assert [frames[0]] + rest == frames;
      if rest != [] {
        NextSlot(frames[0].pts, frames[1].pts, interval);
      }
      if rest != [] && f'.framesSinceInit > 0 && Straddle(interval, frames[0].pts, frames[1].pts) {
        assert |Kept(interval, f', rest)| < |rest|;
      } else {
        SlowSourceLosesNone(interval, f', rest);
        assert Kept(interval, f, frames)[1..] == Kept(interval, f', rest);
      }
    }
  }

  /** The input that loses a frame: one per 40 ms, at -20 and 20 ms, for a 40 ms interval. */
  lemma StraddlingSourceLosesOne()
    ensures Output(40, 0, [Frame(-20, true), Frame(20, true)]) == [-20]
  {
    var frames := [Frame(-20, true), Frame(20, true)];
    assert Kept(40, Filter(1, 0), frames[1..]) == [] + Kept(40, Filter(1, 0), []);
    assert Kept(40, Filter(0, 0), frames) == [Frame(-20, true)];
    EncodedCons(Frame(-20, true), []);
  }

  // ------------------------------------------------------------- the configured rate

  /** Rounded up to a whole number. */
  function CeilReal(x: real): (n: int)
  {
    -((-x).Floor)
  }

  /** How many periods make up `width` milliseconds. */
  function Periods(width: nat, period: real): (x: real)
    requires period > 0.0
    ensures x * period == width as real
  {
    width as real / period
  }

  /** No window of any length ever holds more frames than one per period, up to the one that a
      window not aligned to the slots gains. */
  ghost predicate RateKept(period: real)
    requires period >= 1.0
  {
    forall lastKeptSlot: int, frames: seq<Frame>, from: int, width: nat ::
      InWindow(Output(period.Floor, lastKeptSlot, frames), from, width) <= CeilReal(Periods(width, period)) + 1
  }

  /** The filter works with whole milliseconds, so it keeps a configured rate if and only if one
      frame of that rate lasts a whole number of them. */
  lemma ConfiguredRate(fps: real)
    requires 0.0 < fps <= 1000.0
    ensures Period(fps) >= 1.0
    ensures RateKept(Period(fps)) <==> Interval(fps) as real == Period(fps)
  {
    SlotLengths(fps);
    WholePeriod(Period(fps));
  }

  /** A rate that is not kept: 600 frames per second get slots of 1 ms. */
  lemma HighRateExceeded()
    ensures Period(600.0) >= 1.0 && Interval(600.0) == 1 && !RateKept(Period(600.0))
  {
    ConfiguredRate(600.0);
    assert 1.0 < Period(600.0) < 2.0;
  }

  lemma WholePeriod(period: real)
    requires period >= 1.0
    ensures RateKept(period) <==> period.Floor as real == period
  {
    var ms := period.Floor;
    if ms as real == period {
      forall lastKeptSlot: int, frames: seq<Frame>, from: int, width: nat
        ensures InWindow(Output(ms, lastKeptSlot, frames), from, width) <= CeilReal(Periods(width, period)) + 1
      {
        RateBound(ms, lastKeptSlot, frames, from, width);
        WholeSlots(ms, width, Periods(width, period));
      }
    } else {
      var n := EnoughFrames(period, ms);
      SteadyOutput(ms, n);
      RunsAhead(period, ms, n, Periods((n - 1) * ms + 1, period));
      assert InWindow(Output(ms, 0, Steady(ms, 0, n)), 0, (n - 1) * ms + 1) == n;
    }
  }

  /** With whole slots, both ways of counting them agree. */
  lemma WholeSlots(ms: int, width: nat, x: real)
    requires ms >= 1 && x * ms as real == width as real
    ensures (width + ms - 1) / ms <= CeilReal(x)
  {
    var c := (width + ms - 1) / ms;
    DivBounds(width + ms - 1, ms);
    Distribute(c, 1, ms);
    var before := (c - 1) * ms;
    assert before < width;
    if c >= 1 {
      CastProduct(c - 1, ms);
    } else {
      assert before as real == -(ms as real) && (c - 1) as real == -1.0;
    }
    SmallerQuotient((c - 1) as real, x, ms as real);
    CeilAbove(x, c);
  }

  lemma SmallerQuotient(a: real, b: real, m: real)
    requires m > 0.0 && a * m < b * m
    ensures a < b
  {
    if a >= b {
      RealMul(b, a, m);
    }
  }

  lemma CeilAbove(x: real, c: int)
    requires x > (c - 1) as real
    ensures c <= CeilReal(x)
  {
  }

  lemma {:induction false} CastProduct(a: nat, b: int)
    ensures (a * b) as real == a as real * b as real
  {
    if a > 0 {
      CastProduct(a - 1, b);
      assert a * b == (a - 1) * b + b;
      RealDistribute((a - 1) as real, b as real);
    }
  }

  lemma RealDistribute(a: real, b: real)
    ensures (a + 1.0) * b == a * b + b
  {
  }

  /** `n` frames, one per slot, from slot `i` on. */
  function Steady(ms: int, i: nat, n: nat): (frames: seq<Frame>)
    decreases n
  {
    if n == 0 then [] else [Frame(i * ms, true)] + Steady(ms, i + 1, n - 1)
  }

  lemma {:induction false} SteadyKept(ms: int, f: Filter, i: nat, n: nat)
    requires ms >= 1 && (f.framesSinceInit > 0 ==> f.lastKeptSlot < i)
    ensures Kept(ms, f, Steady(ms, i, n)) == Steady(ms, i, n)
    decreases n
  {
    if n > 0 {
      MulMono(0, i, ms);
      QuotientOf(i * ms, ms, i);
      var f' := Handle(ms, f, i * ms, true).1;
      SteadyKept(ms, f', i + 1, n - 1);
      assert Steady(ms, i, n)[1..] == Steady(ms, i + 1, n - 1);
    }
  }

  lemma {:induction false} SteadyWindow(ms: int, i: nat, n: nat, end: nat)
    requires ms >= 1 && (n > 0 ==> (i + n - 1) * ms < end)
    ensures InWindow(Encoded(Steady(ms, i, n)), 0, end) == n
    decreases n
  {
    if n > 0 {
      MulMono(0, i, ms);
      MulMono(i, i + n - 1, ms);
      SteadyWindow(ms, i + 1, n - 1, end);
      EncodedCons(Frame(i * ms, true), Steady(ms, i + 1, n - 1));
      var rest := Encoded(Steady(ms, i + 1, n - 1));
      assert ([i * ms] + rest)[1..] == rest;
    }
  }

  lemma SteadyOutput(ms: int, n: nat)
    requires ms >= 1 && n >= 1
    ensures (n - 1) * ms >= 0 && InWindow(Output(ms, 0, Steady(ms, 0, n)), 0, (n - 1) * ms + 1) == n
  {
    MulMono(0, n - 1, ms);
    SteadyKept(ms, Filter(0, 0), 0, n);
    SteadyWindow(ms, 0, n, (n - 1) * ms + 1);
  }

  /** A shortened slot lets the frames run ahead of the configured rate without bound. */
  lemma EnoughFrames(period: real, ms: int) returns (n: nat)
    requires ms >= 1 && ms as real < period
    ensures n >= 1 && (n - 1) as real * (period - ms as real) >= period + 1.0
  {
    var gap := period - ms as real;
    var q := (period + 1.0) / gap;
    assert q * gap == period + 1.0;
    n := CeilNat(q) + 1;
    RealMul(q, (n - 1) as real, gap);
  }

  function CeilNat(x: real): (n: nat)
    ensures n as real >= x
  {
    if x <= 0.0 then 0 else x.Floor + 1
  }

  lemma RunsAhead(period: real, ms: int, n: nat, x: real)
    requires ms >= 1 && n >= 1 && period > 0.0 && (n - 1) * ms >= 0
    requires (n - 1) as real * (period - ms as real) >= period + 1.0
    requires x * period == ((n - 1) * ms + 1) as real
    ensures n > CeilReal(x) + 1
  {
    var m := n - 1;
    CastProduct(m, ms);
    assert m as real * (period - ms as real) == m as real * period - m as real * ms as real;
    RealDistribute((m - 1) as real, period);
    assert x * period <= (m - 1) as real * period;
    if x > (m - 1) as real {
      RealMul((m - 1) as real, x, period);
    }
  }

  // --------------------------------------------------------------- nothing starves

  /** Some frame lies in the slot or beyond. */
  ghost predicate Serves(interval: int, frames: seq<Frame>, slot: int)
    requires interval > 0
  {
    exists j :: 0 <= j < |frames| && slot <= TruncDiv(frames[j].pts, interval)
  }

  lemma ServesCons(interval: int, first: Frame, rest: seq<Frame>, slot: int)
    requires interval > 0
    ensures slot <= TruncDiv(first.pts, interval) || Serves(interval, rest, slot)
            ==> Serves(interval, [first] + rest, slot)
  {
    var all := [first] + rest;
    assert all[0] == first;
    if j :| 0 <= j < |rest| && slot <= TruncDiv(rest[j].pts, interval) {
      assert all[j + 1] == rest[j];
    }
  }

  /** A frame is dropped only when its slot, or a later one, is taken: every frame finds a kept
      frame in its slot or beyond. */
  lemma {:induction false} EverySlotServed(interval: int, f: Filter, frames: seq<Frame>, i: nat)
    requires interval > 0 && i < |frames|
    ensures var slot := TruncDiv(frames[i].pts, interval);
            (f.framesSinceInit > 0 && slot <= f.lastKeptSlot) || Serves(interval, Kept(interval, f, frames), slot)
    decreases |frames|
  {
    var (keep, f') := Handle(interval, f, frames[0].pts, frames[0].encodes);
    var rest := Kept(interval, f', frames[1..]);
    var kept := Kept(interval, f, frames);
    assert kept == (if keep then [frames[0]] else []) + rest;
    var slot := TruncDiv(frames[i].pts, interval);
    if i > 0 {
      EverySlotServed(interval, f', frames[1..], i - 1);
    }
    if keep {
      ServesCons(interval, frames[0], rest, slot);
    } else {
      assert kept == rest;
    }
  }

  // ----------------------------------------------------------------- fps_to_rational

  ghost predicate Divides(d: int, n: int)
  {
    exists k :: k * d == n
  }

  ghost predicate CommonDivisor(d: int, a: int, b: int)
  {
    Divides(d, a) && Divides(d, b)
  }

  lemma DividesSum(d: int, a: int, b: int, q: int)
    requires Divides(d, a) && Divides(d, b)
    ensures Divides(d, a + q * b)
  {
    var i :| i * d == a;
    var j :| j * d == b;
    assert (i + q * j) * d == a + q * b by {
      assert (q * j) * d == q * (j * d);
    }
  }

  /** A Euclid step keeps the common divisors. */
  lemma EuclidStep(d: int, a: int, b: int)
    requires b > 0
    ensures CommonDivisor(d, a, b) <==> CommonDivisor(d, b, a % b)
  {
    var q := a / b;
    assert a == q * b + a % b;
    if CommonDivisor(d, a, b) {
      DividesSum(d, a, b, -q);
      assert a + (-q) * b == a % b;
    }
    if CommonDivisor(d, b, a % b) {
      DividesSum(d, a % b, b, q);
    }
  }

  lemma Reduced(num: int, den: int, g: int)
    requires num > 0 && den > 0 && g > 0
    requires forall d :: CommonDivisor(d, num, den) <==> CommonDivisor(d, g, 0)
    ensures num / g * g == num && den / g * g == den
    ensures forall e :: e > 1 ==> !CommonDivisor(e, num / g, den / g)
  {
    assert 1 * g == g && 0 * g == 0;
    assert CommonDivisor(g, g, 0);
    var i :| i * g == num;
    var j :| j * g == den;
    QuotientOf(num, g, i);
    QuotientOf(den, g, j);
    forall e | e > 1
      ensures !CommonDivisor(e, i, j)
    {
      if CommonDivisor(e, i, j) {
        var x :| x * e == i;
        var y :| y * e == j;
        assert x * (e * g) == num by { assert x * (e * g) == (x * e) * g; }
        assert y * (e * g) == den by { assert y * (e * g) == (y * e) * g; }
        assert CommonDivisor(e * g, num, den);
        var z :| z * (e * g) == g;
        UnitFactor(z, e, g);
      }
    }
  }

  lemma QuotientOf(n: int, g: int, i: int)
    requires g > 0 && i * g == n
    ensures n / g == i
  {
    DivBounds(n, g);
    Distribute(i, -1, g);
    LessFromMul(n / g, i + 1, g);
    LessFromMul(i, n / g + 1, g);
  }

  /** A factor that does not enlarge is 1. */
  lemma UnitFactor(z: int, e: int, g: int)
    requires e >= 1 && g > 0 && z * (e * g) == g
    ensures e == 1
  {
    assert z * (e * g) == (z * e) * g;
    LessFromMul(z * e, 2, g);
    LessFromMul(0, z * e, g);
    LessFromMul(0, z, e);
    MulMono(1, z, e);
  }

  /** Thousandths of a frame per second, rounded, and at least 1. */
  function Thousandths(fps: real): (n: int)
    ensures n >= 1
    ensures fps >= 0.001 ==> -0.5 < n as real - 1000.0 * fps <= 0.5
    ensures fps < 0.001 ==> n == 1
  {
    Max((fps * 1000.0 + 0.5).Floor, 1)
  }

  const I32_MAX: int := 0x7FFF_FFFF

  /** Rust's `as i32`: the low 32 bits, as a signed number. */
  function AsI32(n: int): (r: int)
    ensures -0x8000_0000 <= r <= 0x7FFF_FFFF && (n - r) % 0x1_0000_0000 == 0
    ensures n > 0 ==> (r == n <==> n <= I32_MAX)
  {
    var low := n % 0x1_0000_0000;
    if low > I32_MAX then low - 0x1_0000_0000 else low
  }

  /** `fps_to_rational`: the rate in thousandths, as a fraction in lowest terms with a denominator
      that divides 1000, if and only if its numerator fits 32 bits. */
  method FpsToRational(fps: real) returns (rn: int, rd: int)
    ensures 0 < rd <= 1000 && 1000 % rd == 0
    ensures var num := Thousandths(fps);
            && rn == AsI32(num * rd / 1000)
            && (rn * 1000 == num * rd <==> num * rd / 1000 <= I32_MAX)
            && forall e :: e > 1 ==> !CommonDivisor(e, num * rd / 1000, rd)
  {
    var num := Thousandths(fps);
    var a, b := num, 1000;
    while b != 0
      invariant a > 0 && b >= 0
      invariant forall d :: CommonDivisor(d, num, 1000) <==> CommonDivisor(d, a, b)
      decreases b
    {
      forall d
        ensures CommonDivisor(d, a, b) <==> CommonDivisor(d, b, a % b)
      {
        EuclidStep(d, a, b);
      }
      a, b := b, a % b;
    }
    Reduced(num, 1000, a);
    rn, rd := AsI32(num / a), 1000 / a;
    CrossProduct(num, 1000, a, num / a, rd);
    QuotientOf(num * rd, 1000, num / a);
    DivisorOf(1000, rd, a);
  }

  lemma DivisorOf(n: int, d: int, g: int)
    requires n > 0 && d > 0 && g > 0 && d * g == n
    ensures d <= n && n % d == 0
  {
    MulMono(1, g, d);
    QuotientOf(n, d, g);
  }

  lemma CrossProduct(num: int, den: int, g: int, rn: int, rd: int)
    requires num > 0 && den > 0 && g > 0 && rn * g == num && rd * g == den
    ensures rn > 0 && rd > 0 && rn * den == num * rd
  {
    assert rn * (rd * g) == (rn * g) * rd;
    LessFromMul(0, rn, g);
    LessFromMul(0, rd, g);
  }
}
