/**
 * Where the stored gap comes from: the intervals the estimate averages, over any run, and the frames
 * the measured gaps were measured on.
 */
module GapSource {
  import opened Bytes
  import opened RegistryModel
  import opened Flash
  import opened Capture
  import opened Learner
  import opened NoiseGate
  import Runs

  // ---- The span -----------------------------------------------------------------------------

  function Total(intervals: seq<Interval>): nat {
    if intervals == [] then 0 else Total(intervals[..|intervals| - 1]) + intervals[|intervals| - 1].us
  }

  /** The span the learner keeps is made of the counted intervals, none longer than one press allows. */
  ghost predicate Spanned(t: Tuning, l: Learning, intervals: seq<Interval>) {
    && |intervals| == l.intervals
    && Elapsed(l.firstUs, l.lastUs) == Clock(Total(intervals))
    && forall k :: 0 <= k < |intervals| ==> intervals[k].us <= Clock(Duration(intervals[k].frame) + t.maxGap)
  }

  lemma {:induction false} ElapsedAdds(first: u32, last: u32, now: u32, total: nat)
    requires Elapsed(first, last) == Clock(total)
    ensures Elapsed(first, now) == Clock(total + Elapsed(last, now))
  {
  }

  lemma {:induction false} PairsKeepSpan(t: Tuning, l: Learning, split: SplitFrames, n: nat)
    requires n < |split.frames| && |split.gaps| == |split.frames| - 1
    ensures var after := AfterPairs(t, l, split, n);
            after.firstUs == l.firstUs && after.lastUs == l.lastUs && after.intervals == l.intervals
  {
    hide GoodPair, Consistent;
    if n != 0 {
      PairsKeepSpan(t, l, split, n - 1);
    }
  }

  lemma {:induction false} RestartSpans(t: Tuning, l: Learning, frame: Frame, nowUs: u32)
    ensures Spanned(t, Restarted(l, frame, nowUs), [])
  {
  }

  lemma {:induction false} ArrivalSpans(t: Tuning, l: Learning, frame: Frame, nowUs: u32, was: seq<Interval>)
    requires Spanned(t, l, was)
    ensures var us := Elapsed(l.lastUs, nowUs);
            Spanned(t, Extended(t, l, frame, nowUs),
                    if us > LongestWait(t, frame) then [] else was + [Interval(us, frame)])
  {
    hide Duration, Clock, Elapsed;
    var us := Elapsed(l.lastUs, nowUs);
    var more := was + [Interval(us, frame)];
    assert more[..|more| - 1] == was;
    ElapsedAdds(l.firstUs, l.lastUs, nowUs, Total(was));
    NoSpan(nowUs);
  }

  lemma {:induction false} NoSpan(now: u32)
    ensures Elapsed(now, now) == Clock(0)
  {
  }

  lemma {:induction false} SameSpan(t: Tuning, l: Learning, l': Learning, intervals: seq<Interval>)
    requires Spanned(t, l, intervals)
    requires l'.firstUs == l.firstUs && l'.lastUs == l.lastUs && l'.intervals == l.intervals
    ensures Spanned(t, l', intervals)
  {
    hide LongestWait, Total, Elapsed;
  }

  lemma {:induction false} OneSpans(t: Tuning, l: Learning, frame: Frame, nowUs: u32, nowMs: u32, was: seq<Interval>)
    requires Spanned(t, l, was) && WellShaped(frame, t.limits)
    ensures var us := Elapsed(l.lastUs, nowUs);
            Spanned(t, HeardOne(t, l, frame, nowUs, nowMs).learn,
                    if !Consistent(t, l.candidate, frame) || us > LongestWait(t, frame) then []
                    else was + [Interval(us, frame)])
  {
    hide Agree, LongestWait, Consistent, Spanned, Elapsed, Extended, Restarted;
    var seen := l.(sawFrame := true);
    if Consistent(t, l.candidate, frame) {
      var us := Elapsed(l.lastUs, nowUs);
      SameSpan(t, l, seen, was);
      ArrivalSpans(t, seen, frame, nowUs, was);
      var extended := Extended(t, seen, frame, nowUs);
      SameSpan(t, extended, Readied(t, extended, nowMs),
               if us > LongestWait(t, frame) then [] else was + [Interval(us, frame)]);
    } else {
      RestartSpans(t, seen, frame, nowUs);
    }
  }

  lemma {:induction false} HeardSpans(t: Tuning, l: Learning, raw: Frame, nowUs: u32, nowMs: u32, was: seq<Interval>)
    requires l.state.Armed? && Spanned(t, l, was)
    ensures Spanned(t, Heard(t, l, raw, nowUs, nowMs).learn, IntervalsAfter(t, l, was, raw, nowUs))
  {
    hide SplitOf, AfterPairs, GoodPair, WellShaped, Agree, LongestWait, Total;
    var split := SplitOf(t, Stripped(raw));
    if HasPair(t, split.frames) {
      PairsKeepSpan(t, l, split, |split.frames| - 1);
    } else if WellShaped(Stripped(raw), t.limits) {
      OneSpans(t, l, Stripped(raw), nowUs, nowMs, was);
    }
  }

  lemma {:induction false} StepSpans(t: TunedConfig, cfg: Config, b: Bench, trace: Trace, h: Happening)
    requires Spanned(t, b.learn, trace.intervals)
    ensures Spanned(t, Next(t, cfg, b, h).learn, Follow(t, b.learn, trace, h).intervals)
    ensures h.Window? || h.Tick? ==>
              Spanned(t, VerdictFor(t, b.learn, h).learn, Follow(t, b.learn, trace, h).intervals)
  {
    hide Heard, IntervalsAfter, FramesIn, Perform, ResolvedGap, ValidateName, First, Occupancy, LongestWait;
    if h.Window? && b.learn.state.Armed? {
      HeardSpans(t, b.learn, h.raw, h.nowUs, h.nowMs, trace.intervals);
    } else if h.Window? {
      NotArmed(t, b.learn, h);
    }
  }

  /**
   * Over any run from boot, through candidates that change, windows of either kind, and learns that fail
   * or succeed, the span handed to the estimate is the sum, on the 32-bit clock, of exactly
   * `interval_count` intervals, each no longer than its frame and the greatest gap together.
   */
  lemma {:induction false} SpanIsSumOfIntervals(t: TunedConfig, cfg: Config, b: Bench, trace: Trace,
                                                run: seq<Happening>)
    requires Spanned(t, b.learn, trace.intervals)
    ensures Spanned(t, After(t, cfg, b, run).learn, Followed(t, cfg, b, trace, run).intervals)
    decreases |run|
  {
    hide Spanned, Next, Follow;
    if run != [] {
      StepSpans(t, cfg, b, trace, run[0]);
      SpanIsSumOfIntervals(t, cfg, Next(t, cfg, b, run[0]), Follow(t, b.learn, trace, run[0]), run[1..]);
    }
  }

  /** The clock times of the arrivals that bound the counted intervals. */
  predicate ArrivalsOf(arrivals: seq<int>, intervals: seq<Interval>) {
    && |arrivals| == |intervals| + 1
    && forall k :: 0 <= k < |intervals| ==> arrivals[k + 1] - arrivals[k] == intervals[k].us
  }

  lemma {:induction false} ArrivalsTotal(arrivals: seq<int>, intervals: seq<Interval>)
    requires ArrivalsOf(arrivals, intervals)
    ensures arrivals[|intervals|] - arrivals[0] == Total(intervals)
    decreases |intervals|
  {
    var n := |intervals|;
    if n != 0 {
      ArrivalsTotal(arrivals[..n], intervals[..n - 1]);
    }
  }

  /** No gap was measured, or the median of those that were is not a plausible one. */
  predicate Unmeasured(t: Tuning, gaps: seq<u32>) {
    gaps == [] || !(t.minGap <= Median(gaps) <= t.maxGap)
  }

  /**
   * The gap a run stores when measurement does not give it. If the frames counted truly came one period apart and
   * each was noticed within a tick, the stored gap is off from the true one by less than tick / n, and a
   * microsecond of truncation, or it is the configured default, and then there were fewer than three intervals
   * or the true gap is outside its bounds or that close to them.
   */
  lemma {:induction false} EstimatedGapOfARun(t: TunedConfig, cfg: Config, m: Runs.Machine, run: seq<Happening>,
                                              h: Happening, arrivals: seq<int>, start: real, period: real, tick: real)
    requires var b := After(t, cfg, Bench(AT_BOOT, m), run);
             var trace := Followed(t, cfg, Bench(AT_BOOT, m), Trace([], []), run);
             && Commits(t, b.learn, h) && Unmeasured(t, VerdictFor(t, b.learn, h).learn.gaps)
             && ArrivalsOf(arrivals, Follow(t, b.learn, trace, h).intervals)
    requires NoticedWithin(arrivals, start, period, tick)
    requires 0 <= arrivals[|arrivals| - 1] - arrivals[0] < 0x1_0000_0000
    ensures var stored := CaptureOf(t, VerdictFor(t, After(t, cfg, Bench(AT_BOOT, m), run).learn, h).learn);
            var n, gap := |arrivals| - 1, period - Duration(stored.timings) as real;
            || (n >= 1 && -tick / n as real - 1.0 < stored.gapUs as real - gap < tick / n as real)
            || (stored.gapUs == t.defaultGap && !Estimable(n, gap, tick, t.minGap, t.maxGap, 3))
  {
    hide After, Followed, Follow, VerdictFor, Duration, EstimateGap, NoticedWithin;
    var boot, trace := Bench(AT_BOOT, m), Followed(t, cfg, Bench(AT_BOOT, m), Trace([], []), run);
    assert Spanned(t, AT_BOOT, []);
    SpanIsSumOfIntervals(t, cfg, boot, Trace([], []), run);
    var b := After(t, cfg, boot, run);
    StepSpans(t, cfg, b, trace, h);
    OnlyTheseCommit(t, b.learn, h);
    var l, intervals := VerdictFor(t, b.learn, h).learn, Follow(t, b.learn, trace, h).intervals;
    EstimatedGap(t, l, intervals, arrivals, start, period, tick);
  }

  lemma {:induction false} EstimatedGap(t: TunedConfig, l: Learning, intervals: seq<Interval>, arrivals: seq<int>,
                                        start: real, period: real, tick: real)
    requires Spanned(t, l, intervals) && ArrivalsOf(arrivals, intervals) && Unmeasured(t, l.gaps)
    requires NoticedWithin(arrivals, start, period, tick)
    requires 0 <= arrivals[|arrivals| - 1] - arrivals[0] < 0x1_0000_0000
    ensures var n, gap := |arrivals| - 1, period - Duration(l.candidate) as real;
            || (n >= 1 && -tick / n as real - 1.0 < ResolvedGap(t, l) as real - gap < tick / n as real)
            || (ResolvedGap(t, l) == t.defaultGap && !Estimable(n, gap, tick, t.minGap, t.maxGap, 3))
  {
    hide NoticedWithin, Duration, Total, Estimable, EstimateGap, ResolvedGap, Elapsed;
    ArrivalsTotal(arrivals, intervals);
    UnmeasuredGap(t, l);
    if |intervals| != 0 {
      ClockSpan(arrivals[0], arrivals[|intervals|]);
      EstimateBound(arrivals, start, period, tick, Duration(l.candidate), t.minGap, t.maxGap, GAP_MIN_INTERVALS);
    } else {
      NoIntervals(period - Duration(l.candidate) as real, tick, t.minGap, t.maxGap);
    }
  }

  lemma {:induction false} NoIntervals(gap: real, tick: real, minGap: u32, maxGap: u32)
    ensures !Estimable(0, gap, tick, minGap, maxGap, 3)
  {
  }

  lemma {:induction false} UnmeasuredGap(t: TunedConfig, l: Learning)
    requires Unmeasured(t, l.gaps)
    ensures var estimate := EstimateGap(Elapsed(l.firstUs, l.lastUs), l.intervals, Duration(l.candidate), t.minGap,
                                        t.maxGap, 3);
            ResolvedGap(t, l) == if estimate != 0 then estimate else t.defaultGap
    ensures l.intervals == 0 ==> ResolvedGap(t, l) == t.defaultGap
  {
    hide Duration, Median, Elapsed;
  }

  // ---- The waveform a gap was measured on ---------------------------------------------------

  /** The windows heard since the learn was armed, without the receiver's terminating entries. */
  function WindowsAfter(l: Learning, windows: seq<Frame>, h: Happening): seq<Frame> {
    match h
    case Arm(_, _, _) => []
    case Window(raw, _, _, _) => if l.state.Armed? then windows + [Stripped(raw)] else windows
    case _ => windows
  }

  function WindowsOf(t: TunedConfig, cfg: Config, b: Bench, windows: seq<Frame>, run: seq<Happening>): seq<Frame>
    decreases |run|
  {
    if run == [] then windows
    else WindowsOf(t, cfg, Next(t, cfg, b, run[0]), WindowsAfter(b.learn, windows, run[0]), run[1..])
  }

  /** Where a gap was measured: which window, and after which of the frames it splits into. */
  datatype Place = Place(window: nat, frame: nat)

  /**
   * The place of every measured gap, and how many of them were measured before a lone frame last replaced
   * the candidate, which leaves the measured gaps as they are.
   */
  datatype Origin = Origin(places: seq<Place>, stale: nat)

  function OriginAfterPair(t: Tuning, l: Learning, o: Origin, frames: seq<Frame>, w: nat, i: nat): Origin
    requires i + 1 < |frames|
  {
    if !GoodPair(t, frames, i) then o
    else if Consistent(t, l.candidate, frames[i]) then o.(places := o.places + [Place(w, i)])
    else Origin([Place(w, i)], 0)
  }

  function OriginAfterPairs(t: Tuning, l: Learning, o: Origin, split: SplitFrames, w: nat, n: nat): Origin
    requires n < |split.frames| && |split.gaps| == |split.frames| - 1
  {
    if n == 0 then o
    else
      OriginAfterPair(t, AfterPairs(t, l, split, n - 1), OriginAfterPairs(t, l, o, split, w, n - 1), split.frames, w,
                      n - 1)
  }

  function OriginAfterWindow(t: Tuning, l: Learning, o: Origin, window: Frame, w: nat): Origin {
    var split := SplitOf(t, window);
    if HasPair(t, split.frames) then OriginAfterPairs(t, l, o, split, w, |split.frames| - 1)
    else OriginAfterLone(t, l, o, window)
  }

  function OriginAfterLone(t: Tuning, l: Learning, o: Origin, frame: Frame): Origin {
    if WellShaped(frame, t.limits) && !Consistent(t, l.candidate, frame) then o.(stale := |o.places|) else o
  }

  function OriginAfter(t: Tuning, l: Learning, o: Origin, windows: seq<Frame>, h: Happening): Origin {
    match h
    case Arm(_, _, _) => Origin([], 0)
    case Window(raw, _, _, _) =>
      if l.state.Armed? then OriginAfterWindow(t, l, o, Stripped(raw), |windows|) else o
    case _ => o
  }

  function OriginOf(t: TunedConfig, cfg: Config, b: Bench, o: Origin, windows: seq<Frame>, run: seq<Happening>): Origin
    decreases |run|
  {
    if run == [] then o
    else
      OriginOf(t, cfg, Next(t, cfg, b, run[0]), OriginAfter(t, b.learn, o, windows, run[0]),
               WindowsAfter(b.learn, windows, run[0]), run[1..])
  }

  /** At `place` a frame is followed by a space of `gap` and by a frame it agrees with. */
  predicate MeasuredAt(t: Tuning, windows: seq<Frame>, place: Place, gap: u32) {
    place.window < |windows| &&
    var split := SplitOf(t, windows[place.window]);
    place.frame + 1 < |split.frames| && GoodPair(t, split.frames, place.frame) && gap == split.gaps[place.frame]
  }

  /** The frame before the gap backs the candidate. */
  predicate BackedAt(t: Tuning, candidate: Frame, windows: seq<Frame>, place: Place) {
    place.window < |windows| &&
    var frames := SplitOf(t, windows[place.window]).frames;
    place.frame < |frames| && Backs(t, candidate, frames[place.frame])
  }

  /**
   * Every measured gap is the space after a frame of a window heard since arming, and of those measured
   * since the candidate was last replaced that frame backs the candidate.
   */
  ghost predicate Owned(t: Tuning, l: Learning, windows: seq<Frame>, o: Origin) {
    && o.stale <= |o.places| == |l.gaps|
    && (forall k :: 0 <= k < |l.gaps| ==> MeasuredAt(t, windows, o.places[k], l.gaps[k]))
    && (forall k :: o.stale <= k < |o.places| ==> BackedAt(t, l.candidate, windows, o.places[k]))
  }

  lemma {:induction false} OwnedLater(t: Tuning, l: Learning, windows: seq<Frame>, window: Frame, o: Origin)
    requires Owned(t, l, windows, o)
    ensures Owned(t, l, windows + [window], o)
  {
    hide SplitOf, GoodPair, Backs;
    forall k | 0 <= k < |l.gaps|
      ensures MeasuredAt(t, windows + [window], o.places[k], l.gaps[k])
      ensures k >= o.stale ==> BackedAt(t, l.candidate, windows + [window], o.places[k])
    {
      assert MeasuredAt(t, windows, o.places[k], l.gaps[k]);
    }
  }

  lemma {:induction false} PairOwns(t: Tuning, l: Learning, windows: seq<Frame>, o: Origin, w: nat, i: nat)
    requires w < |windows| && i + 1 < |SplitOf(t, windows[w]).frames| && Owned(t, l, windows, o)
    ensures var split := SplitOf(t, windows[w]);
            Owned(t, AfterPair(t, l, split, i), windows, OriginAfterPair(t, l, o, split.frames, w, i))
  {
    hide SplitOf, Agree, WellShaped, MeasuredAt, BackedAt;
    var split := SplitOf(t, windows[w]);
    if GoodPair(t, split.frames, i) {
      PairIsPlaced(t, l, windows, w, i);
    }
  }

  lemma {:induction false} PairIsPlaced(t: Tuning, l: Learning, windows: seq<Frame>, w: nat, i: nat)
    requires w < |windows| && i + 1 < |SplitOf(t, windows[w]).frames| && GoodPair(t, SplitOf(t, windows[w]).frames, i)
    ensures var split := SplitOf(t, windows[w]);
            && MeasuredAt(t, windows, Place(w, i), split.gaps[i])
            && BackedAt(t, split.frames[i], windows, Place(w, i))
            && (Consistent(t, l.candidate, split.frames[i]) ==> BackedAt(t, l.candidate, windows, Place(w, i)))
  {
    hide SplitOf, Agree, WellShaped;
  }

  lemma {:induction false} PairsOwn(t: Tuning, l: Learning, windows: seq<Frame>, o: Origin, w: nat, n: nat)
    requires w < |windows| && n < |SplitOf(t, windows[w]).frames| && Owned(t, l, windows, o)
    ensures var split := SplitOf(t, windows[w]);
            Owned(t, AfterPairs(t, l, split, n), windows, OriginAfterPairs(t, l, o, split, w, n))
  {
    hide SplitOf, Owned, AfterPair, OriginAfterPair;
    if n != 0 {
      PairsOwn(t, l, windows, o, w, n - 1);
      var split := SplitOf(t, windows[w]);
      PairOwns(t, AfterPairs(t, l, split, n - 1), windows, OriginAfterPairs(t, l, o, split, w, n - 1), w, n - 1);
    }
  }

  lemma {:induction false} LoneOwns(t: Tuning, l: Learning, windows: seq<Frame>, o: Origin, frame: Frame, nowUs: u32,
                                    nowMs: u32)
    requires Owned(t, l, windows, o)
    ensures Owned(t, HeardOne(t, l, frame, nowUs, nowMs).learn, windows, OriginAfterLone(t, l, o, frame))
  {
    hide MeasuredAt, BackedAt, Consistent, LongestWait, Elapsed;
  }

  lemma {:induction false} WindowOwns(t: Tuning, l: Learning, windows: seq<Frame>, o: Origin, raw: Frame, nowUs: u32,
                                      nowMs: u32)
    requires l.state.Armed? && Owned(t, l, windows, o)
    ensures Owned(t, Heard(t, l, raw, nowUs, nowMs).learn, windows + [Stripped(raw)],
                  OriginAfterWindow(t, l, o, Stripped(raw), |windows|))
  {
    hide SplitOf, AfterPairs, OriginAfterPairs, OriginAfterLone, GoodPair, WellShaped, Consistent, HeardOne, MeasuredAt,
         BackedAt;
    var window, all := Stripped(raw), windows + [Stripped(raw)];
    var split := SplitOf(t, window);
    OwnedLater(t, l, windows, window, o);
    assert all[|windows|] == window;
    if HasPair(t, split.frames) {
      PairsOwn(t, l, all, o, |windows|, |split.frames| - 1);
    } else {
      LoneOwns(t, l, all, o, window, nowUs, nowMs);
    }
  }

  lemma {:induction false} StepOwns(t: TunedConfig, cfg: Config, b: Bench, windows: seq<Frame>, o: Origin, h: Happening)
    requires b.learn.state.Armed? ==> Owned(t, b.learn, windows, o)
    ensures var l, ws := Next(t, cfg, b, h).learn, WindowsAfter(b.learn, windows, h);
            l.state.Armed? ==> Owned(t, l, ws, OriginAfter(t, b.learn, o, windows, h))
    ensures Commits(t, b.learn, h) ==>
              Owned(t, VerdictFor(t, b.learn, h).learn, WindowsAfter(b.learn, windows, h),
                    OriginAfter(t, b.learn, o, windows, h))
  {
    hide Heard, OriginAfterWindow, Perform, ResolvedGap, ValidateName, First, Occupancy, MeasuredAt, BackedAt;
    if h.Window? && b.learn.state.Armed? {
      WindowOwns(t, b.learn, windows, o, h.raw, h.nowUs, h.nowMs);
    } else if h.Window? {
      NotArmed(t, b.learn, h);
    }
  }

  lemma {:induction false} RunOwns(t: TunedConfig, cfg: Config, b: Bench, windows: seq<Frame>, o: Origin,
                                   run: seq<Happening>)
    requires b.learn.state.Armed? ==> Owned(t, b.learn, windows, o)
    ensures var l, ws := After(t, cfg, b, run).learn, WindowsOf(t, cfg, b, windows, run);
            l.state.Armed? ==> Owned(t, l, ws, OriginOf(t, cfg, b, o, windows, run))
    decreases |run|
  {
    hide Owned, Next, OriginAfter, WindowsAfter;
    if run != [] {
      StepOwns(t, cfg, b, windows, o, run[0]);
      RunOwns(t, cfg, Next(t, cfg, b, run[0]), WindowsAfter(b.learn, windows, run[0]),
              OriginAfter(t, b.learn, o, windows, run[0]), run[1..]);
    }
  }

  /**
   * Whatever a run stores, each gap its median is taken from is the space between two agreeing neighbours
   * in some window heard since arming, and the first of them backs the stored waveform, but for the gaps
   * measured before a lone frame last replaced the candidate.
   */
  lemma {:induction false} MeasuredOnTheWaveform(t: TunedConfig, cfg: Config, m: Runs.Machine, run: seq<Happening>,
                                                 h: Happening)
    requires Commits(t, After(t, cfg, Bench(AT_BOOT, m), run).learn, h)
    ensures var boot := Bench(AT_BOOT, m);
            var b := After(t, cfg, boot, run);
            var stored, before := VerdictFor(t, b.learn, h).learn, WindowsOf(t, cfg, boot, [], run);
            var windows := WindowsAfter(b.learn, before, h);
            var o := OriginAfter(t, b.learn, OriginOf(t, cfg, boot, Origin([], 0), [], run), before, h);
            && o.stale <= |o.places| == |stored.gaps|
            && (forall k :: 0 <= k < |stored.gaps| ==> MeasuredAt(t, windows, o.places[k], stored.gaps[k]))
            && (forall k :: o.stale <= k < |stored.gaps| ==> BackedAt(t, stored.candidate, windows, o.places[k]))
  {
    hide After, OriginOf, WindowsOf, OriginAfter, WindowsAfter, VerdictFor, Next, MeasuredAt, BackedAt;
    var boot := Bench(AT_BOOT, m);
    RunOwns(t, cfg, boot, [], Origin([], 0), run);
    StepOwns(t, cfg, After(t, cfg, boot, run), WindowsOf(t, cfg, boot, [], run),
             OriginOf(t, cfg, boot, Origin([], 0), [], run), h);
    CommitsArmed(t, After(t, cfg, boot, run).learn, h);
  }

  lemma {:induction false} CommitsArmed(t: Tuning, l: Learning, h: Happening)
    requires Commits(t, l, h)
    ensures l.state.Armed?
  {
    hide Heard, Ticked;
    if !l.state.Armed? {
      NotArmed(t, l, h);
    }
  }

  // ---- A gap measured on another waveform ---------------------------------------------------

  /** The schema's default configuration. */
  const DEFAULTS: TunedConfig :=
    Tuning(CaptureLimits(8, 128, 100, 100_000, 25), 3, 3_000, 800, 15_000, 20, 10_000, 1_000, 200_000, 433_920_000)

  /** Five marks and the four spaces between them, all of one length. */
  function Pulses(us: i32): Frame
    requires 100 <= us < 3_000
  {
    seq(9, i => if i % 2 == 0 then us else -us)
  }

  lemma {:induction false} PulsesAreAFrame(us: i32)
    requires 100 <= us < 3_000
    ensures WellShaped(Pulses(us), DEFAULTS.limits) && IsFrame(Pulses(us), DEFAULTS.frameGapMin)
    ensures Agree(Pulses(us), Pulses(us), 25)
    ensures Duration(Pulses(us)) == 9 * us
  {
    forall i | 0 <= i < 9
      ensures PulseAgrees(Pulses(us)[i], Pulses(us)[i], 25)
    {
      BoundsBracket(us, 25);
    }
    EvenAirTime(Pulses(us), us, 9);
  }

  lemma {:induction false} EvenAirTime(frame: Frame, us: i32, n: nat)
    requires n <= |frame| && forall i :: 0 <= i < |frame| ==> Magnitude(frame[i]) == us
    ensures AirTime(frame, n) == n * us
  {
    if n != 0 {
      EvenAirTime(frame, us, n - 1);
    }
  }

  lemma {:induction false} PulsesAlone(us: i32)
    requires 100 <= us < 3_000
    ensures SplitOf(DEFAULTS, Pulses(us)).frames == [Pulses(us)]
  {
    PulsesAreAFrame(us);
    var frames, runs := [Pulses(us)], [[], []];
    assert Laid(frames, runs) == Pulses(us) by {
      assert |frames[1..]| == 0 && runs[1..] == [[]];
      assert [] + Pulses(us) + [] == Pulses(us);
    }
    SplitUndoesLaying(frames, runs, DEFAULTS.frameGapMin);
  }

  lemma {:induction false} PulsesTwice(us: i32, gap: i32)
    requires 100 <= us < 3_000 <= gap
    ensures SplitOf(DEFAULTS, Pulses(us) + [-gap] + Pulses(us)) == SplitFrames([Pulses(us), Pulses(us)], [gap])
  {
    PulsesAreAFrame(us);
    var f := Pulses(us);
    var frames: seq<Frame>, runs: seq<Frame> := [f, f], [[], [-gap], []];
    var last: seq<Frame>, after: seq<Frame> := frames[1..], runs[1..];
    assert Laid(frames, runs) == f + [-gap] + f by {
      assert last == [f] && after == [[-gap], []] && |last[1..]| == 0 && after[1..] == [[]];
      assert Laid([f], [[-gap], []]) == [-gap] + f + Laid([], [[]]);
      assert [] + f + ([-gap] + f + []) == f + [-gap] + f;
    }
    SplitUndoesLaying(frames, runs, DEFAULTS.frameGapMin);
    assert FirstSpaces(frames, runs, DEFAULTS.frameGapMin) == [gap];
  }

  /** A window the receiver closed after ten milliseconds of silence. */
  function Received(window: Frame): Frame {
    window + [-10_000]
  }

  lemma {:induction false} ReceivedStripped(window: Frame)
    ensures Stripped(Received(window)) == window
  {
  }

  /** Two short frames in one window, with the space between them measured. */
  function PairAt(atMs: u32): (h: Happening)
    requires atMs < 1_000
    ensures h.Window?
  {
    Window(Received(Pulses(500) + [-5_000] + Pulses(500)), 1_000 * atMs, atMs, 3)
  }

  /** One longer frame in a window of its own. */
  function AloneAt(atMs: u32): (h: Happening)
    requires atMs < 1_000
    ensures h.Window?
  {
    Window(Received(Pulses(1_000)), 1_000 * atMs, atMs, 3)
  }

  lemma {:induction false} HearsPair(l: Learning, atMs: u32)
    requires l.state.Armed? && l.candidate == [] && l.gaps == [] && l.agreements == 0 && !l.ready && atMs < 1_000
    ensures VerdictFor(DEFAULTS, l, PairAt(atMs)) ==
            Verdict(l.(candidate := Pulses(500), agreements := 2, gaps := [5_000], sawFrame := true), false)
  {
    hide Split, Agree, WellShaped, Pulses, Duration;
    var window := Pulses(500) + [-5_000] + Pulses(500);
    ReceivedStripped(window);
    PulsesAreAFrame(500);
    PulsesTwice(500, 5_000);
    var split := SplitOf(DEFAULTS, window);
    assert GoodPair(DEFAULTS, split.frames, 0);
    var after := AfterPair(DEFAULTS, AfterPairs(DEFAULTS, l, split, 0), split, 0);
    assert AfterPairs(DEFAULTS, l, split, 1) == after;
    assert !Consistent(DEFAULTS, l.candidate, Pulses(500));
  }

  lemma {:induction false} HearsAlone(l: Learning, atMs: u32)
    requires l.state.Armed? && atMs < 1_000
    ensures VerdictFor(DEFAULTS, l, AloneAt(atMs)) == HeardOne(DEFAULTS, l, Pulses(1_000), 1_000 * atMs, atMs)
  {
    hide Split, Agree, WellShaped, Pulses, HeardOne;
    ReceivedStripped(Pulses(1_000));
    PulsesAlone(1_000);
    assert !HasPair(DEFAULTS, [Pulses(1_000)]);
  }

  lemma {:induction false} LongIsNotShort()
    ensures !Agree(Pulses(500), Pulses(1_000), 25) && !Agree(Pulses(1_000), Pulses(500), 25)
  {
    assert !PulseAgrees(Pulses(500)[0], Pulses(1_000)[0], 25);
    assert !PulseAgrees(Pulses(1_000)[0], Pulses(500)[0], 25);
  }

  /**
   * The stored gap need not be one measured on the stored waveform. Under the default configuration, hear
   * a short frame twice in one window and then, twenty milliseconds apart, a longer one three times alone.
   * The longer one is stored with the gap measured between the short ones, though neither agrees with the
   * other, and though its own nine milliseconds leave a gap of eleven.
   */
  lemma {:induction false} GapOfAnotherWaveform(cfg: Config, m: Runs.Machine, name: Name)
    ensures var armed := Bench(FreshlyArmed(DEFAULTS, AT_BOOT, name, 0, 0), m);
            var l := After(DEFAULTS, cfg, armed, [PairAt(30), AloneAt(60), AloneAt(80), AloneAt(100)]).learn;
            var stored := CaptureOf(DEFAULTS, VerdictFor(DEFAULTS, l, Tick(900, 3)).learn);
            && Commits(DEFAULTS, l, Tick(900, 3))
            && stored.timings == Pulses(1_000) && Duration(stored.timings) == 9_000
            && stored.gapUs == 5_000
            && !Agree(Pulses(500), Pulses(1_000), 25) && !Agree(Pulses(1_000), Pulses(500), 25)
  {
    hide Agree, WellShaped, VerdictFor, Duration, Pulses, Perform, After, PairAt, AloneAt;
    var l0 := FreshlyArmed(DEFAULTS, AT_BOOT, name, 0, 0);
    LongIsNotShort();
    PulsesAreAFrame(1_000);
    HearsPair(l0, 30);
    var l1 := l0.(candidate := Pulses(500), agreements := 2, gaps := [5_000], sawFrame := true);
    HearsAlone(l1, 60);
    var l2 := Restarted(l1, Pulses(1_000), 60_000);
    HearsAlone(l2, 80);
    var l3 := l2.(agreements := 2, intervals := 1, lastUs := 80_000);
    HearsAlone(l3, 100);
    var l4 := l3.(agreements := 3, intervals := 2, lastUs := 100_000, ready := true, readySinceMs := 100);
    var run := [PairAt(30), AloneAt(60), AloneAt(80), AloneAt(100)];
    StepsThrough(cfg, m, [l0, l1, l2, l3, l4], run, 0);
    assert run[0..] == run;
    Settles(l4);
  }

  lemma {:induction false} Settles(l: Learning)
    requires l.state.Armed? && l.ready && l.readySinceMs == 100 && l.gaps == [5_000]
    ensures VerdictFor(DEFAULTS, l, Tick(900, 3)) == Verdict(l, true)
    ensures ResolvedGap(DEFAULTS, l) == 5_000
  {
    assert Median([5_000]) == 5_000;
  }

  lemma {:induction false} StepsThrough(cfg: Config, m: Runs.Machine, l: seq<Learning>, run: seq<Happening>, k: nat)
    requires |l| == |run| + 1 && k <= |run|
    requires forall i :: 0 <= i < |run| ==>
               run[i].Window? && VerdictFor(DEFAULTS, l[i], run[i]) == Verdict(l[i + 1], false)
    ensures After(DEFAULTS, cfg, Bench(l[k], m), run[k..]) == Bench(l[|run|], m)
    decreases |run| - k
  {
    hide VerdictFor;
    if k < |run| {
      StepsThrough(cfg, m, l, run, k + 1);
      assert run[k..][1..] == run[k + 1..] && run[k..][0] == run[k];
    }
  }
}
