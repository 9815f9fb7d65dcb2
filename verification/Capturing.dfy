/**
 * What makes a learn succeed: the windows that lead to a commit, when they do, and what is stored then.
 */
module Capturing {
  import opened Bytes
  import opened RegistryModel
  import opened Flash
  import opened Capture
  import opened Learner
  import opened NoiseGate
  import Refinement
  import Runs

  // ---- One window of several frames ---------------------------------------------------------

  function Copies(f: Frame, n: nat): (frames: seq<Frame>)
    ensures |frames| == n && forall i :: 0 <= i < n ==> frames[i] == f
  {
    seq(n, _ => f)
  }

  /** A well-shaped frame that agrees with itself. */
  predicate Clear(t: Tuning, f: Frame) {
    WellShaped(f, t.limits) && f != [] && Agree(f, f, t.limits.tolerance)
  }

  /** The learner is armed, and `f` is none of what it has heard so far. */
  predicate NewTo(t: Tuning, l: Learning, f: Frame) {
    l.state.Armed? && (l.candidate == [] || !Agree(l.candidate, f, t.limits.tolerance))
  }

  /** The window, without the receiver's terminating entry, is `n` copies of `f` held apart by long spaces. */
  predicate Repeats(t: Tuning, raw: Frame, f: Frame, n: nat, runs: seq<Frame>) {
    Reading(Copies(f, n), runs, t.frameGapMin) && Stripped(raw) == Laid(Copies(f, n), runs)
  }

  lemma {:induction false} CopiesAgree(t: Tuning, l: Learning, split: SplitFrames, f: Frame, n: nat, k: nat)
    requires Clear(t, f) && NewTo(t, l, f) && split.frames == Copies(f, n) && |split.gaps| == n - 1
    requires 1 <= k < n
    ensures AfterPairs(t, l, split, k) ==
            l.(candidate := f, agreements := k + 1, gaps := split.gaps[..k], ready := false, sawFrame := true)
    decreases k
  {
    hide Agree, WellShaped;
    if k == 1 {
      assert AfterPairs(t, l, split, 0) == l;
      assert split.gaps[..1] == [] + [split.gaps[0]];
    } else {
      CopiesAgree(t, l, split, f, n, k - 1);
      assert split.gaps[..k] == split.gaps[..k - 1] + [split.gaps[k - 1]];
    }
  }

  /**
   * What a window of `n` copies of a frame leads to: n agreements and the n - 1 spaces between them, ready
   * exactly from min_repeats copies on, and committed at once exactly when there are two spaces as well.
   */
  lemma {:induction false} WindowOfCopies(t: Tuning, l: Learning, raw: Frame, f: Frame, n: nat, runs: seq<Frame>,
                                          nowUs: u32, nowMs: u32)
    requires Clear(t, f) && NewTo(t, l, f) && n >= 2 && Repeats(t, raw, f, n, runs)
    ensures var ready := n >= t.minRepeats;
            Heard(t, l, raw, nowUs, nowMs) ==
            Verdict(l.(candidate := f, agreements := n, gaps := FirstSpaces(Copies(f, n), runs, t.frameGapMin),
                       sawFrame := true, ready := ready, readySinceMs := if ready then nowMs else l.readySinceMs),
                    ready && n >= 3)
  {
    hide Agree, WellShaped, Split, Laid, Reading, FirstSpaces;
    SplitUndoesLaying(Copies(f, n), runs, t.frameGapMin);
    var split := SplitOf(t, Stripped(raw));
    CopiesAgree(t, l, split, f, n, n - 1);
    assert split.gaps[..n - 1] == split.gaps;
    assert GoodPair(t, split.frames, 0);
  }

  /** The capture of `f` under `name`, at this gap. */
  function Captures(t: TunedConfig, name: Name, f: Frame, gapUs: u32): Command {
    Command(NO_ID, name, f, gapUs, t.repeatTimes, t.frequencyHz, 0)
  }

  /** One put of the capture, and what the learner reports of it. */
  predicate StoredOnce(t: TunedConfig, cfg: Config, b: Bench, b': Bench, f: Frame, gapUs: u32, landed: nat) {
    var put := Put(Captures(t, b.learn.pending, f, gapUs));
    var result := Perform(cfg, b.machine.ram, b.machine.records, put, landed).result;
    && b'.machine == Runs.Step(cfg, b.machine, Runs.Do(put, landed))
    && (result == Ok ==> b'.learn.state == Captured && b'.learn.report == Stored(b.learn.pending))
    && (result != Ok ==> b'.learn.state == Idle && b'.learn.report == NotStored(result))
  }

  lemma {:induction false} ConcludedStores(t: TunedConfig, cfg: Config, b: Bench, l: Learning, landed: nat)
    requires l.pending == b.learn.pending
    ensures StoredOnce(t, cfg, b, Concluded(t, cfg, b.machine, Verdict(l, true), landed), l.candidate,
                       ResolvedGap(t, l), landed)
  {
    hide Perform, ResolvedGap;
  }

  /** The gap of `f` by the arrivals this learner has counted, from whichever learn they are, or the default. */
  function Fallback(t: TunedConfig, l: Learning, f: Frame): u32 {
    var estimate := EstimateGap(Elapsed(l.firstUs, l.lastUs), l.intervals, Duration(f), t.minGap, t.maxGap, 3);
    if estimate != 0 then estimate else t.defaultGap
  }

  /** The gap stored with these spaces between the copies: their median, unless it is implausible. */
  function GapFrom(t: TunedConfig, l: Learning, f: Frame, spaces: seq<u32>): u32
    requires spaces != []
  {
    if t.minGap <= Median(spaces) <= t.maxGap then Median(spaces) else Fallback(t, l, f)
  }

  lemma {:induction false} MeasuredGapIsUsed(t: TunedConfig, l: Learning)
    requires l.gaps != []
    ensures ResolvedGap(t, l) == GapFrom(t, l, l.candidate, l.gaps)
  {
  }

  /**
   * A single window is enough: three copies of a frame in it, or min_repeats if that is more, and the frame
   * is stored at once, with the median of the spaces between them when that is a plausible gap. Whatever was
   * heard before does not matter, as long as the frame does not agree with it, but for the span of an
   * implausible gap's estimate, which is the one the learner came with.
   */
  lemma {:induction false} OneWindowIsEnough(t: TunedConfig, cfg: Config, b: Bench, raw: Frame, f: Frame, n: nat,
                                             runs: seq<Frame>, nowUs: u32, nowMs: u32, landed: nat)
    requires Clear(t, f) && NewTo(t, b.learn, f) && Repeats(t, raw, f, n, runs)
    requires n >= 3 && n >= t.minRepeats
    ensures var spaces := FirstSpaces(Copies(f, n), runs, t.frameGapMin);
            StoredOnce(t, cfg, b, Next(t, cfg, b, Window(raw, nowUs, nowMs, landed)), f,
                       GapFrom(t, b.learn, f, spaces), landed)
  {
    hide WellShaped, Agree, Heard, Repeats, ResolvedGap, StoredOnce, Reading, FirstSpaces, Median, EstimateGap;
    WindowOfCopies(t, b.learn, raw, f, n, runs, nowUs, nowMs);
    var l := Heard(t, b.learn, raw, nowUs, nowMs).learn;
    ConcludedStores(t, cfg, b, l, landed);
    FirstSpacesCount(t, raw, f, n, runs);
    MeasuredGapIsUsed(t, l);
  }

  lemma {:induction false} FirstSpacesCount(t: Tuning, raw: Frame, f: Frame, n: nat, runs: seq<Frame>)
    requires Repeats(t, raw, f, n, runs) && n >= 1
    ensures Reading(Copies(f, n), runs, t.frameGapMin)
    ensures |FirstSpaces(Copies(f, n), runs, t.frameGapMin)| == n - 1
  {
  }

  // ---- One frame in each window -------------------------------------------------------------

  function FrameOf(h: Happening): Frame
    requires h.Window?
  {
    Stripped(h.raw)
  }

  /** A button held: windows of one well-shaped frame each, all agreeing with the first. */
  predicate Holding(t: Tuning, run: seq<Happening>) {
    && run != [] && (forall i :: 0 <= i < |run| ==> run[i].Window?)
    && (forall i :: 0 <= i < |run| ==>
          WellShaped(FrameOf(run[i]), t.limits) && IsFrame(FrameOf(run[i]), t.frameGapMin))
    && (forall i :: 0 < i < |run| ==> Agree(FrameOf(run[0]), FrameOf(run[i]), t.limits.tolerance))
  }

  /** No wait between two of them is longer than a frame and the greatest gap. */
  predicate Held(t: Tuning, run: seq<Happening>)
    requires Holding(t, run)
  {
    forall i :: 0 < i < |run| ==>
      Elapsed(run[i - 1].nowUs, run[i].nowUs) <= Clock(Duration(FrameOf(run[i])) + t.maxGap)
  }

  lemma {:induction false} AloneInItsWindow(t: Tuning, frame: Frame)
    requires IsFrame(frame, t.frameGapMin)
    ensures !HasPair(t, SplitOf(t, frame).frames)
  {
    hide GoodPair, IsFrame, LongSpace;
    var frames, runs := [frame], [[], []];
    assert Laid(frames, runs) == frame by {
      assert |frames[1..]| == 0 && runs[1..] == [[]];
      assert [] + frame + [] == frame;
    }
    SplitUndoesLaying(frames, runs, t.frameGapMin);
  }

  lemma {:induction false} AfterSnoc(t: TunedConfig, cfg: Config, b: Bench, run: seq<Happening>, h: Happening)
    ensures After(t, cfg, b, run + [h]) == Next(t, cfg, After(t, cfg, b, run), h)
    decreases |run|
  {
    hide Next;
    if run == [] {
      assert run + [h] == [h] && [h][1..] == [];
      assert After(t, cfg, Next(t, cfg, b, h), []) == Next(t, cfg, b, h);
    } else {
      assert (run + [h])[1..] == run[1..] + [h];
      AfterSnoc(t, cfg, Next(t, cfg, b, run[0]), run[1..], h);
    }
  }

  /** Agreements and intervals after the first `k` windows, and since when the learn is ready. */
  function Counted(t: Tuning, l: Learning, run: seq<Happening>, k: nat): Learning
    requires 1 <= k <= |run| && (forall i :: 0 <= i < |run| ==> run[i].Window?) && t.minRepeats >= 1
  {
    var ready := k >= t.minRepeats;
    l.(candidate := FrameOf(run[0]), agreements := k, firstUs := run[0].nowUs, lastUs := run[k - 1].nowUs,
       intervals := k - 1, sawFrame := true, ready := ready,
       readySinceMs := if ready then run[t.minRepeats - 1].nowMs else l.readySinceMs)
  }

  /** The last window a held button can need: 24 intervals, and min_repeats agreements. */
  function Enough(t: Tuning): nat {
    if t.minRepeats > 25 then t.minRepeats else 25
  }

  lemma {:induction false} ShapedIsAccepted(frame: Frame, limits: CaptureLimits)
    requires WellShaped(frame, limits)
    ensures VerdictOf(frame, limits) == Accepted
  {
  }

  /** What a window does to the bench, by what it makes of the learner. */
  lemma {:induction false} WindowConcludes(t: TunedConfig, cfg: Config, b: Bench, h: Happening)
    requires h.Window?
    ensures var v, b' := Heard(t, b.learn, h.raw, h.nowUs, h.nowMs), Next(t, cfg, b, h);
            && (!v.commit ==> b' == Bench(v.learn, b.machine))
            && (v.commit && v.learn.pending == b.learn.pending ==>
                  StoredOnce(t, cfg, b, b', v.learn.candidate, ResolvedGap(t, v.learn), h.landed))
  {
    hide Heard, StoredOnce, Perform, ResolvedGap;
    var v := Heard(t, b.learn, h.raw, h.nowUs, h.nowMs);
    if v.commit && v.learn.pending == b.learn.pending {
      ConcludedStores(t, cfg, b, v.learn, h.landed);
    }
  }

  lemma {:induction false} FirstPress(t: Tuning, l: Learning, run: seq<Happening>)
    requires t.minRepeats >= 2 && Holding(t, run) && NewTo(t, l, FrameOf(run[0]))
    ensures Heard(t, l, run[0].raw, run[0].nowUs, run[0].nowMs) == Verdict(Counted(t, l, run, 1), false)
  {
    hide Agree, WellShaped, VerdictOf, SplitOf, HasPair, LongestWait, IsFrame;
    AloneInItsWindow(t, FrameOf(run[0]));
    ShapedIsAccepted(FrameOf(run[0]), t.limits);
  }

  lemma {:induction false} NextPress(t: Tuning, l: Learning, run: seq<Happening>, k: nat)
    requires t.minRepeats >= 2 && Holding(t, run) && Held(t, run) && l.state.Armed? && 1 <= k < |run|
    requires k < Enough(t)
    ensures Heard(t, Counted(t, l, run, k), run[k].raw, run[k].nowUs, run[k].nowMs) ==
            Verdict(Counted(t, l, run, k + 1), k + 1 >= Enough(t))
  {
    hide WellShaped, VerdictOf, SplitOf, HasPair, IsFrame, Duration, Elapsed, Clock, Agree;
    AloneInItsWindow(t, FrameOf(run[k]));
    ShapedIsAccepted(FrameOf(run[k]), t.limits);
    NotEmpty(t, run);
  }

  lemma {:induction false} NotEmpty(t: Tuning, run: seq<Happening>)
    requires Holding(t, run)
    ensures FrameOf(run[0]) != []
  {
    assert IsFrame(FrameOf(run[0]), t.frameGapMin);
  }

  lemma {:induction false} Pressed(t: TunedConfig, cfg: Config, b: Bench, run: seq<Happening>, k: nat)
    requires Holding(t, run) && Held(t, run) && NewTo(t, b.learn, FrameOf(run[0]))
    requires 1 <= k <= |run| && k < Enough(t)
    ensures After(t, cfg, b, run[..k]) == Bench(Counted(t, b.learn, run, k), b.machine)
    decreases k
  {
    hide Holding, Held, Heard, Counted, Agree, Next;
    CountedIs(t, b.learn, run);
    if k == 1 {
      FirstPress(t, b.learn, run);
      assert run[..1] == [] + [run[0]];
      AfterSnoc(t, cfg, b, [], run[0]);
      WindowConcludes(t, cfg, b, run[0]);
      assert After(t, cfg, b, []) == b;
    } else {
      Pressed(t, cfg, b, run, k - 1);
      assert run[..k] == run[..k - 1] + [run[k - 1]];
      AfterSnoc(t, cfg, b, run[..k - 1], run[k - 1]);
      NextPress(t, b.learn, run, k - 1);
      WindowConcludes(t, cfg, Bench(Counted(t, b.learn, run, k - 1), b.machine), run[k - 1]);
    }
  }

  /**
   * A button held: while fewer windows than `Enough` have been heard nothing is stored, and the learn is ready
   * exactly from the min_repeats-th on; the window that makes it enough stores the first frame.
   */
  lemma {:induction false} HoldingTheButton(t: TunedConfig, cfg: Config, b: Bench, run: seq<Happening>)
      returns (gapUs: u32)
    requires Holding(t, run) && Held(t, run) && NewTo(t, b.learn, FrameOf(run[0])) && |run| <= Enough(t)
    ensures var b', n := After(t, cfg, b, run), |run|;
            if n < Enough(t) then
              b' == Bench(Counted(t, b.learn, run, n), b.machine)
            else
              StoredOnce(t, cfg, b, b', FrameOf(run[0]), gapUs, run[n - 1].landed) && t.minGap <= gapUs <= t.maxGap
  {
    hide Holding, Held, Heard, Counted, Agree, Next, StoredOnce, ResolvedGap, After;
    var n := |run|;
    gapUs := 0;
    CountedIs(t, b.learn, run);
    if n < Enough(t) {
      Pressed(t, cfg, b, run, n);
      assert run[..n] == run;
    } else {
      Pressed(t, cfg, b, run, n - 1);
      assert run == run[..n - 1] + [run[n - 1]];
      AfterSnoc(t, cfg, b, run[..n - 1], run[n - 1]);
      NextPress(t, b.learn, run, n - 1);
      var before, l := Bench(Counted(t, b.learn, run, n - 1), b.machine), Counted(t, b.learn, run, n);
      WindowConcludes(t, cfg, before, run[n - 1]);
      gapUs := ResolvedGap(t, l);
      StoredAlike(t, cfg, b, before, After(t, cfg, b, run), FrameOf(run[0]), gapUs, run[n - 1].landed);
    }
  }

  lemma {:induction false} CountedIs(t: Tuning, l: Learning, run: seq<Happening>)
    requires Holding(t, run) && t.minRepeats >= 1
    ensures run != [] && forall i :: 0 <= i < |run| ==> run[i].Window?
    ensures forall k: nat :: 1 <= k <= |run| ==>
              Counted(t, l, run, k) == Counted(t, l, run, k).(pending := l.pending, state := l.state,
                                                              candidate := FrameOf(run[0]))
  {
  }

  lemma {:induction false} StoredAlike(t: TunedConfig, cfg: Config, a: Bench, b: Bench, b': Bench, f: Frame, gapUs: u32,
                                       landed: nat)
    requires StoredOnce(t, cfg, b, b', f, gapUs, landed) && a.machine == b.machine && a.learn.pending == b.learn.pending
    ensures StoredOnce(t, cfg, a, b', f, gapUs, landed)
  {
    hide Perform;
  }

  // ---- The settle time ----------------------------------------------------------------------

  lemma {:induction false} TickConcludes(t: TunedConfig, cfg: Config, b: Bench, now: u32, saves: nat)
    requires b.learn.state.Armed? && b.learn.ready
    ensures var b' := Next(t, cfg, b, Tick(now, saves));
            if Elapsed(b.learn.readySinceMs, now) >= t.settleMs then
              StoredOnce(t, cfg, b, b', b.learn.candidate, ResolvedGap(t, b.learn), saves)
            else b' == b
  {
    hide Perform, ResolvedGap, Elapsed, StoredOnce;
    if Elapsed(b.learn.readySinceMs, now) >= t.settleMs {
      ConcludedStores(t, cfg, b, b.learn, saves);
    }
  }

  /**
   * A button let go: with min_repeats windows or more, but not enough for a commit, the first frame is stored
   * by the first tick that comes the settle time or more after the min_repeats-th window, whatever the
   * deadline, and a tick before that changes nothing.
   */
  lemma {:induction false} LettingGo(t: TunedConfig, cfg: Config, b: Bench, run: seq<Happening>, now: u32, saves: nat)
      returns (gapUs: u32)
    requires Holding(t, run) && Held(t, run) && NewTo(t, b.learn, FrameOf(run[0]))
    requires t.minRepeats <= |run| < Enough(t)
    ensures var b', b'' := After(t, cfg, b, run), After(t, cfg, b, run + [Tick(now, saves)]);
            if Elapsed(run[t.minRepeats - 1].nowMs, now) >= t.settleMs then
              StoredOnce(t, cfg, b, b'', FrameOf(run[0]), gapUs, saves) && t.minGap <= gapUs <= t.maxGap
            else b'' == b' && b''.machine == b.machine
  {
    hide Holding, Held, Agree, Next, StoredOnce, ResolvedGap, After, Elapsed;
    CountedIs(t, b.learn, run);
    var before := Bench(Counted(t, b.learn, run, |run|), b.machine);
    var _ := HoldingTheButton(t, cfg, b, run);
    AfterSnoc(t, cfg, b, run, Tick(now, saves));
    TickConcludes(t, cfg, before, now, saves);
    gapUs := ResolvedGap(t, before.learn);
    if Elapsed(run[t.minRepeats - 1].nowMs, now) >= t.settleMs {
      StoredAlike(t, cfg, b, before, Next(t, cfg, before, Tick(now, saves)), FrameOf(run[0]), gapUs, saves);
    }
  }

  /**
   * Two copies in one window, where two are enough: nothing is stored until the settle time has passed since
   * that window, and the next tick then stores the frame, with the space between them if it is plausible.
   */
  lemma {:induction false} TwoCopiesSettle(t: TunedConfig, cfg: Config, b: Bench, raw: Frame, f: Frame,
                                           runs: seq<Frame>, nowUs: u32, nowMs: u32, landed: nat, now: u32,
                                           saves: nat)
      returns (gapUs: u32)
    requires t.minRepeats == 2 && Clear(t, f) && NewTo(t, b.learn, f) && Repeats(t, raw, f, 2, runs)
    ensures var b' := Next(t, cfg, b, Window(raw, nowUs, nowMs, landed));
            var b'' := Next(t, cfg, b', Tick(now, saves));
            && b'.machine == b.machine && b'.learn.state.Armed?
            && (if Elapsed(nowMs, now) >= t.settleMs then StoredOnce(t, cfg, b, b'', f, gapUs, saves) else b'' == b')
    ensures var space := Magnitude(runs[1][0]);
            t.minGap <= space <= t.maxGap ==> gapUs == space
  {
    hide WellShaped, Agree, Heard, ResolvedGap, StoredOnce, Next, Elapsed;
    WindowOfCopies(t, b.learn, raw, f, 2, runs, nowUs, nowMs);
    var window := Window(raw, nowUs, nowMs, landed);
    WindowConcludes(t, cfg, b, window);
    var b' := Next(t, cfg, b, window);
    TickConcludes(t, cfg, b', now, saves);
    gapUs := ResolvedGap(t, b'.learn);
    if Elapsed(nowMs, now) >= t.settleMs {
      StoredAlike(t, cfg, b, b', Next(t, cfg, b', Tick(now, saves)), f, gapUs, saves);
    }
    assert b'.learn.gaps == [Magnitude(runs[1][0])];
    MedianOfOne(Magnitude(runs[1][0]));
    MeasuredGapIsUsed(t, b'.learn);
  }

  lemma {:induction false} MedianOfOne(gap: u32)
    ensures Median([gap]) == gap
  {
    assert Sorted([gap][1..]) == [];
  }

  // ---- Up to the store ----------------------------------------------------------------------

  /**
   * What was stored once can be found: the registry holds the frame under the name the learn was armed for,
   * or the store refused it for a reason of its own and holds what it held.
   */
  lemma {:induction false} StoredIsFound(t: TunedConfig, cfg: Config, b: Bench, b': Bench, f: Frame, gapUs: u32,
                                         landed: nat)
    requires StoredOnce(t, cfg, b, b', f, gapUs, landed)
    requires Sound(cfg, b.machine.ram.reg) && t.limits.maxPulses <= cfg.maxPulses
    requires ValidateName(b.learn.pending) == Ok && WellShaped(f, t.limits) && f != []
    ensures b'.learn.state == Captured || b'.learn.state == Idle
    ensures b'.learn.state == Captured ==>
              var slots := b'.machine.ram.reg.slots;
              var slot := First(slots, ByName(b.learn.pending));
              slot >= 0 && slots[slot] == Captures(t, b.learn.pending, f, gapUs).(id := slots[slot].id)
    ensures b'.learn.state == Idle ==> b'.machine.ram == b.machine.ram
  {
    hide ValidateName, PayloadBytes, Saved, SavesOf;
    var c := Captures(t, b.learn.pending, f, gapUs);
    var plan := PutPlan(cfg, b.machine.ram, c);
    if plan.Write? {
      PlacedByName(b.machine.ram.reg, plan.next.reg, c.name, plan.payload);
    }
  }

  /**
   * From the user's request to the registry: arm a learn under a valid name there is room for, let one window
   * of three copies in (or min_repeats), and what is stored under that name is the frame with the gap between
   * the copies, unless the store itself refuses. Whatever the learner held before is forgotten, but the span
   * of the learn before: an implausible gap is replaced by one that learn's arrivals give.
   */
  lemma {:induction false} ArmAndHear(t: TunedConfig, cfg: Config, b: Bench, name: Name, timeoutMs: u32, atMs: u32,
                                      raw: Frame, f: Frame, n: nat, runs: seq<Frame>, nowUs: u32, nowMs: u32,
                                      landed: nat)
    requires Sound(cfg, b.machine.ram.reg) && t.limits.maxPulses <= cfg.maxPulses && ValidateName(name) == Ok
    requires exists i :: 0 <= i < |b.machine.ram.reg.slots| &&
               (!b.machine.ram.reg.slots[i].Occupied() || b.machine.ram.reg.slots[i].name == name)
    requires Clear(t, f) && Repeats(t, raw, f, n, runs) && n >= 3 && n >= t.minRepeats
    ensures var b' := After(t, cfg, b, [Arm(name, timeoutMs, atMs), Window(raw, nowUs, nowMs, landed)]);
            var c := Captures(t, name, f, GapFrom(t, b.learn, f, FirstSpaces(Copies(f, n), runs, t.frameGapMin)));
            var slots := b'.machine.ram.reg.slots;
            var slot := First(slots, ByName(name));
            && b'.machine == Runs.Step(cfg, b.machine, Runs.Do(Put(c), landed))
            && (b'.learn.state == Captured ==> slot >= 0 && slots[slot] == c.(id := slots[slot].id))
            && (b'.learn.state != Captured ==> b'.machine.ram == b.machine.ram)
  {
    hide ValidateName, Sound, Clear, Repeats, Next, StoredOnce, First, FirstSpaces, Median, EstimateGap;
    var arm, window := Arm(name, timeoutMs, atMs), Window(raw, nowUs, nowMs, landed);
    ArmsFresh(t, cfg, b, name, timeoutMs, atMs);
    var armed := Next(t, cfg, b, arm);
    ClearIs(t, f);
    FirstSpacesCount(t, raw, f, n, runs);
    OneWindowIsEnough(t, cfg, armed, raw, f, n, runs, nowUs, nowMs, landed);
    var gapUs := GapFrom(t, armed.learn, f, FirstSpaces(Copies(f, n), runs, t.frameGapMin));
    var b' := Next(t, cfg, armed, window);
    StoredIsFound(t, cfg, armed, b', f, gapUs, landed);
    StoredIs(t, cfg, armed, b', f, gapUs, landed);
    assert [arm, window][1..] == [window] && [window][1..] == [];
    assert After(t, cfg, armed, [window]) == After(t, cfg, b', []) == b';
  }

  lemma {:induction false} ClearIs(t: Tuning, f: Frame)
    requires Clear(t, f)
    ensures WellShaped(f, t.limits) && f != []
  {
  }

  lemma {:induction false} StoredIs(t: TunedConfig, cfg: Config, b: Bench, b': Bench, f: Frame, gapUs: u32, landed: nat)
    requires StoredOnce(t, cfg, b, b', f, gapUs, landed)
    ensures b'.machine == Runs.Step(cfg, b.machine, Runs.Do(Put(Captures(t, b.learn.pending, f, gapUs)), landed))
  {
    hide Perform;
  }

  lemma {:induction false} ArmsFresh(t: TunedConfig, cfg: Config, b: Bench, name: Name, timeoutMs: u32, atMs: u32)
    requires Sound(cfg, b.machine.ram.reg) && ValidateName(name) == Ok
    requires exists i :: 0 <= i < |b.machine.ram.reg.slots| &&
               (!b.machine.ram.reg.slots[i].Occupied() || b.machine.ram.reg.slots[i].name == name)
    ensures var b' := Next(t, cfg, b, Arm(name, timeoutMs, atMs));
            && b'.machine == b.machine && b'.learn.state.Armed? && b'.learn.pending == name && b'.learn.report == Silent
            && b'.learn.candidate == [] && b'.learn.gaps == [] && b'.learn.agreements == 0 && !b'.learn.ready
            && b'.learn.firstUs == b.learn.firstUs && b'.learn.lastUs == b.learn.lastUs
            && b'.learn.intervals == b.learn.intervals
  {
    hide ValidateName;
    var slots := b.machine.ram.reg.slots;
    var i :| 0 <= i < |slots| && (!slots[i].Occupied() || slots[i].name == name);
    Refinement.RoomLeft(slots, |slots|);
    if slots[i].Occupied() {
      assert Matches(ByName(name), slots[i]);
    }
  }
}
