/**
 * Whole runs of the component: whatever the receiver hears, whenever the clock ticks, and however often
 * the user arms, cancels, loses power or changes the registry elsewhere, only a waveform that several
 * well-shaped frames agree on is ever stored, and at most one for each time the learn was armed.
 */
module NoiseGate {
  import opened Bytes
  import opened RegistryModel
  import opened Flash
  import opened Capture
  import opened Learner
  import Runs

  datatype Happening =
    | Arm(name: Name, timeoutMs: u32, atMs: u32)
    | Cancel
    | Window(raw: Frame, nowUs: u32, nowMs: u32, landed: nat)
    | Tick(now: u32, saves: nat)
    | Elsewhere(event: Runs.Event)

  /** What the event decides, when it is one that may commit. */
  function VerdictFor(t: Tuning, l: Learning, h: Happening): Verdict {
    match h
    case Window(raw, nowUs, nowMs, _) => Heard(t, l, raw, nowUs, nowMs)
    case Tick(now, _) => Ticked(t, l, now)
    case _ => Verdict(l, false)
  }

  predicate Commits(t: Tuning, l: Learning, h: Happening) {
    VerdictFor(t, l, h).commit
  }

  function Next(t: TunedConfig, cfg: Config, b: Bench, h: Happening): Bench {
    match h
    case Arm(name, timeoutMs, atMs) =>
      b.(learn := Arming(t, cfg, b.machine.ram.reg.slots, b.learn, name, timeoutMs, atMs))
    case Cancel => b.(learn := Cancelling(b.learn))
    case Window(_, _, _, landed) => Concluded(t, cfg, b.machine, VerdictFor(t, b.learn, h), landed)
    case Tick(_, saves) => Concluded(t, cfg, b.machine, VerdictFor(t, b.learn, h), saves)
    case Elsewhere(event) =>
      Bench(if event.PowerCut? then AT_BOOT else b.learn, Runs.Step(cfg, b.machine, event))
  }

  function After(t: TunedConfig, cfg: Config, b: Bench, run: seq<Happening>): Bench
    decreases |run|
  {
    if run == [] then b else After(t, cfg, Next(t, cfg, b, run[0]), run[1..])
  }

  // ---- What was heard -----------------------------------------------------------------------

  /** The well-shaped ones among the first `n` frames. */
  function Shaped(t: Tuning, frames: seq<Frame>, n: nat): (kept: seq<Frame>)
    requires n <= |frames|
    ensures forall k :: 0 <= k < |kept| ==> WellShaped(kept[k], t.limits)
  {
    if n == 0 then []
    else Shaped(t, frames, n - 1) + if WellShaped(frames[n - 1], t.limits) then [frames[n - 1]] else []
  }

  /** The well-shaped frames of one window: those it splits into when neighbours agree, else itself. */
  function FramesIn(t: Tuning, raw: Frame): (heard: seq<Frame>)
    ensures forall k :: 0 <= k < |heard| ==> WellShaped(heard[k], t.limits)
  {
    var frames := SplitOf(t, Stripped(raw)).frames;
    if HasPair(t, frames) then Shaped(t, frames, |frames|)
    else if WellShaped(Stripped(raw), t.limits) then [Stripped(raw)]
    else []
  }

  /** One interval the gap estimate averages over, and the frame whose arrival ended it. */
  datatype Interval = Interval(us: u32, frame: Frame)

  /** The frames heard since the learn was last armed, and the intervals since the span began. */
  datatype Trace = Trace(heard: seq<Frame>, intervals: seq<Interval>)

  function IntervalsAfter(t: Tuning, l: Learning, was: seq<Interval>, raw: Frame, nowUs: u32): seq<Interval> {
    var window, us := Stripped(raw), Elapsed(l.lastUs, nowUs);
    if HasPair(t, SplitOf(t, window).frames) || !WellShaped(window, t.limits) then was
    else if !Consistent(t, l.candidate, window) || us > LongestWait(t, window) then []
    else was + [Interval(us, window)]
  }

  function Follow(t: Tuning, l: Learning, trace: Trace, h: Happening): Trace {
    match h
    case Arm(_, _, _) => trace.(heard := [])
    case Window(raw, nowUs, _, _) =>
      if !l.state.Armed? then trace
      else Trace(trace.heard + FramesIn(t, raw), IntervalsAfter(t, l, trace.intervals, raw, nowUs))
    case Elsewhere(event) => if event.PowerCut? then Trace([], []) else trace
    case _ => trace
  }

  function Followed(t: TunedConfig, cfg: Config, b: Bench, trace: Trace, run: seq<Happening>): Trace
    decreases |run|
  {
    if run == [] then trace
    else Followed(t, cfg, Next(t, cfg, b, run[0]), Follow(t, b.learn, trace, run[0]), run[1..])
  }

  // ---- Support ------------------------------------------------------------------------------

  /** `frame` is the candidate, or agrees with it. */
  predicate Backs(t: Tuning, candidate: Frame, frame: Frame) {
    frame == candidate || Agree(candidate, frame, t.limits.tolerance)
  }

  /** The k-th frame heard backs the candidate, or agrees with the frame just before it, which does. */
  predicate Supports(t: Tuning, candidate: Frame, heard: seq<Frame>, k: nat) {
    && k < |heard| && WellShaped(heard[k], t.limits)
    && (|| Backs(t, candidate, heard[k])
        || (k >= 1 && Backs(t, candidate, heard[k - 1]) && Agree(heard[k - 1], heard[k], t.limits.tolerance)))
  }

  /** `support` is one frame heard for every agreement counted. */
  ghost predicate Grounded(t: Tuning, l: Learning, heard: seq<Frame>, support: set<nat>) {
    && |support| == l.agreements
    && (forall k :: k in support ==> Supports(t, l.candidate, heard, k))
    && (l.candidate == [] ==> l.agreements == 0)
    && (l.candidate != [] ==> WellShaped(l.candidate, t.limits))
    && (l.ready ==> l.agreements >= t.minRepeats)
  }

  lemma {:induction false} GroundedLater(t: Tuning, l: Learning, heard: seq<Frame>, more: seq<Frame>, support: set<nat>)
    requires Grounded(t, l, heard, support)
    ensures Grounded(t, l, heard + more, support)
  {
    hide WellShaped, Agree;
    forall k | k in support
      ensures Supports(t, l.candidate, heard + more, k)
    {
      assert Supports(t, l.candidate, heard, k);
    }
  }

  /** Counting one more frame, later than every frame counted so far. */
  lemma {:induction false} GroundedMore(t: Tuning, l: Learning, l': Learning, heard: seq<Frame>, support: set<nat>,
                                        k: nat)
    requires Grounded(t, l, heard, support) && l.candidate != []
    requires forall j :: j in support ==> j < k
    requires Supports(t, l.candidate, heard, k)
    requires l'.candidate == l.candidate && l'.agreements == l.agreements + 1 && (l'.ready ==> l.ready)
    ensures Grounded(t, l', heard, support + {k})
  {
    hide Supports, WellShaped;
    assert |support + {k}| == |support| + 1;
  }

  lemma {:induction false} GroundedReady(t: Tuning, l: Learning, heard: seq<Frame>, support: set<nat>, nowMs: u32)
    requires Grounded(t, l, heard, support)
    ensures Grounded(t, Readied(t, l, nowMs), heard, support)
  {
    hide Supports, WellShaped;
  }

  /** One well-shaped frame on its own. */
  lemma {:induction false} OneGrounds(t: Tuning, l: Learning, frame: Frame, nowUs: u32, nowMs: u32, heard: seq<Frame>,
                                      support: set<nat>) returns (support': set<nat>)
    requires Grounded(t, l, heard, support) && WellShaped(frame, t.limits) && t.limits.minPulses >= 2
    ensures Grounded(t, HeardOne(t, l, frame, nowUs, nowMs).learn, heard + [frame], support')
  {
    hide Agree, Duration;
    var now, k := heard + [frame], |heard|;
    assert now[k] == frame;
    if Consistent(t, l.candidate, frame) {
      var seen := Extended(t, l.(sawFrame := true), frame, nowUs);
      GroundedLater(t, l, heard, [frame], support);
      GroundedMore(t, l, seen, now, support, k);
      GroundedReady(t, seen, now, support + {k}, nowMs);
      support' := support + {k};
    } else {
      support' := {k};
    }
  }

  /** Neighbours that both are well shaped stay neighbours among the frames heard. */
  lemma {:induction false} PairIsHeard(t: Tuning, frames: seq<Frame>, i: nat)
    requires i + 1 < |frames| && GoodPair(t, frames, i)
    ensures Shaped(t, frames, i + 2) == Shaped(t, frames, i) + [frames[i], frames[i + 1]]
    ensures Shaped(t, frames, i + 1) == Shaped(t, frames, i) + [frames[i]]
  {
    hide Agree;
  }

  lemma {:induction false} ShapedGrows(t: Tuning, frames: seq<Frame>, n: nat)
    requires n + 1 <= |frames|
    ensures Shaped(t, frames, n) <= Shaped(t, frames, n + 1)
  {
  }

  /** One pass over a pair, when the frames of the window up to it are already among those heard. */
  lemma {:induction false} PairGrounds(t: Tuning, l: Learning, split: SplitFrames, i: nat, before: seq<Frame>,
                                       support: set<nat>) returns (support': set<nat>)
    requires i + 1 < |split.frames| && |split.gaps| == |split.frames| - 1 && t.limits.minPulses >= 2
    requires Grounded(t, l, before + Shaped(t, split.frames, i + 1), support)
    ensures Grounded(t, AfterPair(t, l, split, i), before + Shaped(t, split.frames, i + 2), support')
  {
    hide WellShaped, Agree;
    var frames := split.frames;
    var heard, now := before + Shaped(t, frames, i + 1), before + Shaped(t, frames, i + 2);
    ShapedGrows(t, frames, i + 1);
    assert now == heard + now[|heard|..];
    GroundedLater(t, l, heard, now[|heard|..], support);
    support' := support;
    if GoodPair(t, frames, i) {
      PairIsHeard(t, frames, i);
      PairSupports(t, l, frames, i, before);
      var k := |heard|;
      if Consistent(t, l.candidate, frames[i]) {
        assert forall j :: j in support ==> j < k by {
          assert forall j :: j in support ==> Supports(t, l.candidate, heard, j);
        }
        GroundedMore(t, l, AfterPair(t, l, split, i), now, support, k);
        support' := support + {k};
      } else {
        NotEmptyShaped(t, frames[i]);
        support' := {k - 1, k};
      }
    }
  }

  lemma {:induction false} NotEmptyShaped(t: Tuning, frame: Frame)
    requires WellShaped(frame, t.limits) && t.limits.minPulses >= 2
    ensures frame != []
  {
  }

  /** The second frame of a good pair supports whatever the first backs, and both support the first. */
  lemma {:induction false} PairSupports(t: Tuning, l: Learning, frames: seq<Frame>, i: nat, before: seq<Frame>)
    requires i + 1 < |frames| && GoodPair(t, frames, i)
    ensures var now, k := before + Shaped(t, frames, i + 2), |before + Shaped(t, frames, i + 1)|;
            && k >= 1
            && (Consistent(t, l.candidate, frames[i]) ==> Supports(t, l.candidate, now, k))
            && Supports(t, frames[i], now, k - 1) && Supports(t, frames[i], now, k)
  {
    hide WellShaped, Agree;
    PairIsHeard(t, frames, i);
    var now, k := before + Shaped(t, frames, i + 2), |before + Shaped(t, frames, i + 1)|;
    assert now[k - 1] == frames[i] && now[k] == frames[i + 1];
  }

  lemma {:induction false} PairsGround(t: Tuning, l: Learning, split: SplitFrames, n: nat, before: seq<Frame>,
                                       support: set<nat>) returns (support': set<nat>)
    requires n < |split.frames| && |split.gaps| == |split.frames| - 1 && t.limits.minPulses >= 2
    requires Grounded(t, l, before, support)
    ensures Grounded(t, AfterPairs(t, l, split, n), before + Shaped(t, split.frames, n + 1), support')
  {
    hide Grounded, Shaped, AfterPair;
    if n == 0 {
      GroundedLater(t, l, before, Shaped(t, split.frames, 1), support);
      support' := support;
    } else {
      support' := PairsGround(t, l, split, n - 1, before, support);
      support' := PairGrounds(t, AfterPairs(t, l, split, n - 1), split, n - 1, before, support');
    }
  }

  lemma {:induction false} WindowGrounds(t: TunedConfig, l: Learning, raw: Frame, nowUs: u32, nowMs: u32,
                                         heard: seq<Frame>, support: set<nat>) returns (support': set<nat>)
    requires l.state.Armed? && Grounded(t, l, heard, support)
    ensures Grounded(t, Heard(t, l, raw, nowUs, nowMs).learn, heard + FramesIn(t, raw), support')
  {
    hide Grounded, Shaped, SplitOf, Agree, WellShaped, AfterPairs, GoodPair, Readied, Consistent;
    var window, split := Stripped(raw), SplitOf(t, Stripped(raw));
    if HasPair(t, split.frames) {
      var n := |split.frames| - 1;
      support' := PairsGround(t, l, split, n, heard, support);
      GroundedReady(t, AfterPairs(t, l, split, n), heard + Shaped(t, split.frames, n + 1), support', nowMs);
    } else if WellShaped(window, t.limits) {
      support' := OneGrounds(t, l, window, nowUs, nowMs, heard, support);
    } else {
      support' := support;
      RejectGrounds(t, l, window, nowUs, nowMs, heard, support);
    }
  }

  lemma {:induction false} RejectGrounds(t: Tuning, l: Learning, window: Frame, nowUs: u32, nowMs: u32,
                                         heard: seq<Frame>, support: set<nat>)
    requires Grounded(t, l, heard, support) && !WellShaped(window, t.limits)
    ensures Grounded(t, HeardOne(t, l, window, nowUs, nowMs).learn, heard + [], support)
  {
    hide Supports, Consistent;
    assert heard + [] == heard;
  }

  // ---- The gate -----------------------------------------------------------------------------

  /** While a learn is armed its agreements are grounded in what it has heard, and its name is a valid one. */
  ghost predicate Honest(t: Tuning, l: Learning, heard: seq<Frame>) {
    l.state.Armed? ==> ValidateName(l.pending) == Ok && exists support :: Grounded(t, l, heard, support)
  }

  lemma {:induction false} VerdictHonest(t: TunedConfig, l: Learning, trace: Trace, h: Happening)
    requires Honest(t, l, trace.heard) && l.state.Armed? && (h.Window? || h.Tick?)
    ensures var v := VerdictFor(t, l, h).learn;
            && v.pending == l.pending
            && (v.state.Armed? ==> exists support :: Grounded(t, v, Follow(t, l, trace, h).heard, support))
            && (VerdictFor(t, l, h).commit ==> v.state.Armed? && v.ready)
  {
    hide Grounded, ValidateName, Heard, FramesIn;
    var support :| Grounded(t, l, trace.heard, support);
    ghost var v, heard := VerdictFor(t, l, h).learn, Follow(t, l, trace, h).heard;
    if h.Window? {
      var support' := WindowGrounds(t, l, h.raw, h.nowUs, h.nowMs, trace.heard, support);
      assert Grounded(t, v, heard, support');
      HeardKeepsName(t, l, h.raw, h.nowUs, h.nowMs);
    } else if v.state.Armed? {
      assert v == l && heard == trace.heard;
      assert Grounded(t, v, heard, support);
    }
  }

  lemma {:induction false} PairsKeepName(t: Tuning, l: Learning, split: SplitFrames, n: nat)
    requires n < |split.frames| && |split.gaps| == |split.frames| - 1
    ensures var after := AfterPairs(t, l, split, n);
            after.pending == l.pending && after.state == l.state
  {
    hide GoodPair, Consistent;
    if n != 0 {
      PairsKeepName(t, l, split, n - 1);
    }
  }

  lemma {:induction false} HeardKeepsName(t: Tuning, l: Learning, raw: Frame, nowUs: u32, nowMs: u32)
    requires l.state.Armed?
    ensures var v := Heard(t, l, raw, nowUs, nowMs);
            v.learn.pending == l.pending && v.learn.state == l.state && (v.commit ==> v.learn.ready)
  {
    hide SplitOf, AfterPairs, GoodPair, WellShaped, Consistent;
    var split := SplitOf(t, Stripped(raw));
    if HasPair(t, split.frames) {
      PairsKeepName(t, l, split, |split.frames| - 1);
    }
  }

  lemma {:induction false} StepHonest(t: TunedConfig, cfg: Config, b: Bench, trace: Trace, h: Happening)
    requires Honest(t, b.learn, trace.heard)
    ensures Honest(t, Next(t, cfg, b, h).learn, Follow(t, b.learn, trace, h).heard)
    ensures Commits(t, b.learn, h) ==> b.learn.state.Armed? && !Next(t, cfg, b, h).learn.state.Armed?
  {
    hide ValidateName, Perform, Heard, Ticked, FramesIn, ResolvedGap, First, Occupancy, IntervalsAfter;
    if (h.Window? || h.Tick?) && b.learn.state.Armed? {
      VerdictHonest(t, b.learn, trace, h);
    } else if h.Window? || h.Tick? {
      NotArmed(t, b.learn, h);
    } else if h.Arm? {
      FreshGrounded(t, Next(t, cfg, b, h).learn);
    }
  }

  lemma {:induction false} NotArmed(t: Tuning, l: Learning, h: Happening)
    requires !l.state.Armed?
    ensures VerdictFor(t, l, h) == Verdict(l, false)
  {
    hide SplitOf, HasPair, HeardMany, HeardOne;
  }

  lemma {:induction false} FreshGrounded(t: Tuning, l: Learning)
    ensures l.candidate == [] && l.agreements == 0 && !l.ready ==> Grounded(t, l, [], {})
  {
  }

  lemma {:induction false} RunHonest(t: TunedConfig, cfg: Config, b: Bench, trace: Trace, run: seq<Happening>)
    requires Honest(t, b.learn, trace.heard)
    ensures Honest(t, After(t, cfg, b, run).learn, Followed(t, cfg, b, trace, run).heard)
    decreases |run|
  {
    hide Honest, Next, Follow;
    if run != [] {
      StepHonest(t, cfg, b, trace, run[0]);
      RunHonest(t, cfg, Next(t, cfg, b, run[0]), Follow(t, b.learn, trace, run[0]), run[1..]);
    }
  }

  /**
   * The noise gate. Take any run from boot and the event at which it stores a waveform: the learn was
   * armed under a valid name and no longer is, the waveform is well shaped, and at least `min_repeats`
   * different well-shaped frames heard since it was armed back it, each directly or by agreeing with the
   * frame before it, which does.
   */
  lemma {:induction false} NoiseGate(t: TunedConfig, cfg: Config, m: Runs.Machine, run: seq<Happening>, h: Happening)
    returns (support: set<nat>)
    requires Commits(t, After(t, cfg, Bench(AT_BOOT, m), run).learn, h)
    ensures var b := After(t, cfg, Bench(AT_BOOT, m), run);
            var trace := Followed(t, cfg, Bench(AT_BOOT, m), Trace([], []), run);
            var stored, heard := VerdictFor(t, b.learn, h).learn, Follow(t, b.learn, trace, h).heard;
            && b.learn.state.Armed? && !Next(t, cfg, b, h).learn.state.Armed?
            && ValidateName(stored.pending) == Ok && WellShaped(stored.candidate, t.limits)
            && |support| >= t.minRepeats
            && forall k :: k in support ==> Supports(t, stored.candidate, heard, k)
  {
    hide After, Followed, Next, Follow, VerdictFor, ValidateName, Supports, WellShaped;
    var start, trace := Bench(AT_BOOT, m), Followed(t, cfg, Bench(AT_BOOT, m), Trace([], []), run);
    RunHonest(t, cfg, start, Trace([], []), run);
    var b := After(t, cfg, start, run);
    StepHonest(t, cfg, b, trace, h);
    OnlyTheseCommit(t, b.learn, h);
    VerdictHonest(t, b.learn, trace, h);
    support :| Grounded(t, VerdictFor(t, b.learn, h).learn, Follow(t, b.learn, trace, h).heard, support);
  }

  lemma {:induction false} OnlyTheseCommit(t: Tuning, l: Learning, h: Happening)
    requires Commits(t, l, h)
    ensures h.Window? || h.Tick?
  {
    hide Heard, Ticked;
  }

  // ---- Once per arming ----------------------------------------------------------------------

  function Stores(t: TunedConfig, cfg: Config, b: Bench, run: seq<Happening>): nat
    decreases |run|
  {
    if run == [] then 0
    else (if Commits(t, b.learn, run[0]) then 1 else 0) + Stores(t, cfg, Next(t, cfg, b, run[0]), run[1..])
  }

  /** How often a run arms the learn. */
  function Armings(t: TunedConfig, cfg: Config, b: Bench, run: seq<Happening>): nat
    decreases |run|
  {
    if run == [] then 0
    else
      var next := Next(t, cfg, b, run[0]);
      (if run[0].Arm? && next.learn.state.Armed? then 1 else 0) + Armings(t, cfg, next, run[1..])
  }

  lemma {:induction false} StepArmed(t: TunedConfig, cfg: Config, b: Bench, h: Happening)
    ensures Commits(t, b.learn, h) ==> b.learn.state.Armed? && !Next(t, cfg, b, h).learn.state.Armed? && !h.Arm?
    ensures Next(t, cfg, b, h).learn.state.Armed? ==> b.learn.state.Armed? || h.Arm?
  {
    hide Perform, Heard, Ticked, ResolvedGap, First, Occupancy, ValidateName;
    if !b.learn.state.Armed? {
      NotArmed(t, b.learn, h);
    }
  }

  /** Every waveform stored was armed for: a run never stores more often than it arms. */
  lemma {:induction false} StoresNeverExceedArmings(t: TunedConfig, cfg: Config, b: Bench, run: seq<Happening>)
    ensures Stores(t, cfg, b, run) <= Armings(t, cfg, b, run) + if b.learn.state.Armed? then 1 else 0
    decreases |run|
  {
    hide Next, Commits;
    if run != [] {
      StepArmed(t, cfg, b, run[0]);
      StoresNeverExceedArmings(t, cfg, Next(t, cfg, b, run[0]), run[1..]);
    }
  }

  // ---- What the store makes of it -----------------------------------------------------------

  /** The refusals a capture can still meet: they are about the store, never about the capture. */
  predicate AboutTheStore(why: StoreResult) {
    why in {ReadOnly, RestoreInProgress, StoreFull, IdExhausted, BudgetExceeded, RevisionExhausted, StorageError}
  }

  lemma {:induction false} CaptureIsStorable(t: TunedConfig, cfg: Config, m: Runs.Machine, l: Learning, landed: nat)
    requires Sound(cfg, m.ram.reg) && t.limits.maxPulses <= cfg.maxPulses
    requires ValidateName(l.pending) == Ok && WellShaped(l.candidate, t.limits)
    ensures var outcome := Perform(cfg, m.ram, m.records, Put(CaptureOf(t, l)), landed);
            if outcome.result == Ok then
              var slots := outcome.ram.reg.slots;
              var slot := First(slots, ByName(l.pending));
              && slot >= 0 && slots[slot].timings == l.candidate
              && t.minGap <= slots[slot].gapUs <= t.maxGap && slots[slot].gapUs == ResolvedGap(t, l)
            else AboutTheStore(outcome.result) && outcome.ram == m.ram
  {
    hide ValidateName, ResolvedGap, Saved, SavesOf, PayloadBytes;
    var c := CaptureOf(t, l);
    var plan := PutPlan(cfg, m.ram, c);
    if plan.Write? {
      var before, after := m.ram.reg.slots, plan.next.reg.slots;
      assert |plan.next.reg.slots| == |before|;
      PlacedByName(m.ram.reg, plan.next.reg, c.name, plan.payload);
    }
  }

  // ---- The store's own runs -----------------------------------------------------------------

  /** What a run of the component does to the store: the operations from elsewhere, and a put for every commit. */
  function OnTheStore(t: TunedConfig, cfg: Config, b: Bench, run: seq<Happening>): seq<Runs.Event>
    decreases |run|
  {
    if run == [] then []
    else
      (match run[0]
       case Elsewhere(event) => [event]
       case Window(_, _, _, landed) =>
         if Commits(t, b.learn, run[0]) then [Runs.Do(Put(CaptureOf(t, VerdictFor(t, b.learn, run[0]).learn)), landed)]
         else []
       case Tick(_, saves) =>
         if Commits(t, b.learn, run[0]) then [Runs.Do(Put(CaptureOf(t, VerdictFor(t, b.learn, run[0]).learn)), saves)]
         else []
       case _ => []) +
      OnTheStore(t, cfg, Next(t, cfg, b, run[0]), run[1..])
  }

  /**
   * Learning is no other way to the flash: a run of the component leaves the store exactly as the run
   * of store operations it amounts to, so all that holds of those runs holds here.
   */
  lemma {:induction false} LearningIsAStoreRun(t: TunedConfig, cfg: Config, b: Bench, run: seq<Happening>)
    ensures After(t, cfg, b, run).machine == Runs.After(cfg, b.machine, OnTheStore(t, cfg, b, run))
    decreases |run|
  {
    hide VerdictFor, Perform, ResolvedGap, Arming;
    if run != [] {
      var next := Next(t, cfg, b, run[0]);
      LearningIsAStoreRun(t, cfg, next, run[1..]);
      var rest, all := OnTheStore(t, cfg, next, run[1..]), OnTheStore(t, cfg, b, run);
      if |all| == |rest| {
        assert all == rest;
      } else {
        assert all[1..] == rest;
      }
    }
  }
}
