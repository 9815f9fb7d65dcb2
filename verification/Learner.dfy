/**
 * Learning a command from the air: the state machine the receiver, the clock and the user drive, and
 * the noise gate every stored waveform has been through.
 *
 * The pure steps say what each event does; `RfCloner` does it in place, on a real store. The clocks are
 * parameters, as readings of a 32-bit counter.
 */
module Learner {
  import opened Bytes
  import opened RegistryModel
  import opened Flash
  import opened Capture
  import CommandStore
  import Runs

  const GAP_INTERVAL_TARGET: nat := 24
  const GAP_MIN_INTERVALS: nat := 3
  const NO_ID: u32 := COMMAND_ID_NONE

  datatype LearnState = Idle | Armed | Captured | Failed
  datatype LearnFailure = Timeout | NoRepeatAgreement | HeardTooFew | HeardTooMany | HeardOutOfRange | Cancelled

  /** The last result text. */
  datatype Report =
    | Silent
    | NameRejected(why: StoreResult)
    | NoSlotLeft
    | GaveUp(failure: LearnFailure)
    | NotStored(why: StoreResult)
    | Stored(name: Name)

  datatype Tuning = Tuning(limits: CaptureLimits, minRepeats: nat, frameGapMin: u32, settleMs: u32, timeoutMs: u32,
                           repeatTimes: u16, defaultGap: u32, minGap: u32, maxGap: u32, frequencyHz: u32)

  /** The bounds the configuration schema enforces before a build. */
  predicate Tunable(t: Tuning) {
    && 2 <= t.limits.minPulses <= t.limits.maxPulses <= 2048 && t.limits.minPulseUs < t.limits.maxPulseUs
    && 2 <= t.minRepeats <= 32
    && t.minGap < t.maxGap && t.frameGapMin <= t.maxGap && t.minGap <= t.defaultGap <= t.maxGap
  }

  type TunedConfig = t: Tuning | Tunable(t)
    witness Tuning(CaptureLimits(8, 128, 100, 100_000, 25), 3, 3_000, 800, 15_000, 20, 10_000, 1_000, 200_000,
                   433_920_000)

  /** The learn fields of the component. */
  datatype Learning = Learning(state: LearnState, pending: Name, report: Report, candidate: Frame, agreements: nat,
                         firstUs: u32, lastUs: u32, intervals: nat, gaps: seq<u32>, deadlineMs: u32,
                         readySinceMs: u32, ready: bool, sawFrame: bool, lastReject: FrameVerdict)

  const AT_BOOT := Learning(Idle, [], Silent, [], 0, 0, 0, 0, [], 0, 0, false, false, Accepted)

  // ---- Arming and giving up -----------------------------------------------------------------

  function Forgotten(l: Learning): Learning {
    l.(candidate := [], gaps := [], agreements := 0, ready := false)
  }

  function GivenUp(l: Learning, failure: LearnFailure): Learning {
    Forgotten(l).(state := Failed, report := GaveUp(failure))
  }

  /** `cancel()`: only a learn in progress can be. */
  function Cancelling(l: Learning): Learning {
    if l.state.Armed? then GivenUp(l, Cancelled) else l
  }

  function FreshlyArmed(t: Tuning, l: Learning, name: Name, timeoutMs: u32, nowMs: u32): Learning {
    Forgotten(l).(state := Armed, pending := name, report := Silent, sawFrame := false, lastReject := Accepted,
                  deadlineMs := Clock(nowMs + if timeoutMs > 0 then timeoutMs else t.timeoutMs))
  }

  /** `learn()`: a learn in progress is cancelled first, then name and room are checked. */
  function Arming(t: TunedConfig, cfg: Config, slots: seq<Command>, l: Learning, name: Name, timeoutMs: u32,
                  nowMs: u32): Learning {
    var was := if l.state.Armed? then GivenUp(l, Cancelled) else l;
    if ValidateName(name) != Ok then was.(state := Idle, pending := name, report := NameRejected(ValidateName(name)))
    else if First(slots, ByName(name)) < 0 && Count(slots) >= cfg.maxCommands then
      was.(state := Idle, pending := name, report := NoSlotLeft)
    else
      FreshlyArmed(t, was, name, timeoutMs, nowMs)
  }

  // ---- One receive window -------------------------------------------------------------------

  predicate Consistent(t: Tuning, candidate: Frame, frame: Frame) {
    candidate != [] && Agree(candidate, frame, t.limits.tolerance)
  }

  /** Two well-shaped neighbours that agree. */
  predicate GoodPair(t: Tuning, frames: seq<Frame>, i: nat)
    requires i + 1 < |frames|
  {
    && WellShaped(frames[i], t.limits) && WellShaped(frames[i + 1], t.limits)
    && Agree(frames[i], frames[i + 1], t.limits.tolerance)
  }

  function Adopted(l: Learning, frame: Frame): Learning {
    l.(candidate := frame, agreements := 1, gaps := [], ready := false)
  }

  function AfterPair(t: Tuning, l: Learning, split: SplitFrames, i: nat): Learning
    requires i + 1 < |split.frames| && |split.gaps| == |split.frames| - 1
  {
    if !GoodPair(t, split.frames, i) then l
    else
      var start := if Consistent(t, l.candidate, split.frames[i]) then l
                   else Adopted(l, split.frames[i]);
      start.(agreements := start.agreements + 1, gaps := start.gaps + [split.gaps[i]], sawFrame := true)
  }

  function AfterPairs(t: Tuning, l: Learning, split: SplitFrames, n: nat): Learning
    requires (n == 0 || n < |split.frames|) && (split.frames != [] ==> |split.gaps| == |split.frames| - 1)
  {
    if n == 0 then l else AfterPair(t, AfterPairs(t, l, split, n - 1), split, n - 1)
  }

  predicate HasPair(t: Tuning, frames: seq<Frame>) {
    exists i :: 0 <= i < |frames| - 1 && GoodPair(t, frames, i)
  }

  /** Once enough frames agree, the clock of the settle time starts. */
  function Readied(t: Tuning, l: Learning, nowMs: u32): Learning {
    if l.agreements >= t.minRepeats && !l.ready then l.(ready := true, readySinceMs := nowMs) else l
  }

  /** What an event makes of the learner, and whether it ends in a commit. */
  datatype Verdict = Verdict(learn: Learning, commit: bool)

  function SplitOf(t: Tuning, window: Frame): (split: SplitFrames)
    ensures split.frames != [] ==> |split.gaps| == |split.frames| - 1
  {
    GapsBetween(window, t.frameGapMin);
    Split(window, t.frameGapMin)
  }

  lemma {:induction false} GapsBetween(window: Frame, threshold: u32)
    ensures var split := Split(window, threshold);
            split.frames != [] ==> |split.gaps| == |split.frames| - 1
  {
    hide Split, Laid;
    var _ := SplitReadsTheWindow(window, threshold);
  }

  function HeardMany(t: Tuning, l: Learning, split: SplitFrames, nowMs: u32): Verdict
    requires |split.frames| >= 2 && |split.gaps| == |split.frames| - 1
  {
    var after := Readied(t, AfterPairs(t, l, split, |split.frames| - 1), nowMs);
    Verdict(after, after.ready && |after.gaps| >= 2)
  }

  /** The longest wait between two frames of one press. */
  function LongestWait(t: Tuning, frame: Frame): u32 {
    Clock(Duration(frame) + t.maxGap)
  }

  function Restarted(l: Learning, frame: Frame, nowUs: u32): Learning {
    l.(candidate := frame, agreements := 1, ready := false, firstUs := nowUs, lastUs := nowUs, intervals := 0)
  }

  function Extended(t: Tuning, l: Learning, frame: Frame, nowUs: u32): Learning {
    var same := Elapsed(l.lastUs, nowUs) <= LongestWait(t, frame);
    l.(agreements := l.agreements + 1, lastUs := nowUs, firstUs := if same then l.firstUs else nowUs,
       intervals := if same then l.intervals + 1 else 0)
  }

  function HeardOne(t: Tuning, l: Learning, window: Frame, nowUs: u32, nowMs: u32): Verdict {
    var seen := l.(sawFrame := true);
    if VerdictOf(window, t.limits) != Accepted then Verdict(l.(lastReject := VerdictOf(window, t.limits)), false)
    else if !Consistent(t, l.candidate, window) then Verdict(Restarted(seen, window, nowUs), false)
    else
      var after := Readied(t, Extended(t, seen, window, nowUs), nowMs);
      Verdict(after, after.ready && after.intervals >= GAP_INTERVAL_TARGET)
  }

  /** `on_receive()`, up to the commit it may call for. */
  function Heard(t: Tuning, l: Learning, raw: Frame, nowUs: u32, nowMs: u32): Verdict {
    var window := Stripped(raw);
    var split := SplitOf(t, window);
    if !l.state.Armed? then Verdict(l, false)
    else if HasPair(t, split.frames) then HeardMany(t, l, split, nowMs)
    else HeardOne(t, l, window, nowUs, nowMs)
  }

  // ---- The passing of time ------------------------------------------------------------------

  /** The signed 32-bit difference of two clock readings is not negative. */
  predicate Due(nowMs: u32, deadlineMs: u32) {
    Elapsed(deadlineMs, nowMs) < 0x8000_0000
  }

  /** Within 24 days of the deadline, on either side, the wrapping comparison tells before from after. */
  lemma {:induction false} DueExactly(now: int, deadline: int)
    requires -0x8000_0000 <= now - deadline < 0x8000_0000
    ensures Due(Clock(now), Clock(deadline)) <==> now >= deadline
  {
    if now >= deadline {
      ClockSpan(deadline, now);
    } else {
      ClockSpan(deadline, now + 0x1_0000_0000);
      assert Clock(now + 0x1_0000_0000) == Clock(now);
    }
  }

  function Reason(l: Learning): LearnFailure {
    if l.sawFrame then NoRepeatAgreement
    else
      match l.lastReject
      case Accepted => Timeout
      case TooFew => HeardTooFew
      case TooMany => HeardTooMany
      case OutOfRange => HeardOutOfRange
  }

  /** `loop()`, up to the commit it may call for. */
  function Ticked(t: Tuning, l: Learning, nowMs: u32): Verdict {
    if !l.state.Armed? then Verdict(l, false)
    else if l.ready then Verdict(l, Elapsed(l.readySinceMs, nowMs) >= t.settleMs)
    else if Due(nowMs, l.deadlineMs) then Verdict(GivenUp(l, Reason(l)), false)
    else Verdict(l, false)
  }

  // ---- The gap ------------------------------------------------------------------------------

  predicate Ordered(s: seq<u32>) {
    forall i, j :: 0 <= i <= j < |s| ==> s[i] <= s[j]
  }

  function Inserted(s: seq<u32>, x: u32): (r: seq<u32>)
    ensures |r| == |s| + 1
  {
    if s == [] || x <= s[0] then [x] + s else [s[0]] + Inserted(s[1..], x)
  }

  function Sorted(s: seq<u32>): (r: seq<u32>)
    ensures |r| == |s|
  {
    if s == [] then [] else Inserted(Sorted(s[1..]), s[0])
  }

  function Median(gaps: seq<u32>): u32
    requires gaps != []
  {
    Sorted(gaps)[|gaps| / 2]
  }

  lemma {:induction false} InsertedOrdered(s: seq<u32>, x: u32)
    requires Ordered(s)
    ensures Ordered(Inserted(s, x)) && (Inserted(s, x)[0] == x || (s != [] && Inserted(s, x)[0] == s[0]))
    decreases |s|
  {
    if s != [] && x > s[0] {
      InsertedOrdered(s[1..], x);
    }
  }

  lemma {:induction false} SortedOrdered(s: seq<u32>)
    ensures Ordered(Sorted(s))
    decreases |s|
  {
    if s != [] {
      SortedOrdered(s[1..]);
      InsertedOrdered(Sorted(s[1..]), s[0]);
    }
  }

  /** How many samples lie in a range. */
  function Within(s: seq<u32>, low: u32, high: u32): nat {
    if s == [] then 0 else (if low <= s[0] <= high then 1 else 0) + Within(s[1..], low, high)
  }

  lemma {:induction false} InsertedWithin(s: seq<u32>, x: u32, low: u32, high: u32)
    ensures Within(Inserted(s, x), low, high) == Within(s, low, high) + if low <= x <= high then 1 else 0
    decreases |s|
  {
    if s == [] || x <= s[0] {
      assert ([x] + s)[1..] == s;
    } else {
      InsertedWithin(s[1..], x, low, high);
      assert ([s[0]] + Inserted(s[1..], x))[1..] == Inserted(s[1..], x);
    }
  }

  lemma {:induction false} SortedWithin(s: seq<u32>, low: u32, high: u32)
    ensures Within(Sorted(s), low, high) == Within(s, low, high)
    decreases |s|
  {
    if s != [] {
      SortedWithin(s[1..], low, high);
      InsertedWithin(Sorted(s[1..]), s[0], low, high);
    }
  }

  /** Samples outside a range bound how many can be inside. */
  lemma {:induction false} WithinBound(s: seq<u32>, low: u32, high: u32, from: nat, to: nat)
    requires from <= to <= |s|
    requires forall i :: 0 <= i < |s| && !(from <= i < to) ==> !(low <= s[i] <= high)
    ensures Within(s, low, high) <= to - from
    decreases |s|
  {
    if s != [] {
      WithinBound(s[1..], low, high, if from == 0 then 0 else from - 1, if to == 0 then 0 else to - 1);
    }
  }

  /**
   * A stray boundary cannot set the gap: when more than half the measured spaces lie in a range, the
   * median lies in it too.
   */
  lemma {:induction false} MedianFollowsTheMajority(gaps: seq<u32>, low: u32, high: u32)
    requires 2 * Within(gaps, low, high) > |gaps|
    ensures gaps != [] && low <= Median(gaps) <= high
  {
    SortedOrdered(gaps);
    SortedWithin(gaps, low, high);
    var sorted, middle := Sorted(gaps), |gaps| / 2;
    WithinBound(gaps, low, high, 0, |gaps|);
    if sorted[middle] < low {
      WithinBound(sorted, low, high, middle + 1, |sorted|);
    } else if sorted[middle] > high {
      WithinBound(sorted, low, high, 0, middle);
    }
  }

  /** The median is the upper one: more than half the samples are at most it, and at most half are below it. */
  lemma {:induction false} MedianIsTheUpper(gaps: seq<u32>)
    requires gaps != []
    ensures 2 * Within(gaps, 0, Median(gaps)) > |gaps|
    ensures Median(gaps) > 0 ==> 2 * Within(gaps, 0, Median(gaps) - 1) <= |gaps|
  {
    SortedOrdered(gaps);
    var sorted, middle, m := Sorted(gaps), |gaps| / 2, Median(gaps);
    SortedWithin(gaps, 0, m);
    WithinAtLeast(sorted, m, middle + 1);
    if m > 0 {
      SortedWithin(gaps, 0, m - 1);
      WithinBound(sorted, 0, m - 1, 0, middle);
    }
  }

  lemma {:induction false} WithinAtLeast(s: seq<u32>, high: u32, n: nat)
    requires n <= |s| && forall i :: 0 <= i < n ==> s[i] <= high
    ensures Within(s, 0, high) >= n
    decreases n
  {
    if n != 0 {
      WithinAtLeast(s[1..], high, n - 1);
    }
  }

  /** A measured gap when a plausible one is known, else the estimate, else the configured default. */
  function ResolvedGap(t: TunedConfig, l: Learning): (gap: u32)
    ensures t.minGap <= gap <= t.maxGap
  {
    if l.gaps != [] && t.minGap <= Median(l.gaps) <= t.maxGap then Median(l.gaps)
    else
      var estimate := EstimateGap(Elapsed(l.firstUs, l.lastUs), l.intervals, Duration(l.candidate), t.minGap, t.maxGap,
                                  GAP_MIN_INTERVALS);
      if estimate != 0 then estimate else t.defaultGap
  }

  // ---- Committing ---------------------------------------------------------------------------

  function CaptureOf(t: TunedConfig, l: Learning): Command {
    Command(NO_ID, l.pending, l.candidate, ResolvedGap(t, l), t.repeatTimes, t.frequencyHz, 0)
  }

  function Ended(l: Learning, result: StoreResult): Learning {
    if result == Ok then l.(state := Captured, report := Stored(l.pending))
    else l.(state := Idle, report := NotStored(result))
  }

  /** The component: what it is learning, and the store it keeps. */
  datatype Bench = Bench(learn: Learning, machine: Runs.Machine)

  function Concluded(t: TunedConfig, cfg: Config, m: Runs.Machine, v: Verdict, landed: nat): Bench {
    if !v.commit then Bench(v.learn, m)
    else
      var outcome := Perform(cfg, m.ram, m.records, Put(CaptureOf(t, v.learn)), landed);
      Bench(Ended(v.learn, outcome.result), Runs.Machine(outcome.ram, outcome.records))
  }

  class RfCloner {
    const t: TunedConfig
    const store: CommandStore.CommandStore

    var state: LearnState
    var pending: Name
    var report: Report
    var candidate: Frame
    var agreements: nat
    var firstUs: u32
    var lastUs: u32
    var intervals: nat
    var gaps: seq<u32>
    var deadlineMs: u32
    var readySinceMs: u32
    var ready: bool
    var sawFrame: bool
    var lastReject: FrameVerdict

    ghost function View(): Learning
      reads this
    {
      Learning(state, pending, report, candidate, agreements, firstUs, lastUs, intervals, gaps, deadlineMs,
               readySinceMs, ready, sawFrame, lastReject)
    }

    ghost function Machine(): Runs.Machine
      reads store, store.backend
    {
      Runs.Machine(store.View(), store.backend.records)
    }

    ghost function Now(): Bench
      reads this, store, store.backend
    {
      Bench(View(), Machine())
    }

    constructor (t: TunedConfig, store: CommandStore.CommandStore)
      ensures this.t == t && this.store == store && View() == AT_BOOT
    {
      this.t, this.store := t, store;
      state, pending, report, candidate, agreements := Idle, [], Silent, [], 0;
      firstUs, lastUs, intervals, gaps, deadlineMs, readySinceMs := 0, 0, 0, [], 0, 0;
      ready, sawFrame, lastReject := false, false, Accepted;
    }

    method Forget()
      modifies this
      ensures View() == Forgotten(old(View()))
    {
      candidate, gaps, agreements, ready := [], [], 0, false;
    }

    method Fail(failure: LearnFailure)
      modifies this
      ensures View() == GivenUp(old(View()), failure)
    {
      Forget();
      report, state := GaveUp(failure), Failed;
    }

    /** A learn that is over before it began: failed, reported, and idle again. */
    method Refuse(name: Name, why: Report)
      modifies this
      ensures View() == old(View()).(state := Idle, pending := name, report := why)
    {
      pending, report, state := name, why, Idle;
    }

    method Arm(name: Name, timeoutMs: u32, nowMs: u32)
      modifies this
      ensures View() == FreshlyArmed(t, old(View()), name, timeoutMs, nowMs)
    {
      Forget();
      pending, sawFrame, lastReject := name, false, Accepted;
      deadlineMs := Clock(nowMs + if timeoutMs > 0 then timeoutMs else t.timeoutMs);
      report, state := Silent, Armed;
    }

    method Learn(name: Name, timeoutMs: u32, nowMs: u32)
      requires store.Valid()
      modifies this
      ensures View() == Arming(t, store.cfg, store.slots, old(View()), name, timeoutMs, nowMs)
    {
      hide ValidateName, First, Occupancy, GivenUp, FreshlyArmed;
      if state.Armed? {
        Fail(Cancelled);
      }
      if ValidateName(name) != Ok {
        Refuse(name, NameRejected(ValidateName(name)));
        return;
      }
      var slot := store.Find(ByName(name));
      var count := store.CountCommands();
      if slot < 0 && count >= store.cfg.maxCommands {
        Refuse(name, NoSlotLeft);
        return;
      }
      Arm(name, timeoutMs, nowMs);
    }

    method Cancel()
      modifies this
      ensures View() == Cancelling(old(View()))
      ensures !old(state).Armed? ==> View() == old(View())
      ensures old(state).Armed? ==> state == Failed && report == GaveUp(Cancelled) && candidate == [] && !ready
    {
      if !state.Armed? {
        return;
      }
      Fail(Cancelled);
    }

    /** The first good frame, or a waveform that changed. */
    method StartOver(frame: Frame, nowUs: u32)
      modifies this
      ensures View() == Restarted(old(View()), frame, nowUs)
    {
      candidate, agreements, ready := frame, 1, false;
      firstUs, lastUs, intervals := nowUs, nowUs, 0;
    }

    /** Another frame that agrees: its arrival extends the span, unless the button was released between. */
    method CountArrival(frame: Frame, nowUs: u32)
      modifies this
      ensures View() == Extended(t, old(View()), frame, nowUs)
    {
      agreements := agreements + 1;
      var delta := Elapsed(lastUs, nowUs);
      lastUs := nowUs;
      var duration := FrameDuration(frame);
      if delta > Clock(duration + t.maxGap) {
        firstUs, intervals := nowUs, 0;
      } else {
        intervals := intervals + 1;
      }
    }

    method CheckReady(nowMs: u32)
      modifies this
      ensures View() == Readied(t, old(View()), nowMs)
    {
      if agreements >= t.minRepeats && !ready {
        ready, readySinceMs := true, nowMs;
      }
    }

    method OnReceive(raw: Frame, nowUs: u32, nowMs: u32)
      requires store.Valid()
      modifies this, store, store.backend
      ensures store.Valid()
      ensures Now() == Concluded(t, store.cfg, old(Machine()), Heard(t, old(View()), raw, nowUs, nowMs),
                                 old(store.backend.fuel))
    {
      hide SplitOf, WellShaped, Agree, ResolvedGap, HeardMany, HasPair, Restarted, Extended, Readied, Concluded;
      if !state.Armed? {
        NothingConcluded(t, store.cfg, Now(), store.backend.fuel);
        return;
      }
      var frame := StripTerminator(raw);
      var consumed := ConsumeMultiFrame(frame, nowMs);
      if !consumed {
        ReceiveOne(frame, nowUs, nowMs);
      }
    }

    method ReceiveOne(frame: Frame, nowUs: u32, nowMs: u32)
      requires store.Valid()
      modifies this, store, store.backend
      ensures store.Valid()
      ensures Now() == Concluded(t, store.cfg, old(Machine()), HeardOne(t, old(View()), frame, nowUs, nowMs),
                                 old(store.backend.fuel))
    {
      hide WellShaped, Agree, ResolvedGap, Restarted, Extended, Readied, Perform;
      var verdict := ValidateFrame(frame, t.limits);
      if verdict != Accepted {
        lastReject := verdict;
        return;
      }
      sawFrame := true;
      var consistent := false;
      if candidate != [] {
        consistent := FramesAgree(candidate, frame, t.limits.tolerance);
      }
      if !consistent {
        StartOver(frame, nowUs);
        return;
      }
      CountArrival(frame, nowUs);
      CheckReady(nowMs);
      if ready && intervals >= GAP_INTERVAL_TARGET {
        CommitCapture();
      }
    }

    method Adopt(frame: Frame)
      modifies this
      ensures View() == Adopted(old(View()), frame)
    {
      candidate, agreements, gaps, ready := frame, 1, [], false;
    }

    /** Neighbours that are well shaped and agree, the first of which may replace the candidate. */
    method TakePair(split: SplitFrames, i: nat) returns (taken: bool)
      requires i + 1 < |split.frames| && |split.gaps| == |split.frames| - 1
      modifies this
      ensures taken == GoodPair(t, split.frames, i) && View() == AfterPair(t, old(View()), split, i)
    {
      hide WellShaped, Agree, Adopted;
      var first, second := split.frames[i], split.frames[i + 1];
      var shape := ValidateFrame(first, t.limits);
      var shapeOfNext := ValidateFrame(second, t.limits);
      if shape != Accepted || shapeOfNext != Accepted {
        return false;
      }
      var agree := FramesAgree(first, second, t.limits.tolerance);
      if !agree {
        return false;
      }
      var consistent := false;
      if candidate != [] {
        consistent := FramesAgree(candidate, first, t.limits.tolerance);
      }
      if !consistent {
        Adopt(first);
      }
      agreements, gaps, sawFrame := agreements + 1, gaps + [split.gaps[i]], true;
      return true;
    }

    method ConsumeMultiFrame(window: Frame, nowMs: u32) returns (consumed: bool)
      requires store.Valid()
      modifies this, store, store.backend
      ensures store.Valid()
      ensures consumed == HasPair(t, SplitOf(t, window).frames)
      ensures !consumed ==> Now() == old(Now()) && store.backend.fuel == old(store.backend.fuel)
      ensures consumed ==>
                Now() == Concluded(t, store.cfg, old(Machine()), HeardMany(t, old(View()), SplitOf(t, window), nowMs),
                                   old(store.backend.fuel))
    {
      hide Split, GoodPair, AfterPair, Readied, Concluded;
      var split := SplitWindow(window, t.frameGapMin);
      assert split == SplitOf(t, window);
      consumed := false;
      if |split.frames| < 2 {
        return;
      }
      for i := 0 to |split.frames| - 1
        invariant View() == AfterPairs(t, old(View()), split, i)
        invariant Machine() == old(Machine()) && store.backend.fuel == old(store.backend.fuel) && store.Valid()
        invariant consumed == exists k :: 0 <= k < i && GoodPair(t, split.frames, k)
      {
        var taken := TakePair(split, i);
        consumed := consumed || taken;
      }
      if !consumed {
        NoPairNoChange(t, old(View()), split, |split.frames| - 1);
        return;
      }
      CheckReady(nowMs);
      if ready && |gaps| >= 2 {
        CommitCapture();
      } else {
        NothingConcluded(t, store.cfg, Now(), old(store.backend.fuel));
      }
    }

    method Loop(nowMs: u32)
      requires store.Valid()
      modifies this, store, store.backend
      ensures store.Valid()
      ensures Now() == Concluded(t, store.cfg, old(Machine()), Ticked(t, old(View()), nowMs), old(store.backend.fuel))
    {
      hide Perform, ResolvedGap;
      if !state.Armed? {
        return;
      }
      if ready && Elapsed(readySinceMs, nowMs) >= t.settleMs {
        CommitCapture();
        return;
      }
      if !ready && Due(nowMs, deadlineMs) {
        if sawFrame {
          Fail(NoRepeatAgreement);
        } else if lastReject != Accepted {
          if lastReject == TooFew {
            Fail(HeardTooFew);
          } else if lastReject == TooMany {
            Fail(HeardTooMany);
          } else {
            Fail(HeardOutOfRange);
          }
        } else {
          Fail(Timeout);
        }
      }
    }

    method ResolveGap() returns (gap: u32)
      ensures gap == ResolvedGap(t, View())
    {
      if gaps != [] {
        var sorted := Sorted(gaps);
        gap := sorted[|sorted| / 2];
        if t.minGap <= gap <= t.maxGap {
          return;
        }
      }
      var frameUs := FrameDuration(candidate);
      var estimated := EstimateGap(Elapsed(firstUs, lastUs), intervals, frameUs, t.minGap, t.maxGap, GAP_MIN_INTERVALS);
      gap := if estimated != 0 then estimated else t.defaultGap;
    }

    method CommitCapture()
      requires store.Valid()
      modifies this, store, store.backend
      ensures store.Valid()
      ensures Now() == Concluded(t, store.cfg, old(Machine()), Verdict(old(View()), true), old(store.backend.fuel))
    {
      hide Perform, ResolvedGap;
      var gap := ResolveGap();
      var command := Command(NO_ID, pending, candidate, gap, t.repeatTimes, t.frequencyHz, 0);
      var result := store.Put(command);
      if result != Ok {
        report, state := NotStored(result), Idle;
        return;
      }
      report, state := Stored(command.name), Captured;
    }
  }

  lemma {:induction false} NothingConcluded(t: TunedConfig, cfg: Config, b: Bench, landed: nat)
    ensures Concluded(t, cfg, b.machine, Verdict(b.learn, false), landed) == b
  {
  }

  /** A window in which no neighbours agree leaves the learn as it was. */
  lemma {:induction false} NoPairNoChange(t: Tuning, l: Learning, split: SplitFrames, n: nat)
    requires n < |split.frames| && |split.gaps| == |split.frames| - 1
    requires forall i :: 0 <= i < n ==> !GoodPair(t, split.frames, i)
    ensures AfterPairs(t, l, split, n) == l
  {
    hide GoodPair;
    if n != 0 {
      NoPairNoChange(t, l, split, n - 1);
    }
  }
}
