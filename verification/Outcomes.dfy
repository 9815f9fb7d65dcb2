/**
 * How a learn that stores nothing ends: refused before it is armed, or given up at its deadline, with a
 * reason that tells what was heard.
 */
module Outcomes {
  import opened Bytes
  import opened RegistryModel
  import opened Refinement
  import opened Capture
  import opened Learner
  import opened NoiseGate
  import opened GapSource
  import Runs

  // ---- Before it is armed -------------------------------------------------------------------

  /**
   * A learn is refused exactly for what the put of its capture would be refused for later: the name, with
   * the same result, or the lack of a slot. Any command of that name and of a length the store takes will do.
   */
  lemma {:induction false} ArmingForeseesThePut(t: TunedConfig, cfg: Config, ram: Ram, l: Learning, timeoutMs: u32,
                                                nowMs: u32, c: Command)
    requires Sound(cfg, ram.reg) && !ram.readOnly && ram.reg.restoreState == 0
    requires 1 <= |c.timings| <= cfg.maxPulses
    ensures var armed, put := Arming(t, cfg, ram.reg.slots, l, c.name, timeoutMs, nowMs), PutPlan(cfg, ram, c);
            && armed.pending == c.name
            && (if put == Refuse(StoreFull) then armed.state.Idle? && armed.report == NoSlotLeft
                else if put.Refuse? && put.why in {NameEmpty, NameTooLong, NameInvalid} then
                  armed.state.Idle? && armed.report == NameRejected(put.why)
                else armed.state.Armed?)
  {
    hide ProjectedBytes;
    var slots := ram.reg.slots;
    RoomLeft(slots, |slots|);
    NameErrors(c.name);
    if First(slots, AnyFree) < 0 {
      assert forall i :: 0 <= i < |slots| ==> !Matches(AnyFree, slots[i]);
    }
  }

  lemma {:induction false} NameErrors(name: Name)
    ensures ValidateName(name) in {Ok, NameEmpty, NameTooLong, NameInvalid}
  {
  }

  // ---- The deadline -------------------------------------------------------------------------

  /** Nothing but windows, ticks and operations elsewhere: no arming, cancelling or loss of power. */
  predicate Undisturbed(run: seq<Happening>) {
    forall i :: 0 <= i < |run| ==> run[i].Window? || run[i].Tick? || (run[i].Elsewhere? && run[i].event.Do?)
  }

  lemma {:induction false} PairsKeepDeadline(t: Tuning, l: Learning, split: SplitFrames, n: nat)
    requires n < |split.frames| && |split.gaps| == |split.frames| - 1
    ensures AfterPairs(t, l, split, n).deadlineMs == l.deadlineMs
  {
    hide GoodPair, Consistent;
    if n != 0 {
      PairsKeepDeadline(t, l, split, n - 1);
    }
  }

  lemma {:induction false} HeardKeepsDeadline(t: Tuning, l: Learning, raw: Frame, nowUs: u32, nowMs: u32)
    ensures Heard(t, l, raw, nowUs, nowMs).learn.deadlineMs == l.deadlineMs
  {
    hide SplitOf, AfterPairs, GoodPair, Consistent, WellShaped, VerdictOf, LongestWait;
    var split := SplitOf(t, Stripped(raw));
    if HasPair(t, split.frames) {
      PairsKeepDeadline(t, l, split, |split.frames| - 1);
    }
  }

  lemma {:induction false} StepKeepsDeadline(t: TunedConfig, cfg: Config, b: Bench, h: Happening)
    requires Undisturbed([h])
    ensures Next(t, cfg, b, h).learn.deadlineMs == b.learn.deadlineMs
  {
    hide Heard, Flash.Perform, ResolvedGap, Runs.Step;
    assert h == [h][0];
    if h.Window? {
      HeardKeepsDeadline(t, b.learn, h.raw, h.nowUs, h.nowMs);
    }
  }

  lemma {:induction false} RunKeepsDeadline(t: TunedConfig, cfg: Config, b: Bench, run: seq<Happening>)
    requires Undisturbed(run)
    ensures After(t, cfg, b, run).learn.deadlineMs == b.learn.deadlineMs
    decreases |run|
  {
    hide Next;
    if run != [] {
      assert Undisturbed([run[0]]);
      StepKeepsDeadline(t, cfg, b, run[0]);
      RunKeepsDeadline(t, cfg, Next(t, cfg, b, run[0]), run[1..]);
    }
  }

  /**
   * Whatever is heard meanwhile, a learn armed at time `at` that is not ready is given up by a tick exactly
   * from its deadline on, the given timeout later or the configured one; before that a tick changes nothing.
   * The times are true ones, within 2^31 ms of the deadline; the clock shows them modulo 2^32. A learn
   * that is ready is never given up.
   */
  lemma {:induction false} DeadlineIsKept(t: TunedConfig, cfg: Config, b: Bench, name: Name, timeoutMs: u32, at: int,
                                          run: seq<Happening>, now: int, saves: nat)
    requires Undisturbed(run)
    requires var deadline := at + if timeoutMs > 0 then timeoutMs else t.timeoutMs;
             -0x8000_0000 <= now - deadline < 0x8000_0000
    requires Next(t, cfg, b, Arm(name, timeoutMs, Clock(at))).learn.state.Armed?
    requires After(t, cfg, Next(t, cfg, b, Arm(name, timeoutMs, Clock(at))), run).learn.state.Armed?
    ensures var b' := After(t, cfg, Next(t, cfg, b, Arm(name, timeoutMs, Clock(at))), run);
            var b'' := Next(t, cfg, b', Tick(Clock(now), saves));
            && (!b'.learn.ready && now >= at + (if timeoutMs > 0 then timeoutMs else t.timeoutMs) ==>
                  b''.learn.state == Failed && b''.learn.report.GaveUp? && b''.machine == b'.machine)
            && (!b'.learn.ready && now < at + (if timeoutMs > 0 then timeoutMs else t.timeoutMs) ==> b'' == b')
            && (b'.learn.ready ==> b''.learn.state != Failed)
  {
    hide First, Occupancy, ValidateName, Flash.Perform, ResolvedGap, Due, Elapsed, After, Clock;
    var wait := if timeoutMs > 0 then timeoutMs else t.timeoutMs;
    var armed := Next(t, cfg, b, Arm(name, timeoutMs, Clock(at)));
    RunKeepsDeadline(t, cfg, armed, run);
    ClockAdds(at, wait);
    DueExactly(now, at + wait);
  }

  lemma {:induction false} ClockAdds(at: int, wait: nat)
    ensures Clock(Clock(at) + wait) == Clock(at + wait)
  {
  }

  // ---- The reason ---------------------------------------------------------------------------

  /** The window is a well-shaped frame, or two neighbours in it are and agree. */
  predicate HoldsFrames(t: Tuning, window: Frame) {
    || WellShaped(window, t.limits)
    || var frames := Split(window, t.frameGapMin).frames;
       exists i :: 0 <= i < |frames| - 1 && WellShaped(frames[i], t.limits) && WellShaped(frames[i + 1], t.limits)
                   && Agree(frames[i], frames[i + 1], t.limits.tolerance)
  }

  /** What the learner remembers of the windows heard since it was armed, for the case that it gives up. */
  ghost predicate Told(t: Tuning, l: Learning, windows: seq<Frame>) {
    && (l.sawFrame <==> exists k :: 0 <= k < |windows| && HoldsFrames(t, windows[k]))
    && (!l.sawFrame ==>
          l.lastReject == if windows == [] then Accepted else VerdictOf(windows[|windows| - 1], t.limits))
  }

  lemma {:induction false} PairsSeen(t: Tuning, l: Learning, split: SplitFrames, n: nat)
    requires n < |split.frames| && |split.gaps| == |split.frames| - 1
    ensures var after := AfterPairs(t, l, split, n);
            && after.lastReject == l.lastReject
            && (after.sawFrame <==> l.sawFrame || exists i :: 0 <= i < n && GoodPair(t, split.frames, i))
  {
    hide GoodPair, Consistent;
    if n != 0 {
      PairsSeen(t, l, split, n - 1);
    }
  }

  lemma {:induction false} ToldWindow(t: Tuning, l: Learning, windows: seq<Frame>, raw: Frame, nowUs: u32, nowMs: u32)
    requires l.state.Armed? && Told(t, l, windows)
    ensures Told(t, Heard(t, l, raw, nowUs, nowMs).learn, windows + [Stripped(raw)])
  {
    hide Agree, HoldsFrames, AfterPairs, Split, LongestWait, Elapsed;
    var window := Stripped(raw);
    var now, split := windows + [window], SplitOf(t, window);
    assert now[|windows|] == window;
    assert forall k :: 0 <= k < |windows| ==> now[k] == windows[k];
    HoldsPair(t, window);
    if HasPair(t, split.frames) {
      PairsSeen(t, l, split, |split.frames| - 1);
    }
  }

  lemma {:induction false} HoldsPair(t: Tuning, window: Frame)
    ensures HoldsFrames(t, window) <==> WellShaped(window, t.limits) || HasPair(t, SplitOf(t, window).frames)
  {
    hide Agree, WellShaped, Split;
    var frames := Split(window, t.frameGapMin).frames;
    if HasPair(t, frames) {
      var i :| 0 <= i < |frames| - 1 && GoodPair(t, frames, i);
    }
    if HoldsFrames(t, window) && !WellShaped(window, t.limits) {
      var i :| 0 <= i < |frames| - 1 && WellShaped(frames[i], t.limits) && WellShaped(frames[i + 1], t.limits)
               && Agree(frames[i], frames[i + 1], t.limits.tolerance);
      assert GoodPair(t, frames, i);
    }
  }

  lemma {:induction false} StepTold(t: TunedConfig, cfg: Config, b: Bench, windows: seq<Frame>, h: Happening)
    requires b.learn.state.Armed? ==> Told(t, b.learn, windows)
    ensures var l := Next(t, cfg, b, h).learn;
            l.state.Armed? ==> Told(t, l, WindowsAfter(b.learn, windows, h))
  {
    hide Heard, HoldsFrames, VerdictOf, Flash.Perform, ResolvedGap, ValidateName, First, Occupancy;
    if h.Window? && b.learn.state.Armed? {
      ToldWindow(t, b.learn, windows, h.raw, h.nowUs, h.nowMs);
    } else if h.Window? {
      NotArmed(t, b.learn, h);
    }
  }

  lemma {:induction false} RunTold(t: TunedConfig, cfg: Config, b: Bench, windows: seq<Frame>, run: seq<Happening>)
    requires b.learn.state.Armed? ==> Told(t, b.learn, windows)
    ensures var l := After(t, cfg, b, run).learn;
            l.state.Armed? ==> Told(t, l, WindowsOf(t, cfg, b, windows, run))
    decreases |run|
  {
    hide Told, Next, WindowsAfter;
    if run != [] {
      StepTold(t, cfg, b, windows, run[0]);
      RunTold(t, cfg, Next(t, cfg, b, run[0]), WindowsAfter(b.learn, windows, run[0]), run[1..]);
    }
  }

  /**
   * Take any run from boot and the tick at which the learn is given up. Of the windows heard since it was
   * armed, if one held a well-shaped frame the failure is that frames did not agree often enough; if there
   * was none the failure is the timeout; else it is what was wrong with the last one.
   */
  lemma {:induction false} FailureTellsWhatWasHeard(t: TunedConfig, cfg: Config, m: Runs.Machine, run: seq<Happening>,
                                                    now: u32, saves: nat)
    requires var b := After(t, cfg, Bench(AT_BOOT, m), run);
             b.learn.state.Armed? && Next(t, cfg, b, Tick(now, saves)).learn.state == Failed
    ensures var windows := WindowsOf(t, cfg, Bench(AT_BOOT, m), [], run);
            var pulses := if windows == [] then 0 else |windows[|windows| - 1]|;
            Next(t, cfg, After(t, cfg, Bench(AT_BOOT, m), run), Tick(now, saves)).learn.report ==
            GaveUp(if exists k :: 0 <= k < |windows| && HoldsFrames(t, windows[k]) then NoRepeatAgreement
                   else if windows == [] then Timeout
                   else if pulses < t.limits.minPulses then HeardTooFew
                   else if pulses > t.limits.maxPulses then HeardTooMany
                   else HeardOutOfRange)
  {
    hide After, WindowsOf, Flash.Perform, ResolvedGap, Due, Elapsed, Agree, Split;
    var boot := Bench(AT_BOOT, m);
    RunTold(t, cfg, boot, [], run);
    var b, windows := After(t, cfg, boot, run), WindowsOf(t, cfg, boot, [], run);
    if windows != [] {
      assert !HoldsFrames(t, windows[|windows| - 1]) ==> !WellShaped(windows[|windows| - 1], t.limits);
    }
  }
}
