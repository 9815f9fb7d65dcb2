/**
 * Judging what the receiver heard: the shape of one frame, agreement between frames, cutting a receive
 * window into frames, and inferring the gap between frames from when they arrived.
 *
 * A frame is a list of durations in microseconds, positive for a mark and negative for a space.
 */
module Capture {
  import opened Bytes

  type Frame = seq<i32>

  datatype FrameVerdict = Accepted | TooFew | TooMany | OutOfRange

  datatype CaptureLimits =
    CaptureLimits(minPulses: u16, maxPulses: u16, minPulseUs: u32, maxPulseUs: u32, tolerance: Percent)

  type Percent = p: int | 0 <= p <= 100

  function Magnitude(timing: i32): u32 {
    if timing < 0 then -(timing as int) else timing
  }

  // ---- One frame ----------------------------------------------------------------------------

  predicate PulseAllowed(timing: i32, limits: CaptureLimits) {
    timing != 0 && limits.minPulseUs <= Magnitude(timing) <= limits.maxPulseUs
  }

  predicate WellShaped(frame: Frame, limits: CaptureLimits) {
    && limits.minPulses <= |frame| <= limits.maxPulses
    && forall i :: 0 <= i < |frame| ==> PulseAllowed(frame[i], limits)
  }

  /** The last entry of every capture is the receiver's own terminating silence. */
  function Stripped(capture: Frame): Frame {
    if capture == [] then [] else capture[..|capture| - 1]
  }

  method StripTerminator(capture: Frame) returns (frame: Frame)
    ensures frame == Stripped(capture)
    ensures capture != [] ==> frame + [capture[|capture| - 1]] == capture
  {
    frame := if capture == [] then [] else capture[..|capture| - 1];
  }

  /** Length is judged before any pulse. */
  function VerdictOf(frame: Frame, limits: CaptureLimits): FrameVerdict {
    if |frame| < limits.minPulses then TooFew
    else if |frame| > limits.maxPulses then TooMany
    else if WellShaped(frame, limits) then Accepted
    else OutOfRange
  }

  /** Accepts exactly the well-shaped frames. */
  method ValidateFrame(frame: Frame, limits: CaptureLimits) returns (verdict: FrameVerdict)
    ensures verdict == VerdictOf(frame, limits)
    ensures verdict == Accepted <==> WellShaped(frame, limits)
    ensures verdict == TooFew <==> |frame| < limits.minPulses
    ensures verdict == TooMany <==> |frame| >= limits.minPulses && |frame| > limits.maxPulses
    ensures verdict == OutOfRange <==>
            limits.minPulses <= |frame| <= limits.maxPulses &&
            exists i :: 0 <= i < |frame| &&
              (frame[i] == 0 || -(limits.minPulseUs as int) < frame[i] < limits.minPulseUs ||
               frame[i] > limits.maxPulseUs || frame[i] < -(limits.maxPulseUs as int))
  {
    if |frame| < limits.minPulses {
      return TooFew;
    }
    if |frame| > limits.maxPulses {
      return TooMany;
    }
    for i := 0 to |frame|
      invariant forall k :: 0 <= k < i ==> PulseAllowed(frame[k], limits)
    {
      if frame[i] == 0 || Magnitude(frame[i]) < limits.minPulseUs || Magnitude(frame[i]) > limits.maxPulseUs {
        return OutOfRange;
      }
    }
    return Accepted;
  }

  // ---- Agreement ----------------------------------------------------------------------------

  /** The tolerance bounds are 64-bit products, truncated to 32 bits. */
  function LowerBound(reference: u32, tolerance: Percent): u32 {
    (100 - tolerance) * reference / 100
  }

  function UpperBound(reference: u32, tolerance: Percent): u32 {
    (100 + tolerance) * reference / 100 % 0x1_0000_0000
  }

  predicate PulseAgrees(a: i32, b: i32, tolerance: Percent) {
    && (a < 0 <==> b < 0)
    && LowerBound(Magnitude(a), tolerance) <= Magnitude(b) <= UpperBound(Magnitude(a), tolerance)
  }

  predicate Agree(a: Frame, b: Frame, tolerance: Percent) {
    && |a| == |b| != 0
    && forall i :: 0 <= i < |a| ==> PulseAgrees(a[i], b[i], tolerance)
  }

  /**
   * Agreement without division: marks answer marks and spaces spaces, and each duration lies within the
   * tolerance of the reference, give or take the microsecond the lower bound is rounded down by. The longest
   * space at 100% agrees with nothing, as its upper bound wraps.
   */
  lemma {:induction false} AgreementInProducts(a: Frame, b: Frame, tolerance: Percent)
    ensures Agree(a, b, tolerance) <==>
            && a != [] && |a| == |b|
            && forall i :: 0 <= i < |a| ==>
                 && (a[i] < 0 <==> b[i] < 0) && !(tolerance == 100 && a[i] == -0x8000_0000)
                 && (100 - tolerance) * Magnitude(a[i]) < 100 * Magnitude(b[i]) + 100
                 && 100 * Magnitude(b[i]) <= (100 + tolerance) * Magnitude(a[i])
  {
    forall i | 0 <= i < |a| && |a| == |b|
      ensures PulseAgrees(a[i], b[i], tolerance) <==>
              && (a[i] < 0 <==> b[i] < 0) && !(tolerance == 100 && a[i] == -0x8000_0000)
              && (100 - tolerance) * Magnitude(a[i]) < 100 * Magnitude(b[i]) + 100
              && 100 * Magnitude(b[i]) <= (100 + tolerance) * Magnitude(a[i])
    {
      PulseInProducts(a[i], b[i], tolerance);
    }
  }

  lemma {:induction false} PulseInProducts(a: i32, b: i32, tolerance: Percent)
    ensures PulseAgrees(a, b, tolerance) <==>
            && (a < 0 <==> b < 0) && !(tolerance == 100 && a == -0x8000_0000)
            && (100 - tolerance) * Magnitude(a) < 100 * Magnitude(b) + 100
            && 100 * Magnitude(b) <= (100 + tolerance) * Magnitude(a)
  {
    var reference := Magnitude(a);
    assert 100 * (((100 - tolerance) * reference) / 100) <= (100 - tolerance) * reference;
    BoundsBracket(reference, tolerance);
    if !(tolerance == 100 && reference == 0x8000_0000) {
      NoWrap(reference, tolerance);
    }
  }

  lemma {:induction false} NoWrap(reference: u32, tolerance: Percent)
    requires reference <= 0x8000_0000 && !(tolerance == 100 && reference == 0x8000_0000)
    ensures UpperBound(reference, tolerance) == (100 + tolerance) * reference / 100
  {
    assert (100 + tolerance) * reference <= 100 * 0xFFFF_FFFF + 99;
  }

  method FramesAgree(a: Frame, b: Frame, tolerance: Percent) returns (agree: bool)
    ensures agree == Agree(a, b, tolerance)
  {
    if |a| != |b| || a == [] {
      return false;
    }
    for i := 0 to |a|
      invariant forall k :: 0 <= k < i ==> PulseAgrees(a[k], b[k], tolerance)
    {
      if (a[i] < 0) != (b[i] < 0) {
        return false;
      }
      var candidate := Magnitude(b[i]);
      if candidate < LowerBound(Magnitude(a[i]), tolerance) || candidate > UpperBound(Magnitude(a[i]), tolerance) {
        return false;
      }
    }
    return true;
  }

  lemma {:induction false} BoundsBracket(reference: u32, tolerance: Percent)
    requires reference <= 0x8000_0000
    ensures LowerBound(reference, tolerance) <= reference
    ensures tolerance == 100 && reference == 0x8000_0000 ==> UpperBound(reference, tolerance) == 0
    ensures !(tolerance == 100 && reference == 0x8000_0000) ==> reference <= UpperBound(reference, tolerance)
  {
    if !(tolerance == 100 && reference == 0x8000_0000) {
      assert (100 + tolerance) * reference <= 100 * 0xFFFF_FFFF + 99;
      assert (100 + tolerance) * reference / 100 <= 0xFFFF_FFFF;
    }
  }

  /**
   * A frame agrees with itself, unless it is empty, or the tolerance is 100% and some space has the one
   * duration whose double does not fit 32 bits.
   */
  lemma {:induction false} AgreesWithItself(frame: Frame, tolerance: Percent)
    ensures Agree(frame, frame, tolerance) <==> frame != [] && !(tolerance == 100 && -0x8000_0000 in frame)
  {
    forall i | 0 <= i < |frame|
      ensures PulseAgrees(frame[i], frame[i], tolerance) <==> !(tolerance == 100 && frame[i] == -0x8000_0000)
    {
      BoundsBracket(Magnitude(frame[i]), tolerance);
    }
  }

  /** Agreement has a direction: the first frame sets the bounds the second must meet. */
  lemma {:induction false} AgreementIsOneWay(length: nat)
    requires length != 0
    ensures var long, short := seq(length, _ => 100 as i32), seq(length, _ => 75 as i32);
            Agree(long, short, 25) && !Agree(short, long, 25)
  {
    var long, short := seq(length, _ => 100 as i32), seq(length, _ => 75 as i32);
    assert !PulseAgrees(short[0], long[0], 25);
  }

  // ---- Duration -----------------------------------------------------------------------------

  function AirTime(frame: Frame, n: nat): nat
    requires n <= |frame|
  {
    if n == 0 then 0 else AirTime(frame, n - 1) + Magnitude(frame[n - 1])
  }

  function Duration(frame: Frame): u32 {
    var total := AirTime(frame, |frame|);
    if total > 0xFFFF_FFFF then 0xFFFF_FFFF else total
  }

  lemma {:induction false} AirTimeAdds(a: Frame, b: Frame, n: nat)
    requires n <= |b|
    ensures AirTime(a + b, |a| + n) == AirTime(a, |a|) + AirTime(b, n)
  {
    if n != 0 {
      AirTimeAdds(a, b, n - 1);
    } else {
      AirTimePrefix(a, b, |a|);
    }
  }

  lemma {:induction false} AirTimePrefix(a: Frame, b: Frame, n: nat)
    requires n <= |a|
    ensures AirTime(a + b, n) == AirTime(a, n)
  {
    if n != 0 {
      AirTimePrefix(a, b, n - 1);
    }
  }

  /** Durations add up, as far as 32 bits go. */
  lemma {:induction false} DurationAdds(a: Frame, b: Frame, pulse: i32)
    ensures Duration([]) == 0
    ensures Duration([pulse]) == if pulse < 0 then -(pulse as int) else pulse
    ensures var both := Duration(a) + Duration(b);
            Duration(a + b) == if both > 0xFFFF_FFFF then 0xFFFF_FFFF else both
  {
    AirTimeAdds(a, b, |b|);
    assert AirTime([pulse], 1) == AirTime([pulse], 0) + Magnitude(pulse);
  }

  method FrameDuration(frame: Frame) returns (us: u32)
    ensures us == Duration(frame)
  {
    var total := 0;
    for i := 0 to |frame|
      invariant total == AirTime(frame, i)
    {
      total := total + Magnitude(frame[i]);
    }
    us := if total > 0xFFFF_FFFF then 0xFFFF_FFFF else total;
  }

  // ---- Cutting a window into frames ---------------------------------------------------------

  predicate LongSpace(timing: i32, threshold: u32) {
    timing < 0 && Magnitude(timing) >= threshold
  }

  datatype SplitFrames = SplitFrames(frames: seq<Frame>, gaps: seq<u32>)

  /** A window partly cut: the frames closed so far, their gaps, and the frame still open. */
  datatype Cutting = Cutting(frames: seq<Frame>, gaps: seq<u32>, current: Frame)

  function Cut(c: Cutting, timing: i32, threshold: u32): Cutting {
    if !LongSpace(timing, threshold) then c.(current := c.current + [timing])
    else if c.current == [] then c
    else Cutting(c.frames + [c.current], c.gaps + [Magnitude(timing)], [])
  }

  function CutAll(c: Cutting, timings: Frame, threshold: u32): Cutting
    decreases |timings|
  {
    if timings == [] then c else CutAll(Cut(c, timings[0], threshold), timings[1..], threshold)
  }

  /** The open frame closes, and a gap that nothing follows separates nothing. */
  function Closed(c: Cutting): SplitFrames {
    var frames := if c.current == [] then c.frames else c.frames + [c.current];
    var keep := if frames == [] then 0 else |frames| - 1;
    SplitFrames(frames, if |c.gaps| <= keep then c.gaps else c.gaps[..keep])
  }

  function Split(timings: Frame, threshold: u32): SplitFrames {
    Closed(CutAll(Cutting([], [], []), timings, threshold))
  }

  lemma {:induction false} CutAppend(c: Cutting, a: Frame, b: Frame, threshold: u32)
    ensures CutAll(c, a + b, threshold) == CutAll(CutAll(c, a, threshold), b, threshold)
    decreases |a|
  {
    if a == [] {
      assert a + b == b;
    } else {
      assert (a + b)[1..] == a[1..] + b;
      CutAppend(Cut(c, a[0], threshold), a[1..], b, threshold);
    }
  }

  method SplitWindow(timings: Frame, threshold: u32) returns (result: SplitFrames)
    ensures result == Split(timings, threshold)
  {
    var frames: seq<Frame>, gaps: seq<u32>, current: Frame := [], [], [];
    for i := 0 to |timings|
      invariant Cutting(frames, gaps, current) == CutAll(Cutting([], [], []), timings[..i], threshold)
    {
      CutAppend(Cutting([], [], []), timings[..i], [timings[i]], threshold);
      assert timings[..i + 1] == timings[..i] + [timings[i]];
      var isSpace, magnitude := timings[i] < 0, Magnitude(timings[i]);
      if isSpace && magnitude >= threshold {
        if current != [] {
          frames, gaps, current := frames + [current], gaps + [magnitude], [];
        }
      } else {
        current := current + [timings[i]];
      }
    }
    assert timings[..|timings|] == timings;
    if current != [] {
      frames := frames + [current];
    }
    ghost var all := gaps;
    while |gaps| >= |frames| && gaps != []
      invariant gaps <= all && (|gaps| < |all| ==> |gaps| >= |frames| - 1)
    {
      gaps := gaps[..|gaps| - 1];
    }
    result := SplitFrames(frames, gaps);
  }

  // ---- What cutting means -------------------------------------------------------------------

  /** The window with `frames` laid out between `runs` of long spaces, one run before each and one after all. */
  function Laid(frames: seq<Frame>, runs: seq<Frame>): Frame
    requires |runs| == |frames| + 1
  {
    if frames == [] then runs[0] else runs[0] + frames[0] + Laid(frames[1..], runs[1..])
  }

  predicate IsFrame(frame: Frame, threshold: u32) {
    frame != [] && forall i :: 0 <= i < |frame| ==> !LongSpace(frame[i], threshold)
  }

  predicate IsRun(run: Frame, threshold: u32) {
    forall i :: 0 <= i < |run| ==> LongSpace(run[i], threshold)
  }

  /** Whole frames, each free of long spaces and none empty, held apart by at least one long space. */
  predicate Reading(frames: seq<Frame>, runs: seq<Frame>, threshold: u32) {
    && |runs| == |frames| + 1
    && (forall i :: 0 <= i < |frames| ==> IsFrame(frames[i], threshold))
    && (forall i :: 0 <= i < |runs| ==> IsRun(runs[i], threshold))
    && (forall i :: 0 < i < |frames| ==> runs[i] != [])
  }

  /** The space right after each frame but the last. */
  function FirstSpaces(frames: seq<Frame>, runs: seq<Frame>, threshold: u32): (gaps: seq<u32>)
    requires Reading(frames, runs, threshold)
    ensures |gaps| == if frames == [] then 0 else |frames| - 1
    ensures forall i :: 0 <= i < |gaps| ==> gaps[i] == Magnitude(runs[i + 1][0])
  {
    seq(if frames == [] then 0 else |frames| - 1, i requires 0 <= i < |frames| - 1 => Magnitude(runs[i + 1][0]))
  }

  lemma {:induction false} CutFrame(c: Cutting, frame: Frame, threshold: u32)
    requires forall i :: 0 <= i < |frame| ==> !LongSpace(frame[i], threshold)
    ensures CutAll(c, frame, threshold) == c.(current := c.current + frame)
    decreases |frame|
  {
    if frame == [] {
      assert c.current + frame == c.current;
    } else {
      CutFrame(Cut(c, frame[0], threshold), frame[1..], threshold);
      assert c.current + [frame[0]] + frame[1..] == c.current + frame;
    }
  }

  lemma {:induction false} CutRun(c: Cutting, run: Frame, threshold: u32)
    requires IsRun(run, threshold)
    ensures CutAll(c, run, threshold) ==
            if run == [] || c.current == [] then c
            else Cutting(c.frames + [c.current], c.gaps + [Magnitude(run[0])], [])
    decreases |run|
  {
    if run != [] {
      CutRun(Cut(c, run[0], threshold), run[1..], threshold);
    }
  }

  /** The gaps met while cutting: one for every frame a long space follows. */
  function Spaces(frames: seq<Frame>, runs: seq<Frame>): seq<u32>
    requires |runs| == |frames| + 1
  {
    if frames == [] || runs[1] == [] then [] else [Magnitude(runs[1][0])] + Spaces(frames[1..], runs[1..])
  }

  lemma {:induction false} CutWhole(c: Cutting, run: Frame, frame: Frame, rest: Frame, threshold: u32)
    requires IsRun(run, threshold) && IsFrame(frame, threshold) && c.current == []
    ensures CutAll(c, run + frame + rest, threshold) == CutAll(c.(current := frame), rest, threshold)
  {
    CutAppend(c, run + frame, rest, threshold);
    CutAppend(c, run, frame, threshold);
    CutRun(c, run, threshold);
    CutFrame(c, frame, threshold);
    assert c.current + frame == frame;
  }

  /** A long space closes the open frame, whatever more of them follow. */
  lemma {:induction false} CutClose(c: Cutting, frames: seq<Frame>, runs: seq<Frame>, threshold: u32)
    requires |runs| == |frames| + 1 && IsRun(runs[0], threshold) && runs[0] != [] && c.current != []
    ensures CutAll(c, Laid(frames, runs), threshold) ==
            CutAll(Cutting(c.frames + [c.current], c.gaps + [Magnitude(runs[0][0])], []), Laid(frames, runs), threshold)
  {
    var tail := if frames == [] then [] else frames[0] + Laid(frames[1..], runs[1..]);
    var closed := Cutting(c.frames + [c.current], c.gaps + [Magnitude(runs[0][0])], []);
    assert Laid(frames, runs) == runs[0] + tail;
    CutAppend(c, runs[0], tail, threshold);
    CutAppend(closed, runs[0], tail, threshold);
    CutRun(c, runs[0], threshold);
    CutRun(closed, runs[0], threshold);
  }

  lemma {:induction false} ReadingOfRest(frames: seq<Frame>, runs: seq<Frame>, threshold: u32)
    requires Reading(frames, runs, threshold) && frames != []
    ensures Reading(frames[1..], runs[1..], threshold)
    ensures IsFrame(frames[0], threshold) && IsRun(runs[0], threshold) && IsRun(runs[1], threshold)
    ensures |runs| == |frames| + 1 && (runs[1] == [] ==> frames[1..] == [])
  {
    hide IsFrame, IsRun;
  }

  lemma {:induction false} UnfoldReading(c: Cutting, frames: seq<Frame>, runs: seq<Frame>)
    requires |runs| == |frames| + 1 && frames != []
    ensures Laid(frames, runs) == runs[0] + frames[0] + Laid(frames[1..], runs[1..])
    ensures c.frames + frames == c.frames + [frames[0]] + frames[1..]
    ensures runs[1] != [] ==> c.gaps + Spaces(frames, runs) ==
                              c.gaps + [Magnitude(runs[1][0])] + Spaces(frames[1..], runs[1..])
  {
  }

  lemma {:induction false} CutNoFrame(c: Cutting, runs: seq<Frame>, threshold: u32)
    requires Reading([], runs, threshold) && c.current == []
    ensures CutAll(c, Laid([], runs), threshold) == c
    ensures c == Cutting(c.frames + [], c.gaps + Spaces([], runs), [])
  {
    CutRun(c, runs[0], threshold);
  }

  lemma {:induction false} CutLaid(c: Cutting, frames: seq<Frame>, runs: seq<Frame>, threshold: u32)
    requires Reading(frames, runs, threshold) && c.current == [] && |c.gaps| == |c.frames|
    ensures Closed(CutAll(c, Laid(frames, runs), threshold)) ==
            Closed(Cutting(c.frames + frames, c.gaps + Spaces(frames, runs), []))
    decreases |frames|
  {
    hide *;
    if frames == [] {
      CutNoFrame(c, runs, threshold);
    } else {
      ReadingOfRest(frames, runs, threshold);
      UnfoldReading(c, frames, runs);
      CutWhole(c, runs[0], frames[0], Laid(frames[1..], runs[1..]), threshold);
      if runs[1] == [] {
        LastFrame(c, frames, runs, threshold);
      } else {
        var closed := Cutting(c.frames + [frames[0]], c.gaps + [Magnitude(runs[1][0])], []);
        NotEmpty(frames[0], threshold);
        CutClose(c.(current := frames[0]), frames[1..], runs[1..], threshold);
        CutLaid(closed, frames[1..], runs[1..], threshold);
      }
    }
  }

  lemma {:induction false} NotEmpty(frame: Frame, threshold: u32)
    requires IsFrame(frame, threshold)
    ensures frame != []
  {
  }

  lemma {:induction false} LastFrame(c: Cutting, frames: seq<Frame>, runs: seq<Frame>, threshold: u32)
    requires Reading(frames, runs, threshold) && c.current == [] && |c.gaps| == |c.frames|
    requires frames != [] && runs[1] == []
    ensures Closed(CutAll(c.(current := frames[0]), Laid(frames[1..], runs[1..]), threshold)) ==
            Closed(Cutting(c.frames + frames, c.gaps + Spaces(frames, runs), []))
  {
    assert |frames| == 1;
    assert frames == [frames[0]] && frames[1..] == [] && IsFrame(frames[0], threshold);
    assert c.gaps + Spaces(frames, runs) == c.gaps;
  }

  lemma {:induction false} SpacesAre(frames: seq<Frame>, runs: seq<Frame>, threshold: u32)
    requires Reading(frames, runs, threshold)
    ensures var spaces, first := Spaces(frames, runs), FirstSpaces(frames, runs, threshold);
            |first| <= |spaces| <= |frames| && spaces[..|first|] == first
    decreases |frames|
  {
    hide IsFrame, IsRun, LongSpace;
    if frames != [] && runs[1] != [] {
      var rest, first := Spaces(frames[1..], runs[1..]), FirstSpaces(frames[1..], runs[1..], threshold);
      SpacesAre(frames[1..], runs[1..], threshold);
      assert Spaces(frames, runs) == [Magnitude(runs[1][0])] + rest;
      if |frames| > 1 {
        assert FirstSpaces(frames, runs, threshold) == [Magnitude(runs[1][0])] + first;
      }
    }
  }

  /**
   * Cutting undoes laying out: frames separated by one long space or several, with any number of them
   * before and after, come back whole and in order, each gap the first space after its frame. As the
   * frames determine the result, a window has only one such reading.
   */
  lemma {:induction false} SplitUndoesLaying(frames: seq<Frame>, runs: seq<Frame>, threshold: u32)
    requires Reading(frames, runs, threshold)
    ensures Split(Laid(frames, runs), threshold) == SplitFrames(frames, FirstSpaces(frames, runs, threshold))
  {
    hide IsFrame, IsRun, LongSpace, Laid;
    CutLaid(Cutting([], [], []), frames, runs, threshold);
    SpacesAre(frames, runs, threshold);
    assert [] + frames == frames;
  }

  lemma {:induction false} PushRun(t: i32, frames: seq<Frame>, runs: seq<Frame>, threshold: u32)
    requires Reading(frames, runs, threshold) && LongSpace(t, threshold)
    ensures var pushed := [[t] + runs[0]] + runs[1..];
            Reading(frames, pushed, threshold) && Laid(frames, pushed) == [t] + Laid(frames, runs)
  {
    var pushed := [[t] + runs[0]] + runs[1..];
    assert IsRun(runs[0], threshold);
    if frames != [] {
      assert pushed[1..] == runs[1..];
      assert [t] + runs[0] + frames[0] + Laid(frames[1..], runs[1..]) ==
             [t] + (runs[0] + frames[0] + Laid(frames[1..], runs[1..]));
    }
  }

  lemma {:induction false} PushPulse(t: i32, frames: seq<Frame>, runs: seq<Frame>, threshold: u32)
    requires Reading(frames, runs, threshold) && !LongSpace(t, threshold) && frames != [] && runs[0] == []
    ensures var pushed := [[t] + frames[0]] + frames[1..];
            Reading(pushed, runs, threshold) && Laid(pushed, runs) == [t] + Laid(frames, runs)
  {
    var pushed := [[t] + frames[0]] + frames[1..];
    assert IsFrame(frames[0], threshold);
    assert pushed[1..] == frames[1..];
    assert [] + pushed[0] + Laid(frames[1..], runs[1..]) == [t] + ([] + frames[0] + Laid(frames[1..], runs[1..]));
  }

  lemma {:induction false} PushFrame(t: i32, frames: seq<Frame>, runs: seq<Frame>, threshold: u32)
    requires Reading(frames, runs, threshold) && !LongSpace(t, threshold) && (frames == [] || runs[0] != [])
    ensures Reading([[t]] + frames, [[]] + runs, threshold)
    ensures Laid([[t]] + frames, [[]] + runs) == [t] + Laid(frames, runs)
  {
    assert ([[t]] + frames)[1..] == frames && ([[]] + runs)[1..] == runs;
    assert IsFrame([t], threshold);
  }

  /** Every window has such a reading. */
  lemma {:induction false} ReadingExists(timings: Frame, threshold: u32) returns (frames: seq<Frame>, runs: seq<Frame>)
    ensures Reading(frames, runs, threshold) && Laid(frames, runs) == timings
  {
    if timings == [] {
      frames, runs := [], [[]];
    } else {
      var t := timings[0];
      frames, runs := ReadingExists(timings[1..], threshold);
      assert timings == [t] + timings[1..];
      if LongSpace(t, threshold) {
        PushRun(t, frames, runs, threshold);
        runs := [[t] + runs[0]] + runs[1..];
      } else if frames != [] && runs[0] == [] {
        PushPulse(t, frames, runs, threshold);
        frames := [[t] + frames[0]] + frames[1..];
      } else {
        PushFrame(t, frames, runs, threshold);
        frames, runs := [[t]] + frames, [[]] + runs;
      }
    }
  }

  /**
   * What `split_frames` returns for any window: the whole window is its frames laid out between runs of
   * long spaces, no frame is empty or holds a long space, and gap i is the first space after frame i.
   */
  lemma {:induction false} SplitReadsTheWindow(timings: Frame, threshold: u32) returns (runs: seq<Frame>)
    ensures var split := Split(timings, threshold);
            && Reading(split.frames, runs, threshold)
            && Laid(split.frames, runs) == timings
            && split.gaps == FirstSpaces(split.frames, runs, threshold)
  {
    hide Split, Laid, Reading, FirstSpaces;
    var frames;
    frames, runs := ReadingExists(timings, threshold);
    SplitUndoesLaying(frames, runs, threshold);
  }

  function Joined(frames: seq<Frame>): Frame {
    if frames == [] then [] else frames[0] + Joined(frames[1..])
  }

  function Shorts(timings: Frame, threshold: u32): Frame {
    if timings == [] then []
    else (if LongSpace(timings[0], threshold) then [] else [timings[0]]) + Shorts(timings[1..], threshold)
  }

  lemma {:induction false} ShortsAppend(a: Frame, b: Frame, threshold: u32)
    ensures Shorts(a + b, threshold) == Shorts(a, threshold) + Shorts(b, threshold)
    decreases |a|
  {
    if a == [] {
      assert a + b == b;
    } else {
      assert (a + b)[1..] == a[1..] + b;
      ShortsAppend(a[1..], b, threshold);
    }
  }

  lemma {:induction false} ShortsOf(timings: Frame, threshold: u32)
    ensures IsRun(timings, threshold) ==> Shorts(timings, threshold) == []
    ensures (forall i :: 0 <= i < |timings| ==> !LongSpace(timings[i], threshold)) ==>
              Shorts(timings, threshold) == timings
    decreases |timings|
  {
    if timings != [] {
      ShortsOf(timings[1..], threshold);
      assert timings == [timings[0]] + timings[1..];
    }
  }

  lemma {:induction false} LaidShorts(frames: seq<Frame>, runs: seq<Frame>, threshold: u32)
    requires Reading(frames, runs, threshold)
    ensures Shorts(Laid(frames, runs), threshold) == Joined(frames)
    decreases |frames|
  {
    hide LongSpace, Shorts;
    assert IsRun(runs[0], threshold);
    ShortsOf(runs[0], threshold);
    if frames != [] {
      ReadingOfRest(frames, runs, threshold);
      assert IsFrame(frames[0], threshold);
      ShortsOf(frames[0], threshold);
      ShortsAppend(runs[0] + frames[0], Laid(frames[1..], runs[1..]), threshold);
      ShortsAppend(runs[0], frames[0], threshold);
      LaidShorts(frames[1..], runs[1..], threshold);
    }
  }

  /** Nothing but long spaces is dropped: the frames, end to end, are the rest of the window in order. */
  lemma {:induction false} SplitKeepsEveryPulse(timings: Frame, threshold: u32)
    ensures Joined(Split(timings, threshold).frames) == Shorts(timings, threshold)
  {
    hide Split, Laid, Reading, FirstSpaces;
    var runs := SplitReadsTheWindow(timings, threshold);
    LaidShorts(Split(timings, threshold).frames, runs, threshold);
  }

  // ---- The gap, inferred from arrivals ------------------------------------------------------

  function EstimateGap(span: u32, intervals: nat, frameUs: u32, minGap: u32, maxGap: u32, minIntervals: nat): (gap: u32)
    ensures gap != 0 ==> minGap <= gap <= maxGap
  {
    if intervals < minIntervals || intervals == 0 then 0
    else
      var period := span / intervals;
      if period <= frameUs then 0
      else if period - frameUs < minGap || period - frameUs > maxGap then 0
      else period - frameUs
  }

  /** The estimate is the one gap the mean period leaves, when it is within bounds and the intervals are enough. */
  lemma {:induction false} EstimateIsTheMean(span: u32, intervals: nat, frameUs: u32, minGap: u32, maxGap: u32,
                                             minIntervals: nat, gap: u32)
    requires gap != 0
    ensures EstimateGap(span, intervals, frameUs, minGap, maxGap, minIntervals) == gap <==>
            && intervals >= 1 && intervals >= minIntervals && minGap <= gap <= maxGap
            && intervals * (frameUs + gap) <= span < intervals * (frameUs + gap) + intervals
  {
    if intervals != 0 {
      QuotientIs(span, intervals, frameUs + gap);
    }
  }

  lemma {:induction false} QuotientIs(a: nat, b: nat, q: nat)
    requires b != 0
    ensures a / b == q <==> b * q <= a < b * q + b
  {
    var p, r := a / b, a % b;
    assert a == b * p + r;
    ProductsOrdered(b, p + 1, q);
    ProductsOrdered(b, q + 1, p);
  }

  /** The difference of two readings of the 32-bit microsecond clock. */
  function Elapsed(from: u32, to: u32): u32 {
    (to - from) % 0x1_0000_0000
  }

  function Clock(us: int): u32 {
    us % 0x1_0000_0000
  }

  /**
   * `arrivals` are noticed late: arrival i, truly at start + i * period, by less than `tick`. The clock
   * readings are whole microseconds.
   */
  ghost predicate NoticedWithin(arrivals: seq<int>, start: real, period: real, tick: real) {
    forall i :: 0 <= i < |arrivals| ==> 0.0 <= arrivals[i] as real - Arrival(start, period, i) < tick
  }

  function Arrival(start: real, period: real, i: nat): real {
    start + i as real * period
  }

  /** Enough intervals, and a true gap that no lateness can put outside the bounds. */
  predicate Estimable(n: nat, gap: real, tick: real, minGap: u32, maxGap: u32, minIntervals: nat) {
    n >= 1 && n >= minIntervals && minGap as real + tick / n as real + 1.0 <= gap <= maxGap as real - tick / n as real
  }

  /**
   * A non-zero estimate over n intervals is off by less than tick / n, and by the part of a microsecond
   * the division drops; and there is one when the intervals are enough and the true gap well inside its bounds.
   */
  lemma {:induction false} EstimateBound(arrivals: seq<int>, start: real, period: real, tick: real, frameUs: u32,
                                         minGap: u32, maxGap: u32, minIntervals: nat)
    requires |arrivals| >= 2 && NoticedWithin(arrivals, start, period, tick)
    requires 0 <= arrivals[|arrivals| - 1] - arrivals[0] < 0x1_0000_0000
    ensures var n := |arrivals| - 1;
            var span := Elapsed(Clock(arrivals[0]), Clock(arrivals[n]));
            var gap := EstimateGap(span, n, frameUs, minGap, maxGap, minIntervals);
            var error := gap as real - (period - frameUs as real);
            && (gap != 0 ==> -tick / n as real - 1.0 < error < tick / n as real)
            && (Estimable(n, period - frameUs as real, tick, minGap, maxGap, minIntervals) ==> gap != 0)
  {
    var n := |arrivals| - 1;
    var span := arrivals[n] - arrivals[0];
    ClockSpan(arrivals[0], arrivals[n]);
    assert 0.0 <= arrivals[0] as real - Arrival(start, period, 0) < tick;
    assert 0.0 <= arrivals[n] as real - Arrival(start, period, n) < tick;
    hide Estimable;
    AverageBound(span, n, period, tick);
    if Estimable(n, period - frameUs as real, tick, minGap, maxGap, minIntervals) {
      EstimateIsMade(span, n, period, tick, frameUs, minGap, maxGap, minIntervals);
    }
  }

  lemma {:induction false} EstimateIsMade(span: u32, n: nat, period: real, tick: real, frameUs: u32, minGap: u32,
                                          maxGap: u32, minIntervals: nat)
    requires Estimable(n, period - frameUs as real, tick, minGap, maxGap, minIntervals)
    requires -tick / n as real - 1.0 < (span / n) as real - period < tick / n as real
    ensures EstimateGap(span, n, frameUs, minGap, maxGap, minIntervals) != 0
  {
    var late := tick / n as real;
    assert -tick / n as real == -late;
    var gap := (span / n) as real - frameUs as real;
    assert minGap as real < gap < maxGap as real;
  }

  lemma {:induction false} ClockSpan(from: int, to: int)
    requires 0 <= to - from < 0x1_0000_0000
    ensures Elapsed(Clock(from), Clock(to)) == to - from
  {
  }

  lemma {:induction false} AverageBound(span: nat, n: nat, period: real, tick: real)
    requires n >= 1 && -tick < span as real - n as real * period < tick
    ensures -tick / n as real - 1.0 < (span / n) as real - period < tick / n as real
  {
    var q, r := span / n, span % n;
    var d := n as real;
    assert span == q * n + r;
    assert span as real == q as real * d + r as real;
    var e := q as real - period;
    assert d * e == span as real - d * period - r as real;
    assert d * e < tick && d * e > -tick - d;
    DividedBy(e, d, tick);
  }

  lemma {:induction false} RealProducts(d: real, a: real, b: real)
    requires d > 0.0
    ensures a >= b ==> d * a >= d * b
    ensures a > b ==> d * a > d * b
  {
    if a >= b {
      assert d * (a - b) >= 0.0;
      assert a > b ==> d * (a - b) > 0.0;
    }
  }

  lemma {:induction false} DividedBy(e: real, d: real, tick: real)
    requires d > 0.0 && -tick - d < d * e < tick
    ensures -tick / d - 1.0 < e < tick / d
  {
    var t := tick / d;
    assert d * t == tick;
    assert -tick / d == -t;
    RealProducts(d, e, t);
    RealProducts(d, -t - 1.0, e);
    assert d * (-t - 1.0) == -(d * t) - d;
  }

  /** On whole microseconds the bound reads: at most floor(tick / n) + 1. */
  lemma {:induction false} WholeEstimateBound(arrivals: seq<int>, start: int, period: int, tick: nat, frameUs: u32,
                                              minGap: u32, maxGap: u32, minIntervals: nat)
    requires |arrivals| >= 2
    requires forall i :: 0 <= i < |arrivals| ==> 0 <= arrivals[i] - (start + i * period) < tick
    requires 0 <= arrivals[|arrivals| - 1] - arrivals[0] < 0x1_0000_0000
    ensures var n := |arrivals| - 1;
            var span := Elapsed(Clock(arrivals[0]), Clock(arrivals[n]));
            var gap := EstimateGap(span, n, frameUs, minGap, maxGap, minIntervals);
            gap != 0 ==> -(tick / n) - 1 <= gap - (period - frameUs) <= tick / n
  {
    var n := |arrivals| - 1;
    var span := arrivals[n] - arrivals[0];
    ClockSpan(arrivals[0], arrivals[n]);
    assert -(tick as int) < span - n * period < tick;
    WholeAverageBound(span, n, period, tick);
  }

  lemma {:induction false} WholeAverageBound(span: nat, n: nat, period: int, tick: nat)
    requires n >= 1 && -(tick as int) < span - n * period < tick
    ensures -(tick / n) - 1 <= span / n - period <= tick / n
  {
    var q, r, t, s := span / n, span % n, tick / n, tick % n;
    var e := q - period;
    assert n * e == span - r - n * period;
    assert tick == n * t + s;
    Products(n, e, t);
  }

  lemma {:induction false} ProductsOrdered(n: nat, a: int, b: int)
    ensures a <= b ==> n * a <= n * b
    ensures n * a + n == n * (a + 1)
  {
  }

  lemma {:induction false} Products(n: nat, e: int, t: int)
    ensures e > t ==> n * e >= n * t + n
    ensures e < -t - 1 ==> n * e <= -(n * t) - 2 * n
  {
    if e > t {
      ProductsOrdered(n, t + 1, e);
      assert n * (t + 1) == n * t + n;
    }
    if e < -t - 1 {
      ProductsOrdered(n, e, -t - 2);
      assert n * (-t - 2) == -(n * t) - 2 * n;
    }
  }

  ghost predicate InOrder(arrivals: seq<int>) {
    forall i, j :: 0 <= i <= j < |arrivals| ==> arrivals[i] <= arrivals[j]
  }

  /**
   * The documented bound at one loop period: whatever train of n + 1 arrivals spans `span` and was noticed
   * within `tick`, the estimate is off by at most tick / n.
   */
  ghost predicate OffByTickOverN(span: u32, n: nat, tick: real, frameUs: u32, minGap: u32, maxGap: u32,
                                 minIntervals: nat)
    requires n >= 1
  {
    forall arrivals: seq<int>, start: real, period: real ::
      NoticedWithin(arrivals, start, period, tick) && InOrder(arrivals) && |arrivals| == n + 1 &&
      arrivals[n] - arrivals[0] == span ==>
        var measured := Elapsed(Clock(arrivals[0]), Clock(arrivals[n]));
        var gap := EstimateGap(measured, n, frameUs, minGap, maxGap, minIntervals);
        var error := gap as real - (period - frameUs as real);
        -tick / n as real <= error <= tick / n as real
  }

  /** The microsecond, from 0 on, at which something that happens at `x` is first noticed. */
  function NoticedAt(x: real): int {
    if x <= 0.0 then 0 else -(-x).Floor
  }

  /** A train whose first arrival is noticed almost a tick late and whose last is noticed at once. */
  ghost function LateStart(n: nat, start: real, period: real): (arrivals: seq<int>)
    ensures |arrivals| == n + 1
  {
    seq(n + 1, i requires 0 <= i => NoticedAt(Arrival(start, period, i)))
  }

  lemma {:induction false} NoticedSoon(x: real, y: real, tick: real)
    requires tick >= 1.0 && x > -tick
    ensures 0.0 <= NoticedAt(x) as real - x < tick
    ensures x <= y ==> NoticedAt(x) <= NoticedAt(y)
  {
    var up := -(-x).Floor;
    assert 0.0 <= up as real - x < 1.0;
    if x <= y && x > 0.0 {
      assert (-y).Floor as real <= -y <= -x;
    }
  }

  lemma {:induction false} NoticedWhole(k: nat)
    ensures NoticedAt(k as real) == k
  {
  }

  lemma {:induction false} InTurn(start: real, period: real, i: nat, j: nat)
    requires i <= j && period >= 0.0
    ensures start == Arrival(start, period, 0) <= Arrival(start, period, i) <= Arrival(start, period, j)
  {
    var a, b := i as real, j as real;
    assert a * period >= 0.0 && (b - a) * period >= 0.0;
    assert b * period == a * period + (b - a) * period;
  }

  lemma {:induction false} LateStartIsNoticed(span: u32, n: nat, start: real, period: real, tick: real)
    requires n >= 1 && tick >= 1.0 && period >= 0.0
    requires -tick < start <= 0.0 && Arrival(start, period, n) == span as real
    ensures var arrivals := LateStart(n, start, period);
            && NoticedWithin(arrivals, start, period, tick) && InOrder(arrivals)
            && arrivals[n] - arrivals[0] == span
  {
    hide NoticedAt, Arrival;
    var arrivals := LateStart(n, start, period);
    forall i, j | 0 <= i <= j <= n
      ensures arrivals[i] <= arrivals[j]
      ensures 0.0 <= arrivals[i] as real - Arrival(start, period, i) < tick
    {
      InTurn(start, period, i, j);
      NoticedSoon(Arrival(start, period, i), Arrival(start, period, j), tick);
    }
    NoticedWhole(span);
    InTurn(start, period, 0, n);
    NoticedLate(start);
  }

  lemma {:induction false} NoticedLate(x: real)
    requires x <= 0.0
    ensures NoticedAt(x) == 0
  {
  }

  /** The period that makes such a train span exactly `span`, and how far off the mean then is. */
  lemma {:induction false} LateStartShortfall(span: u32, n: nat, tick: real)
    requires n >= 1 && tick >= 1.0 && span % n != 0
    ensures var period := (span as real + (tick - 0.5)) / n as real;
            && period >= 0.0 && Arrival(-(tick - 0.5), period, n) == span as real
            && (span / n) as real - period < -tick / n as real
  {
    var q, r, d := span / n, span % n, n as real;
    var period, t := (span as real + (tick - 0.5)) / d, tick / d;
    assert span as real == d * q as real + r as real;
    assert d * period == span as real + (tick - 0.5);
    assert d * t == tick;
    assert -tick / d == -t;
    RealProducts(d, 0.0, period);
    assert d * (q as real + t) == d * q as real + d * t;
    assert d * (q as real + t) < d * period;
    RealProducts(d, q as real + t, period);
    assert q as real + t < period;
  }

  /**
   * Whatever the loop period, the documented bound holds for every train that yields an estimate exactly
   * when the interval count divides the span.
   */
  lemma {:induction false} TickOverNNeedsExactDivision(span: u32, n: nat, tick: real, frameUs: u32, minGap: u32,
                                                       maxGap: u32, minIntervals: nat)
    requires n >= 1 && tick >= 1.0
    requires EstimateGap(span, n, frameUs, minGap, maxGap, minIntervals) != 0
    ensures OffByTickOverN(span, n, tick, frameUs, minGap, maxGap, minIntervals) <==> span % n == 0
  {
    if span % n == 0 {
      forall arrivals: seq<int>, start: real, period: real
        | NoticedWithin(arrivals, start, period, tick) && |arrivals| == n + 1 && arrivals[n] - arrivals[0] == span
        ensures Elapsed(Clock(arrivals[0]), Clock(arrivals[n])) == span
        ensures -tick / n as real < (span / n) as real - period < tick / n as real
      {
        assert 0.0 <= arrivals[0] as real - Arrival(start, period, 0) < tick;
        assert 0.0 <= arrivals[n] as real - Arrival(start, period, n) < tick;
        ClockSpan(arrivals[0], arrivals[n]);
        ExactAverage(span, n, period, tick);
      }
    } else {
      hide NoticedWithin, LateStart, InOrder, Elapsed, Clock;
      var start, period := -(tick - 0.5), (span as real + (tick - 0.5)) / n as real;
      LateStartShortfall(span, n, tick);
      LateStartIsNoticed(span, n, start, period, tick);
      var arrivals := LateStart(n, start, period);
      ClockSpan(arrivals[0], arrivals[n]);
    }
  }

  lemma {:induction false} ExactAverage(span: nat, n: nat, period: real, tick: real)
    requires n >= 1 && span % n == 0 && -tick < span as real - n as real * period < tick
    ensures -tick / n as real < (span / n) as real - period < tick / n as real
  {
    var q, d := span / n, n as real;
    assert span == q * n;
    assert span as real == q as real * d;
    var e, t := q as real - period, tick / d;
    assert d * e == span as real - d * period;
    assert d * t == tick;
    assert -tick / d == -t;
    RealProducts(d, e, t);
    RealProducts(d, -t, e);
    assert d * -t == -tick;
  }
}
