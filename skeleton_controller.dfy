/** The older, looping skeleton clock: the same 50 ms gate as the play-once clock,
    but the frame wraps modulo `frames` and a `cycle` flag, hard-wired to frame 11,
    stands in for "the animation is complete". */
module SkeletonControllers {
  import AnimationControllers

  /** The part of a controller that changes; `frames` is fixed at construction. */
  datatype SkelState = SkelState(currentFrame: int, lastFrameTime: int, cycle: bool)

  /** What a call of update hands back to its caller: the boolean it returns, or the
      ArithmeticException that Java's `%` throws when `frames` is 0. */
  datatype Return = Returned(value: bool) | ArithmeticException

  /** The new state after a call and what the call hands back. */
  datatype SkelStepped = SkelStepped(state: SkelState, result: Return)

  function Initial(): SkelState
  {
    SkelState(0, 0, false)
  }

  function Abs(n: int): nat
  {
    if n < 0 then -n else n
  }

  /** Java's `%` on int: the remainder truncated toward zero, so it takes the sign of a. */
  function JavaRem(a: int, b: int): (r: int)
    requires b != 0
    ensures a >= 0 ==> r == a % Abs(b)
    ensures a >= 0 ==> 0 <= r < Abs(b)
  {
    var m := Abs(a) % Abs(b);
    if a < 0 then -m else m
  }

  /** The frame stays a valid index of a `frames`-long sequence. */
  predicate InBounds(s: SkelState, frames: int)
  {
    0 <= s.currentFrame && (frames != 0 ==> s.currentFrame < Abs(frames))
  }

  /** The flag is set exactly while frame 11 is shown. */
  predicate CycleMarksLastFrame(s: SkelState)
  {
    s.cycle == (s.currentFrame == 11)
  }

  /** One call of update(now) on a controller in state s. */
  function Advance(s: SkelState, frames: int, now: int): (r: SkelStepped)
    // below the gate nothing changes and false is returned
    ensures now - s.lastFrameTime < AnimationControllers.FrameDuration ==> r == SkelStepped(s, Returned(false))
    // past the gate with no frames, `%` throws before any field is written
    ensures now - s.lastFrameTime >= AnimationControllers.FrameDuration && frames == 0 ==> r == SkelStepped(s, ArithmeticException)
    // past the gate otherwise: true is returned, the clock records now and the frame wraps
    ensures now - s.lastFrameTime >= AnimationControllers.FrameDuration && frames != 0 ==>
      r.result == Returned(true) && r.state.lastFrameTime == now
    ensures r.result == Returned(true) && s.currentFrame >= 0 ==>
      r.state.currentFrame == (s.currentFrame + 1) % Abs(frames)
    // the flag is raised on frame 11, lowered when the frame wraps to 0 while raised,
    // and otherwise kept
    ensures r.result == Returned(true) ==>
      && (r.state.currentFrame == 11 ==> r.state.cycle)
      && (r.state.currentFrame == 0 && s.cycle ==> !r.state.cycle)
      && (r.state.currentFrame != 11 && !(r.state.currentFrame == 0 && s.cycle) ==> r.state.cycle == s.cycle)
    ensures InBounds(s, frames) ==> InBounds(r.state, frames)
  {
    if now - s.lastFrameTime < AnimationControllers.FrameDuration then SkelStepped(s, Returned(false))
    else if frames == 0 then SkelStepped(s, ArithmeticException)
    else
      var next := JavaRem(s.currentFrame + 1, frames);
      var cycle := if next == 0 && s.cycle then false else if next == 11 then true else s.cycle;
      SkelStepped(SkelState(next, now, cycle), Returned(true))
  }

  /** With twelve frames (the count the game builds it with) the flag always marks frame 11. */
  lemma TwelveFramesKeepCycleMark(s: SkelState, frames: int, now: int)
    requires Abs(frames) == 12
    requires InBounds(s, frames) && CycleMarksLastFrame(s)
    ensures CycleMarksLastFrame(Advance(s, frames, now).state)
  {
  }

  /** With fewer than twelve frames, frame 11 never comes and the flag is never raised. */
  lemma ShortSequencesNeverCycle(s: SkelState, frames: int, now: int)
    requires 1 <= Abs(frames) <= 11
    requires InBounds(s, frames) && !s.cycle
    ensures !Advance(s, frames, now).state.cycle
  {
  }

  /** The state after update has been called once per timestamp. */
  function Run(s: SkelState, frames: int, times: seq<int>): SkelState
    decreases |times|
  {
    if times == [] then s else Run(Advance(s, frames, times[0]).state, frames, times[1..])
  }

  lemma {:induction false} TwelveFrameRunKeepsCycleMark(s: SkelState, frames: int, times: seq<int>)
    requires Abs(frames) == 12
    requires InBounds(s, frames) && CycleMarksLastFrame(s)
    ensures InBounds(Run(s, frames, times), frames) && CycleMarksLastFrame(Run(s, frames, times))
    decreases |times|
  {
    if times != [] {
      TwelveFramesKeepCycleMark(s, frames, times[0]);
      TwelveFrameRunKeepsCycleMark(Advance(s, frames, times[0]).state, frames, times[1..]);
    }
  }

  /** From a new controller with twelve frames, isAnimationComplete is true exactly
      while frame 11 is shown, whatever the timestamps. */
  lemma TwelveFrameCycleInvariant(frames: int, times: seq<int>)
    requires Abs(frames) == 12
    ensures Run(Initial(), frames, times).cycle == (Run(Initial(), frames, times).currentFrame == 11)
  {
    TwelveFrameRunKeepsCycleMark(Initial(), frames, times);
  }

  lemma {:induction false} ShortRunNeverCycles(s: SkelState, frames: int, times: seq<int>)
    requires 1 <= Abs(frames) <= 11
    requires InBounds(s, frames) && !s.cycle
    ensures InBounds(Run(s, frames, times), frames) && !Run(s, frames, times).cycle
    decreases |times|
  {
    if times != [] {
      ShortSequencesNeverCycle(s, frames, times[0]);
      ShortRunNeverCycles(Advance(s, frames, times[0]).state, frames, times[1..]);
    }
  }

  /** With thirteen frames or more, k accepted steps from frame 0 reach frame k, and
      the flag, once raised on frame 11, stays up on frame 12. */
  lemma {:induction false} LongSequenceCountsUp(s: SkelState, frames: int, k: nat, times: seq<int>)
    requires frames >= 13
    requires s.currentFrame == k && s.cycle == (k >= 11)
    requires k + |times| <= 12
    requires AnimationControllers.Spaced(s.lastFrameTime, times)
    ensures Run(s, frames, times).currentFrame == k + |times|
    ensures Run(s, frames, times).cycle == (k + |times| >= 11)
    decreases |times|
  {
    if times != [] {
      var next := Advance(s, frames, times[0]).state;
      assert next.currentFrame == k + 1;
      LongSequenceCountsUp(next, frames, k + 1, times[1..]);
    }
  }

  /** Evenly spaced timestamps, one frame duration apart, starting after `from`. */
  function Metronome(from: int, n: nat): (r: seq<int>)
    ensures |r| == n && AnimationControllers.Spaced(from, r)
    decreases n
  {
    if n == 0 then [] else [from + AnimationControllers.FrameDuration] + Metronome(from + AnimationControllers.FrameDuration, n - 1)
  }

  /** With thirteen frames or more the frame-11 invariant fails: twelve updates a frame
      duration apart leave frame 12 on screen with the flag still raised. */
  lemma LongSequenceBreaksCycleMark(frames: int)
    requires frames >= 13
    ensures var s := Run(Initial(), frames, Metronome(0, 12));
      s.currentFrame == 12 && s.cycle && !CycleMarksLastFrame(s)
  {
    LongSequenceCountsUp(Initial(), frames, 0, Metronome(0, 12));
  }

  class SkeletonController {
    var currentFrame: int
    var lastFrameTime: int
    var cycle: bool
    const frames: int

    function State(): SkelState
      reads this
    {
      SkelState(currentFrame, lastFrameTime, cycle)
    }

    ghost predicate Valid()
      reads this
    {
      && InBounds(State(), frames)
      && (Abs(frames) == 12 ==> CycleMarksLastFrame(State()))
      && (Abs(frames) <= 11 ==> !cycle)
    }

    constructor (numOfFrames: int)
      ensures frames == numOfFrames && State() == Initial()
      ensures Valid()
    {
      frames := numOfFrames;
      currentFrame := 0;
      lastFrameTime := 0;
      cycle := false;
    }

    /** Shows the next frame, wrapping after the last, once a frame duration has passed. */
    method Update(currentTime: int) returns (result: Return)
      requires Valid()
      modifies this
      ensures Valid()
      ensures SkelStepped(State(), result) == Advance(old(State()), frames, currentTime)
    {
      ghost var before := State();
      if currentTime - lastFrameTime < AnimationControllers.FrameDuration {
        return Returned(false);
      }
      if frames == 0 {
        return ArithmeticException;
      }
      currentFrame := JavaRem(currentFrame + 1, frames);
      if currentFrame == 0 && cycle {
        cycle := false;
      } else if currentFrame == 11 {
        cycle := true;
      }
      lastFrameTime := currentTime;
      result := Returned(true);
      if Abs(frames) == 12 {
        TwelveFramesKeepCycleMark(before, frames, currentTime);
      } else if Abs(frames) <= 11 {
        ShortSequencesNeverCycle(before, frames, currentTime);
      }
    }

    /** Reports the cycle flag: with twelve frames, true exactly while frame 11 is shown;
        with fewer, never. */
    function IsAnimationComplete(): (r: bool)
      reads this
      requires Valid()
      ensures Abs(frames) == 12 ==> (r <==> currentFrame == 11)
      ensures Abs(frames) <= 11 ==> !r
    {
      cycle
    }

    /** Does nothing: the looping clock has no state to rewind. */
    method ResetAnimation()
      ensures State() == old(State())
    {
    }

    function GetCurrentFrame(): (r: int)
      reads this
      requires Valid()
      ensures 0 <= r && (frames != 0 ==> r < Abs(frames))
    {
      currentFrame
    }
  }
}
