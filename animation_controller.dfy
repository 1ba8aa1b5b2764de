/** The play-once animation clock: a time gate that lets a sprite sequence advance
    at most one frame per FrameDuration nanoseconds, runs once through
    [startFrame, startFrame + totalFrames) and then holds the last frame until it
    is rewound. */
module AnimationControllers {

  /** Nanoseconds a frame stays on screen before the next one may be shown (50 ms). */
  const FrameDuration: int := 50_000_000

  /** The part of a controller that changes; startFrame and totalFrames are fixed
      when the controller is built. */
  datatype AnimState = AnimState(currentFrame: int, lastFrameTime: int, animationComplete: bool)

  /** What one call of update leaves behind: the new state and the value it returns. */
  datatype Stepped = Stepped(state: AnimState, changed: bool)

  /** The index of the frame a finished sequence holds. */
  function LastFrame(startFrame: int, totalFrames: int): int
  {
    startFrame + totalFrames - 1
  }

  /** The state of a new or rewound controller: first frame, not complete, clock at 0. */
  function Rewound(startFrame: int): AnimState
  {
    AnimState(startFrame, 0, false)
  }

  /** The state every controller keeps: a finished sequence holds its last frame and,
      when there is at least one frame, the frame stays inside the sequence. */
  predicate Consistent(s: AnimState, startFrame: int, totalFrames: int)
  {
    && (s.animationComplete ==> s.currentFrame == LastFrame(startFrame, totalFrames))
    && (totalFrames >= 1 ==> startFrame <= s.currentFrame <= LastFrame(startFrame, totalFrames))
  }

  /** One call of update(now) on a controller in state s. */
  function Advance(s: AnimState, startFrame: int, totalFrames: int, now: int): (r: Stepped)
    // a step is taken exactly when the gate is open and the sequence is still playing
    ensures r.changed <==> now - s.lastFrameTime >= FrameDuration && !s.animationComplete
    // a refused step changes nothing, not even the clock
    ensures !r.changed ==> r.state == s
    // a step taken records its time and either shows the next frame or finishes on the last one
    ensures r.changed ==> r.state.lastFrameTime == now
    ensures r.changed ==>
      (r.state.animationComplete <==> s.currentFrame + 1 >= startFrame + totalFrames)
    ensures r.changed && !r.state.animationComplete ==> r.state.currentFrame == s.currentFrame + 1
    ensures Consistent(s, startFrame, totalFrames) ==> Consistent(r.state, startFrame, totalFrames)
  {
    if now - s.lastFrameTime < FrameDuration then Stepped(s, false)
    else if s.animationComplete then Stepped(s, false)
    else
      var next := s.currentFrame + 1;
      if next >= startFrame + totalFrames then
        Stepped(AnimState(LastFrame(startFrame, totalFrames), now, true), true)
      else
        Stepped(AnimState(next, now, false), true)
  }

  /** The gate is measured from lastFrameTime, which a rewind sets to 0: the first call
      after a rewind is accepted exactly when now is at least one frame duration. */
  lemma RewindOpensGate(startFrame: int, totalFrames: int, now: int)
    ensures Advance(Rewound(startFrame), startFrame, totalFrames, now).changed <==> now >= FrameDuration
  {
  }

  /** The accepted call that finishes the sequence returns true but keeps the last frame
      on screen: it shows no new frame. */
  lemma FinishingCallKeepsLastFrame(s: AnimState, startFrame: int, totalFrames: int, now: int)
    requires totalFrames >= 1 && Consistent(s, startFrame, totalFrames)
    requires !s.animationComplete && s.currentFrame == LastFrame(startFrame, totalFrames)
    requires now - s.lastFrameTime >= FrameDuration
    ensures var r := Advance(s, startFrame, totalFrames, now);
      r.changed && r.state.animationComplete && r.state.currentFrame == s.currentFrame
  {
  }

  /** A caller that rewinds on completion, as the walk does, gets two accepted calls
      less than a frame duration apart: the one that finishes the sequence at time t and
      any later one, since the rewind set the clock back to 0. */
  lemma RewindOnCompletionAcceptsNextCall(startFrame: int, totalFrames: int, t: int, gap: int)
    requires totalFrames >= 1
    requires t >= FrameDuration && gap >= 0
    ensures var finishing := Advance(AnimState(LastFrame(startFrame, totalFrames), t - FrameDuration, false),
                                     startFrame, totalFrames, t);
      && finishing.changed && finishing.state.animationComplete
      && Advance(Rewound(startFrame), startFrame, totalFrames, t + gap).changed
  {
    RewindOpensGate(startFrame, totalFrames, t + gap);
  }

  /** The state after update has been called once per timestamp, and how many of
      those calls returned true. */
  datatype Played = Played(state: AnimState, accepted: nat)

  function Run(s: AnimState, startFrame: int, totalFrames: int, times: seq<int>): Played
    decreases |times|
  {
    if times == [] then Played(s, 0)
    else
      var step := Advance(s, startFrame, totalFrames, times[0]);
      var rest := Run(step.state, startFrame, totalFrames, times[1..]);
      Played(rest.state, rest.accepted + if step.changed then 1 else 0)
  }

  /** s is where a sequence of totalFrames frames stands after k accepted updates
      since it was rewound. */
  predicate PlayedSinceRewind(s: AnimState, startFrame: int, totalFrames: int, k: nat)
  {
    && k <= totalFrames
    && (k < totalFrames ==> s.currentFrame == startFrame + k && !s.animationComplete)
    && (k == totalFrames ==> s.animationComplete && s.currentFrame == LastFrame(startFrame, totalFrames))
  }

  lemma {:induction false} RunCountsFrames(s: AnimState, startFrame: int, totalFrames: int, k: nat, times: seq<int>)
    requires totalFrames >= 1
    requires PlayedSinceRewind(s, startFrame, totalFrames, k)
    ensures PlayedSinceRewind(Run(s, startFrame, totalFrames, times).state, startFrame, totalFrames,
                              k + Run(s, startFrame, totalFrames, times).accepted)
    decreases |times|
  {
    if times != [] {
      var step := Advance(s, startFrame, totalFrames, times[0]);
      if step.changed {
        RunCountsFrames(step.state, startFrame, totalFrames, k + 1, times[1..]);
      } else {
        RunCountsFrames(step.state, startFrame, totalFrames, k, times[1..]);
      }
    }
  }

  /** From a rewound controller, whatever the timestamps: at most totalFrames calls
      are accepted, the sequence is complete exactly when totalFrames of them were,
      and the frame shown is startFrame plus the number accepted (pinned at the last
      frame once complete).  With totalFrames == 1 the first accepted call completes it. */
  lemma CompletesOnAcceptedUpdateNumberTotalFrames(startFrame: int, totalFrames: int, times: seq<int>)
    requires totalFrames >= 1
    ensures var r := Run(Rewound(startFrame), startFrame, totalFrames, times);
      && r.accepted <= totalFrames
      && (r.state.animationComplete <==> r.accepted == totalFrames)
      && r.state.currentFrame == startFrame + (if r.accepted == totalFrames then totalFrames - 1 else r.accepted)
  {
    RunCountsFrames(Rewound(startFrame), startFrame, totalFrames, 0, times);
  }

  /** Once complete, no further update changes anything or returns true. */
  lemma {:induction false} CompleteLatches(s: AnimState, startFrame: int, totalFrames: int, times: seq<int>)
    requires s.animationComplete
    ensures Run(s, startFrame, totalFrames, times) == Played(s, 0)
    decreases |times|
  {
    if times != [] {
      CompleteLatches(s, startFrame, totalFrames, times[1..]);
    }
  }

  /** Each timestamp is at least FrameDuration after the one before it, the first
      at least FrameDuration after `from`. */
  predicate Spaced(from: int, times: seq<int>)
    decreases |times|
  {
    times == [] || (times[0] - from >= FrameDuration && Spaced(times[0], times[1..]))
  }

  function Min(a: int, b: int): int
  {
    if a <= b then a else b
  }

  /** When the calls come at least one frame duration apart, every call is accepted
      until the sequence completes, and none after. */
  lemma {:induction false} SpacedCallsAreAccepted(s: AnimState, startFrame: int, totalFrames: int, k: nat, times: seq<int>)
    requires totalFrames >= 1
    requires PlayedSinceRewind(s, startFrame, totalFrames, k)
    requires Spaced(s.lastFrameTime, times)
    ensures Run(s, startFrame, totalFrames, times).accepted == Min(|times|, totalFrames - k)
    decreases |times|
  {
    if times != [] {
      if k == totalFrames {
        CompleteLatches(s, startFrame, totalFrames, times);
      } else {
        var step := Advance(s, startFrame, totalFrames, times[0]);
        SpacedCallsAreAccepted(step.state, startFrame, totalFrames, k + 1, times[1..]);
      }
    }
  }

  /** Driven from a rewound controller by calls one frame duration apart (the first at
      least FrameDuration after time 0), the sequence completes on call number totalFrames. */
  lemma SpacedRunCompletes(startFrame: int, totalFrames: int, times: seq<int>)
    requires totalFrames >= 1
    requires Spaced(0, times)
    ensures var r := Run(Rewound(startFrame), startFrame, totalFrames, times);
      r.state.animationComplete <==> |times| >= totalFrames
  {
    SpacedCallsAreAccepted(Rewound(startFrame), startFrame, totalFrames, 0, times);
    CompletesOnAcceptedUpdateNumberTotalFrames(startFrame, totalFrames, times);
  }

  class AnimationController {
    var currentFrame: int
    const startFrame: int
    var lastFrameTime: int
    var animationComplete: bool
    const totalFrames: int

    function State(): AnimState
      reads this
    {
      AnimState(currentFrame, lastFrameTime, animationComplete)
    }

    ghost predicate Valid()
      reads this
    {
      Consistent(State(), startFrame, totalFrames)
    }

    constructor (numOfFrames: int, startFrame: int)
      ensures totalFrames == numOfFrames && this.startFrame == startFrame
      ensures State() == Rewound(startFrame)
      ensures Valid()
    {
      totalFrames := numOfFrames;
      this.startFrame := startFrame;
      currentFrame := startFrame;
      lastFrameTime := 0;
      animationComplete := false;
    }

    /** Shows the next frame if a frame duration has passed since the last one and
        the sequence is not finished; returns whether the frame changed. */
    method Update(currentTime: int) returns (changed: bool)
      requires Valid()
      modifies this
      ensures Valid()
      ensures Stepped(State(), changed) == Advance(old(State()), startFrame, totalFrames, currentTime)
    {
      if currentTime - lastFrameTime < FrameDuration {
        return false;
      }
      if animationComplete {
        return false;
      }
      currentFrame := currentFrame + 1;
      if currentFrame >= startFrame + totalFrames {
        animationComplete := true;
        currentFrame := startFrame + totalFrames - 1;
      }
      lastFrameTime := currentTime;
      return true;
    }

    function IsAnimationComplete(): (r: bool)
      reads this
      requires Valid()
      ensures r ==> currentFrame == LastFrame(startFrame, totalFrames)
    {
      animationComplete
    }

    /** Rewinds frame, completion flag and clock; the new state does not depend on
        the old one, so rewinding twice is the same as rewinding once. */
    method ResetAnimation()
      modifies this
      ensures State() == Rewound(startFrame)
      ensures Valid()
    {
      currentFrame := startFrame;
      animationComplete := false;
      lastFrameTime := 0;
    }

    function GetCurrentFrame(): (r: int)
      reads this
      requires Valid()
      ensures totalFrames >= 1 ==> startFrame <= r <= LastFrame(startFrame, totalFrames)
    {
      currentFrame
    }
  }
}
