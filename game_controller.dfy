/** The game loop's per-tick logic: two activity flags choose which controller is
    advanced, a finished attack clears its flag, the walk re-loops, and the loop stops
    once nothing is animating. Whether the skeleton is in attack range is an input;
    moving the minotaur and repainting the scene are reported as out-flags. */
module GameControllers {
  import opened AnimationControllers
  import CharacterSprites

  class GameController {
    const skeletonSprite: CharacterSprites.CharacterSprite
    const minotaurSprite: CharacterSprites.CharacterSprite
    const skeletonController: AnimationController
    const minotaurController: AnimationController
    var isMinotaurWalking: bool
    var isSkeletonAttacking: bool
    /** Whether the animation timer is started. */
    var loopRunning: bool

    /** The two clocks are distinct, each plays its sprite's frames, and between ticks
        neither rests in the completed state: a completion is consumed in the tick that
        reaches it. */
    ghost predicate Valid()
      reads this, skeletonController, minotaurController
    {
      && skeletonController != minotaurController
      && skeletonController.startFrame == skeletonSprite.startIndex
      && skeletonController.totalFrames == skeletonSprite.frameCount
      && minotaurController.startFrame == minotaurSprite.startIndex
      && minotaurController.totalFrames == minotaurSprite.frameCount
      && skeletonController.totalFrames >= 1 && minotaurController.totalFrames >= 1
      && skeletonController.Valid() && minotaurController.Valid()
      && !skeletonController.animationComplete && !minotaurController.animationComplete
    }

    /** Loads the 12 one-indexed skeleton frames and the 18 zero-padded, zero-indexed
        minotaur frames, and gives each a clock that starts at its sprite's first frame. */
    constructor ()
      ensures Valid()
      ensures skeletonSprite.spritePath == "images/skeleton/" && skeletonSprite.filePrefix == "skeleton_"
      ensures skeletonSprite.frameCount == 12 && skeletonSprite.startIndex == 1 && !skeletonSprite.usePadding
      ensures minotaurSprite.spritePath == "images/minotaur/" && minotaurSprite.filePrefix == "Minotaur_01_Walking_"
      ensures minotaurSprite.frameCount == 18 && minotaurSprite.startIndex == 0 && minotaurSprite.usePadding
      ensures skeletonSprite.Valid() && minotaurSprite.Valid()
      ensures skeletonController.State() == Rewound(1) && minotaurController.State() == Rewound(0)
      ensures !isSkeletonAttacking && !isMinotaurWalking && !loopRunning
    {
      var skeleton := new CharacterSprites.CharacterSprite("images/skeleton/", "skeleton_", 12, 1, false);
      var minotaur := new CharacterSprites.CharacterSprite("images/minotaur/", "Minotaur_01_Walking_", 18, 0, true);
      skeletonSprite := skeleton;
      minotaurSprite := minotaur;
      skeletonController := new AnimationController(12, skeleton.GetStartIndex());
      minotaurController := new AnimationController(18, minotaur.GetStartIndex());
      isMinotaurWalking := false;
      isSkeletonAttacking := false;
      loopRunning := false;
    }

    /** The attack button: ignored while an attack plays or out of range; otherwise
        starts the attack from its first frame and starts the loop. */
    method StartSkeletonAttack(inRange: bool)
      requires Valid()
      modifies this, skeletonController
      ensures Valid()
      ensures old(!isSkeletonAttacking && inRange) ==>
        isSkeletonAttacking && loopRunning && skeletonController.State() == Rewound(skeletonController.startFrame)
      ensures !old(!isSkeletonAttacking && inRange) ==>
        && isSkeletonAttacking == old(isSkeletonAttacking) && loopRunning == old(loopRunning)
        && skeletonController.State() == old(skeletonController.State())
      ensures isMinotaurWalking == old(isMinotaurWalking)
    {
      if !isSkeletonAttacking && inRange {
        isSkeletonAttacking := true;
        skeletonController.ResetAnimation();
        StartGameLoop();
      }
    }

    /** The approach: ignored while already walking; otherwise starts the walk from its
        first frame and starts the loop. */
    method StartMinotaurApproach()
      requires Valid()
      modifies this, minotaurController
      ensures Valid()
      ensures !old(isMinotaurWalking) ==>
        isMinotaurWalking && loopRunning && minotaurController.State() == Rewound(minotaurController.startFrame)
      ensures old(isMinotaurWalking) ==>
        && isMinotaurWalking && loopRunning == old(loopRunning)
        && minotaurController.State() == old(minotaurController.State())
      ensures isSkeletonAttacking == old(isSkeletonAttacking)
    {
      if !isMinotaurWalking {
        isMinotaurWalking := true;
        minotaurController.ResetAnimation();
        StartGameLoop();
      }
    }

    /** Replaces any running timer by a new one and starts it. */
    method StartGameLoop()
      modifies this`loopRunning
      ensures loopRunning
    {
      loopRunning := true;
    }

    /** One timer tick at time now; a stopped timer calls no tick. Returns whether the
        scene was repainted and whether the minotaur's position step ran. */
    method Handle(now: int) returns (redrawn: bool, minotaurMoved: bool)
      requires Valid() && loopRunning
      modifies this, skeletonController, minotaurController
      ensures Valid()
      // the attack: untouched while inactive; a finished attack clears its flag and rewinds
      ensures var sk := Advance(old(skeletonController.State()), skeletonController.startFrame,
                                skeletonController.totalFrames, now);
        && (!old(isSkeletonAttacking) ==>
              !isSkeletonAttacking && skeletonController.State() == old(skeletonController.State()))
        && (old(isSkeletonAttacking) && sk.changed && sk.state.animationComplete ==>
              !isSkeletonAttacking && skeletonController.State() == Rewound(skeletonController.startFrame))
        && (old(isSkeletonAttacking) && !(sk.changed && sk.state.animationComplete) ==>
              isSkeletonAttacking && skeletonController.State() == sk.state)
      // the walk: untouched while inactive; a finished walk re-loops; the flag never changes
      ensures var mk := Advance(old(minotaurController.State()), minotaurController.startFrame,
                                minotaurController.totalFrames, now);
        && isMinotaurWalking == old(isMinotaurWalking)
        && (!old(isMinotaurWalking) ==> minotaurController.State() == old(minotaurController.State()))
        && (old(isMinotaurWalking) && mk.changed && mk.state.animationComplete ==>
              minotaurController.State() == Rewound(minotaurController.startFrame))
        && (old(isMinotaurWalking) && !(mk.changed && mk.state.animationComplete) ==>
              minotaurController.State() == mk.state)
        // the position step runs exactly on an accepted walk frame
        && (minotaurMoved <==> old(isMinotaurWalking) && mk.changed)
      // a repaint happens exactly when some active clock accepted a step
      ensures redrawn <==>
        || (old(isSkeletonAttacking) && Advance(old(skeletonController.State()), skeletonController.startFrame,
                                                skeletonController.totalFrames, now).changed)
        || (old(isMinotaurWalking) && Advance(old(minotaurController.State()), minotaurController.startFrame,
                                              minotaurController.totalFrames, now).changed)
      // the loop stops exactly when neither flag is left set
      ensures loopRunning == (isSkeletonAttacking || isMinotaurWalking)
    {
      var needsRedraw := false;
      minotaurMoved := false;
      if isSkeletonAttacking {
        var advanced := skeletonController.Update(now);
        if advanced {
          needsRedraw := true;
          if skeletonController.IsAnimationComplete() {
            isSkeletonAttacking := false;
            skeletonController.ResetAnimation();
          }
        }
      }
      if isMinotaurWalking {
        var advanced := minotaurController.Update(now);
        if advanced {
          needsRedraw := true;
          minotaurMoved := true;
          if minotaurController.IsAnimationComplete() {
            minotaurController.ResetAnimation();
          }
        }
      }
      redrawn := needsRedraw;
      if !isSkeletonAttacking && !isMinotaurWalking {
        loopRunning := false;
      }
    }
  }
}
