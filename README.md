# Sprite timing and sequencing of the skeleton-versus-minotaur combat demo

This project models the logic of a small JavaFX demo in which a skeleton and a
minotaur are animated on a canvas:

- **AnimationController** (`animation_controller.dfy`) is the play-once animation clock.
  A call `update(now)` is accepted only when `now - lastFrameTime` is at least
  50 000 000 ns. `lastFrameTime` is the time of the last accepted call, but a reset
  sets it to 0, so the first call after a reset is accepted as soon as `now` is at
  least 50 000 000. Each accepted call before the last shows the next frame of
  `[startFrame, startFrame + totalFrames)`. The last accepted call, number
  `totalFrames` since a reset, returns true but keeps the last frame: it latches
  `animationComplete`, and later calls are refused. `resetAnimation` rewinds the
  frame, the flag and the clock. Because the walk resets on completion, the tick that
  finishes a walk and the very next tick are both accepted, however close together.
- **SkeletonController** (`skeleton_controller.dfy`) is the older looping clock. It has
  the same gate, wraps the frame modulo `frames`, and raises a `cycle` flag on frame 11.
  It lowers the flag when the frame wraps to 0. Java's `%` is written out, and so is
  the `ArithmeticException` that `% 0` throws.
- **CharacterSprite** (`character_sprite.dfy`) builds each frame's file name: the
  directory, the prefix, the decimal frame number (optionally zero-padded to three
  digits) and `.png`. It stores frame *n* at index *n* of an array of
  `startIndex + frameCount` slots and answers bounds-checked lookups.
- **GameController** (`game_controller.dfy`) holds the tick logic of the game loop.
  Two flags choose which clock is advanced. A finished attack clears its flag and
  rewinds. The walk re-loops. A repaint happens when an active clock stepped. The loop
  stops when both flags are down. The start commands are guard-clause no-ops.
- **Character** (`characters.dfy`) is a record of statistics built once. Its
  `takeDamage` has an empty body, so nothing ever changes it.

The state-changing classes are classes here too. The methods of the two clocks,
`AnimationController` and `SkeletonController`, are tied to a pure step function
(`Advance` in each module). The properties of many calls in a row are lemmas about
that function, and `Run` feeds it a sequence of timestamps. `GameController.Handle` is
stated through the play-once clock's `Advance` on the old clock states.
`CharacterSprite` has no step function: its loading loop is specified by the slot
contents it leaves.

Choices where the code leaves a gap:

- `GameController` calls `new AnimationController(12)` and `new AnimationController(18)`,
  but the class only has a two-argument constructor. The model passes each sprite's
  start index as the start frame: 1 for the skeleton, 0 for the minotaur.
- `isInAttackRange` is not defined in the code. It becomes the input `inRange` of
  `StartSkeletonAttack`.
- `updateMinotaurPosition` and `gameWorld.drawScene` are not defined in the code either.
  They become the out-flags `minotaurMoved` and `redrawn` of `Handle`.
- The `AnimationTimer` becomes the flag `loopRunning`.

The code has no combat rules: `takeDamage` is empty, and there is no phase variable
and no range computation. The model has none either.

## Model

| member | source | states |
|---|---|---|
| AnimationControllers.Advance | FInalProject/src/AnimationController.java:61-93 | a step is taken iff at least 50 ms have passed and the sequence is not complete; a refused step leaves frame, flag and clock unchanged; a step records `lastFrameTime = now`, completes exactly when the next frame would leave the sequence, and otherwise shows the next frame; the frame-bounds and pinned-last-frame invariant is preserved |
| AnimationControllers.RewindOpensGate | FInalProject/src/AnimationController.java:64-113 | after a reset the gate is measured from time 0: the first call is accepted exactly when `now` is at least 50 ms |
| AnimationControllers.FinishingCallKeepsLastFrame | FInalProject/src/AnimationController.java:75-86 | the accepted call that finishes the sequence returns true, latches completion and keeps the last frame rather than showing a new one |
| AnimationControllers.RewindOnCompletionAcceptsNextCall | FInalProject/src/GameController.java:84-89 | when the caller rewinds on completion, as the walk does, the finishing call at time t and any call at or after t are both accepted, however close together |
| AnimationControllers.RunCountsFrames | FInalProject/src/AnimationController.java:75-86 | after k accepted updates since a rewind, any further timestamps leave the state described by k plus the number of newly accepted updates (never more than totalFrames) |
| AnimationControllers.CompletesOnAcceptedUpdateNumberTotalFrames | FInalProject/src/AnimationController.java:80-86 | from a rewound clock, for any timestamps: at most totalFrames updates are accepted, completion happens exactly on accepted update number totalFrames (the first when totalFrames is 1), and the frame shown is startFrame plus the count, pinned at startFrame+totalFrames-1 once complete |
| AnimationControllers.CompleteLatches | FInalProject/src/AnimationController.java:70-72 | once complete, any further updates return false and change nothing, the clock included |
| AnimationControllers.SpacedCallsAreAccepted | FInalProject/src/AnimationController.java:64-92 | with calls at least one frame duration apart, every call is accepted until completion and none after |
| AnimationControllers.SpacedRunCompletes | FInalProject/src/AnimationController.java:64-86 | from a rewound clock, calls at least 50 ms apart (the first at least 50 ms after time 0) complete the sequence exactly when there have been totalFrames of them |
| AnimationControllers.AnimationController.constructor | FInalProject/src/AnimationController.java:49-53 | the clock starts at startFrame, not complete, with lastFrameTime 0, and keeps totalFrames and startFrame as given |
| AnimationControllers.AnimationController.Update | FInalProject/src/AnimationController.java:61-93 | the returned value and the new frame, flag and clock are those of `Advance` on the old state; the object invariant is kept |
| AnimationControllers.AnimationController.IsAnimationComplete | FInalProject/src/AnimationController.java:100-102 | a complete clock shows frame startFrame+totalFrames-1 |
| AnimationControllers.AnimationController.ResetAnimation | FInalProject/src/AnimationController.java:109-113 | sets frame to startFrame, clears the flag and sets the clock to 0, whatever the old state, so a second reset changes nothing |
| AnimationControllers.AnimationController.GetCurrentFrame | FInalProject/src/AnimationController.java:120-122 | with totalFrames at least 1 the frame lies in [startFrame, startFrame+totalFrames-1] |
| SkeletonControllers.JavaRem | FInalProject/src/SkeletonController.java:27 | Java's truncating remainder agrees with the mathematical one on a non-negative dividend and lies in [0, abs(b)) |
| SkeletonControllers.Advance | FInalProject/src/SkeletonController.java:21-43 | below the gate, false and no change; past it with 0 frames, an ArithmeticException and no change; otherwise true, `lastFrameTime = now`, frame `(currentFrame+1) mod frames`, the flag raised on frame 11, lowered on a wrap to 0 while raised, else kept; the frame stays in [0, abs(frames)) |
| SkeletonControllers.TwelveFramesKeepCycleMark | FInalProject/src/SkeletonController.java:27-36 | with 12 frames, one update keeps `cycle == (currentFrame == 11)` |
| SkeletonControllers.ShortSequencesNeverCycle | FInalProject/src/SkeletonController.java:27-36 | with 1 to 11 frames, one update never raises the flag |
| SkeletonControllers.TwelveFrameRunKeepsCycleMark | FInalProject/src/SkeletonController.java:27-36 | with 12 frames, any timestamps keep the frame in range and `cycle == (currentFrame == 11)` |
| SkeletonControllers.TwelveFrameCycleInvariant | FInalProject/src/SkeletonController.java:27-36 | from a new 12-frame controller, isAnimationComplete is true exactly while frame 11 is shown, for any timestamps |
| SkeletonControllers.ShortRunNeverCycles | FInalProject/src/SkeletonController.java:31-36 | with 1 to 11 frames the flag is never raised, so the animation never reports completion |
| SkeletonControllers.LongSequenceCountsUp | FInalProject/src/SkeletonController.java:27-36 | with 13 or more frames, starting on frame k with the flag up exactly when k is at least 11, updates at least 50 ms apart count up to frame k plus their number, up to frame 12 (k plus their number at most 12), with the flag up from frame 11 on |
| SkeletonControllers.LongSequenceBreaksCycleMark | FInalProject/src/SkeletonController.java:27-36 | with 13 or more frames, twelve updates 50 ms apart leave frame 12 with the flag still raised, so the frame-11 invariant fails |
| SkeletonControllers.SkeletonController.constructor | FInalProject/src/SkeletonController.java:17-19 | frame 0, clock 0, flag down, frames as given |
| SkeletonControllers.SkeletonController.Update | FInalProject/src/SkeletonController.java:21-43 | the returned value or exception and the new state are those of `Advance`; the bounds and cycle invariants are kept |
| SkeletonControllers.SkeletonController.IsAnimationComplete | FInalProject/src/SkeletonController.java:45-47 | with 12 frames, true exactly on frame 11; with fewer, never |
| SkeletonControllers.SkeletonController.ResetAnimation | FInalProject/src/SkeletonController.java:49 | changes no state |
| SkeletonControllers.SkeletonController.GetCurrentFrame | FInalProject/src/SkeletonController.java:51-53 | the frame is a valid index below abs(frames) |
| CharacterSprites.Decimal | FInalProject/src/CharacterSprite.java:126 | the `%d` text of a non-negative number is non-empty, all digits, with no leading zero |
| CharacterSprites.DecimalRoundTrip | FInalProject/src/CharacterSprite.java:126 | reading the `%d` text back gives the number |
| CharacterSprites.LeadingZerosAddNothing | FInalProject/src/CharacterSprite.java:122 | zeros put in front of digits do not change the number they denote |
| CharacterSprites.ZeroPad3 | FInalProject/src/CharacterSprite.java:122 | the padded text is exactly max(3, length) long: the given digits at its right end, zeros before them |
| CharacterSprites.PaddedDecimalDenotesNumber | FInalProject/src/CharacterSprite.java:122 | the `%03d` text has exactly three digits, or more with no leading zero; it is zeros followed by the `%d` text, and denotes the number |
| CharacterSprites.FrameFileName | FInalProject/src/CharacterSprite.java:119-126 | a frame's file name starts with the directory and the prefix and ends with ".png", with at least one character between |
| CharacterSprites.FileNameEncodesFrameNumber | FInalProject/src/CharacterSprite.java:119-126 | a frame's file name is path + prefix + digits + ".png", where the digits denote the frame number; with padding exactly three digits, or more with no leading zero; without padding no leading zero |
| CharacterSprites.CharacterSprite.constructor | FInalProject/src/CharacterSprite.java:61-68 | keeps every argument and leaves the frame array fully loaded |
| CharacterSprites.CharacterSprite.LoadSpriteFrames | FInalProject/src/CharacterSprite.java:108-133 | a fresh array of startIndex+frameCount slots; slot n for n in [startIndex, startIndex+frameCount) holds the image loaded from frame n's file name; slots below startIndex stay empty |
| CharacterSprites.CharacterSprite.GetFrame | FInalProject/src/CharacterSprite.java:76-83 | defined for every index: an image, loaded from that frame's file, exactly for indices in [startIndex, startIndex+frameCount), none otherwise |
| CharacterSprites.CharacterSprite.GetFrameCount | FInalProject/src/CharacterSprite.java:90-92 | the count from the constructor, even a negative one: the array has startIndex plus that many slots, ending with that many loaded frames from startIndex, and there is none after them |
| CharacterSprites.CharacterSprite.GetStartIndex | FInalProject/src/CharacterSprite.java:99-101 | the start index from the constructor: no frame below it, and the first frame at it when there are frames |
| Characters.NewCharacter | FInalProject/src/Character.java:12-21 | a new character has hitPoints equal to maxHitPoints and is alive; attack, defense and speed are stored as given |
| Characters.TakeDamage | FInalProject/src/Character.java:52 | the call changes no field: health, maximum, attack, defense, speed and the alive flag are all as before |
| Characters.AlwaysUnhurt | FInalProject/src/Character.java:24-52 | takeDamage changes nothing, so after any number of calls the character equals the new one: full health and alive for its whole life |
| GameControllers.GameController.constructor | FInalProject/src/GameController.java:26-43 | builds the skeleton sprite from "images/skeleton/" + "skeleton_" (12 frames, one-indexed, unpadded) and the minotaur sprite from "images/minotaur/" + "Minotaur_01_Walking_" (18 frames, zero-indexed, padded), one rewound clock for each, both flags down, loop stopped |
| GameControllers.GameController.StartSkeletonAttack | FInalProject/src/GameController.java:46-53 | when not attacking and in range: attack flag set, skeleton clock rewound, loop running; otherwise nothing changes; the walk flag is never touched |
| GameControllers.GameController.StartMinotaurApproach | FInalProject/src/GameController.java:56-62 | when not walking: walk flag set, minotaur clock rewound, loop running; otherwise nothing changes; the attack flag is never touched |
| GameControllers.GameController.StartGameLoop | FInalProject/src/GameController.java:64-104 | the loop is running afterwards |
| GameControllers.GameController.Handle | FInalProject/src/GameController.java:71-100 | called only while the loop runs; an inactive clock is not advanced; a completed attack clears its flag and rewinds; a completed walk rewinds and the walk flag never changes; the position step runs exactly on an accepted walk frame; a repaint happens exactly when an active clock accepted a step; the loop stops exactly when both flags are down; between ticks neither clock rests in the completed state |

## Left out

- Rendering and layout are not modelled: `GameWorld`, `GameBorderPane` and `Main` draw on the JavaFX canvas and build the window.
- The real-time scheduling of `AnimationTimer` is not modelled; only whether the loop is running is kept, as the flag `loopRunning`.
- Character positions are not modelled. They are `double` values, and `updateMinotaurPosition` and `isInAttackRange` are not defined in the code. The range test is an input, and the position step is the out-flag `minotaurMoved`.
- Image loading is a foreign call. A frame is a token that records its file name, and an image that fails to load is not modelled.
- `Combat` (console input and empty stubs) and `Spell` (accessors only) are not modelled.
- `Player` and `Enemy` are not modelled. Their three-argument `super` calls do not match the four-argument `Character` constructor, and they add no behaviour.
- Damage, defeat, turn phases and enemy retaliation are not modelled, because the code does not implement them.
- Java's 32-bit `int` and 64-bit `long` overflow is not modelled. Frames and timestamps are unbounded integers, so a wrap in `currentFrame++`, in `startFrame + totalFrames` or in `currentTime - lastFrameTime` is not captured.
- CharacterSprites.CharacterSprite.constructor: requires `startIndex >= 0` and `startIndex + frameCount >= 0`. Otherwise the Java code throws: a negative array size at allocation, or an index below 0 on the first store. The model does not capture that exception. The only callers pass (12, 1) and (18, 0). A negative `frameCount` that keeps the sum non-negative is modelled: nothing is loaded and the count is returned as given.
- CharacterSprites.CharacterSprite.LoadSpriteFrames: has the same requirement, for the same reason.
- CharacterSprites.Decimal: Java's `String.format` with `%d` and `%03d` uses the zero digit of the default locale. The model always produces the ASCII digits '0' to '9', as in an English locale.
