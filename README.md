# Ten-pin bowling scorer, modelled in Dafny

The system keeps score in a game of ten-pin bowling. It has two parts.

- A **frame** (`lib/frame.rb`) is one of the ten scoring positions. It records its rolls in an
  append-only list. Everything else is derived from that list and the frame's 1-based index:
  - its score, which is the sum of its rolls, bonus rolls included;
  - whether it is a strike or a spare;
  - how many rolls it accepts: 3 for a strike or a spare, otherwise 2;
  - whether it is full;
  - whether the game should move past it.
- A **game** (`lib/game.rb`) owns ten frames, numbered 1..10, and a cursor on the current one.
  - A roll outside 0..10 is refused.
  - A roll into a complete game is refused.
  - Any other roll first moves the cursor on, if the current frame says so. The roll is then
    offered to every frame from the first up to the cursor.
  - A frame that is already full ignores the roll. So a strike or a spare collects its bonus
    pins at the moment they are rolled.
  - The game's score is simply the sum of the frame scores.

The model has four modules.

- `Frames` (`frames.dfy`): the frame as a datatype, with its queries and `Roll` as functions.
  It also gives `Absorb`, a closed form of the frame that an empty frame becomes when offered a
  stream of rolls.
- `Games` (`games.dfy`):
  - `GameState`, the game as a value, states what one roll does.
  - `class Game` holds `frames` and `frameIndex` as fields. Its `Roll` method moves the
    cursor and updates the frames in place in a loop over positions `0..frameIndex`. It is
    proved to do exactly what `GameState.Roll` says.
- `LookAhead` (`lookahead.dfy`): the classic way to score bowling, which looks ahead from each
  frame (a strike counts the next two rolls, a spare the next one). It also gives
  `Reference`, a closed form of the game after any sequence of rolls with pins in 0..10. The main theorem,
  `EagerMatchesLookAhead`, covers every sequence of rolls with pins in 0..10:
  - rolling them one by one into a new game gives exactly `Reference` of that sequence;
  - its score is the look-ahead score.
- `Scenarios` (`scenarios.dfy`): the game's RSpec examples as lemmas about the game reached by
  rolling a sequence into a new game. Pins the examples fix (3 and 6, 1 and 7, 3 and 7, and
  so on) become parameters with the same constraints. Examples:
  - "an open frame" becomes any x, y >= 0 with x + y < 10;
  - "a spare" becomes any c, d with 0 <= c < 10 and c + d == 10. After a first roll of 10 the
    game moves on, so a 0 that follows is the next frame's first roll, not a spare's second.

## Model

| member | source | states |
|---|---|---|
| Frames.Frame.Roll | lib/frame.rb:9-11 | The roll is appended at the end exactly when the frame still accepts one (fewer rolls than its maximum); otherwise the rolls are unchanged. The index never changes. A frame within its limit stays within it, and its maximum never shrinks. |
| Frames.Frame.IsStrike | lib/frame.rb:43-45 | Defined as: the frame has a first roll and it is 10. An empty frame is not a strike. |
| Frames.Frame.IsSpare | lib/frame.rb:47-49 | Defined as: the frame has at least two rolls and the first two add up to 10. |
| Frames.Frame.IsBonus | lib/frame.rb:39-41 | Defined as: the frame is a strike or a spare. |
| Frames.Frame.CanRoll | lib/frame.rb:31-33 | For a frame within its roll limit, it accepts another roll exactly when it is not full. |
| Frames.Frame.HasMaxRolls | lib/frame.rb:21-23 | A full frame holds at least two rolls. |
| Frames.Frame.IsLastFrame | lib/frame.rb:25-27 | Defined as: the frame's index is 10. |
| Frames.Frame.MaxRolls | lib/frame.rb:35-37 | A frame accepts 2 or 3 rolls, never any other number. |
| Frames.Frame.ShouldAdvance | lib/frame.rb:17-19 | Frame 10 never asks to advance. Any other frame within its limit asks to advance exactly when it is a strike, a spare, or holds two rolls; so not after one roll that is not a strike. |
| Frames.Frame.Score | lib/frame.rb:13-15 | A frame with no rolls scores 0. |
| Frames.RollScore | lib/frame.rb:13-15 | After a roll the frame's score has grown by the pins if the frame accepted them, and by nothing otherwise. |
| Frames.Absorb | lib/frame.rb:35-49 | The closed form keeps a prefix of the stream. Its maximum is the one the whole stream's first two rolls decide. It holds the smaller of that maximum and the stream's length, so it stays within its limit. |
| Frames.AbsorbSnoc | lib/frame.rb:9-11 | Rolling one more pin count into the closed form of a stream gives the closed form of the longer stream. |
| Frames.RollEachFromEmpty | lib/frame.rb:9-11 | Rolling any sequence, one by one, into an empty frame keeps exactly the first MaxRolls rolls of it. |
| Frames.RollEachKeepsValid | lib/frame.rb:31-37 | After any sequence of rolls from empty, rolls.length <= MaxRolls <= 3. |
| Frames.MaxRollsSettled | lib/frame.rb:35-49 | Once a frame has two rolls, no further roll changes how many rolls it accepts. |
| Frames.StrikeTakesTwoMore | spec/frame_spec.rb:123-126 | A strike is not full after one further roll and is full after two; a third further roll is ignored. |
| Frames.SpareTakesOneMore | spec/frame_spec.rb:128-131 | A spare is not full until its next roll, is full after it, and ignores any roll after that, whatever its pins. |
| Frames.OpenTakesTwo | spec/frame_spec.rb:116-120 | An open frame is full after its second roll, not before, and ignores a third roll. |
| Frames.StrikeScore | spec/frame_spec.rb:39-46 | A strike scores 10 plus the next two rolls, whatever is rolled later. |
| Frames.SpareScore | spec/frame_spec.rb:48-55 | A spare scores 10 plus the next roll, whatever is rolled later. |
| Frames.OpenScore | spec/frame_spec.rb:32-37 | An open frame scores its two rolls, whatever is rolled later. |
| Games.TotalScore | lib/game.rb:15-17 | Defined as the sum of the frames' scores; frames with no rolls add up to 0 (Games.EmptyFramesScoreZero). |
| Games.GameState.Score | lib/game.rb:15-17 | Defined as the sum of the ten frame scores; how an accepted roll changes it is Games.ScoreDelta. |
| Games.GameState.CurrentFrame | lib/game.rb:19-21 | The frame under the cursor. In a valid game its number is the cursor + 1. |
| Games.GameState.IsComplete | lib/game.rb:39-41 | The current frame is frame 10 and is full. In a valid game this can hold only with the cursor on the tenth frame. |
| Games.GameState.StatusOf | lib/game.rb:24-35 | Defined as: pins outside 0..10 are reported invalid first; otherwise a complete game reports game over, and any other roll is accepted. |
| Games.OpenFrames | lib/game.rb:29-31 | Counts the frames among positions 0..last that still accept a roll. The count is never more than the number of frames, and is 0 when last is negative. |
| Games.Game.Score | lib/game.rb:15-17 | Defined as the score of the object's current state. |
| Games.Game.CurrentFrame | lib/game.rb:19-21 | Defined as the frame under the object's cursor. |
| Games.Game.IsComplete | lib/game.rb:39-41 | Defined as whether the object's current state is complete. |
| Games.RollUpTo | lib/game.rb:29-31 | Frames at positions 0..last are replaced by the frame after the roll. Every other frame is left as it is, and the number of frames is kept. |
| Games.GameState.Roll | lib/game.rb:23-37 | A valid game stays valid: ten frames numbered 1..10, each within its roll limit, cursor in 0..9, frames after the cursor empty. A refused roll (bad pins or complete game) changes nothing. An accepted roll moves the cursor on by one exactly when the current frame asked to advance; otherwise the cursor stays. An accepted roll is taken by the new current frame. |
| Games.Initial | lib/game.rb:6-13 | A new game has ten empty frames numbered 1..10 in order, the cursor on the first, score 0, and is not complete. |
| Games.EmptyFramesScoreZero | lib/game.rb:15-17 | Frames with no rolls add up to 0. |
| Games.RollAll | spec/game_spec.rb:12-14 | Rolling any sequence, one roll at a time, keeps a valid game valid. |
| Games.RollUpToScore | lib/game.rb:29-31 | Offering a roll to frames 0..last raises the total by pins times the number of those frames that still accept a roll. |
| Games.ScoreDelta | lib/game.rb:28-31 | An accepted roll raises the score by pins times the number of frames up to the new cursor that still accept a roll. That number is between 1 and the cursor + 1. |
| Games.OpenFramesBounds | lib/game.rb:29-31 | If the frame at position last accepts a roll, between 1 and last + 1 of the frames 0..last do. |
| Games.InvalidRollIgnored | lib/game.rb:24-25 | Pins below 0 or above 10 are reported as invalid and leave the game unchanged. |
| Games.CompleteIsFrozen | lib/game.rb:34-35 | Once the game is complete, every valid roll is reported as game over, and no sequence of rolls changes the game. |
| Games.Game.constructor | lib/game.rb:6-13 | The new object holds exactly the initial game. |
| Games.Game.Roll | lib/game.rb:23-37 | The loop over 0..frameIndex leaves the object in exactly the state GameState.Roll gives, and reports the status it gives. So every invariant of the game value carries over to the object. |
| LookAhead.EagerMatchesLookAhead | lib/game.rb:23-37 | For every sequence of rolls with pins in 0..10, the game after rolling them one by one is the closed form of the sequence. Its score is the classic look-ahead score: a strike counts 10 plus the next two rolls, a spare 10 plus the next roll, an open frame its pins. |
| LookAhead.EagerMatchesReference | lib/game.rb:23-37 | Rolling any sequence with pins in 0..10 into a new game gives its closed form. |
| LookAhead.ReferenceStep | lib/game.rb:27-31 | One more valid roll moves the closed form exactly as the game's roll moves the game. |
| LookAhead.ReferenceStepOpen | lib/game.rb:27-31 | In an unfinished game, one more roll moves the closed form exactly as the game's roll does. |
| LookAhead.ReferenceStepDone | lib/game.rb:34-35 | In a complete game, one more roll changes neither the game nor its closed form. |
| LookAhead.FramesAfterDone | lib/game.rb:39-41 | When all ten frames are reached and the tenth is full, a further roll leaves every frame as it was and the tenth still current. |
| LookAhead.ReferenceInitial | lib/game.rb:6-13 | The closed form of no rolls is a new game. |
| LookAhead.FrameSnoc | lib/game.rb:29-31 | Consider a frame that starts within the rolls so far, or right at their end. One more roll reaches it, as its own roll or a bonus, and is ignored if it is full. A frame that starts later is left unchanged. |
| LookAhead.AfterCurrent | lib/frame.rb:17-19 | The frame after a reached frame starts within the rolls, or right at their end, exactly when the reached frame asks to advance. |
| LookAhead.CursorBoundary | lib/game.rb:28-31 | The frames that receive the next roll are those up to the cursor after the advance step. Every later frame starts past the end of the rolls. |
| LookAhead.SaturatedAt | lib/game.rb:39-41 | Once ten frames are reached and the tenth is full, no frame accepts another roll. |
| LookAhead.StartedIff | lib/game.rb:28 | Frame k has been reached exactly when its start lies inside the rolls. |
| LookAhead.HeadFrameScore | lib/frame.rb:35-49 | The frame at the head of the rolls scores what the look-ahead scorer gives it. The rest of the look-ahead score starts after that frame's own rolls: one for a strike, two otherwise. |
| LookAhead.ClosedFormScore | lib/game.rb:15-17 | Frames k..9 of the closed form add up to the look-ahead score of the rolls from frame k's start on. |
| Scenarios.NewGame | spec/game_spec.rb:32-44 | Before any roll: score 0, ten frames, the current frame is frame 1. |
| Scenarios.FirstFrameOpen | spec/game_spec.rb:48-64 | An open first frame: the first roll scores its pins, the second adds its pins. |
| Scenarios.FirstFrameStrike | spec/game_spec.rb:66-76 | A first-frame strike scores 10, and the game asks to advance. The next roll moves the current frame on by one. |
| Scenarios.FirstFrameSpare | spec/game_spec.rb:78-88 | A first-frame spare scores 10, and the game asks to advance. The next roll moves the current frame on by one. |
| Scenarios.NextFrameGames | spec/game_spec.rb:105-111 | After an open first frame, the game scores the pins of every roll so far. |
| Scenarios.NextFrameFirstRoll | spec/game_spec.rb:100-103 | After an open first frame the game asks to advance. The next roll moves to frame 2. |
| Scenarios.NextFrameSecondRoll | spec/game_spec.rb:114-131 | The second roll of frame 2 stays in frame 2 and adds exactly its pins. |
| Scenarios.StrikeGames | spec/game_spec.rb:141-149 | An open frame then a strike: the strike scores 10 at once, and then 10 plus each of the next two rolls. |
| Scenarios.StrikeAdvances | spec/game_spec.rb:137-139 | After a strike in frame 2 the game asks to advance. The next roll moves to frame 3. |
| Scenarios.StrikeBonus | spec/game_spec.rb:141-149 | Each of the two rolls after a strike adds twice its pins. |
| Scenarios.MultipleStrikesGames | spec/game_spec.rb:151-162 | The scores after two strikes and the two rolls after them. |
| Scenarios.MultipleStrikes | spec/game_spec.rb:151-162 | A second strike adds 20. The next roll adds three times its pins, and the one after it twice its pins. |
| Scenarios.StrikeThenSpareGames | spec/game_spec.rb:164-168 | The score after a strike followed by a spare. |
| Scenarios.StrikeThenSpare | spec/game_spec.rb:164-168 | A spare straight after a strike adds 20. |
| Scenarios.SpareGames | spec/game_spec.rb:178-186 | The scores after a spare in frame 2 and the two rolls after it. |
| Scenarios.SpareAdvances | spec/game_spec.rb:174-176 | After a spare in frame 2 the game asks to advance. The next roll moves to frame 3. |
| Scenarios.SpareBonus | spec/game_spec.rb:178-186 | The roll after a spare adds twice its pins. The one after that adds its pins once. |
| Scenarios.NineFramesThen | spec/game_spec.rb:190-193 | After nine identical frames (each a strike, or any two rolls without a strike) and then any tenth-frame rolls, the game is complete exactly when the tenth frame is full. Its score is the look-ahead score. |
| Scenarios.AfterNineOpen | spec/game_spec.rb:190-201 | After nine open frames and any tenth-frame rolls, the score is the nine frames' pins plus the tenth frame's look-ahead score. The game is complete exactly when the tenth frame is full. |
| Scenarios.NineOpenFrames | spec/game_spec.rb:190-193 | After nine open frames the score is their pins and the game is not complete. |
| Scenarios.LastFrameOpenGames | spec/game_spec.rb:209-218 | After nine open frames, an open tenth frame adds its pins, and its second roll completes the game. |
| Scenarios.LastFrameOpen | spec/game_spec.rb:209-218 | An open tenth frame is like any other: each roll adds its pins, and the total is all the pins. The game goes from not complete to complete. |
| Scenarios.LastFrameOpenNoThirdRoll | spec/game_spec.rb:220-223 | A third roll into an open tenth frame is reported as game over and leaves the game, and so its score, as it was. |
| Scenarios.LastFrameStrikeGames | spec/game_spec.rb:226-234 | A tenth-frame strike takes three rolls, each adding its pins, and the third completes the game. |
| Scenarios.LastFrameStrike | spec/game_spec.rb:226-234 | A tenth-frame strike allows three rolls, each adding its pins once, and the total is all the pins. The game goes from not complete to complete. |
| Scenarios.LastFrameStrikeNoMoreRolls | spec/game_spec.rb:236-239 | A fourth roll after a tenth-frame strike is reported as game over and changes nothing. |
| Scenarios.LastFrameSpareGames | spec/game_spec.rb:226-234 | A tenth-frame spare takes three rolls, each adding its pins, and the third completes the game. |
| Scenarios.LastFrameSpare | spec/game_spec.rb:226-234 | A tenth-frame spare allows a third roll, each roll adding its pins once, and the total is all the pins. The game goes from not complete to complete. |
| Scenarios.LastFrameSpareNoMoreRolls | spec/game_spec.rb:236-239 | A fourth roll after a tenth-frame spare is reported as game over and changes nothing. |
| Scenarios.OpenFramesScore | spec/game_spec.rb:190-201 | A run of open frames that ends before frame 10 adds exactly its pins to the look-ahead score. |
| Scenarios.StrikesScore | spec/game_spec.rb:244-249 | A run of strikes ending in a tenth frame of three strikes scores 30 per frame. |
| Scenarios.TwelveStrikes | spec/game_spec.rb:244-249 | Twelve strikes score 300 and complete the game. |
| Scenarios.PerfectGame | spec/game_spec.rb:244-249 | Twelve strikes followed by any further rolls (the example rolls 21) leave the game as after twelve, with score 300. |

## Left out

- The messages that `puts` prints (lib/game.rb:25, 33, 35) are console output. `roll` reports a `Status` (`Ok`, `InvalidPins`, `GameOver`) in their place.
- `require './frame'` is load-path plumbing and has no counterpart.
- The `attr_accessor` setters on `Frame` and `Game` allow any external mutation. This is not modelled. A frame's index is given when it is built, which is what `frame.index = 10` in the frame examples amounts to.
- `Frame.new` without parameters gives index 0. This is `Frame(0, [])` in the model; nothing else treats it specially.
- Ruby's `nil == 10` on an empty roll list is modelled as "has at least one roll and the first is 10".
- Frames do not validate pins, as in the source: only the game checks 0..10. Two rolls in one frame may add up to more than 10, and the model accepts that just as the code does.
- The RSpec harness itself (`let`, `expect ... change`, `send` dispatch and `spec/support/roll_helpers.rb`) is left out. The examples appear as lemmas.
- Scenarios.FirstFrameStrike, Scenarios.StrikesScore, Scenarios.TwelveStrikes and Scenarios.PerfectGame take the strike as a parameter required to equal 10. They state the same facts as with a literal 10.
- The examples' literal pins (3 and 6, 1 and 7, 3 and 7, and so on) are generalised: each lemma holds for every choice of pins with the same shape. A strike is always 10 pins.
- Pins are integers. The code at lib/game.rb:24 also accepts floating-point pins, and raises an error for pins that are not numbers. Neither case is modelled.
- Integers are unbounded, as Ruby's are: no overflow is possible in the source, so none is modelled.
