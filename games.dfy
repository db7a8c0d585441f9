/**
 * A game of ten frames and a cursor on the current one (lib/game.rb).
 *
 * Every accepted roll is offered to every frame from the first up to the current one; a
 * frame that is already full ignores it, so strikes and spares collect their bonus pins at
 * the moment those pins are rolled, and the game's score is simply the sum of its frames.
 *
 * GameState is the game as a value and states what one roll does; class Game is the object
 * that the rolls update in place, proved against GameState.
 */
module Games {
  import opened Frames

  const FrameCount: nat := 10

  /** What a call to roll reports, in place of the messages the game prints. */
  datatype Status = Ok | InvalidPins | GameOver

  /** The sum of the frames' scores. */
  function TotalScore(fs: seq<Frame>): int
  {
    if fs == [] then 0 else fs[0].Score() + TotalScore(fs[1..])
  }

  /** Frames at positions 0..last receive the roll; the others are left as they are. */
  function RollUpTo(fs: seq<Frame>, last: int, pins: int): (r: seq<Frame>)
    ensures |r| == |fs|
    ensures forall i :: 0 <= i < |fs| ==> r[i] == if i <= last then fs[i].Roll(pins) else fs[i]
  {
    if fs == [] then []
    else [if 0 <= last then fs[0].Roll(pins) else fs[0]] + RollUpTo(fs[1..], last - 1, pins)
  }

  /** How many of the frames at positions 0..last still accept a roll. */
  function OpenFrames(fs: seq<Frame>, last: int): (n: nat)
    ensures n <= |fs|
    ensures last < 0 ==> n == 0
  {
    if fs == [] || last < 0 then 0
    else (if fs[0].CanRoll() then 1 else 0) + OpenFrames(fs[1..], last - 1)
  }

  datatype GameState = GameState(frames: seq<Frame>, frameIndex: nat) {

    /**
     * Ten frames numbered 1..10 in order, each within its roll limit; the cursor on one of
     * them; every frame after the cursor still empty.
     */
    ghost predicate Valid()
    {
      |frames| == FrameCount && frameIndex < FrameCount &&
      (forall i :: 0 <= i < FrameCount ==> frames[i].index == i + 1 && frames[i].Valid()) &&
      (forall i :: frameIndex < i < FrameCount ==> frames[i].rolls == [])
    }

    function Score(): int
    {
      TotalScore(frames)
    }

    /** The frame under the cursor; in a valid game its number is the cursor plus one. */
    function CurrentFrame(): (f: Frame)
      requires frameIndex < |frames|
      ensures Valid() ==> f.index == frameIndex + 1
    {
      frames[frameIndex]
    }

    /** The tenth frame is current and full; in a valid game only frame 10 can complete it. */
    predicate IsComplete()
      requires frameIndex < |frames|
      ensures Valid() && IsComplete() ==> frameIndex == FrameCount - 1
    {
      CurrentFrame().IsLastFrame() && CurrentFrame().HasMaxRolls()
    }

    /** Pins outside 0..10 are refused first; then any roll once the game is complete. */
    function StatusOf(pins: int): Status
      requires frameIndex < |frames|
    {
      if pins < 0 || pins > 10 then InvalidPins
      else if IsComplete() then GameOver
      else Ok
    }

    /**
     * One call of roll. A refused roll changes nothing. An accepted one first moves the
     * cursor on if the current frame says so, then offers the pins to every frame up to the
     * cursor; the (possibly new) current frame always takes them.
     */
    function Roll(pins: int): (r: GameState)
      requires Valid()
      ensures r.Valid()
      ensures StatusOf(pins) != Ok ==> r == this
      ensures r.frameIndex == frameIndex
              || (r.frameIndex == frameIndex + 1 && CurrentFrame().ShouldAdvance())
      ensures StatusOf(pins) == Ok && CurrentFrame().ShouldAdvance() ==> r.frameIndex == frameIndex + 1
      ensures StatusOf(pins) == Ok ==>
                frames[r.frameIndex].CanRoll() && r.CurrentFrame() == frames[r.frameIndex].Roll(pins)
    {
      if StatusOf(pins) != Ok then this
      else
        var next := if CurrentFrame().ShouldAdvance() then frameIndex + 1 else frameIndex;
        GameState(RollUpTo(frames, next, pins), next)
    }
  }

  /** A new game: ten empty frames numbered 1..10, the cursor on the first, score 0. */
  function Initial(): (g: GameState)
    ensures g.Valid() && g.frameIndex == 0
    ensures forall i :: 0 <= i < FrameCount ==> g.frames[i] == Frame(i + 1, [])
    ensures g.Score() == 0 && !g.IsComplete()
  {
    var fs := seq(FrameCount, i => Frame(i + 1, []));
    EmptyFramesScoreZero(fs);
    GameState(fs, 0)
  }

  lemma {:induction false} EmptyFramesScoreZero(fs: seq<Frame>)
    requires forall i :: 0 <= i < |fs| ==> fs[i].rolls == []
    ensures TotalScore(fs) == 0
  {
    if fs != [] {
      EmptyFramesScoreZero(fs[1..]);
    }
  }

  /** The game after each of the rolls in turn. */
  function RollAll(g: GameState, rolls: seq<int>): (r: GameState)
    requires g.Valid()
    ensures r.Valid()
    decreases |rolls|
  {
    if rolls == [] then g else RollAll(g, rolls[..|rolls| - 1]).Roll(rolls[|rolls| - 1])
  }

  /** Offering a roll to frames 0..last raises the total by pins for each of them still open. */
  lemma {:induction false} RollUpToScore(fs: seq<Frame>, last: int, pins: int)
    ensures TotalScore(RollUpTo(fs, last, pins)) == TotalScore(fs) + pins * OpenFrames(fs, last)
  {
    if fs != [] {
      var rest := fs[1..];
      var m := last - 1;
      var head := if 0 <= last && fs[0].CanRoll() then 1 else 0;
      RollUpToTail(fs, last, pins);
      RollUpToScore(rest, m, pins);
      RollUpToHead(fs, last, pins);
      assert OpenFrames(fs, last) == head + OpenFrames(rest, m);
      Distribute(pins, head, OpenFrames(rest, m));
    }
  }

  lemma Distribute(p: int, a: int, b: int)
    ensures p * (a + b) == p * a + p * b
  {
  }

  lemma RollUpToHead(fs: seq<Frame>, last: int, pins: int)
    requires fs != []
    ensures RollUpTo(fs, last, pins)[0].Score()
            == fs[0].Score() + (if 0 <= last && fs[0].CanRoll() then pins else 0)
  {
    RollScore(fs[0], pins);
  }

  lemma RollUpToTail(fs: seq<Frame>, last: int, pins: int)
    requires fs != []
    ensures RollUpTo(fs, last, pins)[1..] == RollUpTo(fs[1..], last - 1, pins)
  {
  }

  /**
   * An accepted roll raises the score by pins times the number of frames up to the new
   * cursor that could still take a roll, and that number is at least one.
   */
  lemma ScoreDelta(g: GameState, pins: int)
    requires g.Valid() && g.StatusOf(pins) == Ok
    ensures var r := g.Roll(pins);
      r.Score() == g.Score() + pins * OpenFrames(g.frames, r.frameIndex)
      && 1 <= OpenFrames(g.frames, r.frameIndex) <= r.frameIndex + 1
  {
    var r := g.Roll(pins);
    RollUpToScore(g.frames, r.frameIndex, pins);
    OpenFramesBounds(g.frames, r.frameIndex);
  }

  lemma {:induction false} OpenFramesBounds(fs: seq<Frame>, last: int)
    requires 0 <= last < |fs| && fs[last].CanRoll()
    ensures 1 <= OpenFrames(fs, last) <= last + 1
  {
    if last > 0 {
      OpenFramesBounds(fs[1..], last - 1);
    }
  }

  /** A roll outside 0..10 is refused and changes nothing. */
  lemma InvalidRollIgnored(g: GameState, pins: int)
    requires g.Valid() && (pins < 0 || pins > 10)
    ensures g.StatusOf(pins) == InvalidPins && g.Roll(pins) == g
  {
  }

  /** Once the game is complete, no sequence of rolls changes it any more. */
  lemma {:induction false} CompleteIsFrozen(g: GameState, rolls: seq<int>)
    requires g.Valid() && g.IsComplete()
    ensures RollAll(g, rolls) == g
    ensures forall pins :: 0 <= pins <= 10 ==> g.StatusOf(pins) == GameOver
    decreases |rolls|
  {
    if rolls != [] {
      CompleteIsFrozen(g, rolls[..|rolls| - 1]);
    }
  }

  /** Every roll knocks down between 0 and 10 pins, so the game refuses none of them. */
  predicate ValidRolls(rolls: seq<int>)
  {
    forall i :: 0 <= i < |rolls| ==> 0 <= rolls[i] <= 10
  }

  /** Rolling a sequence and then one more roll is one more step. */
  lemma RollAllSnoc(g: GameState, rolls: seq<int>, pins: int)
    requires g.Valid()
    ensures RollAll(g, rolls + [pins]) == RollAll(g, rolls).Roll(pins)
  {
    var s := rolls + [pins];
    assert s[..|s| - 1] == rolls;
  }

  lemma SnocSplit(first: seq<int>, second: seq<int>)
    requires second != []
    ensures first + second == (first + second[..|second| - 1]) + [second[|second| - 1]]
  {
  }

  /** Rolling two sequences one after the other is rolling their concatenation. */
  lemma {:induction false} RollAllAppend(g: GameState, first: seq<int>, second: seq<int>)
    requires g.Valid()
    ensures RollAll(g, first + second) == RollAll(RollAll(g, first), second)
    decreases |second|
  {
    if second == [] {
      assert first + second == first;
    } else {
      var init := second[..|second| - 1];
      var pins := second[|second| - 1];
      SnocSplit(first, second);
      RollAllAppend(g, first, init);
      RollAllSnoc(g, first + init, pins);
    }
  }

  /**
   * The game as an object: `frames` and `frameIndex` are updated in place by Roll, which
   * walks the frames 0..frameIndex in a loop.
   */
  class Game {
    var frames: seq<Frame>
    var frameIndex: nat

    function State(): GameState
      reads this
    {
      GameState(frames, frameIndex)
    }

    ghost predicate Valid()
      reads this
    {
      State().Valid()
    }

    /** Ten frames numbered 1..10 and the cursor on the first. */
    constructor ()
      ensures Valid() && State() == Initial()
    {
      frameIndex := 0;
      var fs: seq<Frame> := [];
      var i := 1;
      while i <= FrameCount
        invariant 1 <= i <= FrameCount + 1
        invariant |fs| == i - 1
        invariant forall k :: 0 <= k < |fs| ==> fs[k] == Frame(k + 1, [])
      {
        fs := fs + [Frame(i, [])];
        i := i + 1;
      }
      assert fs == Initial().frames;
      frames := fs;
    }

    function Score(): int
      reads this
    {
      State().Score()
    }

    function CurrentFrame(): Frame
      reads this
      requires Valid()
    {
      State().CurrentFrame()
    }

    predicate IsComplete()
      reads this
      requires Valid()
    {
      State().IsComplete()
    }

    method Roll(pins: int) returns (status: Status)
      requires Valid()
      modifies this
      ensures Valid()
      ensures State() == old(State()).Roll(pins)
      ensures status == old(State()).StatusOf(pins)
    {
      if pins < 0 || pins > 10 {
        return InvalidPins;
      }
      if IsComplete() {
        return GameOver;
      }
      ghost var next := State().Roll(pins);
      if CurrentFrame().ShouldAdvance() {
        frameIndex := frameIndex + 1;
      }
      var i := 0;
      while i <= frameIndex
        invariant frameIndex == next.frameIndex && 0 <= i <= frameIndex + 1
        invariant |frames| == FrameCount
        invariant forall k :: 0 <= k < i ==> frames[k] == old(frames)[k].Roll(pins)
        invariant forall k :: i <= k < FrameCount ==> frames[k] == old(frames)[k]
      {
        frames := frames[i := frames[i].Roll(pins)];
        i := i + 1;
      }
      assert frames == next.frames;
      status := Ok;
    }
  }
}
