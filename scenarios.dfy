/**
 * The behaviour the game's RSpec examples pin down (spec/game_spec.rb), stated as lemmas
 * about the game reached by rolling a sequence of rolls one by one into a new game.
 *
 * Short games are settled by the look-ahead theorem and a direct computation. The last-frame
 * examples and the perfect game play nine identical frames and then a tenth; for those the
 * closed form is worked out once, for any tenth frame.
 */
module Scenarios {
  import opened Frames
  import opened Games
  import opened LookAhead

  /** The game after rolling each of `rolls` in turn into a new game. */
  function Play(rolls: seq<int>): (g: GameState)
    ensures g.Valid()
  {
    RollAll(Initial(), rolls)
  }

  /** The same frame's rolls, m times over. */
  function Repeat(block: seq<int>, m: nat): seq<int>
  {
    if m == 0 then [] else block + Repeat(block, m - 1)
  }

  /** More copies of a non-empty block make a strictly longer run. */
  lemma {:induction false} RepeatLonger(block: seq<int>, k: nat, m: nat)
    requires block != [] && k < m
    ensures |Repeat(block, k)| < |Repeat(block, m)|
    decreases m
  {
    if k < m - 1 {
      RepeatLonger(block, k, m - 1);
    }
  }

  /** A block that is exactly one frame's own rolls: a strike, or two rolls without a strike. */
  predicate FrameBlock(block: seq<int>)
  {
    block == [10] || (|block| == 2 && block[0] != 10)
  }

  lemma RepeatHead(block: seq<int>, m: nat, tail: seq<int>)
    requires FrameBlock(block) && 0 < m
    ensures Own(Repeat(block, m) + tail) == |block|
    ensures Drop(Repeat(block, m) + tail, |block|) == Repeat(block, m - 1) + tail
  {
    var s := Repeat(block, m) + tail;
    assert s == block + (Repeat(block, m - 1) + tail);
    assert s[0] == block[0];
    assert s[|block|..] == Repeat(block, m - 1) + tail;
  }

  /**
   * Frame k of a run of m repeated blocks starts after k blocks (at == |Repeat(block, k)|),
   * and what follows is the remaining left == m - k blocks.
   */
  lemma {:induction false} RepeatStart(block: seq<int>, m: nat, tail: seq<int>, k: nat, at: nat, left: nat)
    requires FrameBlock(block) && k <= m && at == |Repeat(block, k)| && left == m - k
    ensures Start(Repeat(block, m) + tail, k) == at
    ensures Drop(Repeat(block, m) + tail, at) == Repeat(block, left) + tail
    decreases k
  {
    if k == 0 {
      assert Drop(Repeat(block, m) + tail, 0) == Repeat(block, m) + tail;
    } else {
      assert at - |block| == |Repeat(block, k - 1)|;
      RepeatStart(block, m - 1, tail, k - 1, at - |block|, left);
      RepeatStartStep(block, m, tail, k, at, left);
    }
  }

  /** One block more in front puts every later frame one block further on. */
  lemma RepeatStartStep(block: seq<int>, m: nat, tail: seq<int>, k: nat, at: nat, left: nat)
    requires FrameBlock(block) && 0 < k <= m && |block| <= at
    requires Start(Repeat(block, m - 1) + tail, k - 1) == at - |block|
    requires Drop(Repeat(block, m - 1) + tail, at - |block|) == Repeat(block, left) + tail
    ensures Start(Repeat(block, m) + tail, k) == at
    ensures Drop(Repeat(block, m) + tail, at) == Repeat(block, left) + tail
  {
    var s := Repeat(block, m) + tail;
    RepeatHead(block, m, tail);
    DropDrop(s, |block|, at - |block|);
  }

  /**
   * Nine repeated frames and then `tail`: the tenth frame holds the start of the tail, and
   * it has been reached exactly when the tail is not empty.
   */
  lemma NineThenTenth(block: seq<int>, tail: seq<int>)
    requires FrameBlock(block)
    ensures FrameAt(Repeat(block, 9) + tail, 9) == Absorb(10, tail)
    ensures Started(Repeat(block, 9) + tail, 0) == if tail == [] then 9 else 10
  {
    var s := Repeat(block, 9) + tail;
    RepeatStart(block, 9, tail, 9, |Repeat(block, 9)|, 0);
    assert Repeat(block, 0) + tail == tail;
    forall k | 0 <= k < FrameCount
      ensures k < (if tail == [] then 9 else 10) <==> Start(s, k) < |s|
    {
      RepeatStart(block, 9, tail, k, |Repeat(block, k)|, 9 - k);
      if k < 9 {
        RepeatLonger(block, k, 9);
      }
    }
    StartedFromStarts(s, if tail == [] then 9 else 10);
  }

  /**
   * Nine repeated frames and then `tail`: the game is complete exactly when the tail is the
   * whole tenth frame, and its score is the look-ahead score of the rolls.
   */
  lemma NineFramesThen(block: seq<int>, tail: seq<int>)
    requires FrameBlock(block) && ValidRolls(block) && ValidRolls(tail)
    ensures var s := Repeat(block, 9) + tail;
      (Play(s).IsComplete() <==> tail != [] && Absorb(10, tail).HasMaxRolls())
      && Play(s).Score() == LookAheadScore(s, 0)
  {
    var s := Repeat(block, 9) + tail;
    RepeatPins(block, 9, tail);
    EagerMatchesLookAhead(s);
    NineThenTenth(block, tail);
    var g := Reference(s);
    assert g.CurrentFrame() == FrameAt(s, g.frameIndex);
  }

  lemma {:induction false} RepeatPins(block: seq<int>, m: nat, tail: seq<int>)
    requires ValidRolls(block) && ValidRolls(tail)
    ensures ValidRolls(Repeat(block, m) + tail)
    decreases m
  {
    if m > 0 {
      var rest := Repeat(block, m - 1) + tail;
      RepeatPins(block, m - 1, tail);
      var s := Repeat(block, m) + tail;
      assert s == block + rest;
      forall i | 0 <= i < |s| ensures 0 <= s[i] <= 10 {
        if i >= |block| {
          assert s[i] == rest[i - |block|];
        }
      }
    } else {
      assert Repeat(block, m) + tail == tail;
    }
  }

  /** An open frame of x and y at the front scores x + y and leaves the rest to the next frame. */
  lemma OpenHead(x: int, y: int, m: nat, tail: seq<int>, frame: nat)
    requires 0 <= x && 0 <= y && x + y < 10 && 0 < m && frame < FrameCount
    ensures LookAheadScore(Repeat([x, y], m) + tail, frame)
            == x + y + LookAheadScore(Repeat([x, y], m - 1) + tail, frame + 1)
    ensures Sum(Repeat([x, y], m)) == x + y + Sum(Repeat([x, y], m - 1))
  {
    var s := Repeat([x, y], m) + tail;
    var r := Repeat([x, y], m);
    RepeatHead([x, y], m, tail);
    assert s[0] == x && s[1] == y && |s| >= 2;
    assert r[1..] == [y] + Repeat([x, y], m - 1);
  }

  /**
   * A run of m open frames, ending before frame 10 (frame + m == 9), scores the pins it
   * knocks down, whatever the tenth frame holds.
   */
  lemma {:induction false} OpenFramesScore(x: int, y: int, m: nat, tail: seq<int>, frame: nat)
    requires 0 <= x && 0 <= y && x + y < 10 && frame + m == 9
    ensures LookAheadScore(Repeat([x, y], m) + tail, frame)
            == Sum(Repeat([x, y], m)) + LookAheadScore(tail, 9)
    decreases m
  {
    if m > 0 {
      OpenHead(x, y, m, tail, frame);
      OpenFramesScore(x, y, m - 1, tail, frame + 1);
    } else {
      assert Repeat([x, y], 0) + tail == tail;
    }
  }

  /**
   * A run of m strikes ending before frame 10 (frame + m == 9), followed by a tenth frame of
   * three strikes, scores 30 per frame.
   */
  lemma {:induction false} StrikesScore(strike: int, m: nat, frame: nat)
    requires strike == 10 && frame + m == 9
    ensures LookAheadScore(Repeat([strike], m) + [strike, strike, strike], frame) == 30 * (m + 1)
    decreases m
  {
    var tenth := [strike, strike, strike];
    var s := Repeat([strike], m) + tenth;
    if m > 0 {
      RepeatHead([strike], m, tenth);
      StrikesScore(strike, m - 1, frame + 1);
      assert s[0] == 10 && s[1] == 10 && s[2] == 10;
      assert s[1..] == Repeat([strike], m - 1) + tenth;
    } else {
      assert s == tenth;
    }
  }

  /** The game's score is v when v is the look-ahead score of its rolls. */
  lemma PlayScoreIs(rolls: seq<int>, v: int)
    requires ValidRolls(rolls) && LookAheadScore(rolls, 0) == v
    ensures Play(rolls).Score() == v
  {
    EagerMatchesLookAhead(rolls);
  }

  /**
   * When the rolls have reached n frames and f is the last of them, f is the current frame;
   * unless it completes the game, the next roll opens the next frame exactly when f says the
   * game should advance, and otherwise stays in f.
   */
  lemma NextRollFrom(rolls: seq<int>, pins: int, next: seq<int>, n: nat, f: Frame)
    requires ValidRolls(rolls) && 0 <= pins <= 10 && next == rolls + [pins]
    requires 0 < n && Started(rolls, 0) == n && FrameAt(rolls, n - 1) == f
    requires !(f.IsLastFrame() && f.HasMaxRolls())
    ensures Play(rolls).CurrentFrame() == f
    ensures Play(next).CurrentFrame().index == if f.ShouldAdvance() then f.index + 1 else f.index
  {
    EagerMatchesLookAhead(rolls);
    RollAllSnoc(Initial(), rolls, pins);
  }

  /** Once the game is complete, one more roll is refused and changes nothing. */
  lemma Refused(rolls: seq<int>, pins: int, next: seq<int>)
    requires 0 <= pins <= 10 && Play(rolls).IsComplete() && next == rolls + [pins]
    ensures Play(rolls).StatusOf(pins) == GameOver && Play(next) == Play(rolls)
  {
    RollAllSnoc(Initial(), rolls, pins);
  }

  /**
   * Nine open frames of x and y, then `tail`: the score is the pins of the nine frames plus
   * what the look-ahead scorer gives the tenth, and the game is complete once the tenth frame
   * holds all its rolls.
   */
  lemma AfterNineOpen(x: int, y: int, tail: seq<int>)
    requires 0 <= x && 0 <= y && x + y < 10 && ValidRolls(tail)
    ensures Play(Repeat([x, y], 9) + tail).Score() == Sum(Repeat([x, y], 9)) + LookAheadScore(tail, 9)
    ensures Play(Repeat([x, y], 9) + tail).IsComplete()
            <==> tail != [] && Absorb(10, tail).HasMaxRolls()
  {
    NineFramesThen([x, y], tail);
    OpenFramesScore(x, y, 9, tail, 0);
  }

  // The examples of spec/game_spec.rb, each generalised from the pins it uses to any pins of
  // the same kind: an open frame (a, b or x, y with a sum below 10), a strike (10), a spare
  // (c, d with c < 10 and c + d == 10). A ...Values lemma works out what the look-ahead
  // scorer and the closed form give for the rolls of an example; the ...Games lemma beside it
  // carries that over to the game itself; the lemmas after them state the example.

  /** Before the game has started: score 0, ten frames, on the first frame. */
  lemma NewGame()
    ensures Play([]).Score() == 0 && |Play([]).frames| == 10 && Play([]).CurrentFrame().index == 1
  {
  }

  lemma FirstFrameValues(a: int, b: int, c: int, d: int)
    requires 0 <= a < 10 && 0 <= b <= 10 && 0 <= c < 10 && c + d == 10
    ensures LookAheadScore([a], 0) == a && LookAheadScore([a, b], 0) == a + b
    ensures LookAheadScore([10], 0) == 10 && LookAheadScore([c, d], 0) == 10
    ensures Started([10], 0) == 1 && FrameAt([10], 0) == Frame(1, [10])
    ensures Started([c, d], 0) == 1 && FrameAt([c, d], 0) == Frame(1, [c, d])
  {
    assert Drop([10], 0) == [10];
    assert Drop([c, d], 0) == [c, d];
  }

  /** First frame without strike or spare: each roll adds its pins. */
  lemma FirstFrameOpen(a: int, b: int)
    requires 0 <= a < 10 && 0 <= b <= 10
    ensures Play([a]).Score() == a && Play([a, b]).Score() == a + b
  {
    FirstFrameValues(a, b, 0, 10);
    assert ValidRolls([a]) && ValidRolls([a, b]);
    PlayScoreIs([a], a);
    PlayScoreIs([a, b], a + b);
  }

  /**
   * A strike in the first frame scores 10, and the next roll opens frame 2. (The strike is a
   * parameter fixed at 10 so that the game is reasoned about symbolically rather than
   * evaluated.)
   */
  lemma FirstFrameStrike(strike: int, p: int)
    requires strike == 10 && 0 <= p <= 10
    ensures Play([strike]).Score() == 10 && Play([strike]).CurrentFrame().ShouldAdvance()
    ensures Play([strike, p]).CurrentFrame().index == Play([strike]).CurrentFrame().index + 1
  {
    FirstFrameValues(0, 0, 0, 10);
    assert ValidRolls([strike]);
    NextRollFrom([strike], p, [strike, p], 1, Frame(1, [strike]));
    PlayScoreIs([strike], 10);
  }

  /** A spare in the first frame scores 10, and the next roll opens frame 2. */
  lemma FirstFrameSpare(c: int, d: int, p: int)
    requires 0 <= c < 10 && c + d == 10 && 0 <= p <= 10
    ensures Play([c, d]).Score() == 10 && Play([c, d]).CurrentFrame().ShouldAdvance()
    ensures Play([c, d, p]).CurrentFrame().index == Play([c, d]).CurrentFrame().index + 1
  {
    FirstFrameValues(0, 0, c, d);
    assert ValidRolls([c, d]);
    NextRollFrom([c, d], p, [c, d, p], 1, Frame(1, [c, d]));
    PlayScoreIs([c, d], 10);
  }

  lemma NextFrameValues(a: int, b: int, p: int, q: int)
    requires 0 <= a && 0 <= b && a + b < 10 && 0 <= p < 10 && 0 <= q <= 10
    ensures Started([a, b], 0) == 1 && FrameAt([a, b], 0) == Frame(1, [a, b])
    ensures Started([a, b, p], 0) == 2 && FrameAt([a, b, p], 1) == Frame(2, [p])
    ensures LookAheadScore([a, b, p], 0) == a + b + p
    ensures LookAheadScore([a, b, p, q], 0) == a + b + p + q
  {
    assert Drop([a, b], 0) == [a, b];
    assert Drop([a, b, p], 2) == [p];
  }

  lemma NextFrameGames(a: int, b: int, p: int, q: int)
    requires 0 <= a && 0 <= b && a + b < 10 && 0 <= p < 10 && 0 <= q <= 10
    ensures Play([a, b, p]).Score() == a + b + p
    ensures Play([a, b, p, q]).Score() == a + b + p + q
  {
    NextFrameValues(a, b, p, q);
    assert ValidRolls([a, b, p]) && ValidRolls([a, b, p, q]);
    PlayScoreIs([a, b, p], a + b + p);
    PlayScoreIs([a, b, p, q], a + b + p + q);
  }

  /** After an open first frame the next roll opens frame 2. */
  lemma NextFrameFirstRoll(a: int, b: int, p: int)
    requires 0 <= a && 0 <= b && a + b < 10 && 0 <= p <= 10
    ensures Play([a, b]).CurrentFrame().ShouldAdvance()
    ensures Play([a, b, p]).CurrentFrame().index == Play([a, b]).CurrentFrame().index + 1
  {
    NextFrameValues(a, b, 0, 0);
    assert ValidRolls([a, b]);
    NextRollFrom([a, b], p, [a, b, p], 1, Frame(1, [a, b]));
  }

  /** The second roll of an open frame 2 stays in frame 2 and adds its pins. */
  lemma NextFrameSecondRoll(a: int, b: int, p: int, q: int)
    requires 0 <= a && 0 <= b && a + b < 10 && 0 <= p < 10 && 0 <= q <= 10
    ensures Play([a, b, p, q]).CurrentFrame().index == Play([a, b, p]).CurrentFrame().index
    ensures Play([a, b, p, q]).Score() == Play([a, b, p]).Score() + q
  {
    NextFrameValues(a, b, p, q);
    assert ValidRolls([a, b, p]);
    NextRollFrom([a, b, p], q, [a, b, p, q], 2, Frame(2, [p]));
    NextFrameGames(a, b, p, q);
  }

  lemma StrikeValues(a: int, b: int, p: int, q: int)
    requires 0 <= a && 0 <= b && a + b < 10 && 0 <= p < 10 && 0 <= q <= 10
    ensures Started([a, b, 10], 0) == 2 && FrameAt([a, b, 10], 1) == Frame(2, [10])
    ensures LookAheadScore([a, b, 10], 0) == a + b + 10
    ensures LookAheadScore([a, b, 10, p], 0) == a + b + 10 + 2 * p
    ensures LookAheadScore([a, b, 10, p, q], 0) == a + b + 10 + 2 * p + 2 * q
  {
    assert Drop([a, b, 10], 2) == [10];
  }

  lemma StrikeGames(a: int, b: int, p: int, q: int)
    requires 0 <= a && 0 <= b && a + b < 10 && 0 <= p < 10 && 0 <= q <= 10
    ensures Play([a, b, 10]).Score() == a + b + 10
    ensures Play([a, b, 10, p]).Score() == a + b + 10 + 2 * p
    ensures Play([a, b, 10, p, q]).Score() == a + b + 10 + 2 * p + 2 * q
  {
    StrikeValues(a, b, p, q);
    assert ValidRolls([a, b, 10]) && ValidRolls([a, b, 10, p]) && ValidRolls([a, b, 10, p, q]);
    PlayScoreIs([a, b, 10], a + b + 10);
    PlayScoreIs([a, b, 10, p], a + b + 10 + 2 * p);
    PlayScoreIs([a, b, 10, p, q], a + b + 10 + 2 * p + 2 * q);
  }

  /** After a strike in frame 2 the next roll opens frame 3. */
  lemma StrikeAdvances(a: int, b: int, p: int)
    requires 0 <= a && 0 <= b && a + b < 10 && 0 <= p <= 10
    ensures Play([a, b, 10]).CurrentFrame().ShouldAdvance()
    ensures Play([a, b, 10, p]).CurrentFrame().index == Play([a, b, 10]).CurrentFrame().index + 1
  {
    StrikeValues(a, b, 0, 0);
    assert ValidRolls([a, b, 10]);
    NextRollFrom([a, b, 10], p, [a, b, 10, p], 2, Frame(2, [10]));
  }

  /** The two rolls after a strike count twice: for the strike and for their own frame. */
  lemma StrikeBonus(a: int, b: int, p: int, q: int)
    requires 0 <= a && 0 <= b && a + b < 10 && 0 <= p < 10 && 0 <= q <= 10
    ensures Play([a, b, 10, p]).Score() == Play([a, b, 10]).Score() + 2 * p
    ensures Play([a, b, 10, p, q]).Score() == Play([a, b, 10, p]).Score() + 2 * q
  {
    StrikeGames(a, b, p, q);
  }

  lemma MultipleStrikesValues(a: int, b: int, p: int, q: int)
    requires 0 <= a && 0 <= b && a + b < 10 && 0 <= p < 10 && 0 <= q <= 10
    ensures LookAheadScore([a, b, 10, 10], 0) == a + b + 30
    ensures LookAheadScore([a, b, 10, 10, p], 0) == a + b + 30 + 3 * p
    ensures LookAheadScore([a, b, 10, 10, p, q], 0) == a + b + 30 + 3 * p + 2 * q
  {
  }

  lemma MultipleStrikesGames(a: int, b: int, p: int, q: int)
    requires 0 <= a && 0 <= b && a + b < 10 && 0 <= p < 10 && 0 <= q <= 10
    ensures Play([a, b, 10, 10]).Score() == a + b + 30
    ensures Play([a, b, 10, 10, p]).Score() == a + b + 30 + 3 * p
    ensures Play([a, b, 10, 10, p, q]).Score() == a + b + 30 + 3 * p + 2 * q
  {
    MultipleStrikesValues(a, b, p, q);
    assert ValidRolls([a, b, 10, 10]) && ValidRolls([a, b, 10, 10, p]) && ValidRolls([a, b, 10, 10, p, q]);
    PlayScoreIs([a, b, 10, 10], a + b + 30);
    PlayScoreIs([a, b, 10, 10, p], a + b + 30 + 3 * p);
    PlayScoreIs([a, b, 10, 10, p, q], a + b + 30 + 3 * p + 2 * q);
  }

  /**
   * Two strikes in a row: the second counts for both (20); the next roll counts for both
   * strikes and for its own frame (3 times); the one after it for the second strike and for
   * its own frame (twice).
   */
  lemma MultipleStrikes(a: int, b: int, p: int, q: int)
    requires 0 <= a && 0 <= b && a + b < 10 && 0 <= p < 10 && 0 <= q <= 10
    ensures Play([a, b, 10, 10]).Score() == Play([a, b, 10]).Score() + 20
    ensures Play([a, b, 10, 10, p]).Score() == Play([a, b, 10, 10]).Score() + 3 * p
    ensures Play([a, b, 10, 10, p, q]).Score() == Play([a, b, 10, 10, p]).Score() + 2 * q
  {
    StrikeGames(a, b, 0, 0);
    MultipleStrikesGames(a, b, p, q);
  }

  lemma StrikeThenSpareGames(a: int, b: int, c: int, d: int)
    requires 0 <= a && 0 <= b && a + b < 10 && 0 <= c < 10 && c + d == 10
    ensures Play([a, b, 10]).Score() == a + b + 10
    ensures Play([a, b, 10, c, d]).Score() == a + b + 30
  {
    StrikeValues(a, b, 0, 0);
    assert ValidRolls([a, b, 10]) && ValidRolls([a, b, 10, c, d]);
    assert LookAheadScore([c, d], 2) == 10;
    assert LookAheadScore([10, c, d], 1) == 30;
    assert [a, b, 10, c, d][2..] == [10, c, d];
    assert LookAheadScore([a, b, 10, c, d], 0) == a + b + 30;
    PlayScoreIs([a, b, 10], a + b + 10);
    PlayScoreIs([a, b, 10, c, d], a + b + 30);
  }

  /** A spare straight after a strike adds 20: 10 to the strike and 10 to its own frame. */
  lemma StrikeThenSpare(a: int, b: int, c: int, d: int)
    requires 0 <= a && 0 <= b && a + b < 10 && 0 <= c < 10 && c + d == 10
    ensures Play([a, b, 10, c, d]).Score() == Play([a, b, 10]).Score() + 20
  {
    StrikeThenSpareGames(a, b, c, d);
  }

  lemma SpareValues(a: int, b: int, c: int, d: int, p: int, q: int)
    requires 0 <= a && 0 <= b && a + b < 10 && 0 <= c < 10 && c + d == 10 && 0 <= p < 10 && 0 <= q <= 10
    ensures Started([a, b, c, d], 0) == 2 && FrameAt([a, b, c, d], 1) == Frame(2, [c, d])
    ensures LookAheadScore([a, b, c, d], 0) == a + b + 10
    ensures LookAheadScore([a, b, c, d, p], 0) == a + b + 10 + 2 * p
    ensures LookAheadScore([a, b, c, d, p, q], 0) == a + b + 10 + 2 * p + q
  {
    assert Drop([a, b, c, d], 2) == [c, d];
  }

  lemma SpareGames(a: int, b: int, c: int, d: int, p: int, q: int)
    requires 0 <= a && 0 <= b && a + b < 10 && 0 <= c < 10 && c + d == 10 && 0 <= p < 10 && 0 <= q <= 10
    ensures Play([a, b, c, d]).Score() == a + b + 10
    ensures Play([a, b, c, d, p]).Score() == a + b + 10 + 2 * p
    ensures Play([a, b, c, d, p, q]).Score() == a + b + 10 + 2 * p + q
  {
    SpareValues(a, b, c, d, p, q);
    assert ValidRolls([a, b, c, d]) && ValidRolls([a, b, c, d, p]) && ValidRolls([a, b, c, d, p, q]);
    PlayScoreIs([a, b, c, d], a + b + 10);
    PlayScoreIs([a, b, c, d, p], a + b + 10 + 2 * p);
    PlayScoreIs([a, b, c, d, p, q], a + b + 10 + 2 * p + q);
  }

  /** After a spare in frame 2 the next roll opens frame 3. */
  lemma SpareAdvances(a: int, b: int, c: int, d: int, p: int)
    requires 0 <= a && 0 <= b && a + b < 10 && 0 <= c < 10 && c + d == 10 && 0 <= p <= 10
    ensures Play([a, b, c, d]).CurrentFrame().ShouldAdvance()
    ensures Play([a, b, c, d, p]).CurrentFrame().index == Play([a, b, c, d]).CurrentFrame().index + 1
  {
    SpareValues(a, b, c, d, 0, 0);
    assert ValidRolls([a, b, c, d]);
    NextRollFrom([a, b, c, d], p, [a, b, c, d, p], 2, Frame(2, [c, d]));
  }

  /** The roll after a spare counts twice; the one after that only for its own frame. */
  lemma SpareBonus(a: int, b: int, c: int, d: int, p: int, q: int)
    requires 0 <= a && 0 <= b && a + b < 10 && 0 <= c < 10 && c + d == 10 && 0 <= p < 10 && 0 <= q <= 10
    ensures Play([a, b, c, d, p]).Score() == Play([a, b, c, d]).Score() + 2 * p
    ensures Play([a, b, c, d, p, q]).Score() == Play([a, b, c, d, p]).Score() + q
  {
    SpareGames(a, b, c, d, p, q);
  }

  lemma SumThree(p: int, q: int, r: int)
    ensures Sum([p, q]) == p + q && Sum([p, q, r]) == p + q + r
  {
    assert [p, q][1..] == [q] && [q][1..] == [] && Sum([q]) == q;
    assert [r][1..] == [] && Sum([r]) == r;
    assert [q, r][1..] == [r] && Sum([q, r]) == q + r;
    assert [p, q, r][1..] == [q, r];
  }

  /** Nine open frames: the score is their pins, and the game is not complete. */
  lemma NineOpenFrames(x: int, y: int)
    requires 0 <= x && 0 <= y && x + y < 10
    ensures Play(Repeat([x, y], 9)).Score() == Sum(Repeat([x, y], 9))
    ensures !Play(Repeat([x, y], 9)).IsComplete()
  {
    AfterNineOpen(x, y, []);
    assert Repeat([x, y], 9) + [] == Repeat([x, y], 9);
  }

  lemma OpenTenthValues(p: int, q: int)
    requires 0 <= p && 0 <= q && p + q < 10
    ensures LookAheadScore([p], 9) == p && LookAheadScore([p, q], 9) == p + q
    ensures !Absorb(10, [p]).HasMaxRolls() && Absorb(10, [p, q]).HasMaxRolls()
  {
  }

  lemma LastFrameOpenGames(x: int, y: int, p: int, q: int)
    requires 0 <= x && 0 <= y && x + y < 10 && 0 <= p && 0 <= q && p + q < 10
    ensures Play(Repeat([x, y], 9) + [p]).Score() == Sum(Repeat([x, y], 9)) + p
    ensures Play(Repeat([x, y], 9) + [p, q]).Score() == Sum(Repeat([x, y], 9)) + p + q
    ensures Play(Repeat([x, y], 9) + [p, q]).IsComplete()
  {
    OpenTenthValues(p, q);
    AfterNineOpen(x, y, [p]);
    AfterNineOpen(x, y, [p, q]);
  }

  /**
   * After nine open frames, a tenth frame without strike or spare is like any other: each
   * roll adds its pins, the total is all the pins, and its second roll completes the game.
   */
  lemma LastFrameOpen(x: int, y: int, p: int, q: int)
    requires 0 <= x && 0 <= y && x + y < 10 && 0 <= p && 0 <= q && p + q < 10
    ensures Play(Repeat([x, y], 9) + [p]).Score() == Play(Repeat([x, y], 9)).Score() + p
    ensures Play(Repeat([x, y], 9) + [p, q]).Score() == Play(Repeat([x, y], 9) + [p]).Score() + q
    ensures Play(Repeat([x, y], 9) + [p, q]).Score() == Sum(Repeat([x, y], 9)) + Sum([p, q])
    ensures !Play(Repeat([x, y], 9)).IsComplete() && Play(Repeat([x, y], 9) + [p, q]).IsComplete()
  {
    SumThree(p, q, 0);
    NineOpenFrames(x, y);
    LastFrameOpenGames(x, y, p, q);
  }

  /** A third roll into an open tenth frame is refused and leaves the game as it was. */
  lemma LastFrameOpenNoThirdRoll(x: int, y: int, p: int, q: int, r: int)
    requires 0 <= x && 0 <= y && x + y < 10 && 0 <= p && 0 <= q && p + q < 10 && 0 <= r <= 10
    ensures Play(Repeat([x, y], 9) + [p, q]).StatusOf(r) == GameOver
    ensures Play(Repeat([x, y], 9) + [p, q, r]) == Play(Repeat([x, y], 9) + [p, q])
  {
    var prior := Repeat([x, y], 9);
    assert prior + [p, q, r] == (prior + [p, q]) + [r];
    LastFrameOpenGames(x, y, p, q);
    Refused(prior + [p, q], r, prior + [p, q, r]);
  }

  lemma StrikeTenthValues(p: int, q: int)
    requires 0 <= p <= 10 && 0 <= q <= 10
    ensures LookAheadScore([10], 9) == 10 && LookAheadScore([10, p], 9) == 10 + p
    ensures LookAheadScore([10, p, q], 9) == 10 + p + q
    ensures !Absorb(10, [10]).HasMaxRolls() && !Absorb(10, [10, p]).HasMaxRolls()
    ensures Absorb(10, [10, p, q]).HasMaxRolls()
  {
  }

  lemma LastFrameStrikeGames(x: int, y: int, p: int, q: int)
    requires 0 <= x && 0 <= y && x + y < 10 && 0 <= p <= 10 && 0 <= q <= 10
    ensures Play(Repeat([x, y], 9) + [10]).Score() == Sum(Repeat([x, y], 9)) + 10
    ensures Play(Repeat([x, y], 9) + [10, p]).Score() == Sum(Repeat([x, y], 9)) + 10 + p
    ensures Play(Repeat([x, y], 9) + [10, p, q]).Score() == Sum(Repeat([x, y], 9)) + 10 + p + q
    ensures Play(Repeat([x, y], 9) + [10, p, q]).IsComplete()
  {
    StrikeTenthValues(p, q);
    AfterNineOpen(x, y, [10]);
    AfterNineOpen(x, y, [10, p]);
    AfterNineOpen(x, y, [10, p, q]);
  }

  /**
   * A strike in the tenth frame allows three rolls: each adds its pins (the bonus rolls
   * count once), the total is all the pins, and the third roll completes the game.
   */
  lemma LastFrameStrike(x: int, y: int, p: int, q: int)
    requires 0 <= x && 0 <= y && x + y < 10 && 0 <= p <= 10 && 0 <= q <= 10
    ensures Play(Repeat([x, y], 9) + [10]).Score() == Play(Repeat([x, y], 9)).Score() + 10
    ensures Play(Repeat([x, y], 9) + [10, p]).Score() == Play(Repeat([x, y], 9) + [10]).Score() + p
    ensures Play(Repeat([x, y], 9) + [10, p, q]).Score() == Play(Repeat([x, y], 9) + [10, p]).Score() + q
    ensures Play(Repeat([x, y], 9) + [10, p, q]).Score() == Sum(Repeat([x, y], 9)) + Sum([10, p, q])
    ensures !Play(Repeat([x, y], 9)).IsComplete() && Play(Repeat([x, y], 9) + [10, p, q]).IsComplete()
  {
    SumThree(10, p, q);
    NineOpenFrames(x, y);
    LastFrameStrikeGames(x, y, p, q);
  }

  /** A fourth roll after a strike in the tenth frame is refused and leaves the game as it was. */
  lemma LastFrameStrikeNoMoreRolls(x: int, y: int, p: int, q: int, r: int)
    requires 0 <= x && 0 <= y && x + y < 10 && 0 <= p <= 10 && 0 <= q <= 10 && 0 <= r <= 10
    ensures Play(Repeat([x, y], 9) + [10, p, q]).StatusOf(r) == GameOver
    ensures Play(Repeat([x, y], 9) + [10, p, q, r]) == Play(Repeat([x, y], 9) + [10, p, q])
  {
    var prior := Repeat([x, y], 9);
    assert prior + [10, p, q, r] == (prior + [10, p, q]) + [r];
    LastFrameStrikeGames(x, y, p, q);
    Refused(prior + [10, p, q], r, prior + [10, p, q, r]);
  }

  lemma SpareTenthValues(c: int, d: int, p: int)
    requires 0 <= c < 10 && c + d == 10 && 0 <= p <= 10
    ensures LookAheadScore([c], 9) == c && LookAheadScore([c, d], 9) == 10
    ensures LookAheadScore([c, d, p], 9) == 10 + p
    ensures !Absorb(10, [c]).HasMaxRolls() && !Absorb(10, [c, d]).HasMaxRolls()
    ensures Absorb(10, [c, d, p]).HasMaxRolls()
  {
  }

  lemma LastFrameSpareGames(x: int, y: int, c: int, d: int, p: int)
    requires 0 <= x && 0 <= y && x + y < 10 && 0 <= c < 10 && c + d == 10 && 0 <= p <= 10
    ensures Play(Repeat([x, y], 9) + [c]).Score() == Sum(Repeat([x, y], 9)) + c
    ensures Play(Repeat([x, y], 9) + [c, d]).Score() == Sum(Repeat([x, y], 9)) + 10
    ensures Play(Repeat([x, y], 9) + [c, d, p]).Score() == Sum(Repeat([x, y], 9)) + 10 + p
    ensures Play(Repeat([x, y], 9) + [c, d, p]).IsComplete()
  {
    SpareTenthValues(c, d, p);
    AfterNineOpen(x, y, [c]);
    AfterNineOpen(x, y, [c, d]);
    AfterNineOpen(x, y, [c, d, p]);
  }

  /**
   * A spare in the tenth frame allows a third roll: each roll adds its pins, the total is all
   * the pins, and the third roll completes the game.
   */
  lemma LastFrameSpare(x: int, y: int, c: int, d: int, p: int)
    requires 0 <= x && 0 <= y && x + y < 10 && 0 <= c < 10 && c + d == 10 && 0 <= p <= 10
    ensures Play(Repeat([x, y], 9) + [c]).Score() == Play(Repeat([x, y], 9)).Score() + c
    ensures Play(Repeat([x, y], 9) + [c, d]).Score() == Play(Repeat([x, y], 9) + [c]).Score() + d
    ensures Play(Repeat([x, y], 9) + [c, d, p]).Score() == Play(Repeat([x, y], 9) + [c, d]).Score() + p
    ensures Play(Repeat([x, y], 9) + [c, d, p]).Score() == Sum(Repeat([x, y], 9)) + Sum([c, d, p])
    ensures !Play(Repeat([x, y], 9)).IsComplete() && Play(Repeat([x, y], 9) + [c, d, p]).IsComplete()
  {
    SumThree(c, d, p);
    NineOpenFrames(x, y);
    LastFrameSpareGames(x, y, c, d, p);
  }

  /** A fourth roll after a spare in the tenth frame is refused and leaves the game as it was. */
  lemma LastFrameSpareNoMoreRolls(x: int, y: int, c: int, d: int, p: int, r: int)
    requires 0 <= x && 0 <= y && x + y < 10 && 0 <= c < 10 && c + d == 10 && 0 <= p <= 10
    requires 0 <= r <= 10
    ensures Play(Repeat([x, y], 9) + [c, d, p]).StatusOf(r) == GameOver
    ensures Play(Repeat([x, y], 9) + [c, d, p, r]) == Play(Repeat([x, y], 9) + [c, d, p])
  {
    var prior := Repeat([x, y], 9);
    assert prior + [c, d, p, r] == (prior + [c, d, p]) + [r];
    LastFrameSpareGames(x, y, c, d, p);
    Refused(prior + [c, d, p], r, prior + [c, d, p, r]);
  }

  /**
   * Twelve strikes score 300 and complete the game. The strike is a parameter fixed at 10 so
   * that the game is reasoned about symbolically rather than evaluated.
   */
  lemma TwelveStrikes(strike: int)
    requires strike == 10
    ensures Play(Repeat([strike], 9) + [strike, strike, strike]).Score() == 300
    ensures Play(Repeat([strike], 9) + [strike, strike, strike]).IsComplete()
  {
    var tenth := [strike, strike, strike];
    StrikesScore(strike, 9, 0);
    NineFramesThen([strike], tenth);
  }

  /**
   * The perfect game: after twelve strikes, whatever is rolled (the RSpec example rolls nine
   * more strikes) leaves the game complete with a score of 300.
   */
  lemma PerfectGame(strike: int, extra: seq<int>)
    requires strike == 10
    ensures var twelve := Repeat([strike], 9) + [strike, strike, strike];
      Play(twelve + extra) == Play(twelve) && Play(twelve + extra).Score() == 300
  {
    var twelve := Repeat([strike], 9) + [strike, strike, strike];
    TwelveStrikes(strike);
    RollAllAppend(Initial(), twelve, extra);
    CompleteIsFrozen(Play(twelve), extra);
  }
}
