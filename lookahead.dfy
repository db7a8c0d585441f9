/**
 * The usual way to score bowling, by looking ahead from each frame (a strike counts the next
 * two rolls, a spare the next one), and a closed form of the game the eager scorer builds
 * from rolls with pins in 0..10.
 *
 * The game in lib/game.rb never looks ahead: it offers every roll to all frames up to the
 * current one and lets each full frame ignore it. The theorem EagerMatchesLookAhead shows
 * that for every sequence of rolls with pins in 0..10 the two agree: the game reached by
 * rolling them one by one is exactly Reference(rolls), and its score is the look-ahead score.
 */
module LookAhead {
  import opened Frames
  import opened Games

  /** The roll at position i, or 0 for a roll not yet made. */
  function RollAt(rolls: seq<int>, i: nat): int
  {
    if i < |rolls| then rolls[i] else 0
  }

  /** The classic score of frames frame..9 (0-based) when their rolls start with `rolls`. */
  function LookAheadScore(rolls: seq<int>, frame: nat): int
    requires frame <= FrameCount
    decreases FrameCount - frame
  {
    if frame == FrameCount || rolls == [] then 0
    else if rolls[0] == 10 then
      10 + RollAt(rolls, 1) + RollAt(rolls, 2) + LookAheadScore(rolls[1..], frame + 1)
    else if |rolls| == 1 then rolls[0]
    else if rolls[0] + rolls[1] == 10 then
      10 + RollAt(rolls, 2) + LookAheadScore(rolls[2..], frame + 1)
    else
      rolls[0] + rolls[1] + LookAheadScore(rolls[2..], frame + 1)
  }

  /** The rolls a frame starting at the head of `stream` counts as its own: 1 for a strike. */
  function Own(stream: seq<int>): nat
  {
    if |stream| >= 1 && stream[0] == 10 then 1 else 2
  }

  /** What is left of s after its first n elements. */
  function Drop(s: seq<int>, n: nat): seq<int>
  {
    if n < |s| then s[n..] else []
  }

  /**
   * Where, in a stream that starts at some frame, the rolls of the k-th frame after it
   * begin: each frame before it takes its own rolls off the front. It may lie past the end.
   */
  function Start(stream: seq<int>, k: nat): nat
    decreases k
  {
    if k == 0 then 0 else Own(stream) + Start(Drop(stream, Own(stream)), k - 1)
  }

  /** Frame k (0-based, numbered k + 1) after `rolls`: what it keeps of the rolls from its start. */
  function FrameAt(rolls: seq<int>, k: nat): Frame
  {
    Absorb(k + 1, Drop(rolls, Start(rolls, k)))
  }

  /** The ten frames after `rolls`, in closed form. */
  function FramesAfter(rolls: seq<int>): (fs: seq<Frame>)
    ensures |fs| == FrameCount
  {
    seq(FrameCount, k requires 0 <= k => FrameAt(rolls, k))
  }

  /** How many of frames j..9 have received at least one roll. */
  function Started(stream: seq<int>, j: nat): (n: nat)
    requires j <= FrameCount
    ensures n <= FrameCount - j
    ensures stream != [] && j < FrameCount ==> n >= 1
    decreases FrameCount - j
  {
    if j == FrameCount || stream == [] then 0
    else 1 + Started(Drop(stream, Own(stream)), j + 1)
  }

  /**
   * The game after `rolls` with pins in 0..10, in closed form: the cursor is on the last frame
   * with a roll. Pins outside 0..10, which the game refuses, are kept here.
   */
  function Reference(rolls: seq<int>): GameState
  {
    var n := Started(rolls, 0);
    GameState(FramesAfter(rolls), if n == 0 then 0 else n - 1)
  }

  /** Drop by a, then by b, is drop by a + b. */
  lemma DropDrop(s: seq<int>, a: nat, b: nat)
    ensures Drop(Drop(s, a), b) == Drop(s, a + b)
  {
    if a < |s| && b < |s| - a {
      assert s[a..][b..] == s[a + b..];
    }
  }

  /** Cutting at or before the end of the stream, then rolling once more, extends the rest. */
  lemma DropSnocAt(stream: seq<int>, pins: int, x: nat)
    requires x <= |stream|
    ensures Drop(stream + [pins], x) == Drop(stream, x) + [pins]
  {
    if x < |stream| {
      assert (stream + [pins])[x..] == stream[x..] + [pins];
    }
  }

  /** A frame's own rolls are decided by its first roll, which a further roll does not change. */
  lemma OwnSnoc(stream: seq<int>, pins: int)
    requires stream != []
    ensures Own(stream + [pins]) == Own(stream)
  {
    assert (stream + [pins])[0] == stream[0];
  }

  /** The next frame starts right after the own rolls of the frame before it. */
  lemma {:induction false} StartSucc(stream: seq<int>, k: nat)
    ensures Start(stream, k + 1) == Start(stream, k) + Own(Drop(stream, Start(stream, k)))
    decreases k, 1
  {
    if k == 0 {
      assert Drop(stream, 0) == stream;
    } else {
      StartSuccLater(stream, k);
    }
  }

  lemma {:induction false} StartSuccLater(stream: seq<int>, k: nat)
    requires 0 < k
    ensures Start(stream, k + 1) == Start(stream, k) + Own(Drop(stream, Start(stream, k)))
    decreases k, 0
  {
    var o := Own(stream);
    var rest := Drop(stream, o);
    StartSucc(rest, k - 1);
    DropDrop(stream, o, Start(rest, k - 1));
  }

  /** Every frame takes at least one roll of its own, so starts strictly increase. */
  lemma {:induction false} StartGrows(stream: seq<int>, k: nat, m: nat)
    requires k <= m
    ensures Start(stream, k) + (m - k) <= Start(stream, m)
    decreases m
  {
    if k < m {
      StartGrows(stream, k, m - 1);
      StartSucc(stream, m - 1);
    }
  }

  /** Frame j + k has been reached exactly when its start lies inside the stream. */
  lemma {:induction false} StartedIff(stream: seq<int>, j: nat, k: nat)
    requires j + k < FrameCount
    ensures k < Started(stream, j) <==> Start(stream, k) < |stream|
    decreases k
  {
    var o := Own(stream);
    var rest := Drop(stream, o);
    if stream != [] && k > 0 {
      assert Started(stream, j) == 1 + Started(rest, j + 1);
      if |stream| >= o {
        assert |rest| == |stream| - o;
        StartedIff(rest, j + 1, k - 1);
      } else {
        assert rest == [] && |stream| == 1;
      }
    }
  }

  /** A frame starting inside or at the end of the stream starts there after one more roll too. */
  lemma {:induction false} StartSnocKept(stream: seq<int>, pins: int, k: nat)
    requires Start(stream, k) <= |stream|
    ensures Start(stream + [pins], k) == Start(stream, k)
    decreases k
  {
    if k > 0 {
      var o := Own(stream);
      var rest := Drop(stream, o);
      assert |stream| >= o;
      OwnSnoc(stream, pins);
      DropSnocAt(stream, pins, o);
      assert |rest| == |stream| - o;
      StartSnocKept(rest, pins, k - 1);
    }
  }

  /** A frame that starts past the end of the stream still starts past its old end. */
  lemma {:induction false} StartSnocPast(stream: seq<int>, pins: int, k: nat)
    requires |stream| < Start(stream, k)
    ensures |stream| < Start(stream + [pins], k)
    decreases k
  {
    var s' := stream + [pins];
    var o := Own(stream);
    var rest := Drop(stream, o);
    if stream == [] {
      assert Start(s', k) >= Own(s');
    } else {
      OwnSnoc(stream, pins);
      if |stream| >= o {
        DropSnocAt(stream, pins, o);
        assert |rest| == |stream| - o;
        StartSnocPast(rest, pins, k - 1);
      }
    }
  }

  /**
   * One more roll: a frame that starts inside or at the end of the stream receives it (and
   * ignores it when full); a frame that starts later stays empty.
   */
  lemma FrameSnoc(stream: seq<int>, pins: int, k: nat)
    ensures Start(stream, k) <= |stream| ==>
              FrameAt(stream + [pins], k) == FrameAt(stream, k).Roll(pins)
    ensures |stream| < Start(stream, k) ==> FrameAt(stream + [pins], k) == FrameAt(stream, k)
  {
    var x := Start(stream, k);
    if x <= |stream| {
      StartSnocKept(stream, pins, k);
      DropSnocAt(stream, pins, x);
      AbsorbSnoc(k + 1, Drop(stream, x), pins);
    } else {
      StartSnocPast(stream, pins, k);
    }
  }

  /**
   * The frame after a started one starts inside or at the end of the stream exactly when
   * the started frame says the game should advance; otherwise it starts past the end.
   */
  lemma AfterCurrent(stream: seq<int>, c: nat)
    requires c + 1 < FrameCount && Start(stream, c) < |stream|
    ensures FrameAt(stream, c).ShouldAdvance() <==> Start(stream, c + 1) <= |stream|
  {
    var x := Start(stream, c);
    var d := Drop(stream, x);
    var f := FrameAt(stream, c);
    StartSucc(stream, c);
    assert |d| == |stream| - x;
    assert f.rolls[0] == d[0];
    if |d| >= 2 {
      assert f.rolls[1] == d[1];
    }
  }

  /** Frames before the cursor have started inside the stream. */
  lemma BoundaryBefore(stream: seq<int>, c: nat, k: nat)
    requires k <= c < Started(stream, 0)
    ensures Start(stream, k) < |stream|
  {
    StartedIff(stream, 0, k);
  }

  /** The frame after the cursor starts inside or at the end exactly when the cursor advances. */
  lemma BoundaryNext(stream: seq<int>, c: nat)
    requires c + 1 < FrameCount && c < Started(stream, 0)
    ensures FrameAt(stream, c).ShouldAdvance() <==> Start(stream, c + 1) <= |stream|
  {
    StartedIff(stream, 0, c);
    AfterCurrent(stream, c);
  }

  /** Frames two or more after the cursor start past the end of the stream. */
  lemma BoundaryBeyond(stream: seq<int>, c: nat, k: nat)
    requires c + 1 < k < FrameCount && Started(stream, 0) <= c + 1
    ensures |stream| < Start(stream, k)
  {
    var next := c + 1;
    StartedIff(stream, 0, next);
    StartGrows(stream, next, k);
  }

  /** With no rolls yet, frame 0 receives the next roll and every later frame starts past the end. */
  lemma BoundaryEmpty(k: nat)
    requires k < FrameCount
    ensures !FrameAt([], 0).ShouldAdvance()
    ensures 0 < k ==> 0 < Start([], k)
  {
    assert FrameAt([], 0).rolls == [];
  }

  /**
   * Frames up to the one that receives the next roll start inside or at the end of the
   * stream; every later frame starts past it.
   */
  lemma CursorBoundary(stream: seq<int>, k: nat)
    requires k < FrameCount
    ensures var g := Reference(stream);
      var next := if g.CurrentFrame().ShouldAdvance() then g.frameIndex + 1 else g.frameIndex;
      (k <= next ==> Start(stream, k) <= |stream|) && (next < k ==> |stream| < Start(stream, k))
  {
    var g := Reference(stream);
    var c := g.frameIndex;
    assert g.CurrentFrame() == FrameAt(stream, c);
    if stream == [] {
      BoundaryEmpty(k);
    } else {
      assert c + 1 == Started(stream, 0);
      if k <= c {
        BoundaryBefore(stream, c, k);
      } else if k == c + 1 {
        BoundaryNext(stream, c);
      } else {
        BoundaryBeyond(stream, c, k);
      }
    }
  }

  /** The number of frames reached is read off the starts that lie inside the stream. */
  lemma StartedFromStarts(stream: seq<int>, m: nat)
    requires 1 <= m <= FrameCount
    requires forall k :: 0 <= k < FrameCount ==> (k < m <==> Start(stream, k) < |stream|)
    ensures Started(stream, 0) == m
  {
    var n := Started(stream, 0);
    if n < m {
      StartedIff(stream, 0, n);
      assert false;
    }
    if m < n {
      StartedIff(stream, 0, m);
      assert false;
    }
  }

  /** When all ten frames have been reached and the tenth is full, it holds two rolls or more. */
  lemma LastFrameRoom(stream: seq<int>)
    requires Started(stream, 0) == FrameCount && FrameAt(stream, FrameCount - 1).HasMaxRolls()
    ensures Start(stream, FrameCount - 1) + 2 <= |stream|
  {
    var k := FrameCount - 1;
    var x := Start(stream, k);
    StartedIff(stream, 0, k);
    assert |Drop(stream, x)| == |stream| - x;
  }

  /** A frame followed by two rolls beyond its own is full: that covers any bonus. */
  lemma FullWithTwoAfter(stream: seq<int>, k: nat)
    requires Start(stream, k + 1) + 2 <= |stream|
    ensures !FrameAt(stream, k).CanRoll()
  {
    var x := Start(stream, k);
    StartSucc(stream, k);
    assert |Drop(stream, x)| == |stream| - x;
  }

  /**
   * When all ten frames have been reached and the tenth is full, every frame is full: each
   * has at least two rolls after its own.
   */
  lemma SaturatedAt(stream: seq<int>, k: nat)
    requires k < FrameCount
    requires Started(stream, 0) == FrameCount && FrameAt(stream, FrameCount - 1).HasMaxRolls()
    ensures !FrameAt(stream, k).CanRoll()
  {
    if k + 1 < FrameCount {
      SaturatedBefore(stream, k);
    }
  }

  lemma SaturatedBefore(stream: seq<int>, k: nat)
    requires k + 1 < FrameCount
    requires Started(stream, 0) == FrameCount && FrameAt(stream, FrameCount - 1).HasMaxRolls()
    ensures !FrameAt(stream, k).CanRoll()
  {
    var next := k + 1;
    var last := FrameCount - 1;
    LastFrameRoom(stream);
    StartGrows(stream, next, last);
    FullWithTwoAfter(stream, k);
  }

  /** Frame k and the cursor after one more roll into an unfinished game. */
  lemma OpenStepAt(stream: seq<int>, pins: int, k: nat)
    requires k < FrameCount && 0 <= pins <= 10
    requires Reference(stream).Valid() && !Reference(stream).IsComplete()
    ensures var r := Reference(stream).Roll(pins);
      FrameAt(stream + [pins], k) == r.frames[k]
      && (k < r.frameIndex + 1 <==> Start(stream + [pins], k) < |stream + [pins]|)
  {
    var g := Reference(stream);
    var next := if g.CurrentFrame().ShouldAdvance() then g.frameIndex + 1 else g.frameIndex;
    assert g.Roll(pins) == GameState(RollUpTo(g.frames, next, pins), next);
    assert g.frames[k] == FrameAt(stream, k);
    CursorBoundary(stream, k);
    FrameSnoc(stream, pins, k);
    StartedAfterSnoc(stream, pins, k);
  }

  /** After one more roll, a frame has started exactly when it started inside or at the end before. */
  lemma StartedAfterSnoc(stream: seq<int>, pins: int, k: nat)
    ensures Start(stream + [pins], k) < |stream + [pins]| <==> Start(stream, k) <= |stream|
  {
    if Start(stream, k) <= |stream| {
      StartSnocKept(stream, pins, k);
    } else {
      StartSnocPast(stream, pins, k);
    }
  }

  /** One more roll into an unfinished game: the closed form moves exactly as the game does. */
  lemma ReferenceStepOpen(stream: seq<int>, pins: int)
    requires 0 <= pins <= 10
    requires Reference(stream).Valid() && !Reference(stream).IsComplete()
    ensures Reference(stream).Roll(pins) == Reference(stream + [pins])
  {
    var s' := stream + [pins];
    var r := Reference(stream).Roll(pins);
    forall k | 0 <= k < FrameCount
      ensures FramesAfter(s')[k] == r.frames[k]
      ensures k < r.frameIndex + 1 <==> Start(s', k) < |s'|
    {
      OpenStepAt(stream, pins, k);
    }
    assert FramesAfter(s') == r.frames;
    StartedFromStarts(s', r.frameIndex + 1);
  }

  /** Frame k after one more roll into a finished game: unchanged, and still reached. */
  lemma DoneStepAt(stream: seq<int>, pins: int, k: nat)
    requires k < FrameCount
    requires Started(stream, 0) == FrameCount && FrameAt(stream, FrameCount - 1).HasMaxRolls()
    ensures FrameAt(stream + [pins], k) == FrameAt(stream, k)
    ensures Start(stream + [pins], k) < |stream + [pins]|
  {
    StartedIff(stream, 0, k);
    SaturatedAt(stream, k);
    FrameSnoc(stream, pins, k);
    StartSnocKept(stream, pins, k);
  }

  /** One more roll into a finished game changes neither the game nor its closed form. */
  lemma ReferenceStepDone(stream: seq<int>, pins: int)
    requires Reference(stream).Valid() && Reference(stream).IsComplete()
    ensures Reference(stream + [pins]) == Reference(stream)
  {
    assert Started(stream, 0) == FrameCount;
    assert FramesAfter(stream)[FrameCount - 1] == FrameAt(stream, FrameCount - 1);
    FramesAfterDone(stream, pins);
  }

  /** In a game whose tenth frame is full, one more roll leaves every frame as it was. */
  lemma FramesAfterDone(stream: seq<int>, pins: int)
    requires Started(stream, 0) == FrameCount && FrameAt(stream, FrameCount - 1).HasMaxRolls()
    ensures FramesAfter(stream + [pins]) == FramesAfter(stream)
    ensures Started(stream + [pins], 0) == FrameCount
  {
    var s' := stream + [pins];
    forall k | 0 <= k < FrameCount
      ensures FramesAfter(s')[k] == FramesAfter(stream)[k]
      ensures k < FrameCount <==> Start(s', k) < |s'|
    {
      DoneStepAt(stream, pins, k);
    }
    StartedFromStarts(s', FrameCount);
  }

  /** The closed form of a valid game after one more roll is the game after that roll. */
  lemma ReferenceStep(rolls: seq<int>, pins: int)
    requires 0 <= pins <= 10
    requires Reference(rolls).Valid()
    ensures Reference(rolls).Roll(pins) == Reference(rolls + [pins])
  {
    if Reference(rolls).IsComplete() {
      ReferenceStepDone(rolls, pins);
    } else {
      ReferenceStepOpen(rolls, pins);
    }
  }

  /** No rolls: the closed form is a new game. */
  lemma ReferenceInitial()
    ensures Reference([]) == Initial()
  {
    forall k | 0 <= k < FrameCount
      ensures FramesAfter([])[k] == Initial().frames[k]
    {
      EmptyFrameAt(k);
    }
  }

  lemma EmptyFrameAt(k: nat)
    ensures FrameAt([], k) == Frame(k + 1, [])
  {
    assert Drop([], Start([], k)) == [];
  }

  /**
   * The eager scorer builds the closed form: rolling any sequence of rolls with pins in
   * 0..10 into a new game gives Reference of that sequence.
   */
  lemma {:induction false} EagerMatchesReference(rolls: seq<int>)
    requires ValidRolls(rolls)
    ensures RollAll(Initial(), rolls) == Reference(rolls)
    decreases |rolls|
  {
    if rolls == [] {
      ReferenceInitial();
    } else {
      var init := rolls[..|rolls| - 1];
      var pins := rolls[|rolls| - 1];
      assert rolls == init + [pins];
      EagerMatchesReference(init);
      ReferenceStep(init, pins);
    }
  }

  /** The scores of frames k.. of fs, added up from position k on. */
  function ScoreFrom(fs: seq<Frame>, k: nat): int
    decreases |fs| - k
  {
    if k >= |fs| then 0 else fs[k].Score() + ScoreFrom(fs, k + 1)
  }

  /** Adding up from position k is the total of the suffix that starts there. */
  lemma {:induction false} ScoreFromSuffix(fs: seq<Frame>, k: nat)
    requires k <= |fs|
    ensures TotalScore(fs[k..]) == ScoreFrom(fs, k)
    decreases |fs| - k
  {
    if k < |fs| {
      ScoreFromSuffix(fs, k + 1);
      assert fs[k..][1..] == fs[k + 1..];
    }
  }

  /** Sum of the first n rolls, counting rolls not yet made as 0. */
  lemma {:induction false} SumTake(s: seq<int>, n: nat)
    ensures Sum(Take(s, n)) == if n == 0 then 0 else Sum(Take(s, n - 1)) + RollAt(s, n - 1)
  {
    if n > 0 && n - 1 < |s| {
      assert Take(s, n) == Take(s, n - 1) + [s[n - 1]];
      SumSnoc(Take(s, n - 1), s[n - 1]);
    } else if n > 0 {
      assert Take(s, n) == Take(s, n - 1);
    }
  }

  /**
   * The frame at the head of the stream scores what the look-ahead scorer gives it: a
   * strike ten plus the next two rolls, a spare ten plus the next one, an open frame its
   * rolls.
   */
  lemma HeadFrameScore(stream: seq<int>, j: nat)
    requires j < FrameCount
    ensures LookAheadScore(stream, j)
            == Absorb(j + 1, stream).Score() + LookAheadScore(Drop(stream, Own(stream)), j + 1)
  {
    var a := Absorb(j + 1, stream);
    var rest := Drop(stream, Own(stream));
    SumTake(stream, 1);
    SumTake(stream, 2);
    SumTake(stream, 3);
    assert Take(stream, 0) == [];
    var m := Frame(j + 1, stream).MaxRolls();
    assert a.rolls == Take(stream, m);
    if stream == [] {
    } else if stream[0] == 10 {
      assert m == 3 && rest == stream[1..];
    } else if |stream| == 1 {
      assert m == 2 && rest == [];
      assert LookAheadScore(rest, j + 1) == 0;
    } else if stream[0] + stream[1] == 10 {
      assert m == 3 && rest == stream[2..];
    } else {
      assert m == 2 && rest == stream[2..];
    }
  }

  /**
   * The closed-form frames k..9 score what the look-ahead scorer gives the rolls from the
   * start of frame k on.
   */
  lemma {:induction false} ClosedFormScore(rolls: seq<int>, k: nat)
    requires k <= FrameCount
    ensures ScoreFrom(FramesAfter(rolls), k) == LookAheadScore(Drop(rolls, Start(rolls, k)), k)
    decreases FrameCount - k
  {
    if k < FrameCount {
      ClosedFormScore(rolls, k + 1);
      ClosedFormScoreStep(rolls, k);
    }
  }

  lemma ClosedFormScoreStep(rolls: seq<int>, k: nat)
    requires k < FrameCount
    requires ScoreFrom(FramesAfter(rolls), k + 1)
             == LookAheadScore(Drop(rolls, Start(rolls, k + 1)), k + 1)
    ensures ScoreFrom(FramesAfter(rolls), k) == LookAheadScore(Drop(rolls, Start(rolls, k)), k)
  {
    var x := Start(rolls, k);
    var d := Drop(rolls, x);
    StartSucc(rolls, k);
    DropDrop(rolls, x, Own(d));
    HeadFrameScore(d, k);
    assert FramesAfter(rolls)[k] == Absorb(k + 1, d);
  }

  /** Main theorem: the score of the eager game is the classic look-ahead bowling score. */
  lemma EagerMatchesLookAhead(rolls: seq<int>)
    requires ValidRolls(rolls)
    ensures RollAll(Initial(), rolls) == Reference(rolls)
    ensures RollAll(Initial(), rolls).Score() == LookAheadScore(rolls, 0)
  {
    var fs := FramesAfter(rolls);
    EagerMatchesReference(rolls);
    ClosedFormScore(rolls, 0);
    ScoreFromSuffix(fs, 0);
    assert fs[0..] == fs;
    assert Drop(rolls, 0) == rolls;
  }
}
