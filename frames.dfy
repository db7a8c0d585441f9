/**
 * One of the ten scoring positions of a bowling game (lib/frame.rb).
 *
 * A frame only records the rolls it has been given; everything else (its score, whether it
 * is a strike or a spare, how many rolls it accepts, whether the game should move past it)
 * is derived from that list and from the frame's 1-based index.
 */
module Frames {

  /** The total of a list of pin counts; 0 for no rolls. */
  function Sum(s: seq<int>): int
  {
    if s == [] then 0 else s[0] + Sum(s[1..])
  }

  lemma {:induction false} SumSnoc(s: seq<int>, x: int)
    ensures Sum(s + [x]) == Sum(s) + x
  {
    if s == [] {
      assert s + [x] == [x];
    } else {
      assert (s + [x])[1..] == s[1..] + [x];
      SumSnoc(s[1..], x);
    }
  }

  /** The first n elements of s, or all of s when it is shorter. */
  function Take(s: seq<int>, n: nat): (r: seq<int>)
    ensures |r| == if n < |s| then n else |s|
    ensures r <= s
  {
    if n < |s| then s[..n] else s
  }

  datatype Frame = Frame(index: int, rolls: seq<int>) {

    /** The first roll knocked down all ten pins. */
    predicate IsStrike()
    {
      |rolls| >= 1 && rolls[0] == 10
    }

    /** The first two rolls together knocked down ten pins. */
    predicate IsSpare()
    {
      |rolls| >= 2 && rolls[0] + rolls[1] == 10
    }

    predicate IsBonus()
    {
      IsStrike() || IsSpare()
    }

    /** How many rolls the frame accepts: its own rolls plus the bonus rolls it earns. */
    function MaxRolls(): (r: nat)
      ensures 2 <= r <= 3
    {
      if IsBonus() then 3 else 2
    }

    /** For a frame within its limit, it accepts another roll exactly when it is not full. */
    predicate CanRoll()
      ensures Valid() ==> (CanRoll() <==> !HasMaxRolls())
    {
      |rolls| < MaxRolls()
    }

    /** No frame is full before its second roll. */
    predicate HasMaxRolls()
      ensures HasMaxRolls() ==> |rolls| >= 2
    {
      |rolls| == MaxRolls()
    }

    predicate IsLastFrame()
    {
      index == 10
    }

    /**
     * Whether the game should move on to the next frame before recording the next roll.
     * The tenth frame never says so; any other frame does exactly after a strike, a spare,
     * or two rolls.
     */
    function ShouldAdvance(): (r: bool)
      ensures IsLastFrame() ==> !r
      ensures Valid() && !IsLastFrame() ==> (r <==> IsStrike() || IsSpare() || |rolls| == 2)
    {
      !IsLastFrame() && (IsBonus() || HasMaxRolls())
    }

    /** The frame's score: every roll it holds, bonus rolls included. */
    function Score(): (r: int)
      ensures rolls == [] ==> r == 0
    {
      Sum(rolls)
    }

    /** The frame never holds more rolls than it accepts. */
    ghost predicate Valid()
    {
      |rolls| <= MaxRolls()
    }

    /**
     * Records a roll: appended when the frame still accepts one, ignored otherwise.
     * Earlier rolls and the index are never altered.
     */
    function Roll(pins: int): (r: Frame)
      ensures r.index == index
      ensures CanRoll() ==> r.rolls == rolls + [pins]
      ensures !CanRoll() ==> r.rolls == rolls
      ensures Valid() ==> r.Valid()
      ensures MaxRolls() <= r.MaxRolls()
    {
      if CanRoll() then Frame(index, rolls + [pins]) else this
    }
  }

  /** The frame that results from rolling every element of ps, in order, into f. */
  function RollEach(f: Frame, ps: seq<int>): Frame
    decreases |ps|
  {
    if ps == [] then f else RollEach(f, ps[..|ps| - 1]).Roll(ps[|ps| - 1])
  }

  /**
   * Closed form of the frame that an empty frame becomes when offered the stream of rolls
   * `stream`: it keeps the first MaxRolls of them, where MaxRolls is decided by the stream's
   * first two rolls.
   */
  function Absorb(index: int, stream: seq<int>): (f: Frame)
    ensures f.index == index && f.rolls <= stream
    ensures f.MaxRolls() == Frame(index, stream).MaxRolls()
    ensures |f.rolls| == if |stream| < f.MaxRolls() then |stream| else f.MaxRolls()
    ensures f.Valid()
  {
    var kept := Take(stream, Frame(index, stream).MaxRolls());
    assert |kept| >= 1 ==> kept[0] == stream[0];
    assert |kept| >= 2 ==> kept[1] == stream[1];
    Frame(index, kept)
  }

  /** Offering one more roll to the closed form is the same as rolling it into the frame. */
  lemma AbsorbSnoc(index: int, stream: seq<int>, pins: int)
    ensures Absorb(index, stream).Roll(pins) == Absorb(index, stream + [pins])
  {
    var s' := stream + [pins];
    var f := Absorb(index, stream);
    var g := Absorb(index, s');
    assert |stream| >= 1 ==> s'[0] == stream[0];
    assert |stream| >= 2 ==> s'[1] == stream[1];
    if f.CanRoll() {
      assert f.rolls == stream;
      assert g.rolls == s';
    } else {
      assert |stream| >= 2;
      assert g.MaxRolls() == f.MaxRolls();
      assert g.rolls == s'[..f.MaxRolls()] == stream[..f.MaxRolls()];
    }
  }

  /** Rolling any sequence into an empty frame keeps exactly the first MaxRolls of it. */
  lemma {:induction false} RollEachFromEmpty(index: int, ps: seq<int>)
    ensures RollEach(Frame(index, []), ps) == Absorb(index, ps)
    decreases |ps|
  {
    if ps == [] {
    } else {
      var init := ps[..|ps| - 1];
      assert ps == init + [ps[|ps| - 1]];
      RollEachFromEmpty(index, init);
      AbsorbSnoc(index, init, ps[|ps| - 1]);
    }
  }

  /** However a frame is rolled into from empty, rolls.length <= MaxRolls <= 3 holds. */
  lemma RollEachKeepsValid(index: int, ps: seq<int>)
    ensures RollEach(Frame(index, []), ps).Valid()
    ensures |RollEach(Frame(index, []), ps).rolls| <= 3
  {
    RollEachFromEmpty(index, ps);
  }

  /** Score after a roll: the roll's pins are added exactly when the frame accepts it. */
  lemma RollScore(f: Frame, pins: int)
    ensures f.Roll(pins).Score() == f.Score() + (if f.CanRoll() then pins else 0)
  {
    if f.CanRoll() {
      SumSnoc(f.rolls, pins);
    }
  }

  /**
   * The number of rolls a frame accepts is settled by its first two rolls: later rolls
   * never change it.
   */
  lemma MaxRollsSettled(f: Frame, more: seq<int>)
    requires |f.rolls| >= 2
    ensures Frame(f.index, f.rolls + more).MaxRolls() == f.MaxRolls()
  {
    var g := Frame(f.index, f.rolls + more);
    assert g.rolls[0] == f.rolls[0] && g.rolls[1] == f.rolls[1];
  }

  /** A strike is full after exactly two further rolls, and ignores any roll after that. */
  lemma StrikeTakesTwoMore(index: int, a: int, b: int, c: int)
    ensures var f := Frame(index, [10]);
      f.IsStrike() && !f.Roll(a).HasMaxRolls() && f.Roll(a).Roll(b).HasMaxRolls()
      && f.Roll(a).Roll(b).Roll(c) == f.Roll(a).Roll(b)
  {
    var f := Frame(index, [10]);
    assert f.Roll(a).rolls == [10, a];
    assert f.Roll(a).Roll(b).rolls == [10, a, b];
  }

  /** A spare is full after exactly one further roll, and ignores any roll after that. */
  lemma SpareTakesOneMore(index: int, x: int, y: int, c: int, e: int)
    requires x + y == 10
    ensures var f := Frame(index, [x, y]);
      f.IsSpare() && !f.HasMaxRolls() && f.Roll(c).HasMaxRolls() && f.Roll(c).Roll(e) == f.Roll(c)
  {
    var f := Frame(index, [x, y]);
    assert f.Roll(c).rolls == [x, y, c];
  }

  /** An open frame is full after two rolls and ignores any roll after that. */
  lemma OpenTakesTwo(index: int, x: int, y: int, c: int)
    requires x != 10 && x + y != 10
    ensures var f := Frame(index, []);
      !f.Roll(x).HasMaxRolls() && f.Roll(x).Roll(y).HasMaxRolls()
      && f.Roll(x).Roll(y).Roll(c) == f.Roll(x).Roll(y)
  {
    var f := Frame(index, []);
    assert f.Roll(x).rolls == [x];
    assert f.Roll(x).Roll(y).rolls == [x, y];
  }

  /** A strike scores ten plus the next two rolls, whatever comes after them. */
  lemma StrikeScore(index: int, a: int, b: int, rest: seq<int>)
    ensures RollEach(Frame(index, []), [10, a, b] + rest).Score() == 10 + a + b
  {
    var s := [10, a, b] + rest;
    RollEachFromEmpty(index, s);
    assert s[0] == 10;
    var f := Absorb(index, s);
    assert f.rolls == [10, a, b];
    assert Sum(f.rolls[2..]) == b;
    assert Sum(f.rolls[1..]) == a + b;
  }

  /** A spare scores ten plus the next roll, whatever comes after it. */
  lemma SpareScore(index: int, x: int, y: int, c: int, rest: seq<int>)
    requires x + y == 10
    ensures RollEach(Frame(index, []), [x, y, c] + rest).Score() == 10 + c
  {
    var s := [x, y, c] + rest;
    RollEachFromEmpty(index, s);
    assert s[0] == x && s[1] == y;
    var f := Absorb(index, s);
    assert f.rolls == [x, y, c];
    assert Sum(f.rolls[2..]) == c;
    assert Sum(f.rolls[1..]) == y + c;
  }

  /** An open frame scores its two rolls, whatever comes after them. */
  lemma OpenScore(index: int, x: int, y: int, rest: seq<int>)
    requires x != 10 && x + y != 10
    ensures RollEach(Frame(index, []), [x, y] + rest).Score() == x + y
  {
    var s := [x, y] + rest;
    RollEachFromEmpty(index, s);
    assert s[0] == x && s[1] == y;
    var f := Absorb(index, s);
    assert f.rolls == [x, y];
    assert Sum(f.rolls[1..]) == y;
  }
}
