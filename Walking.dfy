/** `Walker`: turns the dragon's turn sequence into a lattice path by
    rotating a direction vector in place and stepping along it. */
module Walking {
  import opened Vector

  /** The direction after reading one symbol: 1 turns left, 0 turns right,
      and any other value leaves the direction as it is. */
  function Turn(d: Point, symbol: int): (r: Point)
    ensures IsUnitAxis(d) ==> IsUnitAxis(r)
  {
    if symbol == 1 then TurnLeft(d) else if symbol == 0 then TurnRight(d) else d
  }

  /** The direction after reading all of `s`, starting from `d`. */
  function DirAfter(d: Point, s: seq<int>): Point
    decreases |s|
  {
    if s == [] then d else Turn(DirAfter(d, s[..|s| - 1]), s[|s| - 1])
  }

  /** The list `walk` returns from position `start` and direction `d`:
      the start, one step along `d`, then one point per symbol, each the
      previous point plus the direction after that symbol. It has
      `len(s) + 2` points and begins with `start, start + d`. */
  function Path(start: Point, d: Point, s: seq<int>): (r: seq<Point>)
    decreases |s|
    ensures |r| == |s| + 2 && r[0] == start && r[1] == Add(start, d)
  {
    if s == [] then [start, Add(start, d)]
    else
      var prev := Path(start, d, s[..|s| - 1]);
      prev + [Add(prev[|prev| - 1], DirAfter(d, s))]
  }

  /** Two lattice points one unit apart along exactly one axis. */
  predicate UnitStep(a: Point, b: Point)
  {
    (a.x == b.x && (b.y - a.y == 1 || a.y - b.y == 1)) ||
    (a.y == b.y && (b.x - a.x == 1 || a.x - b.x == 1))
  }

  /** The walker's direction stays an axis unit vector, whatever it reads. */
  lemma {:induction false} DirAfterUnit(d: Point, s: seq<int>)
    requires IsUnitAxis(d)
    ensures IsUnitAxis(DirAfter(d, s))
    decreases |s|
  {
    if s != [] {
      DirAfterUnit(d, s[..|s| - 1]);
    }
  }

  /** Point `k + 1` of the path is point `k` plus the direction held after
      the first `k` symbols. */
  lemma {:induction false} PathStep(start: Point, d: Point, s: seq<int>, k: nat)
    requires k <= |s|
    ensures Path(start, d, s)[k + 1] == Add(Path(start, d, s)[k], DirAfter(d, s[..k]))
    decreases |s|
  {
    if k == 0 {
      assert s[..0] == [];
    } else if k == |s| {
      assert s[..k] == s;
    } else {
      var s' := s[..|s| - 1];
      PathStep(start, d, s', k);
      assert s'[..k] == s[..k];
      assert Path(start, d, s)[..|s| + 1] == Path(start, d, s');
    }
  }

  /** Starting from an axis unit vector, every consecutive pair of path
      points is one unit apart along exactly one axis. */
  lemma PathUnitSteps(start: Point, d: Point, s: seq<int>)
    requires IsUnitAxis(d)
    ensures forall k :: 0 <= k < |s| + 1 ==> UnitStep(Path(start, d, s)[k], Path(start, d, s)[k + 1])
  {
    forall k | 0 <= k < |s| + 1
      ensures UnitStep(Path(start, d, s)[k], Path(start, d, s)[k + 1])
    {
      PathStep(start, d, s, k);
      DirAfterUnit(d, s[..k]);
    }
  }

  /** Appending one symbol to the sequence appends one point to the path:
      the last point plus the direction after the new symbol. */
  lemma PathSnoc(start: Point, d: Point, s: seq<int>, symbol: int)
    ensures DirAfter(d, s + [symbol]) == Turn(DirAfter(d, s), symbol)
    ensures Path(start, d, s + [symbol]) ==
      Path(start, d, s) + [Add(Path(start, d, s)[|s| + 1], Turn(DirAfter(d, s), symbol))]
  {
    assert (s + [symbol])[..|s|] == s;
  }

  /** Reading one more symbol of `s` turns the direction held so far. */
  lemma DirAfterPrefix(d: Point, s: seq<int>, k: nat)
    requires k < |s|
    ensures DirAfter(d, s[..k + 1]) == Turn(DirAfter(d, s[..k]), s[k])
  {
    assert s[..k + 1][..k] == s[..k];
  }

  /** The walk of [1, 1, 0], the dragon string after one round from [1],
      from the origin facing (1, 0): left to (1, 1), left to (0, 1), then
      right to (0, 2). */
  lemma PathOfSecondRound(t: seq<int>)
    requires |t| == 3 && t[0] == 1 && t[1] == 1 && t[2] == 0
    ensures |Path(Point(0, 0), Point(1, 0), t)| == 5
    ensures Path(Point(0, 0), Point(1, 0), t)[2] == Point(1, 1)
    ensures Path(Point(0, 0), Point(1, 0), t)[3] == Point(0, 1)
    ensures Path(Point(0, 0), Point(1, 0), t)[4] == Point(0, 2)
  {
    var e := Point(1, 0);
    assert t[..0] == [] && t[..3] == t;
    DirAfterPrefix(e, t, 0);
    DirAfterPrefix(e, t, 1);
    DirAfterPrefix(e, t, 2);
    assert DirAfter(e, t[..1]) == Point(0, 1);
    assert DirAfter(e, t[..2]) == Point(-1, 0);
    assert DirAfter(e, t) == Point(0, 1);
    PathStep(Point(0, 0), e, t, 1);
    PathStep(Point(0, 0), e, t, 2);
    PathStep(Point(0, 0), e, t, 3);
  }

  /** `Walker`: a start position, a direction object that `walk` rotates in
      place, and the turn sequence. */
  class Walker {
    var position: Point
    var direction: Coord
    var dragonStr: seq<int>

    /** `Walker.__init__`: at the origin, facing (1, 0). */
    constructor (dragonStr: seq<int>)
      ensures position == Point(0, 0) && fresh(direction) && direction.Value() == Point(1, 0)
      ensures this.dragonStr == dragonStr
    {
      position := Point(0, 0);
      direction := new Coord(1, 0);
      this.dragonStr := dragonStr;
    }

    /** `Walker.walk`. The direction object keeps its final rotation, so
        a second call starts from where the first one left it. */
    method Walk() returns (output: seq<Point>)
      modifies direction
      ensures output == Path(position, old(direction.Value()), dragonStr)
      ensures direction.Value() == DirAfter(old(direction.Value()), dragonStr)
    {
      ghost var d0 := direction.Value();
      output := [position, Add(position, direction.Value())];
      var i := 0;
      while i < |dragonStr|
        invariant 0 <= i <= |dragonStr|
        invariant direction.Value() == DirAfter(d0, dragonStr[..i])
        invariant output == Path(position, d0, dragonStr[..i])
      {
        var symbol := dragonStr[i];
        if symbol == 1 {
          direction.RotateLeft();
        } else if symbol == 0 {
          direction.RotateRight();
        }
        assert dragonStr[..i + 1][..i] == dragonStr[..i];
        output := output + [Add(output[|output| - 1], direction.Value())];
        i := i + 1;
      }
      assert dragonStr[..i] == dragonStr;
    }
  }
}
