/** `draw_straight_line` and `binarize`. The grid is a list of columns,
    indexed `grid[x][y]`; here it is an `array2<int>` indexed `grid[x, y]`. */
module Raster {
  import opened Vector

  function Min(a: int, b: int): int
  {
    if a <= b then a else b
  }

  function Max(a: int, b: int): int
  {
    if a <= b then b else a
  }

  function Abs(a: int): int
  {
    if a < 0 then -a else a
  }

  /** Cell (i, j) is one the vertical branch draws: the two end points
      share their x and the cell is in that column between their y values. */
  predicate OnVertical(a: Point, b: Point, i: int, j: int)
  {
    a.x == b.x && i == a.x && Min(a.y, b.y) <= j <= Max(a.y, b.y)
  }

  /** Cell (i, j) is one the horizontal branch draws. */
  predicate OnHorizontal(a: Point, b: Point, i: int, j: int)
  {
    a.y == b.y && j == a.y && Min(a.x, b.x) <= i <= Max(a.x, b.x)
  }

  /** What one branch does to a cell it draws: with `stroke == 0` the cell
      becomes 1, otherwise it gains `stroke`. */
  function Stamp(v: int, stroke: int): int
  {
    if stroke == 0 then 1 else v + stroke
  }

  /** The value of cell (i, j) after `draw_straight_line(a, b, grid, stroke)`
      when it held `v` before: the two independent `if`s apply in turn. */
  function Painted(v: int, a: Point, b: Point, i: int, j: int, stroke: int): int
  {
    var afterVertical := if OnVertical(a, b, i, j) then Stamp(v, stroke) else v;
    if OnHorizontal(a, b, i, j) then Stamp(afterVertical, stroke) else afterVertical
  }

  /** Every index the call would use lies inside a `width` x `height` grid,
      so Python neither raises `IndexError` nor wraps a negative index. */
  predicate SegmentFits(a: Point, b: Point, width: int, height: int)
  {
    (a.x == b.x ==> 0 <= a.x < width && 0 <= Min(a.y, b.y) && Max(a.y, b.y) < height) &&
    (a.y == b.y ==> 0 <= a.y < height && 0 <= Min(a.x, b.x) && Max(a.x, b.x) < width)
  }

  /** `draw_straight_line(point_a, point_b, grid, stroke)`: every cell
      ends up as `Painted` says of its old value; nothing else changes. */
  method DrawStraightLine(a: Point, b: Point, grid: array2<int>, stroke: int)
    requires SegmentFits(a, b, grid.Length0, grid.Length1)
    modifies grid
    ensures forall i, j :: 0 <= i < grid.Length0 && 0 <= j < grid.Length1 ==>
      grid[i, j] == Painted(old(grid[i, j]), a, b, i, j, stroke)
  {
    if a.x == b.x {
      var start := Min(a.y, b.y);
      var k := 0;
      while k < Abs(b.y - a.y) + 1
        invariant 0 <= k <= Abs(b.y - a.y) + 1
        invariant forall i, j :: 0 <= i < grid.Length0 && 0 <= j < grid.Length1 ==>
          grid[i, j] == if i == a.x && start <= j < start + k then Stamp(old(grid[i, j]), stroke) else old(grid[i, j])
      {
        if stroke == 0 {
          grid[a.x, start + k] := 1;
        } else {
          grid[a.x, start + k] := grid[a.x, start + k] + stroke;
        }
        k := k + 1;
      }
    }
    assert forall i, j :: 0 <= i < grid.Length0 && 0 <= j < grid.Length1 ==>
      grid[i, j] == if OnVertical(a, b, i, j) then Stamp(old(grid[i, j]), stroke) else old(grid[i, j]);
    label Vertical:
    if a.y == b.y {
      var start := Min(a.x, b.x);
      var k := 0;
      while k < Abs(b.x - a.x) + 1
        invariant 0 <= k <= Abs(b.x - a.x) + 1
        invariant forall i, j :: 0 <= i < grid.Length0 && 0 <= j < grid.Length1 ==>
          grid[i, j] == if j == a.y && start <= i < start + k then Stamp(old@Vertical(grid[i, j]), stroke) else old@Vertical(grid[i, j])
      {
        if stroke == 0 {
          grid[start + k, a.y] := 1;
        } else {
          grid[start + k, a.y] := grid[start + k, a.y] + stroke;
        }
        k := k + 1;
      }
    }
  }

  /** Cells off the segment keep their value; a diagonal segment (neither
      coordinate shared) changes no cell at all. */
  lemma PaintedOffSegment(v: int, a: Point, b: Point, i: int, j: int, stroke: int)
    ensures !OnVertical(a, b, i, j) && !OnHorizontal(a, b, i, j) ==> Painted(v, a, b, i, j, stroke) == v
    ensures a.x != b.x && a.y != b.y ==> Painted(v, a, b, i, j, stroke) == v
  {
  }

  /** A vertical segment of positive length touches exactly the cells
      (a.x, y) with y between the end points; a horizontal one exactly the
      cells (x, a.y). */
  lemma PaintedCells(v: int, a: Point, b: Point, i: int, j: int, stroke: int)
    ensures a.x == b.x && a.y != b.y ==>
      Painted(v, a, b, i, j, stroke) == if i == a.x && Min(a.y, b.y) <= j <= Max(a.y, b.y) then Stamp(v, stroke) else v
    ensures a.y == b.y && a.x != b.x ==>
      Painted(v, a, b, i, j, stroke) == if j == a.y && Min(a.x, b.x) <= i <= Max(a.x, b.x) then Stamp(v, stroke) else v
  {
  }

  /** With `stroke == 0` a drawn cell is 1, so drawing the same segment a
      second time changes nothing. */
  lemma PaintedIdempotent(v: int, a: Point, b: Point, i: int, j: int)
    ensures OnVertical(a, b, i, j) || OnHorizontal(a, b, i, j) ==> Painted(v, a, b, i, j, 0) == 1
    ensures Painted(Painted(v, a, b, i, j, 0), a, b, i, j, 0) == Painted(v, a, b, i, j, 0)
  {
  }

  /** With `stroke != 0` each drawn cell of a segment of positive length
      gains `stroke`, so a second drawing adds it again; the single cell of
      a degenerate segment (`a == b`) is drawn by both branches and gains
      `2 * stroke`. */
  lemma PaintedAccumulates(v: int, a: Point, b: Point, i: int, j: int, stroke: int)
    requires stroke != 0
    ensures a != b && (OnVertical(a, b, i, j) || OnHorizontal(a, b, i, j)) ==>
      Painted(v, a, b, i, j, stroke) == v + stroke &&
      Painted(Painted(v, a, b, i, j, stroke), a, b, i, j, stroke) == v + 2 * stroke
    ensures a == b && i == a.x && j == a.y ==> Painted(v, a, b, i, j, stroke) == v + 2 * stroke
  {
  }

  /** A Python truth value stored in an integer grid: `True == 1`. */
  function Truth(b: bool): int
  {
    if b then 1 else 0
  }

  /** `binarize(grid)`. `grid.copy()` copies only the outer list, so the
      loops overwrite the caller's own rows: the grid is changed in place
      and the result shares its cells. */
  method Binarize(grid: array2<int>) returns (g: array2<int>)
    modifies grid
    ensures g == grid
    ensures forall i, j :: 0 <= i < grid.Length0 && 0 <= j < grid.Length1 ==>
      grid[i, j] == Truth(old(grid[i, j]) != 0)
  {
    g := grid;
    var i := 0;
    while i < g.Length0
      invariant 0 <= i <= g.Length0
      invariant forall r, c :: 0 <= r < g.Length0 && 0 <= c < g.Length1 ==>
        g[r, c] == if r < i then Truth(old(g[r, c]) != 0) else old(g[r, c])
    {
      var j := 0;
      while j < g.Length1
        invariant 0 <= j <= g.Length1
        invariant forall r, c :: 0 <= r < g.Length0 && 0 <= c < g.Length1 ==>
          g[r, c] == if r < i || (r == i && c < j) then Truth(old(g[r, c]) != 0) else old(g[r, c])
      {
        g[i, j] := Truth(g[i, j] != 0);
        j := j + 1;
      }
      i := i + 1;
    }
  }

  /** Binarizing is idempotent, and it leaves a cell that holds 0 or 1
      (everything a `stroke == 0` drawing produces) as it is. */
  lemma TruthIdempotent(v: int)
    ensures Truth(Truth(v != 0) != 0) == Truth(v != 0)
    ensures v == 0 || v == 1 ==> Truth(v != 0) == v
  {
  }
}
