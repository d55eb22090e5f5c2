/** The script's main block up to the PNG output: generate the turns,
    walk them, take the bounding box of the path, translate it to the
    origin, scale it, allocate a grid just large enough and draw every
    segment into it. */
module Driver {
  import opened Vector
  import opened Dragon
  import opened Walking
  import opened Raster

  /** `seed if seed else [1]`: an absent or empty seed falls back to [1]. */
  function EffectiveSeed(seed: seq<int>): (s: seq<int>)
    ensures |s| > 0
    ensures seed != [] ==> s == seed
    ensures seed == [] ==> s == [1]
  {
    if seed == [] then [1] else seed
  }

  /** Python's `min` over a non-empty list of integers. */
  function MinOf(s: seq<int>): (m: int)
    requires |s| > 0
    ensures m in s && forall i :: 0 <= i < |s| ==> m <= s[i]
  {
    if |s| == 1 then s[0]
    else
      var rest := MinOf(s[1..]);
      if s[0] <= rest then s[0] else rest
  }

  /** Python's `max` over a non-empty list of integers. */
  function MaxOf(s: seq<int>): (m: int)
    requires |s| > 0
    ensures m in s && forall i :: 0 <= i < |s| ==> s[i] <= m
  {
    if |s| == 1 then s[0]
    else
      var rest := MaxOf(s[1..]);
      if s[0] >= rest then s[0] else rest
  }

  /** `list(map(lambda c: c.x, fractal))`. */
  function Xs(pts: seq<Point>): (r: seq<int>)
    ensures |r| == |pts| && forall i :: 0 <= i < |pts| ==> r[i] == pts[i].x
  {
    seq(|pts|, i requires 0 <= i < |pts| => pts[i].x)
  }

  /** `list(map(lambda c: c.y, fractal))`. */
  function Ys(pts: seq<Point>): (r: seq<int>)
    ensures |r| == |pts| && forall i :: 0 <= i < |pts| ==> r[i] == pts[i].y
  {
    seq(|pts|, i requires 0 <= i < |pts| => pts[i].y)
  }

  /** `min_x, max_x, min_y, max_y`. */
  datatype Box = Box(minX: int, maxX: int, minY: int, maxY: int)

  predicate Contains(b: Box, p: Point)
  {
    b.minX <= p.x <= b.maxX && b.minY <= p.y <= b.maxY
  }

  /** The bounding box of the path: it contains every point, and each of
      its four bounds is attained by some point. */
  function BoundingBox(pts: seq<Point>): (b: Box)
    requires |pts| > 0
    ensures forall i :: 0 <= i < |pts| ==> Contains(b, pts[i])
    ensures b.minX in Xs(pts) && b.maxX in Xs(pts) && b.minY in Ys(pts) && b.maxY in Ys(pts)
  {
    Box(MinOf(Xs(pts)), MaxOf(Xs(pts)), MinOf(Ys(pts)), MaxOf(Ys(pts)))
  }

  /** `len(grid)`: `(max_x - min_x) * stretch_factor + 1` columns. */
  function Width(b: Box, stretch: nat): int
  {
    (b.maxX - b.minX) * stretch + 1
  }

  /** `len(grid[0])`: `(max_y - min_y) * stretch_factor + 1` rows. */
  function Height(b: Box, stretch: nat): int
  {
    (b.maxY - b.minY) * stretch + 1
  }

  /** `(p + adjustment) * stretch_factor` with
      `adjustment = Coord(-1 * min_x, -1 * min_y)`. */
  function Place(p: Point, b: Box, stretch: nat): Point
  {
    Scale(Add(p, Point(-1 * b.minX, -1 * b.minY)), stretch)
  }

  lemma MulMonotone(a: nat, c: nat, s: nat)
    requires a <= c
    ensures 0 <= a * s <= c * s
  {
    assert c * s == a * s + (c - a) * s;
  }

  /** A point of the box lands, after translation and scaling, on a cell of
      the grid the main block allocates. */
  lemma PlaceInGrid(p: Point, b: Box, stretch: nat)
    requires Contains(b, p)
    ensures 0 <= Place(p, b, stretch).x < Width(b, stretch)
    ensures 0 <= Place(p, b, stretch).y < Height(b, stretch)
  {
    MulMonotone(p.x - b.minX, b.maxX - b.minX, stretch);
    MulMonotone(p.y - b.minY, b.maxY - b.minY, stretch);
  }

  /** Hence every index `draw_straight_line` uses for a segment between two
      points of the box lies inside the grid. */
  lemma SegmentInGrid(p: Point, q: Point, b: Box, stretch: nat)
    requires Contains(b, p) && Contains(b, q)
    ensures SegmentFits(Place(p, b, stretch), Place(q, b, stretch), Width(b, stretch), Height(b, stretch))
  {
    PlaceInGrid(p, b, stretch);
    PlaceInGrid(q, b, stretch);
  }

  /** A unit step of the walk stays axis-aligned after placement, and with
      `stretch_factor >= 1` its two ends stay apart, so the driver never
      draws a degenerate segment. */
  lemma PlacedSegmentAxis(p: Point, q: Point, b: Box, stretch: nat)
    requires UnitStep(p, q) && stretch >= 1
    ensures Place(p, b, stretch).x == Place(q, b, stretch).x || Place(p, b, stretch).y == Place(q, b, stretch).y
    ensures Place(p, b, stretch) != Place(q, b, stretch)
  {
    var u, v := p.x - b.minX, p.y - b.minY;
    if p.x == q.x {
      var w := q.y - b.minY;
      assert w == v + 1 || w == v - 1;
      assert w * stretch == v * stretch + (w - v) * stretch;
    } else {
      var w := q.x - b.minX;
      assert w == u + 1 || w == u - 1;
      assert w * stretch == u * stretch + (w - u) * stretch;
    }
  }

  /** Cell (i, j) is drawn by the segment from point `s` to point `s + 1`. */
  predicate Covers(pts: seq<Point>, b: Box, stretch: nat, s: nat, i: int, j: int)
    requires s + 1 < |pts|
  {
    var a, c := Place(pts[s], b, stretch), Place(pts[s + 1], b, stretch);
    OnVertical(a, c, i, j) || OnHorizontal(a, c, i, j)
  }

  /** Cell (i, j) of a zero grid after the first `k` segments of the path
      have been drawn with `stroke == 0`. */
  function Canvas(pts: seq<Point>, b: Box, stretch: nat, k: nat, i: int, j: int): (v: int)
    requires k < |pts|
    ensures v == 0 || v == 1
  {
    if k == 0 then 0
    else Painted(Canvas(pts, b, stretch, k - 1, i, j), Place(pts[k - 1], b, stretch), Place(pts[k], b, stretch), i, j, 0)
  }

  /** A cell is 1 exactly when one of the segments drawn so far covers it,
      and 0 otherwise. */
  lemma {:induction false} CanvasCovered(pts: seq<Point>, b: Box, stretch: nat, k: nat, i: int, j: int)
    requires k < |pts|
    ensures Canvas(pts, b, stretch, k, i, j) == 1 <==> exists s :: 0 <= s < k && Covers(pts, b, stretch, s, i, j)
  {
    if k > 0 {
      CanvasCovered(pts, b, stretch, k - 1, i, j);
      if Covers(pts, b, stretch, k - 1, i, j) {
        assert Canvas(pts, b, stretch, k, i, j) == 1;
      } else {
        assert Canvas(pts, b, stretch, k, i, j) == Canvas(pts, b, stretch, k - 1, i, j);
      }
    }
  }

  /** When consecutive points are axis-aligned (as the walk's are), every
      point of the path lands on a cell the full drawing sets to 1. */
  lemma EveryPointDrawn(pts: seq<Point>, b: Box, stretch: nat, s: nat)
    requires 2 <= |pts| && s < |pts|
    requires forall k :: 0 <= k < |pts| - 1 ==> pts[k].x == pts[k + 1].x || pts[k].y == pts[k + 1].y
    ensures Canvas(pts, b, stretch, |pts| - 1, Place(pts[s], b, stretch).x, Place(pts[s], b, stretch).y) == 1
  {
    var a := Place(pts[s], b, stretch);
    var seg := if s < |pts| - 1 then s else s - 1;
    assert pts[seg].x == pts[seg + 1].x || pts[seg].y == pts[seg + 1].y;
    assert Covers(pts, b, stretch, seg, a.x, a.y);
    CanvasCovered(pts, b, stretch, |pts| - 1, a.x, a.y);
  }

  /** In particular every point of a walk that starts along an axis unit
      vector is drawn. */
  lemma WalkDrawn(start: Point, d: Point, t: seq<int>, b: Box, stretch: nat, s: nat)
    requires IsUnitAxis(d) && s < |t| + 2
    ensures var pts := Path(start, d, t);
      Canvas(pts, b, stretch, |pts| - 1, Place(pts[s], b, stretch).x, Place(pts[s], b, stretch).y) == 1
  {
    var pts := Path(start, d, t);
    PathUnitSteps(start, d, t);
    assert forall k :: 0 <= k < |pts| - 1 ==> pts[k].x == pts[k + 1].x || pts[k].y == pts[k + 1].y;
    EveryPointDrawn(pts, b, stretch, s);
  }

  /** A freshly built walker walks its string from the origin facing
      (1, 0). */
  method WalkFromStart(w: Walker) returns (fractal: seq<Point>)
    requires w.position == Point(0, 0) && w.direction.Value() == Point(1, 0)
    modifies w.direction
    ensures fractal == Path(Point(0, 0), Point(1, 0), w.dragonStr)
  {
    fractal := w.Walk();
  }

  /** The first steps of the main block: the dragon string of the
      effective seed, walked from the origin facing (1, 0). With a
      non-empty seed no round can raise, so the string is always there. */
  method Trace(iterations: int, seed: seq<int>) returns (fractal: seq<Point>)
    ensures DragonSeq(if iterations < 0 then 0 else iterations, EffectiveSeed(seed)).Ok?
    ensures fractal == Path(Point(0, 0), Point(1, 0), DragonSeq(if iterations < 0 then 0 else iterations, EffectiveSeed(seed)).value)
  {
    var turns := DragonString(iterations, EffectiveSeed(seed));
    var w := new Walker(turns.value);
    fractal := WalkFromStart(w);
  }

  /** The rest of the main block up to the PNG output, for a given path:
      the grid has the size of the bounding box, and each cell is the
      drawing of all the path's segments, hence 0 or 1. */
  method Draw(fractal: seq<Point>, stretch: nat) returns (grid: array2<int>, box: Box)
    requires |fractal| > 0
    ensures box == BoundingBox(fractal)
    ensures grid.Length0 == Width(box, stretch) && grid.Length1 == Height(box, stretch)
    ensures forall i, j :: 0 <= i < grid.Length0 && 0 <= j < grid.Length1 ==>
      grid[i, j] == Canvas(fractal, box, stretch, |fractal| - 1, i, j)
  {
    box := BoundingBox(fractal);
    PlaceInGrid(fractal[0], box, stretch);
    grid := new int[Width(box, stretch), Height(box, stretch)]((i, j) => 0);
    var k := 0;
    while k < |fractal| - 1
      invariant 0 <= k <= |fractal| - 1
      invariant forall i, j :: 0 <= i < grid.Length0 && 0 <= j < grid.Length1 ==>
        grid[i, j] == Canvas(fractal, box, stretch, k, i, j)
    {
      SegmentInGrid(fractal[k], fractal[k + 1], box, stretch);
      DrawStraightLine(Place(fractal[k], box, stretch), Place(fractal[k + 1], box, stretch), grid, 0);
      k := k + 1;
    }
  }

  /** The main block up to the PNG output, with the hard-coded iteration
      count, stretch factor and seed as parameters: the path is the walk
      of the dragon string, the grid has the size of its bounding box, and
      each cell holds the drawing of all the path's segments. */
  method Render(iterations: int, stretch: nat, seed: seq<int>) returns (grid: array2<int>, fractal: seq<Point>, box: Box)
    ensures DragonSeq(if iterations < 0 then 0 else iterations, EffectiveSeed(seed)).Ok?
    ensures fractal == Path(Point(0, 0), Point(1, 0), DragonSeq(if iterations < 0 then 0 else iterations, EffectiveSeed(seed)).value)
    ensures box == BoundingBox(fractal)
    ensures grid.Length0 == Width(box, stretch) && grid.Length1 == Height(box, stretch)
    ensures forall i, j :: 0 <= i < grid.Length0 && 0 <= j < grid.Length1 ==>
      grid[i, j] == Canvas(fractal, box, stretch, |fractal| - 1, i, j)
  {
    fractal := Trace(iterations, seed);
    grid, box := Draw(fractal, stretch);
  }
}
