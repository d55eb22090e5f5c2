# Heighway dragon in Dafny

A verified model of `heighway-dragon.py`, a script that draws the Heighway
dragon curve. The script:

- builds the paper-folding turn sequence (`complement_center`, `dragon_string`);
- walks it on the integer lattice with a direction vector that is rotated in
  place (`Coord`, `Walker`);
- takes the bounding box of the walk and moves the walk to the origin;
- rasterises every segment into a grid of integers (`draw_straight_line`);
- defines `binarize`, which only the commented-out palette writer
  (heighway-dragon.py:165) calls.

The model has six modules:

| file | module | what it holds |
|---|---|---|
| `Vector.dfy` | `Vector` | `Coord`. A coordinate used only as a value is the datatype `Point`. The walker's direction, whose fields `rotate_left` and `rotate_right` overwrite, is an object of class `Coord`. A four-valued `Heading` serves as an independent reference table for the rotations. |
| `Dragon.dfy` | `Dragon` | The turn sequence. Results come as `Ok(...)` or `IndexError`: `complement_center([])` indexes `s[-1]` on an empty list and Python raises. `DragonString` is the loop. `DragonSeq` is the function that specifies it. `Folding` is the textbook paper-folding recurrence. |
| `Walking.dfy` | `Walking` | The `Walker` class. Its `Walk` method is proved against the specification function `Path`. |
| `Raster.dfy` | `Raster` | `draw_straight_line` and `binarize` on an `array2<int>` indexed `grid[x, y]`, as the script's list of columns is. |
| `BitOps.dfy` | `BitOps` | `extract_bits`, with `&`, `<<` and `>>` on non-negative integers of any size. |
| `Driver.dfy` | `Driver` | The main block up to the PNG output: the effective seed, the bounding box, translation and scaling, grid allocation, and drawing every segment. |

Points where the code does something a reader might not expect, all
modelled as the code does them:

- A degenerate segment (`a == b`) satisfies both tests in
  `draw_straight_line`, so both branches run. With a non-zero stroke its
  cell gains `2 * stroke`.
- The comment above `rotate_right` talks about `x == 0`, but the code tests
  `self.y == 0`. `TurnRight` models the test.
- The seed may hold any integers. Only 1 turns left and only 0 turns right.
  Any other value leaves the direction as it is. The flip `1 - b` is applied
  whatever `b` is.
- `binarize` copies only the outer list, so it overwrites the caller's grid.
  The model changes the grid in place and returns the same array.
- `complement_center` works on a copy, so its input is never changed. As a
  function on `seq` values it cannot change its input.

## Model

| member | source | states |
|---|---|---|
| Vector.Add | heighway-dragon.py:17-18 | `Coord.__add__`, the componentwise sum. It has no `ensures`; its laws are in `Vector.VectorLaws`. |
| Vector.Scale | heighway-dragon.py:23-25 | `Coord.__mul__` with an integer scalar. It has no `ensures`; its laws are in `Vector.VectorLaws`. |
| Vector.VectorLaws | heighway-dragon.py:17-27 | `__add__` is commutative and associative, has (0, 0) as unit, and adding `(-x, -y)` undoes adding `(x, y)`. Integer `__mul__` distributes over addition, composes (`(p*s)*t == p*(s*t)`) and has 1 as unit. |
| Vector.TurnLeft | heighway-dragon.py:30-38 | On an axis unit vector the result is again an axis unit vector, and it is the counter-clockwise quarter turn `(-y, x)`. |
| Vector.TurnRight | heighway-dragon.py:41-49 | On an axis unit vector the result is again an axis unit vector, and it is the clockwise quarter turn `(y, -x)`. |
| Vector.HeadingOf | heighway-dragon.py:29-49 | Every axis unit vector is the vector of exactly one of the four headings. |
| Vector.TurnTable | heighway-dragon.py:29-49 | `rotate_left` cycles (1,0) → (0,1) → (-1,0) → (0,-1) → (1,0). `rotate_right` runs the same cycle backwards. |
| Vector.TurnRoundTrips | heighway-dragon.py:29-49 | On axis unit vectors, left then right and right then left are the identity, and so are four lefts and four rights. |
| Vector.TurnOffAxis | heighway-dragon.py:29-49 | Off the unit vectors the two rules are not inverse: (2, 3) turned left and then right gives (2, 0). |
| Vector.Coord.constructor | heighway-dragon.py:10-12 | The new object holds the given x and y. |
| Vector.Coord.RotateLeft | heighway-dragon.py:30-38 | The fields become `TurnLeft` of their old value. The unit-axis invariant is preserved. |
| Vector.Coord.RotateRight | heighway-dragon.py:41-49 | The fields become `TurnRight` of their old value. The unit-axis invariant is preserved. |
| Walking.Turn | heighway-dragon.py:61-65 | Reading one symbol keeps the direction an axis unit vector. |
| Walking.Path | heighway-dragon.py:59-67 | The walk has `len(dragon_str) + 2` points. The first two are the start and the start plus the direction. |
| Walking.DirAfter | heighway-dragon.py:61-65 | The direction after the loop has read a prefix of the string. It has no `ensures`; `Walking.DirAfterUnit` and `Walking.DirAfterPrefix` state its laws. |
| Walking.DirAfterUnit | heighway-dragon.py:61-65 | The direction stays an axis unit vector after any number of symbols. |
| Walking.PathStep | heighway-dragon.py:66 | Point `k + 1` is point `k` plus the direction held after the first `k` symbols. |
| Walking.PathUnitSteps | heighway-dragon.py:59-67 | From an axis unit direction, consecutive points differ by one unit in exactly one coordinate. |
| Walking.PathSnoc | heighway-dragon.py:61-66 | One more symbol turns the direction once and appends the last point plus the new direction. |
| Walking.DirAfterPrefix | heighway-dragon.py:61-65 | Reading symbol `k` turns the direction held after the first `k` symbols. |
| Walking.PathOfSecondRound | heighway-dragon.py:54-67 | The walk of [1, 1, 0] from the origin facing (1, 0) visits (0,0), (1,0), (1,1), (0,1), (0,2). |
| Walking.Walker.constructor | heighway-dragon.py:54-57 | The walker starts at (0, 0), facing (1, 0), with a fresh direction object, and keeps the given string. |
| Walking.Walker.Walk | heighway-dragon.py:59-67 | The returned list is `Path` from the position and the old direction. The direction object ends rotated by every symbol read. |
| Dragon.Center | heighway-dragon.py:72 | `(len - 1) // 2` with floor division. On a non-empty list it is a valid index. |
| Dragon.ComplementCenter | heighway-dragon.py:70-74 | Raises exactly on the empty list. Otherwise the result has the same length, the middle index `(len-1)//2` is in range, and the symbol there is `1 - b`. |
| Dragon.ComplementCenterOnlyCenter | heighway-dragon.py:70-74 | The result agrees with the input at index `i` if and only if `i` is not the middle index. |
| Dragon.ComplementCenterInvolution | heighway-dragon.py:72-73 | Flipping the middle twice gives back the input. |
| Dragon.ComplementCenterBinary | heighway-dragon.py:73 | A list of 0s and 1s stays one. |
| Dragon.Step | heighway-dragon.py:80 | One round fails exactly on the empty list. Otherwise it has length `2L + 1`, keeps the old string as prefix and puts a 1 at index `L`. |
| Dragon.DragonSeq | heighway-dragon.py:77-81 | After `n` rounds the string exists exactly when `n == 0` or the seed is non-empty, and it is never shorter than the seed. |
| Dragon.DragonString | heighway-dragon.py:77-81 | The loop computes `DragonSeq` for `max(iterations, 0)` rounds. It fails exactly when a round starts from an empty seed. With no rounds it returns the seed. |
| Dragon.DragonLength | heighway-dragon.py:79-80 | `len + 1 == (len(seed) + 1) * 2^n` after `n` rounds. |
| Dragon.DragonLengthFromOne | heighway-dragon.py:77-81 | From [1], the string after `n` rounds has `2^(n+1) - 1` symbols. |
| Dragon.DragonNext | heighway-dragon.py:80 | Round `n` maps length `L` to `2L + 1`, keeps the previous string as a prefix and puts a 1 at index `L`. |
| Dragon.DragonPrefix | heighway-dragon.py:79-80 | Every earlier string is a prefix of every later one. |
| Dragon.DragonBinary | heighway-dragon.py:77-81 | A seed of 0s and 1s yields strings of 0s and 1s. |
| Dragon.DragonFromOne | heighway-dragon.py:77-81 | From [1] the first strings are [1], [1,1,0] and [1,1,0,1,1,0,0]. |
| Dragon.CenterFlipIsMirror | heighway-dragon.py:70-74 | On a string `f + [1] + mirror(f)`, flipping the middle symbol equals reversing and complementing the whole string. |
| Dragon.FoldingCenterFlip | heighway-dragon.py:70-74 | Every paper-folding string has that shape, so the middle flip is its mirror. |
| Dragon.FoldingRound | heighway-dragon.py:80 | A round from the `(n-1)`-th paper-folding string yields the `n`-th. |
| Dragon.DragonIsFolding | heighway-dragon.py:77-81 | From [1], `dragon_string` (which flips only the middle symbol) equals the paper-folding sequence `f + [1] + reverse(complement(f))` at every round. |
| BitOps.And | heighway-dragon.py:112-113 | Python's `&` on non-negative integers. The result is at most each operand. `BitOps.AndLowMask` and `BitOps.AndShifted` state its masking laws. |
| BitOps.ShiftLeft | heighway-dragon.py:112 | Python's `<<`. The result is at least the input. `BitOps.ShiftLeftIsProduct` states `a << s == a * 2^s`. |
| BitOps.ShiftRight | heighway-dragon.py:113 | Python's `>>` on non-negative integers. The result is at most the input. `BitOps.ShiftRightIsQuotient` states `a >> s == a // 2^s`. |
| BitOps.ExtractBits | heighway-dragon.py:111-113 | `extract_bits`. It has no `ensures`; `BitOps.ExtractBitsIsSlice` states what it computes. |
| BitOps.ShiftLeftIsProduct | heighway-dragon.py:112 | `a << s == a * 2^s`. |
| BitOps.ShiftLeftOne | heighway-dragon.py:112 | `1 << n == 2^n`. |
| BitOps.ShiftRightIsQuotient | heighway-dragon.py:113 | `a >> s == a // 2^s`. |
| BitOps.ShiftRoundTrip | heighway-dragon.py:112-113 | `(x << s) >> s == x`. |
| BitOps.AndLowMask | heighway-dragon.py:112-113 | `a & (2^n - 1) == a mod 2^n`. |
| BitOps.AndShifted | heighway-dragon.py:112-113 | `a & (m << s) == ((a >> s) & m) << s`. |
| BitOps.MaskThenShift | heighway-dragon.py:112-113 | `(a & (m << s)) >> s == (a >> s) & m`. |
| BitOps.ExtractBitsMask | heighway-dragon.py:112 | The mask is the low mask of width `n_bits` shifted up by `start`. |
| BitOps.ExtractBitsIsSlice | heighway-dragon.py:111-113 | `extract_bits(number, start, n_bits) == (number // 2^start) mod 2^n_bits`, so it is below `2^n_bits`. |
| Raster.Stamp | heighway-dragon.py:89-92 | What one branch does to a drawn cell: 1 with stroke 0, else `+ stroke`. It has no `ensures`; `Raster.PaintedIdempotent` and `Raster.PaintedAccumulates` state its effect. |
| Raster.Painted | heighway-dragon.py:84-100 | The new value of one cell after the vertical pass and then the horizontal pass. It has no `ensures`; `Raster.PaintedCells` and `Raster.PaintedOffSegment` state which cells it touches. |
| Raster.DrawStraightLine | heighway-dragon.py:84-100 | Every cell ends as `Painted` of its old value. The vertical pass runs on `a.x == b.x`, then the horizontal pass on `a.y == b.y`. A drawn cell becomes 1 with stroke 0 and gains `stroke` otherwise. No other cell changes. |
| Raster.PaintedOffSegment | heighway-dragon.py:84-100 | Cells off the segment keep their value. A segment with neither coordinate shared changes nothing. |
| Raster.PaintedCells | heighway-dragon.py:86-100 | A vertical segment of positive length touches exactly the cells `(a.x, y)` with `min(a.y,b.y) <= y <= max(a.y,b.y)`. A horizontal segment touches exactly the cells `(x, a.y)` between its end points. |
| Raster.PaintedIdempotent | heighway-dragon.py:89-98 | With stroke 0 a touched cell is 1, and drawing the same segment twice changes nothing. |
| Raster.PaintedAccumulates | heighway-dragon.py:89-100 | With a non-zero stroke a touched cell of a proper segment gains `stroke` per drawing. The single cell of `a == b` gains `2 * stroke`. |
| Raster.Binarize | heighway-dragon.py:103-108 | The caller's grid itself is overwritten (the result is the same array), and every cell becomes `old != 0` as 0/1. |
| Raster.TruthIdempotent | heighway-dragon.py:107 | Binarising twice is binarising once. A 0/1 cell is left as it is. |
| Driver.EffectiveSeed | heighway-dragon.py:134 | `seed if seed else [1]`: never empty, the seed itself when it is non-empty, otherwise [1]. |
| Driver.MinOf | heighway-dragon.py:141-142 | `min` returns an element that is at most every element. |
| Driver.MaxOf | heighway-dragon.py:141-142 | `max` returns an element that is at least every element. |
| Driver.Xs | heighway-dragon.py:138 | One x value per path point, in order. |
| Driver.Ys | heighway-dragon.py:139 | One y value per path point, in order. |
| Driver.BoundingBox | heighway-dragon.py:138-142 | The box contains every path point, and each of its four bounds is attained by some point. |
| Driver.Width | heighway-dragon.py:147-148 | The number of columns, `(max_x - min_x) * stretch_factor + 1`. It has no `ensures`; `Driver.PlaceInGrid` bounds the x indices by it. |
| Driver.Height | heighway-dragon.py:147 | The number of rows, `(max_y - min_y) * stretch_factor + 1`. It has no `ensures`; `Driver.PlaceInGrid` bounds the y indices by it. |
| Driver.Place | heighway-dragon.py:144-154 | `(p + adjustment) * stretch_factor`. It has no `ensures`; `Driver.PlaceInGrid` states that it lands inside the grid. |
| Driver.PlaceInGrid | heighway-dragon.py:144-154 | A point of the box, translated by `(-min_x, -min_y)` and scaled, indexes inside the grid allocated at lines 147-148. |
| Driver.SegmentInGrid | heighway-dragon.py:147-155 | Every index `draw_straight_line` uses for a segment between two points of the box lies inside the grid. |
| Driver.PlacedSegmentAxis | heighway-dragon.py:152-155 | With `stretch_factor >= 1`, a unit step stays axis-aligned and non-degenerate after placement. |
| Driver.Canvas | heighway-dragon.py:147-155 | Every cell of the zero grid after drawing any number of segments with stroke 0 is 0 or 1. |
| Driver.CanvasCovered | heighway-dragon.py:152-155 | After the first `k` segments are drawn, a cell is 1 exactly when one of them covers it. |
| Driver.EveryPointDrawn | heighway-dragon.py:152-155 | When consecutive points are axis-aligned, every path point lands on a cell the full drawing sets to 1. |
| Driver.WalkDrawn | heighway-dragon.py:134-155 | Every point of a walk that starts along an axis unit vector is drawn. |
| Driver.WalkFromStart | heighway-dragon.py:134-136 | A walker at the origin facing (1, 0) returns `Path((0,0), (1,0), dragon_str)`. |
| Driver.Trace | heighway-dragon.py:132-136 | With the effective seed the dragon string always exists. The path is its walk from the origin facing (1, 0). |
| Driver.Draw | heighway-dragon.py:138-155 | The box is the bounding box, and the grid is `(dx*stretch + 1) x (dy*stretch + 1)`. Each cell is the stroke-0 drawing of all the path's segments. |
| Driver.Render | heighway-dragon.py:132-155 | Everything from `Trace` and `Draw` together: the walk of the dragon string, its bounding box, the grid size and the drawn cells. |

## Left out

- PNG output, the file `output.png` and `print` (heighway-dragon.py:146, 162-167) are I/O to an external library and are not modelled. So is the unused `numpy` import.
- `colorize` (heighway-dragon.py:115-129) is not modelled. Its gradient is floating-point (`.75 * (i / len(g))`, `math.floor`), and the rows it builds are lists of colour triples. Like `binarize`, it overwrites the caller's rows through a shallow copy; the model does not capture that for `colorize`.
- The commented-out colour scheme and palette code (heighway-dragon.py:119-123, 157-165) is not modelled. `extract_bits` is modelled because that code would call it.
- `Coord.__mul__` is modelled for integer scalars only (`Vector.Scale`). The float scalar and the `ValueError` for other types (heighway-dragon.py:23-27) depend on dynamic typing.
- `Coord.__str__` and `Coord.as_tuple` (heighway-dragon.py:14-21) only format values and are not modelled.
- The constants `iterations = 19`, `stretch_factor = 1` and `seed = None` (heighway-dragon.py:132) are parameters of `Driver.Render`. `None` and `[]` are both the empty seed. The stretch factor is a `nat`; a negative one would allocate an empty grid in Python.
- The driver's `Coord` objects from `__add__` and `__mul__` are fresh values, never mutated, so they are `Point` values. Only the walker's direction is an object.
- Raster.DrawStraightLine: requires every index it uses to lie inside the grid (`SegmentFits`). Python would wrap a negative index or raise `IndexError` after some cells were already written; that is not modelled. The driver meets the precondition (`Driver.SegmentInGrid`).
- Driver.Render: states each cell as `Canvas` of the path and does not restate the coverage law in its own contract. The law that a cell is 1 exactly when a segment covers it is proved separately (`Driver.CanvasCovered`).
- The model has no default arguments. `dragon_string` defaults to `seed=[1]` (heighway-dragon.py:77) and `draw_straight_line` to `stroke=0` (heighway-dragon.py:84); the driver passes the seed explicitly (heighway-dragon.py:134) and relies on the default `stroke=0` at heighway-dragon.py:155, which `Driver.Draw` passes as 0; no behaviour is lost.
- Raster.Binarize: stores 1 and 0 where Python stores `True` and `False` in the grid. The two compare and add the same way.
- BitOps.ExtractBits: takes `nat` arguments, as do `BitOps.And`, `BitOps.ShiftLeft` and `BitOps.ShiftRight`. Python's two's-complement result for a negative `number` and its `ValueError` for a negative shift count (a negative `start` or `n_bits`) are not modelled.
- Python integers are unbounded, and so are Dafny's `int` and `nat`. No wrap-around is modelled because there is none.
