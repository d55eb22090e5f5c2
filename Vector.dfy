/** The two-dimensional integer vector of the dragon program (`Coord`).
    A `Coord` that is only ever read (a path point, a sum, a product) is a
    `Point` value; the one `Coord` whose fields are rotated in place (the
    walker's direction) is an object of class `Coord`. */
module Vector {

  /** A `Coord` used as a value. */
  datatype Point = Point(x: int, y: int)

  /** `Coord.__add__`: the componentwise sum, a new value. */
  function Add(a: Point, b: Point): (r: Point)
  {
    Point(a.x + b.x, a.y + b.y)
  }

  /** `Coord.__mul__` with an integer scalar: the componentwise product. */
  function Scale(p: Point, scalar: int): (r: Point)
  {
    Point(p.x * scalar, p.y * scalar)
  }

  /** Addition is the group law of the lattice: commutative, associative,
      with the origin as unit and `(-x, -y)` undoing `(x, y)`; scaling
      distributes over it and composes. */
  lemma VectorLaws(a: Point, b: Point, c: Point, s: int, t: int)
    ensures Add(a, b) == Add(b, a)
    ensures Add(Add(a, b), c) == Add(a, Add(b, c))
    ensures Add(a, Point(0, 0)) == a
    ensures Add(Add(a, b), Point(-b.x, -b.y)) == a
    ensures Scale(Add(a, b), s) == Add(Scale(a, s), Scale(b, s))
    ensures Scale(Scale(a, s), t) == Scale(a, s * t)
    ensures Scale(a, 1) == a
  {
    assert (a.x * s) * t == a.x * (s * t);
    assert (a.y * s) * t == a.y * (s * t);
  }

  /** Exactly one component is 1 or -1 and the other is 0: the only
      vectors the rotations are meant for. */
  predicate IsUnitAxis(v: Point)
  {
    (v.x == 0 && (v.y == 1 || v.y == -1)) || (v.y == 0 && (v.x == 1 || v.x == -1))
  }

  /** The value `rotate_left` leaves in the fields, for any input: if the
      x component is 0 the new vector is (-y, 0), otherwise (0, x).
      On the four axis unit vectors this is the counter-clockwise quarter
      turn (x, y) -> (-y, x). */
  function TurnLeft(v: Point): (r: Point)
    ensures IsUnitAxis(v) ==> IsUnitAxis(r) && r == Point(-v.y, v.x)
  {
    if v.x == 0 then Point(-1 * v.y, 0) else Point(0, v.x)
  }

  /** The value `rotate_right` leaves in the fields: if the y component is 0
      the new vector is (0, -x), otherwise (y, 0). On the four axis unit
      vectors this is the clockwise quarter turn (x, y) -> (y, -x). */
  function TurnRight(v: Point): (r: Point)
    ensures IsUnitAxis(v) ==> IsUnitAxis(r) && r == Point(v.y, -v.x)
  {
    if v.y == 0 then Point(0, -1 * v.x) else Point(v.y, 0)
  }

  /** The four directions a unit axis vector can point in. */
  datatype Heading = East | North | West | South

  function Unit(h: Heading): (r: Point)
    ensures IsUnitAxis(r)
  {
    match h
    case East => Point(1, 0)
    case North => Point(0, 1)
    case West => Point(-1, 0)
    case South => Point(0, -1)
  }

  /** The heading a quarter turn to the left. */
  function Left(h: Heading): Heading
  {
    match h
    case East => North
    case North => West
    case West => South
    case South => East
  }

  /** The heading a quarter turn to the right. */
  function Right(h: Heading): Heading
  {
    match h
    case East => South
    case South => West
    case West => North
    case North => East
  }

  /** Every unit axis vector is the vector of exactly one heading. */
  function HeadingOf(v: Point): (h: Heading)
    requires IsUnitAxis(v)
    ensures Unit(h) == v
    ensures forall g :: Unit(g) == v ==> g == h
  {
    if v.x == 1 then East
    else if v.y == 1 then North
    else if v.x == -1 then West
    else South
  }

  /** The two rotation rules agree with the heading table:
      East -> North -> West -> South -> East to the left, and the reverse
      cycle to the right. */
  lemma TurnTable(h: Heading)
    ensures TurnLeft(Unit(h)) == Unit(Left(h))
    ensures TurnRight(Unit(h)) == Unit(Right(h))
  {
  }

  /** On a unit axis vector, left then right and right then left change
      nothing, and four turns the same way come back to the start. */
  lemma TurnRoundTrips(v: Point)
    requires IsUnitAxis(v)
    ensures TurnRight(TurnLeft(v)) == v
    ensures TurnLeft(TurnRight(v)) == v
    ensures TurnLeft(TurnLeft(TurnLeft(TurnLeft(v)))) == v
    ensures TurnRight(TurnRight(TurnRight(TurnRight(v)))) == v
  {
  }

  /** Off the unit axis vectors the two rules are not rotations: (2, 3)
      turned left and then right comes back as (2, 0). */
  lemma TurnOffAxis()
    ensures TurnRight(TurnLeft(Point(2, 3))) == Point(2, 0)
  {
  }

  /** A `Coord` object whose fields the two rotations overwrite in place. */
  class Coord {
    var x: int
    var y: int

    constructor (x0: int, y0: int)
      ensures x == x0 && y == y0
    {
      x := x0;
      y := y0;
    }

    /** The vector currently held in the fields. */
    function Value(): Point
      reads this
    {
      Point(x, y)
    }

    /** `Coord.rotate_left`. */
    method RotateLeft()
      modifies this
      ensures Value() == TurnLeft(old(Value()))
      ensures old(IsUnitAxis(Value())) ==> IsUnitAxis(Value())
    {
      if x == 0 {
        x := -1 * y;
        y := 0;
      } else {
        y := x;
        x := 0;
      }
    }

    /** `Coord.rotate_right`. */
    method RotateRight()
      modifies this
      ensures Value() == TurnRight(old(Value()))
      ensures old(IsUnitAxis(Value())) ==> IsUnitAxis(Value())
    {
      if y == 0 {
        y := -1 * x;
        x := 0;
      } else {
        x := y;
        y := 0;
      }
    }
  }
}
