/** Grid primitives shared by several days: the four compass directions with left
    and right turns, and integer points that move along a direction. */
module Compass {

  datatype Turn = Left | Right

  datatype Direction = North | South | East | West {

    /** True for the two directions that move along the y axis */
    predicate Vertical() {
      North? || South?
    }

    /** The direction after a quarter turn */
    function Turned(turn: Turn): (r: Direction)
      ensures r.Vertical() != Vertical()
    {
      match turn
      case Left =>
        (match this
         case North => West
         case South => East
         case East => North
         case West => South)
      case Right =>
        (match this
         case North => East
         case South => West
         case East => South
         case West => North)
    }

    /** The direction pointing the other way */
    function Opposite(): (r: Direction)
      ensures r != this && r.Vertical() == Vertical()
    {
      match this
      case North => South
      case South => North
      case East => West
      case West => East
    }
  }

  function Other(turn: Turn): Turn {
    match turn
    case Left => Right
    case Right => Left
  }

  /** A point on the integer grid; equality is structural */
  datatype Point = Point(x: int, y: int) {

    /** One step in the given direction */
    function Moved(d: Direction): Point
    {
      MovedSteps(d, 1)
    }

    /** `steps` steps in the given direction; a negative count moves backwards */
    function MovedSteps(d: Direction, steps: int): (r: Point)
      ensures d.Vertical() ==> r.x == x
      ensures !d.Vertical() ==> r.y == y
    {
      match d
      case North => Point(x, y + steps)
      case South => Point(x, y - steps)
      case East => Point(x + steps, y)
      case West => Point(x - steps, y)
    }

    /** The eight points around this one, row by row from (x-1, y-1) to (x+1, y+1) */
    function Neighbours(): (r: seq<Point>)
      ensures |r| == 8
      ensures forall i :: 0 <= i < 8 ==> Chebyshev(this, r[i]) == 1
      ensures forall i, j :: 0 <= i < j < 8 ==> r[i] != r[j]
      ensures forall p: Point :: Chebyshev(this, p) == 1 ==> p in r
    {
      [Point(x - 1, y - 1), Point(x, y - 1), Point(x + 1, y - 1),
       Point(x - 1, y), Point(x + 1, y),
       Point(x - 1, y + 1), Point(x, y + 1), Point(x + 1, y + 1)]
    }
  }

  /** `Point::default()` */
  const Origin: Point := Point(0, 0)

  function Abs(n: int): nat {
    if n < 0 then -n else n
  }

  function Max(a: int, b: int): int {
    if a < b then b else a
  }

  /** |x| + |y|, the taxicab distance from the origin */
  function Manhattan(p: Point): nat {
    Abs(p.x) + Abs(p.y)
  }

  function Distance(p: Point, q: Point): nat {
    Abs(p.x - q.x) + Abs(p.y - q.y)
  }

  function Chebyshev(p: Point, q: Point): nat {
    Max(Abs(p.x - q.x), Abs(p.y - q.y))
  }

  // ---------------------------------------------------------------------------
  // Properties

  /** Left and right turns undo each other, in either order */
  lemma TurnsCancel(d: Direction, t: Turn)
    ensures d.Turned(t).Turned(Other(t)) == d
  {
  }

  /** Four turns the same way return to the start; two make an about-turn */
  lemma FourTurnsIdentity(d: Direction, t: Turn)
    ensures d.Turned(t).Turned(t) == d.Opposite()
    ensures d.Turned(t).Turned(t).Turned(t).Turned(t) == d
  {
  }

  /** The turn table exercised by the source's unit test */
  lemma TurnTable()
    ensures North.Turned(Left) == West && North.Turned(Right) == East
    ensures South.Turned(Left) == East && South.Turned(Right) == West
    ensures East.Turned(Left) == North && East.Turned(Right) == South
    ensures West.Turned(Left) == South && West.Turned(Right) == North
  {
  }

  /** Which coordinate a move changes, and by how much */
  lemma MoveChangesOneCoordinate(p: Point, d: Direction, n: int)
    ensures d == North ==> p.MovedSteps(d, n) == Point(p.x, p.y + n)
    ensures d == South ==> p.MovedSteps(d, n) == Point(p.x, p.y - n)
    ensures d == East ==> p.MovedSteps(d, n) == Point(p.x + n, p.y)
    ensures d == West ==> p.MovedSteps(d, n) == Point(p.x - n, p.y)
  {
  }

  /** A move covers exactly its step count */
  lemma MoveDistance(p: Point, d: Direction, n: int)
    ensures Distance(p, p.MovedSteps(d, n)) == Abs(n)
    ensures Distance(p, p.Moved(d)) == 1 && p.Moved(d) == p.MovedSteps(d, 1)
  {
  }

  /** A negative step count is the same as that many steps the opposite way, so
      going out and back returns to the start */
  lemma MoveBackwards(p: Point, d: Direction, n: int)
    ensures p.MovedSteps(d, -n) == p.MovedSteps(d.Opposite(), n)
    ensures p.MovedSteps(d, n).MovedSteps(d.Opposite(), n) == p
  {
  }

  /** Moving in a direction and then the same distance in all the others returns
      to the start (the source's two movement tests) */
  lemma MoveRoundTrip(p: Point, n: int)
    ensures p.MovedSteps(North, n).MovedSteps(South, n).MovedSteps(East, n).MovedSteps(West, n) == p
    ensures p.Moved(North).Moved(South).Moved(East).Moved(West) == p
  {
  }

  /** Moves along one direction add up */
  lemma MoveAdditive(p: Point, d: Direction, m: int, n: int)
    ensures p.MovedSteps(d, m).MovedSteps(d, n) == p.MovedSteps(d, m + n)
  {
  }
}
