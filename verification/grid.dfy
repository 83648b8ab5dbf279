/**
  Geometry of the snake game's playfield: the screen and cell constants, grid
  points, the four movement directions and the one-cell move of the head.

  The game names its two screen constants the other way round from how it uses
  them: `SCREEN_HEIGHT` (700) is the extent along x and `SCREEN_WIDTH` (500) the
  extent along y. The names are kept here, with their actual use documented.
*/
module Grid {

  /** Extent of the playfield along the x axis, in pixels (the source's SCREEN_HEIGHT). */
  const ScreenHeight: int := 700

  /** Extent of the playfield along the y axis, in pixels (the source's SCREEN_WIDTH). */
  const ScreenWidth: int := 500

  /** Side of one grid cell, and the distance the head travels per tick. */
  const SquareSize: int := 20

  /** A pixel position; the source stores it as a two-element list `[x, y]`. */
  datatype Point = Point(x: int, y: int)

  datatype Direction = Up | Down | Left | Right

  predicate Horizontal(d: Direction) {
    d == Left || d == Right
  }

  /** The reversal of `d`: the one direction the game refuses to turn into. */
  function Opposite(d: Direction): (o: Direction)
    ensures o != d
    ensures Horizontal(o) == Horizontal(d)
  {
    match d
    case Up => Down
    case Down => Up
    case Left => Right
    case Right => Left
  }

  lemma OppositeIsInvolution(d: Direction)
    ensures Opposite(Opposite(d)) == d
  {
  }

  /** Manhattan distance between two points. */
  function Distance(p: Point, q: Point): (n: nat)
    ensures n == 0 <==> p == q
  {
    (if p.x <= q.x then q.x - p.x else p.x - q.x) + (if p.y <= q.y then q.y - p.y else p.y - q.y)
  }

  /** Two points one cell apart along a single axis: one coordinate shared, the other 20 away. */
  predicate Neighbours(p: Point, q: Point) {
    Distance(p, q) == SquareSize && (p.x == q.x || p.y == q.y)
  }

  /** The body rule of the design: consecutive segments are axis-aligned, one grid cell apart. */
  predicate Adjacent(body: seq<Point>) {
    forall i :: 0 <= i < |body| - 1 ==> Neighbours(body[i], body[i + 1])
  }

  /** A diagonal pair at the same Manhattan distance is not adjacent. */
  lemma DiagonalIsNotAdjacent()
    ensures Distance(Point(0, 0), Point(10, 10)) == SquareSize
    ensures !Adjacent([Point(0, 0), Point(10, 10)])
  {
    var body := [Point(0, 0), Point(10, 10)];
    assert !Neighbours(body[0], body[1]);
  }

  /**
    The head's move for one tick: exactly one coordinate changes, by exactly one
    cell; the vertical directions change y, the horizontal ones x; Up and Left
    go towards the origin.
  */
  function MoveHead(p: Point, d: Direction): (q: Point)
    ensures Distance(p, q) == SquareSize && Neighbours(q, p)
    ensures Horizontal(d) ==> q.y == p.y
    ensures !Horizontal(d) ==> q.x == p.x
    ensures (d == Up || d == Left) <==> q.x + q.y < p.x + p.y
  {
    match d
    case Up => Point(p.x, p.y - SquareSize)
    case Down => Point(p.x, p.y + SquareSize)
    case Left => Point(p.x - SquareSize, p.y)
    case Right => Point(p.x + SquareSize, p.y)
  }

  /** Moving one way and then the opposite way returns to the start. */
  lemma MoveThenReverse(p: Point, d: Direction)
    ensures MoveHead(MoveHead(p, d), Opposite(d)) == p
  {
  }

  /** A move keeps each coordinate's offset within its grid cell. */
  lemma MoveKeepsCellOffset(p: Point, d: Direction)
    ensures MoveHead(p, d).x % SquareSize == p.x % SquareSize
    ensures MoveHead(p, d).y % SquareSize == p.y % SquareSize
  {
  }

  /**
    The out-of-bounds half of the collision test: x is checked against the
    700-pixel constant, y against the 500-pixel one.
  */
  predicate OutOfBounds(p: Point) {
    p.x < 0 || p.y < 0 || p.x >= ScreenHeight || p.y >= ScreenWidth
  }

  /** The playfield as a set of pixel rectangles: x in [0, 700), y in [0, 500). */
  predicate OnField(p: Point) {
    0 <= p.x < 700 && 0 <= p.y < 500
  }

  /** The bounds test is exactly the complement of the 700-by-500 field, not of a 500-by-700 one. */
  lemma OutOfBoundsIsOffField(p: Point)
    ensures OutOfBounds(p) <==> !OnField(p)
    ensures OutOfBounds(Point(0, 600)) && !OutOfBounds(Point(600, 0))
  {
  }
}
