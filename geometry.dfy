/** Cells of the board and the four moves between them. */
module Geometry {

  /** A board cell; x grows to the right, y grows upwards. */
  datatype Coord = Coord(x: int, y: int)

  /** The four moves a snake can make in one turn. */
  datatype Direction = Right | Left | Up | Down

  /** Horizontal component of a move. */
  function DX(d: Direction): int
  {
    match d
    case Right => 1
    case Left => -1
    case Up => 0
    case Down => 0
  }

  /** Vertical component of a move. */
  function DY(d: Direction): int
  {
    match d
    case Right => 0
    case Left => 0
    case Up => 1
    case Down => -1
  }

  /** The cell one move away from c. */
  function Step(c: Coord, d: Direction): (n: Coord)
    ensures Manhattan(c, n) == 1
  {
    Coord(c.x + DX(d), c.y + DY(d))
  }

  /** The direction that undoes d. */
  function Opposite(d: Direction): (e: Direction)
    ensures e != d && DX(e) == -DX(d) && DY(e) == -DY(d)
  {
    match d
    case Right => Left
    case Left => Right
    case Up => Down
    case Down => Up
  }

  /** The four directions, in the order the path search expands neighbours:
      (0, 1), (0, -1), (1, 0), (-1, 0). */
  const Directions: seq<Direction> := [Up, Down, Right, Left]

  lemma AllInDirections(d: Direction)
    ensures d in Directions
  {
  }

  function Abs(n: int): nat
  {
    if n < 0 then -n else n
  }

  /** Number of moves between two cells on an obstacle-free plane. */
  function Manhattan(a: Coord, b: Coord): nat
  {
    Abs(a.x - b.x) + Abs(a.y - b.y)
  }


  /** Two cells share an edge. */
  predicate Adjacent(a: Coord, b: Coord)
  {
    Manhattan(a, b) == 1
  }

  /** Moving to a neighbouring cell changes the distance from any cell by at most one. */
  lemma AdjacentManhattan(a: Coord, b: Coord, c: Coord)
    requires Adjacent(b, c)
    ensures Manhattan(a, c) <= Manhattan(a, b) + 1
  {
  }

  /** Sharing an edge is the same as being one move apart. */
  lemma AdjacentIsStep(a: Coord, b: Coord)
    ensures Adjacent(a, b) <==> exists d :: d in Directions && b == Step(a, d)
  {
    if Adjacent(a, b) {
      if b.x == a.x + 1 {
        assert b == Step(a, Right);
      } else if b.x == a.x - 1 {
        assert b == Step(a, Left);
      } else if b.y == a.y + 1 {
        assert b == Step(a, Up);
      } else {
        assert b == Step(a, Down);
      }
    }
  }
}
