/**
 * Coordinates and boundary-aware adjacency of the maze grid
 * (`get_adjacent_cells`, src/generator/src/maze.py:189-219 and 403-434).
 * Coordinates are 1-based (x, y): x grows to the east, y to the south.
 */
module Grid {
  import opened Wrappers
  import opened Walls

  type Coord = (int, int)

  predicate InGrid(width: int, height: int, p: Coord)
  {
    1 <= p.0 <= width && 1 <= p.1 <= height
  }

  /** The grid's edge in direction `d` as the source tests it: by equality with 1, width or height. */
  predicate AtEdge(width: int, height: int, p: Coord, d: Direction)
  {
    match d
    case North => p.1 == 1
    case East => p.0 == width
    case South => p.1 == height
    case West => p.0 == 1
  }

  /** The one-step displacement of direction `d`. */
  function Step(p: Coord, d: Direction): Coord
  {
    match d
    case North => (p.0, p.1 - 1)
    case East => (p.0 + 1, p.1)
    case South => (p.0, p.1 + 1)
    case West => (p.0 - 1, p.1)
  }

  /**
   * One entry of the dictionary `get_adjacent_cells(point)` returns:
   * None at the edge in that direction, otherwise the neighbour.
   */
  function Adjacent(width: int, height: int, p: Coord, d: Direction): (r: Option<Coord>)
    ensures r.None? <==> AtEdge(width, height, p, d)
    ensures r.Some? ==> r.value == Step(p, d) && r.value != p
    ensures InGrid(width, height, p) && r.Some? ==> InGrid(width, height, r.value)
  {
    if AtEdge(width, height, p, d) then None else Some(Step(p, d))
  }

  /**
   * Neighbour links are mutually inverse inside the grid: the `Opposite(d)`
   * neighbour of the `d` neighbour of `p` is `p` itself.
   */
  lemma AdjacentBack(width: int, height: int, p: Coord, d: Direction)
    requires InGrid(width, height, p) && Adjacent(width, height, p, d).Some?
    ensures Adjacent(width, height, Adjacent(width, height, p, d).value, Opposite(d)) == Some(p)
  {
  }

  /** Two distinct directions never lead to the same cell. */
  lemma StepInjective(p: Coord, d: Direction, e: Direction)
    ensures Step(p, d) == Step(p, e) <==> d == e
  {
  }

  /** The cell `d` of `p` is the one whose `Opposite(d)` neighbour is `p`. */
  lemma StepBack(p: Coord, q: Coord, d: Direction)
    ensures Step(q, Opposite(d)) == p <==> q == Step(p, d)
  {
  }

  /** All coordinates of a width x height grid. */
  function GridCoords(width: int, height: int): (s: set<Coord>)
    ensures forall p :: p in s <==> InGrid(width, height, p)
  {
    set x, y | 1 <= x <= width && 1 <= y <= height :: (x, y)
  }
}
