/**
 * The four compass directions and the 4-bit wall mask of a cell
 * (src/generator/src/maze.py:15-27). A set bit is a closed wall.
 */
module Walls {

  datatype Direction = North | East | South | West

  /** `POSSIBLE_DIRECTIONS` of maze.py, in declaration order. */
  const PossibleDirections: seq<Direction> := [North, East, South, West]

  /** A legal value of the shuffled `directions` list: the four directions in some order. */
  predicate IsOrder(dirs: seq<Direction>)
  {
    |dirs| == 4 && forall d: Direction :: d in dirs
  }

  /** Every wall closed: the state of a fresh cell. */
  const AllWalls: int := 15

  /** `Maze.WALLS[d]`: N=1, E=2, S=4, W=8. */
  function Bit(d: Direction): (b: int)
    ensures b in {1, 2, 4, 8}
  {
    match d
    case North => 1
    case East => 2
    case South => 4
    case West => 8
  }

  /** `OPPOSITE_DIRECTIONS[d]`. */
  function Opposite(d: Direction): (o: Direction)
    ensures o != d && Bit(o) != Bit(d)
  {
    match d
    case North => South
    case East => West
    case South => North
    case West => East
  }

  lemma OppositeIsInvolution(d: Direction)
    ensures Opposite(Opposite(d)) == d
  {
  }

  /** Distinct directions have distinct wall bits. */
  lemma BitInjective(d: Direction, e: Direction)
    ensures Bit(d) == Bit(e) <==> d == e
  {
  }

  /** A state that the 4-bit mask can hold. */
  predicate IsMask(state: int)
  {
    0 <= state < 16
  }

  /**
   * `state & Bit(d) != 0` as Python evaluates it. Dafny's `/` and `%` with a
   * positive divisor are floor division and a non-negative remainder, which is
   * Python's two's-complement reading of a negative int too.
   */
  predicate HasWall(state: int, d: Direction)
  {
    match d
    case North => state % 2 == 1
    case East => (state / 2) % 2 == 1
    case South => (state / 4) % 2 == 1
    case West => (state / 8) % 2 == 1
  }

  /** The bit test is the quotient by the direction's bit, read modulo 2. */
  lemma HasWallByBit(state: int, d: Direction)
    ensures HasWall(state, d) <==> (state / Bit(d)) % 2 == 1
  {
  }

  /** Python's `state & Bit(d)`. */
  function BitAnd(state: int, d: Direction): (r: int)
    ensures r == 0 || r == Bit(d)
    ensures r != 0 <==> HasWall(state, d)
  {
    if HasWall(state, d) then Bit(d) else 0
  }

  /** `state -= state & Bit(d)`: the guarded clear used by the Cell classes. */
  function ClearWall(state: int, d: Direction): int
  {
    state - BitAnd(state, d)
  }

  /** The four bits of a mask determine it. */
  lemma MaskBits(state: int)
    requires IsMask(state)
    ensures state == (if HasWall(state, North) then 1 else 0) + (if HasWall(state, East) then 2 else 0)
                   + (if HasWall(state, South) then 4 else 0) + (if HasWall(state, West) then 8 else 0)
  {
  }

  /** Masks with the same four bits are equal. */
  lemma MaskExtensional(a: int, b: int)
    requires IsMask(a) && IsMask(b)
    requires forall d: Direction :: HasWall(a, d) == HasWall(b, d)
    ensures a == b
  {
    MaskBits(a);
    MaskBits(b);
    assert HasWall(a, North) == HasWall(b, North);
    assert HasWall(a, East) == HasWall(b, East);
    assert HasWall(a, South) == HasWall(b, South);
    assert HasWall(a, West) == HasWall(b, West);
  }

  /** Clearing wall `d` keeps wall `e` of a mask as it was. */
  lemma ClearWallKeepsOther(state: int, d: Direction, e: Direction)
    requires IsMask(state) && e != d
    ensures HasWall(ClearWall(state, d), e) == HasWall(state, e)
  {
    if HasWall(state, d) {
      match d
      case North => assert ClearWall(state, d) == state - 1;
      case East => assert ClearWall(state, d) == state - 2;
      case South => assert ClearWall(state, d) == state - 4;
      case West => assert ClearWall(state, d) == state - 8;
    }
  }

  /**
   * Clearing a wall of a mask leaves a mask in which that wall is open and
   * every other wall as it was; clearing it again changes nothing.
   */
  lemma ClearWallEffect(state: int, d: Direction)
    requires IsMask(state)
    ensures IsMask(ClearWall(state, d))
    ensures !HasWall(ClearWall(state, d), d)
    ensures forall e: Direction :: e != d ==> HasWall(ClearWall(state, d), e) == HasWall(state, e)
    ensures ClearWall(ClearWall(state, d), d) == ClearWall(state, d)
  {
    forall e: Direction | e != d
      ensures HasWall(ClearWall(state, d), e) == HasWall(state, e)
    {
      ClearWallKeepsOther(state, d, e);
    }
  }

  /** The unguarded `state -= Bit(d)` of the carver equals the guarded clear when the wall is closed. */
  lemma SubtractClosedBit(state: int, d: Direction)
    requires HasWall(state, d)
    ensures state - Bit(d) == ClearWall(state, d)
  {
  }

  /** The fresh state 0b1111 has all four walls. */
  lemma AllWallsClosed(d: Direction)
    ensures HasWall(AllWalls, d)
  {
  }
}
