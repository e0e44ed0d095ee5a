/**
 * The object-graph cells and the player of src/generator/src/cell.py,
 * src/generator/src/unused/cell.py, src/generator/src/player.py and the
 * `Cell` of src/generator/src/maze_class.py. A cell object is identified by
 * the coordinate it sits at, so a neighbour link `_adyacent[d]` is the
 * coordinate of the linked cell, and the heap of cell objects is a map from
 * coordinates to cell records.
 */
module CellObjects {
  import opened Wrappers
  import opened Walls
  import opened Grid

  /** The four neighbour links of a cell: None, or the coordinate of the linked cell. */
  datatype Links = Links(north: Option<Coord>, east: Option<Coord>, south: Option<Coord>, west: Option<Coord>)
  {
    /** `_adyacent[d]`. */
    function At(d: Direction): Option<Coord>
    {
      match d
      case North => north
      case East => east
      case South => south
      case West => west
    }
  }

  /** The fields of a cell object. */
  datatype CellObject = CellObject(visited: bool, state: int, adjacent: Links, fixed: bool)

  /** The cell objects, each at its coordinate. */
  type Graph = map<Coord, CellObject>

  const NoLinks: Links := Links(None, None, None, None)

  /** `Cell(fixed)`: every wall closed, not visited, no neighbour, and the given flag. */
  function NewCell(fixed: bool): (c: CellObject)
    ensures c.state == AllWalls && !c.visited && c.fixed == fixed
    ensures forall d: Direction :: c.adjacent.At(d).None?
  {
    CellObject(false, AllWalls, NoLinks, fixed)
  }

  /** The link a grid cell gets from `initiate_cells`: None on the border in that direction, otherwise the neighbour. */
  function GridLinks(width: int, height: int, p: Coord): Links
  {
    Links(Adjacent(width, height, p, North), Adjacent(width, height, p, East),
          Adjacent(width, height, p, South), Adjacent(width, height, p, West))
  }

  /** Each of the four links is the neighbour `get_adjacent_cells` gives in that direction. */
  lemma GridLinksAt(width: int, height: int, p: Coord)
    ensures forall d: Direction :: GridLinks(width, height, p).At(d) == Adjacent(width, height, p, d)
  {
  }

  /**
   * The three `Cell` classes. cell.py reads `Maze.CLOSE_WALLS` from the
   * `Maze` of maze.py; unused/cell.py reads `Maze.WALLS` from the same
   * class; the `Cell` of maze_class.py reads `Maze.CLOSE_WALLS` from the
   * `Maze` defined beside it.
   */
  datatype CellClass = CellPy | UnusedCellPy | MazeClassCell

  /** The `AttributeError` of a name the object or class does not define. */
  datatype CellError = AttributeError

  /** The name under which a cell class looks up the wall table. */
  function WallTableName(k: CellClass): string
  {
    match k
    case CellPy => "CLOSE_WALLS"
    case UnusedCellPy => "WALLS"
    case MazeClassCell => "CLOSE_WALLS"
  }

  /** The wall table names the `Maze` class a cell class imports defines. */
  function MazeTables(k: CellClass): set<string>
  {
    match k
    case CellPy => {"WALLS"}
    case UnusedCellPy => {"WALLS"}
    case MazeClassCell => {"CLOSE_WALLS"}
  }

  /** The name under which a cell class keeps its neighbour links. */
  function LinkAttribute(k: CellClass): string
  {
    match k
    case CellPy => "_adyacent"
    case UnusedCellPy => "_adjacent"
    case MazeClassCell => "_adyacent"
  }

  predicate WallTableFound(k: CellClass)
  {
    WallTableName(k) in MazeTables(k)
  }

  /** Only cell.py looks the wall table up under a name its `Maze` lacks. */
  lemma WallTableFoundExactly(k: CellClass)
    ensures WallTableFound(k) <==> k != CellPy
  {
    if k == CellPy {
      assert "CLOSE_WALLS"[0] != "WALLS"[0];
    }
  }

  /** `check_if_can_go` once the wall table is found: True exactly when the wall in that direction is open. */
  function CanGo(c: CellObject, d: Direction): (r: bool)
    ensures r <==> !HasWall(c.state, d)
  {
    BitAnd(c.state, d) == 0
  }

  /** `check_if_can_go` of cell class `k`, including the failed lookup of the wall table. */
  function CheckIfCanGo(k: CellClass, c: CellObject, d: Direction): (r: Result<bool, CellError>)
    ensures r.Failure? <==> !WallTableFound(k)
  {
    if WallTableName(k) in MazeTables(k) then Success(BitAnd(c.state, d) == 0) else Failure(AttributeError)
  }

  /** Where the table is found, `check_if_can_go` answers `CanGo`. */
  lemma CheckIfCanGoFound(k: CellClass, c: CellObject, d: Direction)
    requires k != CellPy
    ensures CheckIfCanGo(k, c, d) == Success(CanGo(c, d))
  {
    WallTableFoundExactly(k);
  }

  /** cell.py's `check_if_can_go` raises AttributeError whatever the cell and the direction. */
  lemma CellPyCannotCheck(c: CellObject, d: Direction)
    ensures CheckIfCanGo(CellPy, c, d) == Failure(AttributeError)
  {
    WallTableFoundExactly(CellPy);
  }

  /** Every link points at a cell of the graph: a Python reference never dangles. */
  predicate Closed(cells: Graph)
  {
    forall p, d: Direction :: p in cells && cells[p].adjacent.At(d).Some? ==> cells[p].adjacent.At(d).value in cells
  }

  /** No cell is linked to itself. */
  predicate NoSelfLinks(cells: Graph)
  {
    forall p, d: Direction :: p in cells && cells[p].adjacent.At(d).Some? ==> cells[p].adjacent.At(d).value != p
  }

  predicate StatesMasks(cells: Graph)
  {
    forall p :: p in cells ==> IsMask(cells[p].state)
  }

  /** The guard of `open_direction`: the neighbour exists and is not fixed. */
  predicate CanOpen(cells: Graph, p: Coord, d: Direction)
    requires p in cells && Closed(cells)
  {
    var q := cells[p].adjacent.At(d);
    q.Some? && !cells[q.value].fixed
  }

  /**
   * What `open_direction` does to the cells once it is past its guard: this
   * cell clears the wall `d`, then the neighbour clears the opposite wall,
   * each by `state -= state & bit`.
   */
  function Opened(cells: Graph, p: Coord, d: Direction): (r: Graph)
    requires p in cells && Closed(cells) && CanOpen(cells, p, d)
    ensures r.Keys == cells.Keys
  {
    var c := cells[p];
    var q := c.adjacent.At(d).value;
    var first := cells[p := c.(state := ClearWall(c.state, d))];
    first[q := first[q].(state := ClearWall(first[q].state, Opposite(d)))]
  }

  /** `open_direction` with the wall table found: nothing when the guard fails, otherwise `Opened`. */
  function AfterOpen(cells: Graph, p: Coord, d: Direction): Graph
    requires p in cells && Closed(cells)
  {
    if CanOpen(cells, p, d) then Opened(cells, p, d) else cells
  }

  /**
   * `open_direction` of cell class `k`: the guard comes first, so only a
   * call that passes it reaches the lookup of the wall table.
   */
  function OpenOutcome(k: CellClass, cells: Graph, p: Coord, d: Direction): (r: Result<Graph, CellError>)
    requires p in cells && Closed(cells)
    ensures r.Failure? <==> CanOpen(cells, p, d) && !WallTableFound(k)
  {
    if !CanOpen(cells, p, d) then Success(cells)
    else if WallTableName(k) in MazeTables(k) then Success(Opened(cells, p, d))
    else Failure(AttributeError)
  }

  /** Where the table is found, `open_direction` does `AfterOpen`; a missing or fixed neighbour leaves every cell as it was. */
  lemma OpenOutcomeFound(k: CellClass, cells: Graph, p: Coord, d: Direction)
    requires p in cells && Closed(cells) && k != CellPy
    ensures OpenOutcome(k, cells, p, d) == Success(AfterOpen(cells, p, d))
    ensures !CanOpen(cells, p, d) ==> AfterOpen(cells, p, d) == cells
  {
    WallTableFoundExactly(k);
  }

  /** cell.py's `open_direction` raises AttributeError whenever its guard lets it through. */
  lemma CellPyCannotOpen(cells: Graph, p: Coord, d: Direction)
    requires p in cells && Closed(cells) && CanOpen(cells, p, d)
    ensures OpenOutcome(CellPy, cells, p, d) == Failure(AttributeError)
  {
    WallTableFoundExactly(CellPy);
  }

  /**
   * Past the guard, `open_direction` opens the wall `d` of the cell and the
   * opposite wall of its neighbour, keeps every other wall of both, keeps
   * every flag and link, and leaves every other cell as it was.
   */
  lemma OpenedEffect(cells: Graph, p: Coord, d: Direction)
    requires p in cells && Closed(cells) && NoSelfLinks(cells) && StatesMasks(cells) && CanOpen(cells, p, d)
    ensures var r := Opened(cells, p, d); var q := cells[p].adjacent.At(d).value;
      && !HasWall(r[p].state, d) && !HasWall(r[q].state, Opposite(d))
      && (forall e: Direction :: e != d ==> HasWall(r[p].state, e) == HasWall(cells[p].state, e))
      && (forall e: Direction :: e != Opposite(d) ==> HasWall(r[q].state, e) == HasWall(cells[q].state, e))
      && (forall x :: x in cells && x != p && x != q ==> r[x] == cells[x])
      && (forall x :: x in cells ==> r[x].visited == cells[x].visited && r[x].fixed == cells[x].fixed && r[x].adjacent == cells[x].adjacent)
      && StatesMasks(r) && Closed(r) && NoSelfLinks(r)
  {
    var q := cells[p].adjacent.At(d).value;
    assert q != p;
    ClearWallEffect(cells[p].state, d);
    ClearWallEffect(cells[q].state, Opposite(d));
  }

  /** Opening a wall never closes one: every wall open before is open after. */
  lemma OpenedNeverCloses(cells: Graph, p: Coord, d: Direction)
    requires p in cells && Closed(cells) && NoSelfLinks(cells) && StatesMasks(cells) && CanOpen(cells, p, d)
    ensures forall x, e: Direction :: x in cells && HasWall(Opened(cells, p, d)[x].state, e) ==> HasWall(cells[x].state, e)
  {
    OpenedEffect(cells, p, d);
  }

  /** Opening the same wall twice is opening it once. */
  lemma OpenedIdempotent(cells: Graph, p: Coord, d: Direction)
    requires p in cells && Closed(cells) && NoSelfLinks(cells) && StatesMasks(cells) && CanOpen(cells, p, d)
    ensures var r := Opened(cells, p, d); Closed(r) && CanOpen(r, p, d) && Opened(r, p, d) == r
  {
    var r := Opened(cells, p, d);
    var q := cells[p].adjacent.At(d).value;
    OpenedEffect(cells, p, d);
    ClearWallEffect(cells[p].state, d);
    ClearWallEffect(cells[q].state, Opposite(d));
    var first := r[p := r[p].(state := ClearWall(r[p].state, d))];
    assert first == r;
  }

  /** After opening, the player can go through that wall from either side. */
  lemma OpenedLetsThrough(cells: Graph, p: Coord, d: Direction)
    requires p in cells && Closed(cells) && NoSelfLinks(cells) && StatesMasks(cells) && CanOpen(cells, p, d)
    ensures var r := Opened(cells, p, d); var q := cells[p].adjacent.At(d).value;
      CanGo(r[p], d) && CanGo(r[q], Opposite(d))
  {
    OpenedEffect(cells, p, d);
  }

  /**
   * `Player.move_to` of player.py on cells of class `k`: ask the cell
   * whether the wall is open, then read the link under the name `_adjacent`.
   * The result is whether the player moved and the cell it is at.
   */
  function PlayerStep(k: CellClass, cells: Graph, at: Coord, d: Direction): (r: Result<(bool, Coord), CellError>)
    requires at in cells
  {
    match CheckIfCanGo(k, cells[at], d)
    case Failure(e) => Failure(e)
    case Success(can) =>
      if !can then Success((false, at))
      else if LinkAttribute(k) != "_adjacent" then Failure(AttributeError)
      else if cells[at].adjacent.At(d).None? then Success((false, at))
      else Success((true, cells[at].adjacent.At(d).value))
  }

  /** `move_to` as its docstring states it: move along an open wall to an existing neighbour, otherwise stay. */
  function MoveTo(cells: Graph, at: Coord, d: Direction): (r: (bool, Coord))
    requires at in cells
    ensures r.0 <==> !HasWall(cells[at].state, d) && cells[at].adjacent.At(d).Some?
    ensures r.1 == (if r.0 then cells[at].adjacent.At(d).value else at)
  {
    if CanGo(cells[at], d) && cells[at].adjacent.At(d).Some? then (true, cells[at].adjacent.At(d).value) else (false, at)
  }

  /** player.py over the cells of cell.py raises AttributeError on every move: cell.py cannot check a wall. */
  lemma PlayerOverCellPy(cells: Graph, at: Coord, d: Direction)
    requires at in cells
    ensures PlayerStep(CellPy, cells, at, d) == Failure(AttributeError)
  {
    CellPyCannotCheck(cells[at], d);
  }

  /** Even with the wall table found, player.py raises AttributeError at every open wall of a cell that keeps its links as `_adyacent`. */
  lemma PlayerMissesLinks(cells: Graph, at: Coord, d: Direction)
    requires at in cells && !HasWall(cells[at].state, d)
    ensures PlayerStep(MazeClassCell, cells, at, d) == Failure(AttributeError)
  {
    CheckIfCanGoFound(MazeClassCell, cells[at], d);
    assert LinkAttribute(MazeClassCell)[3] != "_adjacent"[3];
  }

  /** Over cells that keep their links as `_adjacent` and find `WALLS`, player.py moves exactly as its docstring says. */
  lemma PlayerOverUnusedCells(cells: Graph, at: Coord, d: Direction)
    requires at in cells
    ensures PlayerStep(UnusedCellPy, cells, at, d) == Success(MoveTo(cells, at, d))
  {
    CheckIfCanGoFound(UnusedCellPy, cells[at], d);
  }

  /** The heap of cell objects of one cell class. */
  class CellGraph {
    var cells: Graph
    const kind: CellClass

    constructor (k: CellClass, initial: Graph)
      ensures kind == k && cells == initial
    {
      kind := k;
      cells := initial;
    }

    /** `Cell.open_direction(d)` on the cell at `p`, updating this cell's state and then the neighbour's. */
    method OpenDirection(p: Coord, d: Direction) returns (err: Option<CellError>)
      modifies this`cells
      requires p in cells && Closed(cells)
      ensures var outcome := OpenOutcome(kind, old(cells), p, d);
        && (err.Some? <==> outcome.Failure?)
        && (outcome.Success? ==> cells == outcome.value)
        && (outcome.Failure? ==> cells == old(cells))
    {
      var adjacent := cells[p].adjacent.At(d);
      if adjacent.None? || cells[adjacent.value].fixed {
        return None;
      }
      if WallTableName(kind) !in MazeTables(kind) {
        return Some(AttributeError);
      }
      ghost var before := cells;
      assert CanOpen(before, p, d) && WallTableFound(kind);
      var state := cells[p].state;
      cells := cells[p := cells[p].(state := state - BitAnd(state, d))];
      assert cells == before[p := before[p].(state := ClearWall(before[p].state, d))];
      var q := adjacent.value;
      var other := cells[q].state;
      cells := cells[q := cells[q].(state := other - BitAnd(other, Opposite(d)))];
      assert cells == Opened(before, p, d);
      return None;
    }
  }

  /** player.py's `Player`: the cell it stands on, by coordinate. */
  class Player {
    var cell: Coord

    constructor (start: Coord)
      ensures cell == start
    {
      cell := start;
    }

    /** `set_cell`: None leaves the player where it is; any cell replaces the current one. */
    method SetCell(c: Option<Coord>)
      modifies this
      ensures cell == (if c.None? then old(cell) else c.value)
    {
      if c.None? {
        return;
      }
      cell := c.value;
    }

    /** `move_to` over cells that keep their links as `_adjacent`: step along an open wall to an existing neighbour. */
    method Move(cells: Graph, d: Direction) returns (moved: bool)
      modifies this
      requires cell in cells
      ensures (moved, cell) == MoveTo(cells, old(cell), d)
    {
      if CanGo(cells[cell], d) {
        if cells[cell].adjacent.At(d).None? {
          return false;
        }
        SetCell(cells[cell].adjacent.At(d));
        return true;
      }
      return false;
    }
  }
}
