/**
 * The first object model, src/maze_class.py: a `Cell` whose walls are named
 * by strings ("NORTH", "EAST", "SOUTH", "WEST"), a `Maze` with checked
 * setters, a dictionary of linked cells and a player held as a coordinate
 * list. Cells are identified by coordinate, as in CellObjects, so a link is
 * the coordinate of the linked cell.
 */
module EarlyMaze {
  import opened Wrappers
  import opened Walls
  import opened Grid
  import opened MazeCells
  import CellObjects
  import ObjectMaze

  /** The fields of a `Cell`: passed, wall colour, wall state and the four links. */
  datatype EarlyCell = EarlyCell(passed: bool, color: string, state: int, adyacent: CellObjects.Links)

  type EarlyCells = map<Coord, EarlyCell>

  /** `Cell()`: not passed, red walls, every wall closed, no neighbour. */
  const FreshCell: EarlyCell := EarlyCell(false, "Red", AllWalls, CellObjects.NoLinks)

  /** The `KeyError` of `self._cells[player_pos]` when no cell is at the player's position. */
  datatype MoveError = KeyError

  /** The key of `CLOSE_WALLS` for each direction. */
  function Name(d: Direction): string
  {
    match d
    case North => "NORTH"
    case East => "EAST"
    case South => "SOUTH"
    case West => "WEST"
  }

  /** The direction a string names, if it is one of the four keys of `CLOSE_WALLS`. */
  function Named(name: string): (r: Option<Direction>)
    ensures r.Some? ==> Name(r.value) == name
  {
    if name == "NORTH" then Some(North)
    else if name == "EAST" then Some(East)
    else if name == "SOUTH" then Some(South)
    else if name == "WEST" then Some(West)
    else None
  }

  /** Each key names its own direction and no other. */
  lemma NamedName(d: Direction)
    ensures Named(Name(d)) == Some(d)
  {
    assert "NORTH"[0] == 'N' && "EAST"[0] == 'E' && "SOUTH"[0] == 'S' && "WEST"[0] == 'W';
  }

  /**
   * `check_if_can_go`: False when the named wall is closed; an unknown
   * direction passes every test and answers True.
   */
  function CheckIfCanGo(c: EarlyCell, direction: string): (r: bool)
    ensures Named(direction).None? ==> r
    ensures Named(direction).Some? ==> (r <==> !HasWall(c.state, Named(direction).value))
  {
    if direction == "NORTH" && BitAnd(c.state, North) != 0 then false
    else if direction == "EAST" && BitAnd(c.state, East) != 0 then false
    else if direction == "SOUTH" && BitAnd(c.state, South) != 0 then false
    else if direction == "WEST" && BitAnd(c.state, West) != 0 then false
    else true
  }

  /**
   * `open_direction` as written: when the link exists, the cell clears its
   * own wall, then subtracts from the neighbour its OWN (already updated)
   * state masked by the opposite bit. A neighbour object that is no longer
   * in the dictionary is changed out of sight.
   */
  function OpenedAsWritten(cells: EarlyCells, p: Coord, direction: string): (r: EarlyCells)
    requires p in cells
    ensures r.Keys == cells.Keys
  {
    match Named(direction)
    case None => cells
    case Some(d) =>
      var link := cells[p].adyacent.At(d);
      if link.None? then cells
      else
        var own := ClearWall(cells[p].state, d);
        var first := cells[p := cells[p].(state := own)];
        var q := link.value;
        if q in first then first[q := first[q].(state := first[q].state - BitAnd(own, Opposite(d)))]
        else first
  }

  /**
   * `open_direction` as intended: the cell clears its wall and the
   * neighbour clears its own opposite wall.
   */
  function Opened(cells: EarlyCells, p: Coord, d: Direction): (r: EarlyCells)
    requires p in cells
    ensures r.Keys == cells.Keys
  {
    var link := cells[p].adyacent.At(d);
    if link.None? then cells
    else
      var first := cells[p := cells[p].(state := ClearWall(cells[p].state, d))];
      var q := link.value;
      if q in first then first[q := first[q].(state := ClearWall(first[q].state, Opposite(d)))]
      else first
  }

  /** The engine's view of the cells: the state and the passed flag; no cell of this model is fixed. */
  function Records(cells: EarlyCells): (r: Cells)
    ensures r.Keys == cells.Keys
  {
    map p | p in cells :: Cell(cells[p].state, cells[p].passed, false)
  }

  /** Replacing one cell replaces its record. */
  lemma RecordsUpdate(cells: EarlyCells, p: Coord, c: EarlyCell)
    ensures Records(cells[p := c]) == Records(cells)[p := Cell(c.state, c.passed, false)]
  {
  }

  /** Every cell is linked as `initiate_cells` links it. */
  predicate Linked(width: int, height: int, cells: EarlyCells)
  {
    forall p :: p in cells ==> cells[p].adyacent == CellObjects.GridLinks(width, height, p)
  }

  /** A linked grid of cells whose walls satisfy the engine's facts: masks, both sides agreeing, the border closed. */
  predicate GridFacts(width: int, height: int, cells: EarlyCells)
  {
    && cells.Keys == GridCoords(width, height) && Linked(width, height, cells)
    && Masks(Records(cells)) && Symmetric(Records(cells)) && BorderClosed(Records(cells))
  }

  /** When both walls of the edge are closed, the cell's own opposite wall included, the code as written opens the edge correctly. */
  lemma AsWrittenWhenClosed(cells: EarlyCells, p: Coord, d: Direction)
    requires p in cells && IsMask(cells[p].state) && HasWall(cells[p].state, Opposite(d))
    requires var link := cells[p].adyacent.At(d);
      link.Some? && link.value in cells && link.value != p && HasWall(cells[link.value].state, Opposite(d))
    ensures OpenedAsWritten(cells, p, Name(d)) == Opened(cells, p, d)
  {
    NamedName(d);
    var q := cells[p].adyacent.At(d).value;
    var own := ClearWall(cells[p].state, d);
    ClearWallKeepsOther(cells[p].state, d, Opposite(d));
    var first := cells[p := cells[p].(state := own)];
    assert first[q] == cells[q];
    assert BitAnd(own, Opposite(d)) == BitAnd(cells[q].state, Opposite(d));
    assert OpenedAsWritten(cells, p, Name(d)) == first[q := first[q].(state := first[q].state - BitAnd(own, Opposite(d)))];
  }

  /**
   * The asymmetric result: in a column of three cells whose lower edge is
   * open, opening the middle cell to the north opens its north wall but
   * leaves the south wall of the top cell closed.
   */
  lemma AsWrittenLeavesNeighbourClosed()
    ensures var cells := map[(1, 1) := EarlyCell(false, "Red", 15, CellObjects.GridLinks(1, 3, (1, 1))),
                             (1, 2) := EarlyCell(false, "Red", 11, CellObjects.GridLinks(1, 3, (1, 2))),
                             (1, 3) := EarlyCell(false, "Red", 14, CellObjects.GridLinks(1, 3, (1, 3)))];
      var after := OpenedAsWritten(cells, (1, 2), "NORTH");
      && !HasWall(after[(1, 2)].state, North) && HasWall(after[(1, 1)].state, South)
      && !HasWall(Opened(cells, (1, 2), North)[(1, 1)].state, South)
  {
    var cells := map[(1, 1) := EarlyCell(false, "Red", 15, CellObjects.GridLinks(1, 3, (1, 1))),
                     (1, 2) := EarlyCell(false, "Red", 11, CellObjects.GridLinks(1, 3, (1, 2))),
                     (1, 3) := EarlyCell(false, "Red", 14, CellObjects.GridLinks(1, 3, (1, 3)))];
    CellObjects.GridLinksAt(1, 3, (1, 2));
    assert cells[(1, 2)].adyacent.At(North) == Some((1, 1));
    var after := OpenedAsWritten(cells, (1, 2), "NORTH");
    assert after[(1, 2)].state == 10;
    assert after[(1, 1)].state == 15;
    assert Opened(cells, (1, 2), North)[(1, 1)].state == 11;
  }

  /**
   * Opening the same wall twice: on a fresh two-cell column, the second
   * call subtracts the south bit from the top cell again, which turns its
   * state 11 into 7, opening its west wall and closing its south wall.
   */
  lemma AsWrittenTwiceCorrupts()
    ensures var cells := map[(1, 1) := EarlyCell(false, "Red", 15, CellObjects.GridLinks(1, 2, (1, 1))),
                             (1, 2) := EarlyCell(false, "Red", 15, CellObjects.GridLinks(1, 2, (1, 2)))];
      var twice := OpenedAsWritten(OpenedAsWritten(cells, (1, 2), "NORTH"), (1, 2), "NORTH");
      && twice[(1, 1)].state == 7
      && !HasWall(twice[(1, 1)].state, West) && HasWall(twice[(1, 1)].state, South)
      && Opened(Opened(cells, (1, 2), North), (1, 2), North)[(1, 1)].state == 11
  {
    var cells := map[(1, 1) := EarlyCell(false, "Red", 15, CellObjects.GridLinks(1, 2, (1, 1))),
                     (1, 2) := EarlyCell(false, "Red", 15, CellObjects.GridLinks(1, 2, (1, 2)))];
    CellObjects.GridLinksAt(1, 2, (1, 2));
    assert cells[(1, 2)].adyacent.At(North) == Some((1, 1));
    var once := OpenedAsWritten(cells, (1, 2), "NORTH");
    assert once[(1, 2)].state == 14 && once[(1, 1)].state == 11;
    assert once[(1, 2)].adyacent == cells[(1, 2)].adyacent;
    var twice := OpenedAsWritten(once, (1, 2), "NORTH");
    assert twice[(1, 1)].state == 7;
    var fixedOnce := Opened(cells, (1, 2), North);
    assert fixedOnce[(1, 1)].state == 11 && fixedOnce[(1, 2)].adyacent == cells[(1, 2)].adyacent;
  }

  /**
   * On a linked grid, the intended `open_direction` is the engine's
   * `OpenEdge` on the records, and it keeps the links.
   */
  lemma OpenedIsOpenEdge(width: int, height: int, cells: EarlyCells, p: Coord, d: Direction)
    requires cells.Keys == GridCoords(width, height) && Linked(width, height, cells)
    requires p in cells && cells[p].adyacent.At(d).Some?
    ensures Step(p, d) in cells
    ensures Records(Opened(cells, p, d)) == OpenEdge(Records(cells), p, d)
    ensures Linked(width, height, Opened(cells, p, d))
  {
    assert InGrid(width, height, p);
    CellObjects.GridLinksAt(width, height, p);
    OpenedRecords(cells, p, d);
    OpenedKeepsLinks(width, height, cells, p, d);
  }

  /** Where the link leads to `Step(p, d)`, the records of the intended `open_direction` are `OpenEdge`. */
  lemma OpenedRecords(cells: EarlyCells, p: Coord, d: Direction)
    requires p in cells && cells[p].adyacent.At(d) == Some(Step(p, d)) && Step(p, d) in cells
    ensures Records(Opened(cells, p, d)) == OpenEdge(Records(cells), p, d)
  {
    var q := Step(p, d);
    var c := cells[p].(state := ClearWall(cells[p].state, d));
    var first := cells[p := c];
    var c2 := first[q].(state := ClearWall(first[q].state, Opposite(d)));
    assert Opened(cells, p, d) == first[q := c2];
    RecordsUpdate(cells, p, c);
    RecordsUpdate(first, q, c2);
  }

  /** The intended `open_direction` changes only wall states, so the links stay. */
  lemma OpenedKeepsLinks(width: int, height: int, cells: EarlyCells, p: Coord, d: Direction)
    requires p in cells && Linked(width, height, cells)
    ensures Linked(width, height, Opened(cells, p, d))
  {
    var link := cells[p].adyacent.At(d);
    if link.Some? {
      var first := StateUpdateKeepsLinks(width, height, cells, p, ClearWall(cells[p].state, d));
      var q := link.value;
      if q in first {
        var second := StateUpdateKeepsLinks(width, height, first, q, ClearWall(first[q].state, Opposite(d)));
        assert Opened(cells, p, d) == second;
      }
    }
  }

  /** Setting the state of one cell keeps every cell linked. */
  lemma StateUpdateKeepsLinks(width: int, height: int, cells: EarlyCells, p: Coord, s: int) returns (next: EarlyCells)
    requires p in cells && Linked(width, height, cells)
    ensures next == cells[p := cells[p].(state := s)]
    ensures Linked(width, height, next)
  {
    next := cells[p := cells[p].(state := s)];
    forall r | r in next
      ensures next[r].adyacent == CellObjects.GridLinks(width, height, r)
    {
      if r.0 == p.0 && r.1 == p.1 {
        assert r == p;
      } else {
        assert next[r] == cells[r];
      }
    }
  }

  /**
   * The intended `open_direction` keeps the grid's facts on any cell of a
   * linked grid, only ever opens walls, and opening twice is opening once.
   */
  lemma OpenedKeepsFacts(width: int, height: int, cells: EarlyCells, p: Coord, d: Direction)
    requires GridFacts(width, height, cells) && p in cells
    ensures GridFacts(width, height, Opened(cells, p, d))
    ensures OnlyOpened(Records(cells), Records(Opened(cells, p, d)))
    ensures cells[p].adyacent.At(d).Some? ==> !HasWall(Opened(cells, p, d)[p].state, d)
  {
    if cells[p].adyacent.At(d).Some? {
      OpenedIsOpenEdge(width, height, cells, p, d);
      OpenEdgeValid(Records(cells), p, d);
    }
  }

  /** Where both sides of the edge are already open, the intended `open_direction` changes nothing. */
  lemma OpenedWhenOpen(cells: EarlyCells, p: Coord, d: Direction)
    requires p in cells && !HasWall(cells[p].state, d)
    requires var link := cells[p].adyacent.At(d);
      link.Some? && link.value in cells ==> !HasWall(cells[link.value].state, Opposite(d))
    ensures Opened(cells, p, d) == cells
  {
    var link := cells[p].adyacent.At(d);
    if link.Some? {
      var first := cells[p := cells[p].(state := ClearWall(cells[p].state, d))];
      assert first[p] == cells[p];
      SameCells(first, cells);
      var q := link.value;
      if q in cells {
        var second := first[q := first[q].(state := ClearWall(first[q].state, Opposite(d)))];
        assert second[q] == cells[q];
        SameCells(second, cells);
      }
    }
  }

  /** Opening a wall that the intended `open_direction` already opened changes nothing. */
  lemma OpenedIdempotent(width: int, height: int, cells: EarlyCells, p: Coord, d: Direction)
    requires GridFacts(width, height, cells) && p in cells
    ensures Opened(Opened(cells, p, d), p, d) == Opened(cells, p, d)
  {
    var once := Opened(cells, p, d);
    OpenedKeepsFacts(width, height, cells, p, d);
    if cells[p].adyacent.At(d).Some? {
      OpenedIsOpenEdge(width, height, cells, p, d);
      var q := Step(p, d);
      assert once[p].adyacent.At(d) == Some(q);
      assert Records(once)[p].state == once[p].state && Records(once)[q].state == once[q].state;
      OpenedWhenOpen(once, p, d);
    }
  }

  /** Two dictionaries of cells with the same keys and the same cell at every key are equal. */
  lemma SameCells(a: EarlyCells, b: EarlyCells)
    requires a.Keys == b.Keys
    requires forall p :: p in a ==> a[p] == b[p]
    ensures a == b
  {
  }

  /**
   * `move_player(direction)` of a player at `at`: False without moving at
   * the grid's edge in that direction (found by comparing with 1, width or
   * height) or against a closed wall, a step otherwise; a cell missing at
   * the player's position raises KeyError once the edge test has passed;
   * an unknown direction answers False.
   */
  function PlayerStep(width: int, height: int, cells: EarlyCells, at: Coord, direction: string): (r: Result<(bool, Coord), MoveError>)
    ensures r.Failure? <==> Named(direction).Some? && !AtEdge(width, height, at, Named(direction).value) && at !in cells
    ensures r.Success? ==> (r.value.0 <==> Named(direction).Some? && !AtEdge(width, height, at, Named(direction).value)
                                            && !HasWall(cells[at].state, Named(direction).value))
    ensures r.Success? && r.value.0 ==> r.value.1 == Step(at, Named(direction).value)
    ensures r.Success? && !r.value.0 ==> r.value.1 == at
  {
    match Named(direction)
    case None => Success((false, at))
    case Some(d) =>
      if AtEdge(width, height, at, d) then Success((false, at))
      else if at !in cells then Failure(KeyError)
      else if CheckIfCanGo(cells[at], direction) then Success((true, Step(at, d)))
      else Success((false, at))
  }

  /** A player inside the grid stays inside it after one move, whatever the walls and the direction. */
  lemma PlayerStepInside(width: int, height: int, cells: EarlyCells, at: Coord, direction: string)
    requires InGrid(width, height, at)
    ensures PlayerStep(width, height, cells, at, direction).Success? ==>
      InGrid(width, height, PlayerStep(width, height, cells, at, direction).value.1)
  {
  }

  /** The position after a sequence of `move_player` calls, or the KeyError that stops it. */
  function Walk(width: int, height: int, cells: EarlyCells, at: Coord, directions: seq<string>): Result<Coord, MoveError>
    decreases |directions|
  {
    if directions == [] then Success(at)
    else match PlayerStep(width, height, cells, at, directions[0])
      case Failure(e) => Failure(e)
      case Success((_, next)) => Walk(width, height, cells, next, directions[1..])
  }

  /** Any sequence of moves from a position inside the grid ends inside the grid. */
  lemma {:induction false} WalkStaysInside(width: int, height: int, cells: EarlyCells, at: Coord, directions: seq<string>)
    requires InGrid(width, height, at)
    ensures Walk(width, height, cells, at, directions).Success? ==> InGrid(width, height, Walk(width, height, cells, at, directions).value)
    decreases |directions|
  {
    if directions != [] {
      PlayerStepInside(width, height, cells, at, directions[0]);
      var step := PlayerStep(width, height, cells, at, directions[0]);
      if step.Success? {
        WalkStaysInside(width, height, cells, step.value.1, directions[1..]);
      }
    }
  }

  /** On a grid whose every coordinate has a cell, moves never raise. */
  lemma {:induction false} WalkNeverFails(width: int, height: int, cells: EarlyCells, at: Coord, directions: seq<string>)
    requires InGrid(width, height, at) && forall p :: InGrid(width, height, p) ==> p in cells
    ensures Walk(width, height, cells, at, directions).Success?
    decreases |directions|
  {
    if directions != [] {
      PlayerStepInside(width, height, cells, at, directions[0]);
      var step := PlayerStep(width, height, cells, at, directions[0]);
      WalkNeverFails(width, height, cells, step.value.1, directions[1..]);
    }
  }

  /** The first loop of `initiate_cells` for row `y`: a fresh cell at every column. */
  method MakeRow(cells: EarlyCells, width: int, height: int, y: int) returns (next: EarlyCells)
    requires 1 <= y <= height
    ensures forall p :: p in next <==> p in cells || (InGrid(width, height, p) && p.1 == y)
    ensures forall p :: p in next && InGrid(width, height, p) && p.1 == y ==> next[p] == FreshCell
    ensures forall p :: p in next && !(InGrid(width, height, p) && p.1 == y) ==> next[p] == cells[p]
  {
    next := cells;
    var x := 1;
    while x <= width
      invariant x >= 1
      invariant forall p :: p in next <==> p in cells || (InGrid(width, height, p) && p.1 == y && p.0 < x)
      invariant forall p :: p in next && InGrid(width, height, p) && p.1 == y && p.0 < x ==> next[p] == FreshCell
      invariant forall p :: p in next && !(InGrid(width, height, p) && p.1 == y && p.0 < x) ==> next[p] == cells[p]
    {
      next := next[(x, y) := FreshCell];
      x := x + 1;
    }
  }

  /** The second loop of `initiate_cells` for row `y`: each cell's west, north, east and south links. */
  method LinkRow(cells: EarlyCells, width: int, height: int, y: int) returns (next: EarlyCells)
    requires 1 <= y <= height
    requires forall p :: InGrid(width, height, p) && p.1 == y ==> p in cells
    ensures next.Keys == cells.Keys
    ensures forall p :: p in next && InGrid(width, height, p) && p.1 == y ==>
      next[p] == cells[p].(adyacent := CellObjects.GridLinks(width, height, p))
    ensures forall p :: p in next && !(InGrid(width, height, p) && p.1 == y) ==> next[p] == cells[p]
  {
    next := cells;
    var x := 1;
    while x <= width
      invariant x >= 1
      invariant next.Keys == cells.Keys
      invariant forall p :: p in next && InGrid(width, height, p) && p.1 == y && p.0 < x ==>
        next[p] == cells[p].(adyacent := CellObjects.GridLinks(width, height, p))
      invariant forall p :: p in next && !(InGrid(width, height, p) && p.1 == y && p.0 < x) ==> next[p] == cells[p]
    {
      var current := next[(x, y)];
      var links := ObjectMaze.RelinkCell(current.adyacent, width, height, x, y);
      ghost var before := next;
      next := next[(x, y) := current.(adyacent := links)];
      forall p | p in next && InGrid(width, height, p) && p.1 == y && p.0 < x + 1
        ensures next[p] == cells[p].(adyacent := CellObjects.GridLinks(width, height, p))
      {
        if p.0 == x {
          assert p == (x, y);
        } else {
          assert before[p] == next[p];
        }
      }
      x := x + 1;
    }
  }

  /** The cell `initiate_cells` leaves at `p`: all walls closed, linked to the grid. */
  function GridCell(width: int, height: int, p: Coord): EarlyCell
  {
    FreshCell.(adyacent := CellObjects.GridLinks(width, height, p))
  }

  /** What `initiate_cells` leaves: every grid cell fresh and linked; other keys kept. */
  function Initiated(cells: EarlyCells, width: int, height: int): EarlyCells
  {
    map p | p in cells.Keys + GridCoords(width, height) :: if InGrid(width, height, p) then GridCell(width, height, p) else cells[p]
  }

  /** `initiate_cells`: the loop that makes the cells, row by row, then the loop that links them. */
  method Initiate(cells: EarlyCells, width: int, height: int) returns (next: EarlyCells)
    ensures next == Initiated(cells, width, height)
  {
    next := cells;
    var y := 1;
    while y <= height
      invariant y >= 1
      invariant forall p :: p in next <==> p in cells || (InGrid(width, height, p) && p.1 < y)
      invariant forall p :: p in next && InGrid(width, height, p) && p.1 < y ==> next[p] == FreshCell
      invariant forall p :: p in next && !(InGrid(width, height, p) && p.1 < y) ==> next[p] == cells[p]
    {
      next := MakeRow(next, width, height, y);
      y := y + 1;
    }
    y := 1;
    while y <= height
      invariant y >= 1
      invariant forall p :: p in next <==> p in cells || InGrid(width, height, p)
      invariant forall p :: p in next && InGrid(width, height, p) && p.1 < y ==> next[p] == GridCell(width, height, p)
      invariant forall p :: p in next && InGrid(width, height, p) && p.1 >= y ==> next[p] == FreshCell
      invariant forall p :: p in next && !InGrid(width, height, p) ==> next[p] == cells[p]
    {
      next := LinkRow(next, width, height, y);
      y := y + 1;
    }
    InitiatedKeys(cells, next, width, height);
    SameCells(next, Initiated(cells, width, height));
  }

  /** The keys left by the two loops of `initiate_cells` are those of `Initiated`. */
  lemma InitiatedKeys(cells: EarlyCells, next: EarlyCells, width: int, height: int)
    requires forall p :: p in next <==> p in cells || InGrid(width, height, p)
    ensures next.Keys == Initiated(cells, width, height).Keys
  {
  }

  /** `initiate_cells` on the empty dictionary gives a linked grid of closed cells, with the grid's facts. */
  lemma InitiatedEmpty(width: int, height: int)
    ensures Initiated(map[], width, height).Keys == GridCoords(width, height)
    ensures forall p :: p in Initiated(map[], width, height) ==> Initiated(map[], width, height)[p].state == AllWalls
    ensures GridFacts(width, height, Initiated(map[], width, height))
  {
    var cells := Initiated(map[], width, height);
    assert cells.Keys == GridCoords(width, height);
    assert Records(cells) == InitialCells(width, height, {});
    InitialCellsValid(width, height, {});
  }

  /** The body of the intended `open_direction`: clear the cell's wall, then the linked cell's opposite wall. */
  method OpenDirectionOf(cells: EarlyCells, p: Coord, d: Direction) returns (next: EarlyCells)
    requires p in cells
    ensures next == Opened(cells, p, d)
  {
    next := cells;
    var link := next[p].adyacent.At(d);
    if link.Some? {
      var state := next[p].state;
      next := next[p := next[p].(state := state - BitAnd(state, d))];
      var q := link.value;
      if q in next {
        var other := next[q].state;
        next := next[q := next[q].(state := other - BitAnd(other, Opposite(d)))];
      }
    }
  }

  class Maze {
    var width: int
    var height: int
    var entry: Coord
    var exit: Coord
    var cells: EarlyCells
    /** The list `[x, y]` of the player's position. */
    var player: Coord

    /** What every constructed maze keeps, whatever the intended `open_direction` does. */
    ghost predicate Valid()
      reads this
    {
      && width >= 1 && height >= 1
      && InGrid(width, height, entry) && InGrid(width, height, exit)
      && GridFacts(width, height, cells)
    }

    /** A blank object, before `__init__` has set anything. */
    constructor ()
      ensures width == 0 && height == 0
    {
      width, height := 0, 0;
      entry, exit := (0, 0), (0, 0);
      cells := map[];
      player := (0, 0);
    }

    /** `set_width`: raises below 1, otherwise stores the width. */
    method SetWidth(w: int) returns (err: Option<ObjectMaze.MazeError>)
      modifies this`width
      ensures err.Some? <==> w < 1
      ensures err.Some? ==> err.value == ObjectMaze.WidthTooSmall && width == old(width)
      ensures err.None? ==> width == w
    {
      if w < 1 {
        return Some(ObjectMaze.WidthTooSmall);
      }
      width := w;
      return None;
    }

    /** `set_height`: raises below 1, otherwise stores the height. */
    method SetHeight(h: int) returns (err: Option<ObjectMaze.MazeError>)
      modifies this`height
      ensures err.Some? <==> h < 1
      ensures err.Some? ==> err.value == ObjectMaze.HeightTooSmall && height == old(height)
      ensures err.None? ==> height == h
    {
      if h < 1 {
        return Some(ObjectMaze.HeightTooSmall);
      }
      height := h;
      return None;
    }

    /** `set_entry`: raises when the point is outside the grid, otherwise stores it. */
    method SetEntry(e: Coord) returns (err: Option<ObjectMaze.MazeError>)
      modifies this`entry
      ensures err.Some? <==> !InGrid(width, height, e)
      ensures err.Some? ==> err.value == ObjectMaze.EntryOutside && entry == old(entry)
      ensures err.None? ==> entry == e
    {
      if e.0 < 1 || e.0 > width {
        return Some(ObjectMaze.EntryOutside);
      }
      if e.1 < 1 || e.1 > height {
        return Some(ObjectMaze.EntryOutside);
      }
      entry := e;
      return None;
    }

    /** `set_exit`: raises when the point is outside the grid, otherwise stores it, even when it is the entry. */
    method SetExit(e: Coord) returns (err: Option<ObjectMaze.MazeError>)
      modifies this`exit
      ensures err.Some? <==> !InGrid(width, height, e)
      ensures err.Some? ==> err.value == ObjectMaze.ExitOutside && exit == old(exit)
      ensures err.None? ==> exit == e
    {
      if e.0 < 1 || e.0 > width {
        return Some(ObjectMaze.ExitOutside);
      }
      if e.1 < 1 || e.1 > height {
        return Some(ObjectMaze.ExitOutside);
      }
      exit := e;
      return None;
    }

    /** `initiate_cells` on the maze's own dictionary. */
    method InitiateCells()
      modifies this`cells
      ensures cells == Initiated(old(cells), width, height)
    {
      cells := Initiate(cells, width, height);
    }

    /**
     * `Maze(width, height, entry, exit)`: the setters in order, then an
     * empty dictionary filled by `initiate_cells`, then the player on the
     * entry.
     */
    static method Create(width: int, height: int, entry: Coord, exit: Coord) returns (r: Result<Maze, ObjectMaze.MazeError>)
      ensures ObjectMaze.SetterCheck(width, height, entry, exit).Some? ==> r == Failure(ObjectMaze.SetterCheck(width, height, entry, exit).value)
      ensures ObjectMaze.SetterCheck(width, height, entry, exit).None? ==> r.Success? && fresh(r.value)
      ensures r.Success? ==> r.value.Valid() && r.value.cells == Initiated(map[], width, height)
      ensures r.Success? ==> r.value.width == width && r.value.height == height
      ensures r.Success? ==> r.value.entry == entry && r.value.exit == exit && r.value.player == entry
    {
      var m := new Maze();
      var err := m.Configure(width, height, entry, exit);
      if err.Some? {
        return Failure(err.value);
      }
      m.Start();
      return Success(m);
    }

    /** The four setters in the order `__init__` calls them; the first that raises stops the others. */
    method Configure(w: int, h: int, e: Coord, x: Coord) returns (err: Option<ObjectMaze.MazeError>)
      modifies this`width, this`height, this`entry, this`exit
      ensures err == ObjectMaze.SetterCheck(w, h, e, x)
      ensures err.None? ==> width == w && height == h && entry == e && exit == x
    {
      err := SetWidth(w);
      if err.Some? {
        return;
      }
      err := SetHeight(h);
      if err.Some? {
        return;
      }
      err := SetEntry(e);
      if err.Some? {
        return;
      }
      err := SetExit(x);
    }

    /** The end of `__init__`, once the setters accepted: a fresh dictionary, `initiate_cells`, the player on the entry. */
    method Start()
      modifies this`cells, this`player
      requires width >= 1 && height >= 1 && InGrid(width, height, entry) && InGrid(width, height, exit)
      ensures Valid() && cells == Initiated(map[], width, height) && player == entry
    {
      cells := map[];
      InitiateCells();
      InitiatedEmpty(width, height);
      player := entry;
    }

    /** `set_cells`: replaces the dictionary. */
    method SetCells(c: EarlyCells)
      modifies this`cells
      ensures cells == c
    {
      cells := c;
    }

    /** `set_player` and the module-level `move_player(maze, move_to)`: the player goes to the given position. */
    method SetPlayer(p: Coord)
      modifies this`player
      ensures player == p
    {
      player := p;
    }

    /**
     * `self._cells[p].open_direction(d)` with the neighbour's own opposite
     * wall cleared: it keeps the maze valid.
     */
    method OpenDirection(p: Coord, d: Direction)
      modifies this`cells
      requires Valid() && p in cells
      ensures Valid()
      ensures cells == Opened(old(cells), p, d)
    {
      OpenedKeepsFacts(width, height, cells, p, d);
      cells := OpenDirectionOf(cells, p, d);
    }

    /** `move_player(direction)`: the edge test, the lookup of the player's cell, the wall test, then the step. */
    method MovePlayer(direction: string) returns (r: Result<bool, MoveError>)
      modifies this`player
      ensures PlayerStep(width, height, cells, old(player), direction).Failure? ==> r == Failure(KeyError) && player == old(player)
      ensures PlayerStep(width, height, cells, old(player), direction).Success? ==>
        r == Success(PlayerStep(width, height, cells, old(player), direction).value.0)
        && player == PlayerStep(width, height, cells, old(player), direction).value.1
      ensures old(InGrid(width, height, player)) ==> InGrid(width, height, player)
    {
      if InGrid(width, height, player) {
        PlayerStepInside(width, height, cells, player, direction);
      }
      var pos := player;
      if direction == "WEST" {
        if player.0 == 1 {
          return Success(false);
        } else if pos !in cells {
          return Failure(KeyError);
        } else if CheckIfCanGo(cells[pos], "WEST") {
          player := (player.0 - 1, player.1);
          return Success(true);
        }
        return Success(false);
      } else if direction == "NORTH" {
        if player.1 == 1 {
          return Success(false);
        } else if pos !in cells {
          return Failure(KeyError);
        } else if CheckIfCanGo(cells[pos], "NORTH") {
          player := (player.0, player.1 - 1);
          return Success(true);
        }
        return Success(false);
      } else if direction == "EAST" {
        if player.0 == width {
          return Success(false);
        } else if pos !in cells {
          return Failure(KeyError);
        } else if CheckIfCanGo(cells[pos], "EAST") {
          player := (player.0 + 1, player.1);
          return Success(true);
        }
        return Success(false);
      } else if direction == "SOUTH" {
        if player.1 == height {
          return Success(false);
        } else if pos !in cells {
          return Failure(KeyError);
        } else if CheckIfCanGo(cells[pos], "SOUTH") {
          player := (player.0, player.1 + 1);
          return Success(true);
        }
        return Success(false);
      }
      return Success(false);
    }
  }
}
