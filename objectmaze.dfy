/**
 * The object-graph `Maze` of src/generator/src/maze_class.py: checked
 * setters, a grid of `Cell` objects linked to their neighbours, the "42"
 * logo of fixed cells, and a `Player` that stands on one cell. Cells are
 * identified by coordinate (see CellObjects); the wall facts are those of
 * the engine's cell dictionary (MazeCells), read through `Records`.
 */
module ObjectMaze {
  import opened Wrappers
  import opened Walls
  import opened Grid
  import opened MazeCells
  import opened CellObjects
  import FtLogo

  /** The `MazeError`s the setters and the logo placement raise. */
  datatype MazeError = WidthTooSmall | HeightTooSmall | EntryOutside | ExitOutside | Unexpected

  /** `set_width`, `set_height`, `set_entry` and `set_exit` in the order `__init__` calls them: the first one that raises. */
  function SetterCheck(width: int, height: int, entry: Coord, exit: Coord): Option<MazeError>
  {
    if width < 1 then Some(WidthTooSmall)
    else if height < 1 then Some(HeightTooSmall)
    else if entry.0 < 1 || entry.0 > width || entry.1 < 1 || entry.1 > height then Some(EntryOutside)
    else if exit.0 < 1 || exit.0 > width || exit.1 < 1 || exit.1 > height then Some(ExitOutside)
    else None
  }

  /** The setters accept exactly a non-empty grid with both points inside it; unlike maze.py, the entry may be the exit. */
  lemma SetterCheckAccepts(width: int, height: int, entry: Coord, exit: Coord)
    ensures SetterCheck(width, height, entry, exit).None? <==>
      width >= 1 && height >= 1 && InGrid(width, height, entry) && InGrid(width, height, exit)
  {
  }

  /** The template cell `t` placed relative to `center`. */
  function Shift(center: Coord, t: Coord): Coord
  {
    (center.0 + t.0, center.1 + t.1)
  }

  /** The cells of the template `s` placed relative to `center`. */
  function Placed(s: seq<Coord>, center: Coord): set<Coord>
  {
    if s == [] then {} else Placed(s[..|s| - 1], center) + {Shift(center, s[|s| - 1])}
  }

  /** A cell is placed exactly when moving it back by the centre gives a template cell. */
  lemma {:induction false} PlacedMember(s: seq<Coord>, center: Coord, q: Coord)
    ensures q in Placed(s, center) <==> (q.0 - center.0, q.1 - center.1) in s
  {
    if s != [] {
      var init := s[..|s| - 1];
      PlacedMember(init, center, q);
      assert s == init + [s[|s| - 1]];
    }
  }

  /** Placing one more template cell adds its shifted cell. */
  lemma PlacedStep(s: seq<Coord>, center: Coord, i: int)
    requires 0 <= i < |s|
    ensures Placed(s[..i + 1], center) == Placed(s[..i], center) + {Shift(center, s[i])}
  {
    assert s[..i + 1][..i] == s[..i];
  }

  /** Every template cell is placed. */
  lemma {:induction false} PlacedHas(s: seq<Coord>, center: Coord, i: int)
    requires 0 <= i < |s|
    ensures Shift(center, s[i]) in Placed(s, center)
  {
    if i < |s| - 1 {
      PlacedHas(s[..|s| - 1], center, i);
    }
  }

  /** `(ceil(width / 2), ceil(height / 2))`. */
  function Center(width: int, height: int): Coord
  {
    (FtLogo.HalfUp(width), FtLogo.HalfUp(height))
  }

  /** The cells `__generate_ft_logo` fixes: none below 9 x 7, otherwise the template around the centre. */
  function LogoCells(width: int, height: int): set<Coord>
  {
    if width < FtLogo.MinFtWidth || height < FtLogo.MinFtHeight then {} else Placed(FtLogo.DefaultCells, Center(width, height))
  }

  /** Placing distinct template cells gives as many distinct cells. */
  lemma {:induction false} PlacedCount(s: seq<Coord>, center: Coord)
    requires forall i, j :: 0 <= i < j < |s| ==> s[i] != s[j]
    ensures |Placed(s, center)| == |s|
  {
    if s != [] {
      var init := s[..|s| - 1];
      var last := s[|s| - 1];
      PlacedCount(init, center);
      assert last !in init by {
        forall k | 0 <= k < |init|
          ensures init[k] != last
        {
          assert init[k] == s[k];
        }
      }
      PlacedMember(init, center, Shift(center, last));
      assert (Shift(center, last).0 - center.0, Shift(center, last).1 - center.1) == last;
    }
  }

  /** The logo fits any grid of at least 9 x 7 and then has exactly the 18 template cells; smaller grids get none. */
  lemma LogoCellsFit(width: int, height: int)
    ensures forall p :: p in LogoCells(width, height) ==> InGrid(width, height, p)
    ensures width >= FtLogo.MinFtWidth && height >= FtLogo.MinFtHeight ==> |LogoCells(width, height)| == 18
    ensures width < FtLogo.MinFtWidth || height < FtLogo.MinFtHeight ==> LogoCells(width, height) == {}
  {
    if width >= FtLogo.MinFtWidth && height >= FtLogo.MinFtHeight {
      var center := Center(width, height);
      forall p | p in LogoCells(width, height)
        ensures InGrid(width, height, p)
      {
        PlacedMember(FtLogo.DefaultCells, center, p);
        FtLogo.DefaultCellsSpan();
      }
      FtLogo.DefaultCellsDistinct();
      PlacedCount(FtLogo.DefaultCells, center);
    }
  }

  /** The cell `initiate_cells` leaves at `p`: all walls closed, not visited, linked to the grid, fixed on the logo. */
  function GridCell(width: int, height: int, p: Coord): CellObject
  {
    CellObject(false, AllWalls, GridLinks(width, height, p), p in LogoCells(width, height))
  }

  /** The cells of a freshly constructed maze. */
  function InitialGrid(width: int, height: int): Graph
  {
    map p | p in GridCoords(width, height) :: GridCell(width, height, p)
  }

  /** Every cell is linked as `initiate_cells` links it. */
  predicate Linked(width: int, height: int, cells: Graph)
  {
    forall p :: p in cells ==> cells[p].adjacent == GridLinks(width, height, p)
  }

  /** The engine's view of the cells: state, visited and fixed. */
  function Records(cells: Graph): (r: Cells)
    ensures r.Keys == cells.Keys
  {
    map p | p in cells :: Cell(cells[p].state, cells[p].visited, cells[p].fixed)
  }

  /**
   * In a linked grid, a link is None exactly on the border in that
   * direction and otherwise leads to the neighbour, whose link back is the
   * cell itself; no link dangles and none is a loop.
   */
  lemma LinkedGrid(width: int, height: int, cells: Graph)
    requires cells.Keys == GridCoords(width, height) && Linked(width, height, cells)
    ensures Closed(cells) && NoSelfLinks(cells)
    ensures forall p, d: Direction :: p in cells ==>
      && (cells[p].adjacent.At(d).None? <==> AtEdge(width, height, p, d))
      && (cells[p].adjacent.At(d).Some? ==> cells[p].adjacent.At(d).value == Step(p, d))
    ensures forall p, d: Direction :: p in cells && cells[p].adjacent.At(d).Some? ==>
      cells[cells[p].adjacent.At(d).value].adjacent.At(Opposite(d)) == Some(p)
  {
    forall p | p in cells {
      GridLinksAt(width, height, p);
    }
    forall p, d: Direction | p in cells && cells[p].adjacent.At(d).Some?
      ensures cells[p].adjacent.At(d).value in cells
      ensures cells[cells[p].adjacent.At(d).value].adjacent.At(Opposite(d)) == Some(p)
    {
      AdjacentBack(width, height, p, d);
      GridLinksAt(width, height, Step(p, d));
    }
  }

  /** The wall facts of a fresh maze: all walls closed, so they hold trivially; the fixed cells are exactly the logo. */
  lemma InitialGridValid(width: int, height: int)
    ensures var cells := InitialGrid(width, height);
      && cells.Keys == GridCoords(width, height) && Linked(width, height, cells)
      && Records(cells) == InitialCells(width, height, LogoCells(width, height))
      && Masks(Records(cells)) && Symmetric(Records(cells)) && BorderClosed(Records(cells))
      && forall p :: p in cells ==> (cells[p].fixed <==> p in LogoCells(width, height))
  {
    var cells := InitialGrid(width, height);
    assert Records(cells) == InitialCells(width, height, LogoCells(width, height));
    InitialCellsValid(width, height, LogoCells(width, height));
  }

  /** Replacing one cell object replaces its record. */
  lemma RecordsUpdate(cells: Graph, p: Coord, c: CellObject)
    ensures Records(cells[p := c]) == Records(cells)[p := Cell(c.state, c.visited, c.fixed)]
  {
  }

  /**
   * On a linked grid, `open_direction` past its guard is the engine's
   * `OpenEdge` on the records, and it keeps the links; so it keeps the wall
   * facts of the engine.
   */
  lemma OpenedIsOpenEdge(width: int, height: int, cells: Graph, p: Coord, d: Direction)
    requires cells.Keys == GridCoords(width, height) && Linked(width, height, cells)
    requires p in cells && Closed(cells) && CanOpen(cells, p, d)
    ensures Step(p, d) in cells
    ensures Records(Opened(cells, p, d)) == OpenEdge(Records(cells), p, d)
    ensures Linked(width, height, Opened(cells, p, d))
  {
    assert cells[p].adjacent == GridLinks(width, height, p);
    GridLinksAt(width, height, p);
    var q := cells[p].adjacent.At(d).value;
    assert q == Step(p, d);
    var c := cells[p].(state := ClearWall(cells[p].state, d));
    var first := cells[p := c];
    RecordsUpdate(cells, p, c);
    var c2 := first[q].(state := ClearWall(first[q].state, Opposite(d)));
    RecordsUpdate(first, q, c2);
  }

  /** A linked grid of cells whose walls satisfy the engine's facts: masks, both sides agreeing, the border closed. */
  predicate GridFacts(width: int, height: int, cells: Graph)
  {
    && cells.Keys == GridCoords(width, height) && Linked(width, height, cells)
    && Masks(Records(cells)) && Symmetric(Records(cells)) && BorderClosed(Records(cells))
  }

  /** `open_direction` on any cell of a linked grid keeps the grid's facts, and only ever opens walls. */
  lemma AfterOpenKeepsFacts(width: int, height: int, cells: Graph, p: Coord, d: Direction)
    requires GridFacts(width, height, cells) && p in cells
    ensures Closed(cells)
    ensures GridFacts(width, height, AfterOpen(cells, p, d))
    ensures OnlyOpened(Records(cells), Records(AfterOpen(cells, p, d)))
  {
    LinkedGrid(width, height, cells);
    if CanOpen(cells, p, d) {
      OpenedIsOpenEdge(width, height, cells, p, d);
      OpenEdgeValid(Records(cells), p, d);
    }
  }

  /** `Player.move_to` of maze_class.py: at an open wall it takes the link, and `set_cell(None)` keeps it in place; it answers True either way. */
  function PlayerMove(cells: Graph, at: Coord, d: Direction): (r: (bool, Coord))
    requires at in cells
    ensures r.0 <==> !HasWall(cells[at].state, d)
    ensures !r.0 ==> r.1 == at
  {
    if CanGo(cells[at], d) then
      (true, if cells[at].adjacent.At(d).Some? then cells[at].adjacent.At(d).value else at)
    else (false, at)
  }

  /**
   * In a maze whose border walls are closed, an open wall always has a
   * neighbour behind it: `move_to` answers True exactly when the player
   * steps to that neighbour.
   */
  lemma PlayerMoveInGrid(width: int, height: int, cells: Graph, at: Coord, d: Direction)
    requires cells.Keys == GridCoords(width, height) && Linked(width, height, cells)
    requires BorderClosed(Records(cells)) && at in cells
    ensures PlayerMove(cells, at, d).0 ==> PlayerMove(cells, at, d).1 == Step(at, d)
    ensures PlayerMove(cells, at, d).1 in cells
  {
    LinkedGrid(width, height, cells);
    if !HasWall(cells[at].state, d) {
      assert Records(cells)[at].state == cells[at].state;
      assert Step(at, d) in Records(cells);
    }
  }

  /** The body of `open_direction` on the cell at `p`: the guard, then this cell's wall, then the neighbour's. */
  method OpenStates(cells: Graph, p: Coord, d: Direction) returns (next: Graph)
    requires p in cells && Closed(cells)
    ensures next == AfterOpen(cells, p, d)
  {
    next := cells;
    var adjacent := next[p].adjacent.At(d);
    if adjacent.None? || next[adjacent.value].fixed {
      return;
    }
    var state := next[p].state;
    next := next[p := next[p].(state := state - BitAnd(state, d))];
    var q := adjacent.value;
    var other := next[q].state;
    next := next[q := next[q].(state := other - BitAnd(other, Opposite(d)))];
  }

  /** The four link assignments `initiate_cells` makes for the cell at (x, y): None on the border, otherwise the neighbour. */
  method RelinkCell(current: Links, width: int, height: int, x: int, y: int) returns (links: Links)
    ensures links == GridLinks(width, height, (x, y))
  {
    links := current;
    if x == 1 {
      links := links.(west := None);
    } else {
      links := links.(west := Some((x - 1, y)));
    }
    if y == 1 {
      links := links.(north := None);
    } else {
      links := links.(north := Some((x, y - 1)));
    }
    if x == width {
      links := links.(east := None);
    } else {
      links := links.(east := Some((x + 1, y)));
    }
    if y == height {
      links := links.(south := None);
    } else {
      links := links.(south := Some((x, y + 1)));
    }
  }

  /** The first loop of `initiate_cells` for row `y`: a fresh cell at every column. */
  method MakeRow(cells: Graph, width: int, height: int, y: int) returns (next: Graph)
    requires 1 <= y <= height
    ensures forall p :: p in next <==> p in cells || (InGrid(width, height, p) && p.1 == y)
    ensures forall p :: p in next && InGrid(width, height, p) && p.1 == y ==> next[p] == NewCell(false)
    ensures forall p :: p in next && !(InGrid(width, height, p) && p.1 == y) ==> next[p] == cells[p]
  {
    next := cells;
    var x := 1;
    while x <= width
      invariant x >= 1
      invariant forall p :: p in next <==> p in cells || (InGrid(width, height, p) && p.1 == y && p.0 < x)
      invariant forall p :: p in next && InGrid(width, height, p) && p.1 == y && p.0 < x ==> next[p] == NewCell(false)
      invariant forall p :: p in next && !(InGrid(width, height, p) && p.1 == y && p.0 < x) ==> next[p] == cells[p]
    {
      next := next[(x, y) := NewCell(false)];
      x := x + 1;
    }
  }

  /** The second loop of `initiate_cells` for row `y`: each cell's west, north, east and south links. */
  method LinkRow(cells: Graph, width: int, height: int, y: int) returns (next: Graph)
    requires 1 <= y <= height
    requires forall p :: InGrid(width, height, p) && p.1 == y ==> p in cells
    ensures next.Keys == cells.Keys
    ensures forall p :: p in next && InGrid(width, height, p) && p.1 == y ==>
      next[p] == cells[p].(adjacent := GridLinks(width, height, p))
    ensures forall p :: p in next && !(InGrid(width, height, p) && p.1 == y) ==> next[p] == cells[p]
  {
    next := cells;
    var x := 1;
    while x <= width
      invariant x >= 1
      invariant next.Keys == cells.Keys
      invariant forall p :: p in next && InGrid(width, height, p) && p.1 == y && p.0 < x ==>
        next[p] == cells[p].(adjacent := GridLinks(width, height, p))
      invariant forall p :: p in next && !(InGrid(width, height, p) && p.1 == y && p.0 < x) ==> next[p] == cells[p]
    {
      var current := next[(x, y)];
      var links := RelinkCell(current.adjacent, width, height, x, y);
      ghost var before := next;
      next := next[(x, y) := current.(adjacent := links)];
      forall p | p in next && InGrid(width, height, p) && p.1 == y && p.0 < x + 1
        ensures next[p] == cells[p].(adjacent := GridLinks(width, height, p))
      {
        if p.0 == x {
          assert p == (x, y);
        } else {
          assert before[p] == next[p];
        }
      }
      x := x + 1;
    }
  }

  /** The two loops of `initiate_cells` over the rows: the fresh cells, then their links; other keys are kept. */
  method BuildGrid(cells: Graph, width: int, height: int) returns (next: Graph)
    ensures forall p :: p in next <==> p in cells || InGrid(width, height, p)
    ensures forall p :: p in next && InGrid(width, height, p) ==>
      next[p] == NewCell(false).(adjacent := GridLinks(width, height, p))
    ensures forall p :: p in next && !InGrid(width, height, p) ==> next[p] == cells[p]
  {
    next := cells;
    var y := 1;
    while y <= height
      invariant y >= 1
      invariant forall p :: p in next <==> p in cells || (InGrid(width, height, p) && p.1 < y)
      invariant forall p :: p in next && InGrid(width, height, p) && p.1 < y ==> next[p] == NewCell(false)
      invariant forall p :: p in next && !(InGrid(width, height, p) && p.1 < y) ==> next[p] == cells[p]
    {
      next := MakeRow(next, width, height, y);
      y := y + 1;
    }
    y := 1;
    while y <= height
      invariant y >= 1
      invariant forall p :: p in next <==> p in cells || InGrid(width, height, p)
      invariant forall p :: p in next && InGrid(width, height, p) && p.1 < y ==>
        next[p] == NewCell(false).(adjacent := GridLinks(width, height, p))
      invariant forall p :: p in next && InGrid(width, height, p) && p.1 >= y ==> next[p] == NewCell(false)
      invariant forall p :: p in next && !InGrid(width, height, p) ==> next[p] == cells[p]
    {
      next := LinkRow(next, width, height, y);
      y := y + 1;
    }
  }

  /** The cells with every logo cell fixed: what `__generate_ft_logo` leaves when it does not raise. */
  function LogoFixed(cells: Graph, width: int, height: int): Graph
  {
    map p | p in cells :: if p in LogoCells(width, height) then cells[p].(fixed := true) else cells[p]
  }

  /** `__generate_ft_logo` on the cells: nothing below 9 x 7, otherwise the template loop around the centre. */
  method FixLogo(cells: Graph, width: int, height: int) returns (next: Graph, err: Option<MazeError>)
    ensures next.Keys == cells.Keys
    ensures err.Some? <==> !(LogoCells(width, height) <= cells.Keys)
    ensures err.None? ==> next == LogoFixed(cells, width, height)
  {
    if width < FtLogo.MinFtWidth || height < FtLogo.MinFtHeight {
      SameCells(cells, LogoFixed(cells, width, height));
      return cells, None;
    }
    next, err := FixTemplate(cells, Center(width, height));
    if err.None? {
      SameCells(next, LogoFixed(cells, width, height));
    }
  }

  /** The loop of `__generate_ft_logo`: each template cell around `center` in turn, raising at the first one missing. */
  method FixTemplate(cells: Graph, center: Coord) returns (next: Graph, err: Option<MazeError>)
    ensures next.Keys == cells.Keys
    ensures err.Some? <==> !(Placed(FtLogo.DefaultCells, center) <= cells.Keys)
    ensures err.None? ==> forall p :: p in next && p in Placed(FtLogo.DefaultCells, center) ==> next[p] == cells[p].(fixed := true)
    ensures err.None? ==> forall p :: p in next && p !in Placed(FtLogo.DefaultCells, center) ==> next[p] == cells[p]
  {
    next := cells;
    for i := 0 to |FtLogo.DefaultCells|
      invariant next.Keys == cells.Keys
      invariant Placed(FtLogo.DefaultCells[..i], center) <= next.Keys
      invariant forall p :: p in next && p in Placed(FtLogo.DefaultCells[..i], center) ==> next[p] == cells[p].(fixed := true)
      invariant forall p :: p in next && p !in Placed(FtLogo.DefaultCells[..i], center) ==> next[p] == cells[p]
    {
      var p := Shift(center, FtLogo.DefaultCells[i]);
      if p !in next {
        PlacedHas(FtLogo.DefaultCells, center, i);
        return next, Some(Unexpected);
      }
      PlacedStep(FtLogo.DefaultCells, center, i);
      next := next[p := next[p].(fixed := true)];
    }
    assert FtLogo.DefaultCells[..|FtLogo.DefaultCells|] == FtLogo.DefaultCells;
    return next, None;
  }

  /** What `initiate_cells` leaves: the grid's cells, linked and with the logo fixed; other keys kept. */
  function Initiated(cells: Graph, width: int, height: int): Graph
  {
    map p | p in cells.Keys + GridCoords(width, height) :: if InGrid(width, height, p) then GridCell(width, height, p) else cells[p]
  }

  /** The body of `initiate_cells`: the two loops over the rows, then `__generate_ft_logo`, which finds every logo cell. */
  method Initiate(cells: Graph, width: int, height: int) returns (next: Graph)
    ensures next == Initiated(cells, width, height)
  {
    var built := BuildGrid(cells, width, height);
    LogoCellsFit(width, height);
    var err;
    next, err := FixLogo(built, width, height);
    assert err.None?;
    BuiltThenFixed(cells, built, width, height);
  }

  /** Fixing the logo on the rows the two loops leave gives what `initiate_cells` leaves. */
  lemma BuiltThenFixed(cells: Graph, built: Graph, width: int, height: int)
    requires forall p :: p in built <==> p in cells || InGrid(width, height, p)
    requires forall p :: p in built && InGrid(width, height, p) ==>
      built[p] == NewCell(false).(adjacent := GridLinks(width, height, p))
    requires forall p :: p in built && !InGrid(width, height, p) ==> built[p] == cells[p]
    ensures LogoFixed(built, width, height) == Initiated(cells, width, height)
  {
    BuiltThenFixedKeys(cells, built, width, height);
    BuiltThenFixedInside(cells, built, width, height);
    BuiltThenFixedOutside(cells, built, width, height);
    SameCells(LogoFixed(built, width, height), Initiated(cells, width, height));
  }

  lemma BuiltThenFixedKeys(cells: Graph, built: Graph, width: int, height: int)
    requires forall p :: p in built <==> p in cells || InGrid(width, height, p)
    ensures LogoFixed(built, width, height).Keys == Initiated(cells, width, height).Keys
  {
  }

  lemma BuiltThenFixedInside(cells: Graph, built: Graph, width: int, height: int)
    requires forall p :: p in built <==> p in cells || InGrid(width, height, p)
    requires forall p :: p in built && InGrid(width, height, p) ==>
      built[p] == NewCell(false).(adjacent := GridLinks(width, height, p))
    ensures forall p :: p in built && InGrid(width, height, p) ==>
      LogoFixed(built, width, height)[p] == Initiated(cells, width, height)[p]
  {
  }

  lemma BuiltThenFixedOutside(cells: Graph, built: Graph, width: int, height: int)
    requires forall p :: p in built <==> p in cells || InGrid(width, height, p)
    requires forall p :: p in built && !InGrid(width, height, p) ==> built[p] == cells[p]
    ensures forall p :: p in built && !InGrid(width, height, p) ==>
      LogoFixed(built, width, height)[p] == Initiated(cells, width, height)[p]
  {
    LogoCellsFit(width, height);
  }

  /** Two dictionaries of cells with the same keys and the same cell at every key are equal. */
  lemma SameCells(a: Graph, b: Graph)
    requires a.Keys == b.Keys
    requires forall p :: p in a ==> a[p] == b[p]
    ensures a == b
  {
  }

  /** `initiate_cells` on an empty dictionary gives the cells of a fresh maze, with the grid's facts. */
  lemma InitiatedEmpty(width: int, height: int)
    ensures Initiated(map[], width, height) == InitialGrid(width, height)
    ensures GridFacts(width, height, InitialGrid(width, height))
  {
    assert Initiated(map[], width, height).Keys == InitialGrid(width, height).Keys;
    InitialGridValid(width, height);
  }

  class Maze {
    var width: int
    var height: int
    var entry: Coord
    var exit: Coord
    var cells: Graph
    /** The cell the `Player` object stands on. */
    var player: Coord

    /** What every constructed maze keeps, whatever `open_direction` and the player do. */
    ghost predicate Valid()
      reads this
    {
      && width >= 1 && height >= 1
      && InGrid(width, height, entry) && InGrid(width, height, exit)
      && GridFacts(width, height, cells)
      && player in cells
    }

    /** A blank object, before `__init__` has set anything. */
    constructor ()
      ensures width == 0 && height == 0 && cells == map[]
    {
      width, height := 0, 0;
      entry, exit := (0, 0), (0, 0);
      cells := map[];
      player := (0, 0);
    }

    /** `set_width`: raises below 1, otherwise stores the width. */
    method SetWidth(w: int) returns (err: Option<MazeError>)
      modifies this`width
      ensures err.Some? <==> w < 1
      ensures err.Some? ==> err.value == WidthTooSmall && width == old(width)
      ensures err.None? ==> width == w
    {
      if w < 1 {
        return Some(WidthTooSmall);
      }
      width := w;
      return None;
    }

    /** `set_height`: raises below 1, otherwise stores the height. */
    method SetHeight(h: int) returns (err: Option<MazeError>)
      modifies this`height
      ensures err.Some? <==> h < 1
      ensures err.Some? ==> err.value == HeightTooSmall && height == old(height)
      ensures err.None? ==> height == h
    {
      if h < 1 {
        return Some(HeightTooSmall);
      }
      height := h;
      return None;
    }

    /** `set_entry`: raises when the point is outside the grid, otherwise stores it. */
    method SetEntry(e: Coord) returns (err: Option<MazeError>)
      modifies this`entry
      ensures err.Some? <==> !InGrid(width, height, e)
      ensures err.Some? ==> err.value == EntryOutside && entry == old(entry)
      ensures err.None? ==> entry == e
    {
      if e.0 < 1 || e.0 > width {
        return Some(EntryOutside);
      }
      if e.1 < 1 || e.1 > height {
        return Some(EntryOutside);
      }
      entry := e;
      return None;
    }

    /** `set_exit`: raises when the point is outside the grid, otherwise stores it, even when it is the entry. */
    method SetExit(e: Coord) returns (err: Option<MazeError>)
      modifies this`exit
      ensures err.Some? <==> !InGrid(width, height, e)
      ensures err.Some? ==> err.value == ExitOutside && exit == old(exit)
      ensures err.None? ==> exit == e
    {
      if e.0 < 1 || e.0 > width {
        return Some(ExitOutside);
      }
      if e.1 < 1 || e.1 > height {
        return Some(ExitOutside);
      }
      exit := e;
      return None;
    }

    /** `set_cell`: replaces the cell at `p` only when `p` is already a key. */
    method SetCell(p: Coord, c: CellObject)
      modifies this`cells
      ensures p in old(cells) ==> cells == old(cells)[p := c]
      ensures p !in old(cells) ==> cells == old(cells)
    {
      if p in cells {
        cells := cells[p := c];
      }
    }

    /** `get_cell`: the cell at `p`, or None when there is none. */
    function GetCell(p: Coord): (r: Option<CellObject>)
      reads this
      ensures r.Some? <==> p in cells
      ensures r.Some? ==> r.value == cells[p]
    {
      if p in cells then Some(cells[p]) else None
    }

    /**
     * `__generate_ft_logo`: below 9 x 7 nothing; otherwise every template
     * cell around the centre is fixed, in template order, and a missing one
     * raises MazeError part-way.
     */
    method GenerateFtLogo() returns (err: Option<MazeError>)
      modifies this`cells
      ensures cells.Keys == old(cells).Keys
      ensures err.Some? <==> !(LogoCells(width, height) <= old(cells).Keys)
      ensures err.None? ==> cells == LogoFixed(old(cells), width, height)
    {
      cells, err := FixLogo(cells, width, height);
    }

    /**
     * `initiate_cells`: a fresh cell at every coordinate, row by row, then
     * each cell's four links, then the logo. Keys outside the grid are kept.
     */
    method InitiateCells()
      modifies this`cells
      ensures cells == Initiated(old(cells), width, height)
    {
      cells := Initiate(cells, width, height);
    }

    /**
     * `Maze(width, height, entry, exit)`: the setters, then `initiate_cells`
     * on an empty dictionary, then the player on the entry cell.
     */
    static method Create(width: int, height: int, entry: Coord, exit: Coord) returns (r: Result<Maze, MazeError>)
      ensures SetterCheck(width, height, entry, exit).Some? ==> r == Failure(SetterCheck(width, height, entry, exit).value)
      ensures SetterCheck(width, height, entry, exit).None? ==> r.Success? && fresh(r.value)
      ensures r.Success? ==> r.value.Valid() && r.value.cells == InitialGrid(width, height)
      ensures r.Success? ==> r.value.width == width && r.value.height == height
      ensures r.Success? ==> r.value.entry == entry && r.value.exit == exit && r.value.player == entry
    {
      var m := new Maze();
      var err := m.SetWidth(width);
      if err.Some? {
        return Failure(err.value);
      }
      err := m.SetHeight(height);
      if err.Some? {
        return Failure(err.value);
      }
      err := m.SetEntry(entry);
      if err.Some? {
        return Failure(err.value);
      }
      err := m.SetExit(exit);
      if err.Some? {
        return Failure(err.value);
      }
      m.Start();
      return Success(m);
    }

    /** The end of `__init__`, once the setters accepted: `initiate_cells` on the empty dictionary, then the player on the entry cell. */
    method Start()
      modifies this`cells, this`player
      requires width >= 1 && height >= 1 && InGrid(width, height, entry) && InGrid(width, height, exit)
      requires cells == map[]
      ensures Valid() && cells == InitialGrid(width, height) && player == entry
    {
      InitiateCells();
      InitiatedEmpty(width, height);
      player := entry;
    }

    /** `self._cells[p].open_direction(d)`: the `Cell` of maze_class.py finds its wall table. */
    method OpenCellDirection(p: Coord, d: Direction)
      modifies this`cells
      requires Valid() && p in cells
      ensures Valid()
      ensures cells == AfterOpen(old(cells), p, d)
    {
      AfterOpenKeepsFacts(width, height, cells, p, d);
      cells := OpenStates(cells, p, d);
    }

    /** `move_player`: the player's `move_to`. */
    method MovePlayer(d: Direction) returns (moved: bool)
      modifies this`player
      requires player in cells
      ensures (moved, player) == PlayerMove(cells, old(player), d)
      ensures old(Valid()) ==> Valid()
    {
      if CanGo(cells[player], d) {
        var next := cells[player].adjacent.At(d);
        if next.Some? {
          LinkedGridStep(player, d);
          player := next.value;
        }
        return true;
      }
      return false;
    }

    /** In a valid maze the target of a link is a cell of the maze. */
    lemma LinkedGridStep(p: Coord, d: Direction)
      requires p in cells && cells[p].adjacent.At(d).Some?
      ensures Valid() ==> cells[p].adjacent.At(d).value in cells
    {
      if Valid() {
        LinkedGrid(width, height, cells);
      }
    }

    /** `put_player_at`: moves the player to the cell at `p`, ignoring a coordinate without a cell. */
    method PutPlayerAt(p: Coord)
      modifies this`player
      ensures player == if p in cells then p else old(player)
      ensures old(Valid()) ==> Valid()
    {
      if GetCell(p).Some? {
        player := p;
      }
    }

    /** `get_player_coordinates`: the key of the player's cell, or None when no key holds it. */
    function PlayerCoordinates(): (r: Option<Coord>)
      reads this
      ensures r.Some? <==> player in cells
      ensures r.Some? ==> r.value == player
    {
      if player in cells then Some(player) else None
    }
  }
}
