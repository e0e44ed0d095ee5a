/**
 * The `Maze` facade of src/generator/src/maze.py: the fields a maze keeps,
 * the checked setters, the cell accessors, and the constructor that validates
 * the arguments, carves the maze, relaxes it when it is not perfect and runs
 * the path finder when asked to.
 */
module MazeFacade {
  import opened Wrappers
  import opened Walls
  import opened Grid
  import opened MazeCells
  import opened Carver
  import opened Relaxer
  import opened Pathfinder
  import opened MazeOutput

  /** The `MazeError`s the constructor and the setters raise. */
  datatype MazeError =
    | NoWidth | NoHeight | NoOutputFile
    | WidthTooSmall | HeightTooSmall | EntryOutside | ExitOutside | SameCell

  /**
   * Why constructing a maze fails: an argument check, the carver (a fixed
   * entry or exit, or an entry walled in by the logo) or the path finder.
   */
  datatype BuildError = Invalid(reason: MazeError) | CarveFailed(carve: CarveError) | SearchFailed(search: SearchError)

  /**
   * The argument checks of `__init__` in their order: the falsy tests of
   * width, height and output file (a coordinate tuple is never falsy), then
   * the setters `__base_fields_init` calls.
   */
  function Precheck(width: int, height: int, entry: Coord, exit: Coord, outputFile: string): Option<MazeError>
  {
    if width == 0 then Some(NoWidth)
    else if height == 0 then Some(NoHeight)
    else if outputFile == "" then Some(NoOutputFile)
    else SetterCheck(width, height, entry, exit)
  }

  /** `set_width`, `set_height`, `set_entry` and `set_exit` in that order: the first one that raises. */
  function SetterCheck(width: int, height: int, entry: Coord, exit: Coord): Option<MazeError>
  {
    if width < 1 then Some(WidthTooSmall)
    else if height < 1 then Some(HeightTooSmall)
    else if entry.0 < 1 || entry.0 > width || entry.1 < 1 || entry.1 > height then Some(EntryOutside)
    else if exit.0 < 1 || exit.0 > width || exit.1 < 1 || exit.1 > height then Some(ExitOutside)
    else if exit == entry then Some(SameCell)
    else None
  }

  /** The checks pass exactly for a non-empty grid, a named output file and two distinct cells inside it. */
  lemma PrecheckAccepts(width: int, height: int, entry: Coord, exit: Coord, outputFile: string)
    ensures Precheck(width, height, entry, exit, outputFile).None? <==>
      width >= 1 && height >= 1 && outputFile != ""
      && InGrid(width, height, entry) && InGrid(width, height, exit) && entry != exit
  {
  }

  /** A zero width is reported as missing, a negative one as too small; likewise the height. */
  lemma PrecheckZeroVersusNegative(width: int, height: int, entry: Coord, exit: Coord, outputFile: string)
    ensures width == 0 ==> Precheck(width, height, entry, exit, outputFile) == Some(NoWidth)
    ensures width < 0 && height != 0 && outputFile != "" ==> Precheck(width, height, entry, exit, outputFile) == Some(WidthTooSmall)
    ensures width > 0 && height < 0 && outputFile != "" ==> Precheck(width, height, entry, exit, outputFile) == Some(HeightTooSmall)
  {
  }

  /** A route the carver recorded survives the relaxation: the exit is still reachable. */
  lemma RouteSurvivesRelaxing(width: int, height: int, logo: set<Coord>, entry: Coord, exit: Coord,
                              g: Generated, relaxed: Cells, pick: Coord -> Direction, opens: Coord -> bool)
    requires Carved(width, height, logo, entry, exit, g) && g.route.Some?
    requires RelaxedFrom(g.cells, relaxed, pick, opens)
    ensures Reachable(relaxed, entry, exit)
  {
    var route := g.route.value;
    assert OpenChain(g.cells, route, g.routeDirs.value) && route[0] == entry && route[|route| - 1] == exit;
    RelaxKeepsReach(g.cells, relaxed, pick, opens, entry, exit);
  }

  /**
   * What the engine part of `__init__` produces: the carved maze, the cells
   * after relaxation (only when not perfect) and the pathways (only when not
   * perfect and the path finder is on).
   */
  ghost predicate Built(width: int, height: int, entry: Coord, exit: Coord, perfect: bool, pathFinder: bool,
                        pick: Coord -> Direction, opens: Coord -> bool,
                        carved: Generated, cells: Cells, pathways: seq<seq<Coord>>)
  {
    var holds :=
      && Carved(width, height, LogoCells(width, height, true), entry, exit, carved)
      && WallsValid(width, height, cells)
      && (perfect ==> cells == carved.cells)
      && (!perfect ==> RelaxedFrom(carved.cells, cells, pick, opens))
      && (perfect || !pathFinder ==> pathways == [])
      && (!perfect && pathFinder ==>
            && 1 <= |pathways| <= PathAttempts
            && (forall i :: 0 <= i < |pathways| ==> IsPathway(cells, entry, exit, pathways[i]))
            && (forall i, j :: 0 <= i < j < |pathways| ==> pathways[i] != pathways[j]));
    holds
  }

  /** The cells of a built maze are a valid wall grid. */
  lemma BuiltValid(width: int, height: int, entry: Coord, exit: Coord, perfect: bool, pathFinder: bool,
                   pick: Coord -> Direction, opens: Coord -> bool,
                   carved: Generated, cells: Cells, pathways: seq<seq<Coord>>)
    requires Built(width, height, entry, exit, perfect, pathFinder, pick, opens, carved, cells, pathways)
    ensures WallsValid(width, height, cells)
  {
  }

  /** The carved maze and the cells after the optional relaxation, as `__init__` computes them. */
  ghost predicate Engine(width: int, height: int, entry: Coord, exit: Coord, perfect: bool,
                         pick: Coord -> Direction, opens: Coord -> bool, carved: Generated, relaxed: Cells)
  {
    && Carved(width, height, LogoCells(width, height, true), entry, exit, carved)
    && (perfect ==> relaxed == carved.cells)
    && (!perfect ==> RelaxedFrom(carved.cells, relaxed, pick, opens))
  }

  /** When the path finder pops its stack empty: it runs, and the exit is the entry or out of reach. */
  ghost predicate SearchFails(perfect: bool, pathFinder: bool, entry: Coord, exit: Coord, relaxed: Cells)
  {
    !perfect && pathFinder && (exit == entry || !Reachable(relaxed, entry, exit))
  }

  /**
   * The engine part of `__init__` (src/generator/src/maze.py:108-114 and
   * 84-99): carve with the logo on, relax unless perfect, search if asked.
   * `carved` and `relaxed` name the intermediate mazes, also when the search
   * fails.
   */
  method Build(width: int, height: int, entry: Coord, exit: Coord, perfect: bool, pathFinder: bool,
               order: nat -> seq<Direction>, pick: Coord -> Direction, opens: Coord -> bool,
               searchOrder: nat -> seq<Direction>)
    returns (r: Result<(Generated, Cells, seq<seq<Coord>>), BuildError>, ghost carved: Generated, ghost relaxed: Cells)
    requires InGrid(width, height, entry) && InGrid(width, height, exit)
    requires forall i :: IsOrder(order(i)) && IsOrder(searchOrder(i))
    ensures var logo := LogoCells(width, height, true);
      && (r == Failure(CarveFailed(EntryProtected)) <==> entry in logo)
      && (r == Failure(CarveFailed(ExitProtected)) <==> entry !in logo && exit in logo)
      && (r == Failure(CarveFailed(Carver.EmptyPop)) <==> entry !in logo && exit !in logo && EntryBlocked(width, height, logo, entry))
    ensures r.Failure? ==> !r.error.Invalid?
    ensures r.Failure? && r.error.SearchFailed? ==> r.error.search == Pathfinder.EmptyPop
    ensures !(r.Failure? && r.error.CarveFailed?) ==> Engine(width, height, entry, exit, perfect, pick, opens, carved, relaxed)
    ensures !(r.Failure? && r.error.CarveFailed?) ==> (r.Failure? <==> SearchFails(perfect, pathFinder, entry, exit, relaxed))
    ensures r.Failure? && r.error.SearchFailed? ==> exit == entry || carved.route.None?
    ensures r.Success? ==> r.value.0 == carved && r.value.1 == relaxed
    ensures r.Success? ==> Built(width, height, entry, exit, perfect, pathFinder, pick, opens, r.value.0, r.value.1, r.value.2)
  {
    carved, relaxed := Generated(map[], None, None), map[];
    var generated := DfsGeneration(width, height, true, entry, exit, order);
    if generated.Failure? {
      return Failure(CarveFailed(generated.error)), carved, relaxed;
    }
    var g := generated.value;
    var cells := g.cells;
    var pathways := [];
    carved := g;
    if !perfect {
      cells := OpenRandomWalls(width, height, cells, pick, opens);
      relaxed := cells;
      if pathFinder {
        KeysInGrid(width, height, cells, entry);
        var found := PathFinder(width, height, cells, entry, exit, searchOrder);
        if found.Failure? {
          if g.route.Some? {
            RouteSurvivesRelaxing(width, height, LogoCells(width, height, true), entry, exit, g, cells, pick, opens);
          }
          return Failure(SearchFailed(found.error)), carved, relaxed;
        }
        pathways := found.value;
      }
    }
    relaxed := cells;
    return Success((g, cells, pathways)), carved, relaxed;
  }

  /** The state `__init__` leaves behind: the arguments stored, the logo flag on, the maze built and valid. */
  ghost predicate Constructed(m: Maze, width: int, height: int, entry: Coord, exit: Coord, outputFile: string,
                              perfect: bool, pathFinder: bool, pick: Coord -> Direction, opens: Coord -> bool)
    reads m
  {
    var holds :=
      && m.width == width && m.height == height && m.entry == entry && m.exit == exit
      && m.outputFile == outputFile && m.ftLogo && m.perfect == perfect
      && m.Valid()
      && Built(width, height, entry, exit, perfect, pathFinder, pick, opens,
               Generated(m.carvedCells, m.pathway, m.directionsFollowed), m.cells, m.possiblePathways);
    holds
  }

  /** A maze whose fields hold the arguments and a built engine state is constructed. */
  lemma ConstructedFrom(m: Maze, width: int, height: int, entry: Coord, exit: Coord, outputFile: string,
                        perfect: bool, pathFinder: bool, pick: Coord -> Direction, opens: Coord -> bool,
                        g: Generated, cells: Cells, pathways: seq<seq<Coord>>)
    requires SetterCheck(width, height, entry, exit).None? && outputFile != ""
    requires Built(width, height, entry, exit, perfect, pathFinder, pick, opens, g, cells, pathways)
    requires m.width == width && m.height == height && m.entry == entry && m.exit == exit
    requires m.outputFile == outputFile && m.ftLogo && m.perfect == perfect
    requires m.cells == cells && m.possiblePathways == pathways
    requires m.carvedCells == g.cells && m.pathway == g.route && m.directionsFollowed == g.routeDirs
    ensures Constructed(m, width, height, entry, exit, outputFile, perfect, pathFinder, pick, opens)
  {
    BuiltValid(width, height, entry, exit, perfect, pathFinder, pick, opens, g, cells, pathways);
    assert Generated(m.carvedCells, m.pathway, m.directionsFollowed) == g;
  }

  /** `p` comes before `q` when keys are inserted for x = 1..width, and for each x, y = 1..height. */
  predicate ColumnMajorBefore(p: Coord, q: Coord)
  {
    p.0 < q.0 || (p.0 == q.0 && p.1 < q.1)
  }

  class Maze {
    var width: int
    var height: int
    var entry: Coord
    var exit: Coord
    var outputFile: string
    var ftLogo: bool
    var perfect: bool
    var cells: Cells
    var pathway: Option<seq<Coord>>
    var directionsFollowed: Option<seq<Direction>>
    var possiblePathways: seq<seq<Coord>>
    /** The maze as the carver left it, before any wall was relaxed. */
    ghost var carvedCells: Cells

    /** What every constructed maze satisfies. */
    ghost predicate Valid()
      reads this
    {
      && width >= 1 && height >= 1 && outputFile != ""
      && InGrid(width, height, entry) && InGrid(width, height, exit) && entry != exit
      && WallsValid(width, height, cells)
    }

    /** A blank object, before `__init__` has set anything. */
    constructor ()
      ensures width == 0 && height == 0 && cells == map[] && possiblePathways == []
    {
      width, height := 0, 0;
      entry, exit := (0, 0), (0, 0);
      outputFile := "";
      ftLogo, perfect := false, false;
      cells := map[];
      pathway, directionsFollowed := None, None;
      possiblePathways := [];
      carvedCells := map[];
    }

    /** `set_width`: raises below 1, otherwise stores the width. */
    method SetWidth(w: int) returns (err: Option<MazeError>)
      modifies this`width
      ensures err.Some? <==> w < 1
      ensures err.Some? ==> err.value == WidthTooSmall && width == old(width)
      ensures err.None? ==> width == w
    {
      if w < 1 {
        return Some(WidthTooSmall);
      }
      width := w;
      return None;
    }

    /** `set_height`: raises below 1, otherwise stores the height. */
    method SetHeight(h: int) returns (err: Option<MazeError>)
      modifies this`height
      ensures err.Some? <==> h < 1
      ensures err.Some? ==> err.value == HeightTooSmall && height == old(height)
      ensures err.None? ==> height == h
    {
      if h < 1 {
        return Some(HeightTooSmall);
      }
      height := h;
      return None;
    }

    /** `set_entry`: raises when the point is outside the grid, otherwise stores it. */
    method SetEntry(e: Coord) returns (err: Option<MazeError>)
      modifies this`entry
      ensures err.Some? <==> !InGrid(width, height, e)
      ensures err.Some? ==> err.value == EntryOutside && entry == old(entry)
      ensures err.None? ==> entry == e
    {
      if e.0 < 1 || e.0 > width {
        return Some(EntryOutside);
      }
      if e.1 < 1 || e.1 > height {
        return Some(EntryOutside);
      }
      entry := e;
      return None;
    }

    /** `set_exit`: raises when the point is outside the grid or is the entry, otherwise stores it. */
    method SetExit(e: Coord) returns (err: Option<MazeError>)
      modifies this`exit
      ensures err.Some? <==> !InGrid(width, height, e) || e == entry
      ensures err.Some? ==> exit == old(exit)
      ensures err.Some? ==> err.value == (if InGrid(width, height, e) then SameCell else ExitOutside)
      ensures err.None? ==> exit == e
    {
      if e.0 < 1 || e.0 > width {
        return Some(ExitOutside);
      }
      if e.1 < 1 || e.1 > height {
        return Some(ExitOutside);
      }
      if e == entry {
        return Some(SameCell);
      }
      exit := e;
      return None;
    }

    /** `set_cell`: replaces the cell at `p` only when `p` is already a key. */
    method SetCell(p: Coord, c: Cell)
      modifies this`cells
      ensures p in old(cells) ==> cells == old(cells)[p := c]
      ensures p !in old(cells) ==> cells == old(cells)
    {
      if p in cells {
        cells := cells[p := c];
      }
    }

    /** `get_cell`: the cell at `p`, or None when there is none. */
    function GetCell(p: Coord): (r: Option<Cell>)
      reads this
      ensures r.Some? <==> p in cells
      ensures r.Some? ==> r.value == cells[p]
    {
      if p in cells then Some(cells[p]) else None
    }

    /**
     * `get_cell_position`: the first coordinate, in the dictionary's order,
     * holding a cell equal to `c`, or None when no cell is equal to it. The
     * carver inserts the keys column by column (x, then y), and relaxing
     * updates them in place, so that is the order scanned.
     */
    method GetCellPosition(c: Cell) returns (r: Option<Coord>)
      requires cells.Keys == GridCoords(width, height)
      ensures r.None? <==> forall p :: p in cells ==> cells[p] != c
      ensures r.Some? ==> r.value in cells && cells[r.value] == c
      ensures r.Some? ==> forall q :: q in cells && ColumnMajorBefore(q, r.value) ==> cells[q] != c
    {
      var x := 1;
      while x <= width
        invariant x >= 1
        invariant forall q :: q in cells && q.0 < x ==> cells[q] != c
      {
        var y := 1;
        while y <= height
          invariant y >= 1
          invariant forall q :: q in cells && (q.0 < x || (q.0 == x && q.1 < y)) ==> cells[q] != c
        {
          if cells[(x, y)] == c {
            return Some((x, y));
          }
          y := y + 1;
        }
        x := x + 1;
      }
      return None;
    }

    /**
     * The file `print_output` leaves; it is incomplete where it raises
     * TypeError because the carver never reached the exit.
     */
    function Output(): (w: Written)
      reads this
      requires Valid()
      ensures w.complete <==> pathway.Some? && directionsFollowed.Some?
      ensures forall x, y :: 1 <= x <= width && 1 <= y <= height ==>
        ReadState(w.text, width, x, y) == Some(cells[(x, y)].state)
    {
      ValidPrintable(width, height, cells);
      OutputReadsBack(width, height, cells, entry, exit, pathway, directionsFollowed, possiblePathways);
      OutputText(width, height, cells, entry, exit, pathway, directionsFollowed, possiblePathways)
    }

    /** `__base_fields_init`'s four setter calls; the first one that raises stops it. */
    method InitBase(w: int, h: int, e: Coord, x: Coord) returns (err: Option<MazeError>)
      modifies this`width, this`height, this`entry, this`exit
      ensures err == SetterCheck(w, h, e, x)
      ensures err.None? ==> width == w && height == h && entry == e && exit == x
    {
      err := SetWidth(w);
      if err.Some? {
        return;
      }
      err := SetHeight(h);
      if err.Some? {
        return;
      }
      err := SetEntry(e);
      if err.Some? {
        return;
      }
      err := SetExit(x);
    }

    /** Stores what the engine produced, as the rest of `__init__` does. */
    method Fill(file: string, isPerfect: bool, g: Generated, relaxed: Cells, pathways: seq<seq<Coord>>)
      modifies this`outputFile, this`perfect, this`cells, this`pathway, this`directionsFollowed,
               this`possiblePathways, this`carvedCells
      ensures outputFile == file && perfect == isPerfect && cells == relaxed && possiblePathways == pathways
      ensures carvedCells == g.cells && pathway == g.route && directionsFollowed == g.routeDirs
    {
      cells, pathway, directionsFollowed, carvedCells := relaxed, g.route, g.routeDirs, g.cells;
      outputFile, perfect, possiblePathways := file, isPerfect, pathways;
    }

    /** The rest of `__init__` once the setters passed: logo flag on, carve, relax, search, store. */
    method Generate(file: string, isPerfect: bool, pathFinder: bool,
                    order: nat -> seq<Direction>, pick: Coord -> Direction, opens: Coord -> bool,
                    searchOrder: nat -> seq<Direction>)
      returns (failed: Option<BuildError>, ghost carved: Generated, ghost relaxed: Cells)
      modifies this
      requires SetterCheck(width, height, entry, exit).None? && file != ""
      requires forall i :: IsOrder(order(i)) && IsOrder(searchOrder(i))
      ensures width == old(width) && height == old(height) && entry == old(entry) && exit == old(exit)
      ensures var logo := LogoCells(width, height, true);
        && (failed == Some(CarveFailed(EntryProtected)) <==> entry in logo)
        && (failed == Some(CarveFailed(ExitProtected)) <==> entry !in logo && exit in logo)
        && (failed == Some(CarveFailed(Carver.EmptyPop)) <==> entry !in logo && exit !in logo && EntryBlocked(width, height, logo, entry))
      ensures failed.Some? ==> !failed.value.Invalid?
      ensures failed.Some? && failed.value.SearchFailed? ==> failed.value.search == Pathfinder.EmptyPop
      ensures !(failed.Some? && failed.value.CarveFailed?) ==> Engine(width, height, entry, exit, isPerfect, pick, opens, carved, relaxed)
      ensures !(failed.Some? && failed.value.CarveFailed?) ==> (failed.Some? <==> SearchFails(isPerfect, pathFinder, entry, exit, relaxed))
      ensures failed.None? ==> cells == relaxed && carvedCells == carved.cells
      ensures failed.None? ==> Constructed(this, width, height, entry, exit, file, isPerfect, pathFinder, pick, opens)
    {
      ftLogo := true;
      var built;
      built, carved, relaxed := Build(width, height, entry, exit, isPerfect, pathFinder, order, pick, opens, searchOrder);
      if built.Failure? {
        return Some(built.error), carved, relaxed;
      }
      var (g, cells, pathways) := built.value;
      Fill(file, isPerfect, g, cells, pathways);
      ConstructedFrom(this, width, height, entry, exit, file, isPerfect, pathFinder, pick, opens, g, cells, pathways);
      return None, carved, relaxed;
    }

    /**
     * `Maze.__init__`. `order` stands for the carver's shuffles, `pick` and
     * `opens` for the relaxer's `choice` and `random() < 1/5`, `searchOrder`
     * for the path finder's shuffles; `seed` only fixes those and is left out.
     */
    static method Create(width: int, height: int, entry: Coord, exit: Coord, outputFile: string,
                         ftLogo: bool, perfect: bool, pathFinder: bool,
                         order: nat -> seq<Direction>, pick: Coord -> Direction, opens: Coord -> bool,
                         searchOrder: nat -> seq<Direction>)
      returns (r: Result<Maze, BuildError>, ghost carved: Generated, ghost relaxed: Cells)
      requires forall i :: IsOrder(order(i)) && IsOrder(searchOrder(i))
      ensures Precheck(width, height, entry, exit, outputFile).Some? ==>
        r == Failure(Invalid(Precheck(width, height, entry, exit, outputFile).value))
      ensures Precheck(width, height, entry, exit, outputFile).None? ==>
        var logo := LogoCells(width, height, true);
        && (r == Failure(CarveFailed(EntryProtected)) <==> entry in logo)
        && (r == Failure(CarveFailed(ExitProtected)) <==> entry !in logo && exit in logo)
        && (r == Failure(CarveFailed(Carver.EmptyPop)) <==> entry !in logo && exit !in logo && EntryBlocked(width, height, logo, entry))
      ensures r.Failure? && r.error.SearchFailed? ==> r.error.search == Pathfinder.EmptyPop
      ensures Precheck(width, height, entry, exit, outputFile).None? && !(r.Failure? && r.error.CarveFailed?) ==>
        && Engine(width, height, entry, exit, perfect, pick, opens, carved, relaxed)
        && (r.Failure? <==> SearchFails(perfect, pathFinder, entry, exit, relaxed))
      ensures r.Success? ==> fresh(r.value) && r.value.cells == relaxed
      ensures r.Success? ==> Constructed(r.value, width, height, entry, exit, outputFile, perfect, pathFinder, pick, opens)
    {
      carved, relaxed := Generated(map[], None, None), map[];
      if width == 0 {
        return Failure(Invalid(NoWidth)), carved, relaxed;
      }
      if height == 0 {
        return Failure(Invalid(NoHeight)), carved, relaxed;
      }
      if outputFile == "" {
        return Failure(Invalid(NoOutputFile)), carved, relaxed;
      }
      var m := new Maze();
      var err := m.InitBase(width, height, entry, exit);
      if err.Some? {
        return Failure(Invalid(err.value)), carved, relaxed;
      }
      var failed;
      failed, carved, relaxed := m.Generate(outputFile, perfect, pathFinder, order, pick, opens, searchOrder);
      if failed.Some? {
        return Failure(failed.value), carved, relaxed;
      }
      return Success(m), carved, relaxed;
    }
  }
}
