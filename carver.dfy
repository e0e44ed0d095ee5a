/**
 * The randomized depth-first carver `Generator.dfs_generation`
 * (src/generator/src/maze.py:437-554) and the logo placement it uses
 * (`Generator.__get_ft_logo_cells`, maze.py:376-400). The copy in
 * src/generator/src/generator.py:16-132 has the same loop (78-132) but
 * asks the maze for its logo cells through a method `Maze` does not have.
 *
 * `shuffle(directions)` is replaced by an oracle `order`: `order(i)` is the
 * order in which iteration `i` of the main loop tries the four directions.
 */
module Carver {
  import opened Wrappers
  import opened Walls
  import opened Grid
  import opened FtLogo
  import opened MazeCells

  /**
   * The errors `dfs_generation` raises: a protected entry or exit (MazeError),
   * `pop` from an empty list (IndexError), or, in generator.py's copy, the
   * AttributeError of `maze.get_ft_logo_cells()`.
   */
  datatype CarveError = EntryProtected | ExitProtected | EmptyPop | NoLogoMethod

  /** The triple `dfs_generation` returns: the cells, the route to the exit and its directions (None if never reached). */
  datatype Generated = Generated(cells: Cells, route: Option<seq<Coord>>, routeDirs: Option<seq<Direction>>)

  /** The cells the logo occupies: none when it does not fit or is switched off. */
  function LogoCells(width: int, height: int, ftLogo: bool): set<Coord>
  {
    var scale := ChooseLogoScale(width, height);
    if ftLogo && scale != 0 then PlacedLogo(width, height, scale) else {}
  }

  /**
   * `Generator.__get_ft_logo_cells`: None when the grid is too small for the
   * logo, otherwise the scaled logo moved to (ceil(width / 2), ceil(height / 2)),
   * all of it inside the grid.
   */
  method FtLogoCells(width: int, height: int) returns (r: Option<set<Coord>>)
    ensures r.None? <==> ChooseLogoScale(width, height) == 0
    ensures r.Some? ==> r.value == LogoCells(width, height, true) && r.value != {}
    ensures r.Some? ==> forall c :: c in r.value ==> InGrid(width, height, c)
  {
    var scale := ChooseLogoScale(width, height);
    if scale == 0 {
      return None;
    }
    var ftLogo := ScaleLogo(scale);
    var logo := ftLogo.value;
    var centerX, centerY := HalfUp(width), HalfUp(height);
    var cells: set<Coord> := {};
    var rest := logo;
    while rest != {}
      invariant rest <= logo
      invariant cells == Translate(logo - rest, centerX, centerY)
      decreases |rest|
    {
      var p :| p in rest;
      TranslateAdd(logo - rest, p, centerX, centerY);
      cells := cells + {(centerX + p.0, centerY + p.1)};
      assert logo - (rest - {p}) == (logo - rest) + {p};
      rest := rest - {p};
    }
    assert logo - rest == logo;
    PlacedLogoInGrid(width, height);
    PlacedLogoNonEmpty(width, height, scale);
    return Some(cells);
  }

  /** The `cells` dictionary after the initialising double loop: every cell closed, unvisited and not fixed. */
  method NewCells(width: int, height: int) returns (cells: Cells)
    ensures cells == InitialCells(width, height, {})
  {
    cells := map[];
    var x := 1;
    while x <= width
      invariant width >= 0 ==> x <= width + 1
      invariant forall p :: p in cells <==> 1 <= p.0 < x && 1 <= p.0 <= width && 1 <= p.1 <= height
      invariant forall p :: p in cells ==> cells[p] == Cell(AllWalls, false, false)
    {
      var y := 1;
      while y <= height
        invariant height >= 0 ==> y <= height + 1
        invariant forall p :: p in cells <==>
          (1 <= p.0 < x && 1 <= p.1 <= height) || (p.0 == x && 1 <= p.1 < y && p.1 <= height)
        invariant forall p :: p in cells ==> cells[p] == Cell(AllWalls, false, false)
      {
        cells := cells[(x, y) := Cell(AllWalls, false, false)];
        y := y + 1;
      }
      x := x + 1;
    }
  }

  /** Sets `fixed` on every logo cell (`cells[cell]["fixed"] = True`); no lookup misses. */
  method MarkFixed(width: int, height: int, logo: set<Coord>, cells: Cells) returns (marked: Cells)
    requires cells == InitialCells(width, height, {})
    requires forall c :: c in logo ==> InGrid(width, height, c)
    ensures marked == InitialCells(width, height, logo)
  {
    marked := cells;
    var rest := logo;
    while rest != {}
      invariant rest <= logo
      invariant marked.Keys == GridCoords(width, height)
      invariant forall p :: p in marked ==> marked[p] == Cell(AllWalls, false, p in logo - rest)
      decreases |rest|
    {
      var c :| c in rest;
      marked := marked[c := marked[c].(fixed := true)];
      rest := rest - {c};
    }
  }

  /** `dir` from `p` leads to an existing, unvisited, not fixed cell: the condition under which the carver moves. */
  predicate Viable(cells: Cells, width: int, height: int, p: Coord, d: Direction)
  {
    var n := Adjacent(width, height, p, d);
    n.Some? && n.value in cells && !cells[n.value].visited && !cells[n.value].fixed
  }

  /** No direction from `p` is viable: the carver has to go back. */
  predicate Stuck(cells: Cells, width: int, height: int, p: Coord)
  {
    forall d :: !Viable(cells, width, height, p, d)
  }

  /** Every neighbour of the entry is either outside the grid or a logo cell, so the carver cannot leave it. */
  predicate EntryBlocked(width: int, height: int, logo: set<Coord>, entry: Coord)
  {
    forall d: Direction :: Adjacent(width, height, entry, d).Some? ==> Adjacent(width, height, entry, d).value in logo
  }

  /** One carve step: both sides of the wall between `p` and its `d` neighbour cleared, the neighbour marked visited. */
  function Carve(cells: Cells, p: Coord, d: Direction): Cells
    requires p in cells && Step(p, d) in cells
  {
    var cleared := OpenEdge(cells, p, d);
    cleared[Step(p, d) := cleared[Step(p, d)].(visited := true)]
  }

  function Visited(cells: Cells): set<Coord>
  {
    set p | p in cells && cells[p].visited
  }

  function Unvisited(cells: Cells): set<Coord>
  {
    set p | p in cells && !cells[p].visited
  }

  /** The open inner edges, each named once by its west or north end and the direction East or South. */
  function OpenEdges(cells: Cells): set<(Coord, Direction)>
  {
    set p, d | p in cells && d in [East, South] && Step(p, d) in cells && !HasWall(cells[p].state, d) :: (p, d)
  }

  /** The name `OpenEdges` uses for the edge between `p` and its `d` neighbour. */
  function EdgeName(p: Coord, d: Direction): (Coord, Direction)
  {
    if d == East || d == South then (p, d) else (Step(p, d), Opposite(d))
  }

  /** Opening a closed inner edge adds exactly its name to the open edges. */
  lemma OpenEdgesGrow(cells: Cells, p: Coord, d: Direction)
    requires Masks(cells) && Symmetric(cells) && p in cells && Step(p, d) in cells
    requires HasWall(cells[p].state, d)
    ensures EdgeName(p, d) !in OpenEdges(cells)
    ensures OpenEdges(OpenEdge(cells, p, d)) == OpenEdges(cells) + {EdgeName(p, d)}
  {
    var q := Step(p, d);
    var after := OpenEdge(cells, p, d);
    OpenEdgeValid(cells, p, d);
    OppositeIsInvolution(d);
    StepBack(p, q, d);
    forall r, e | r in cells
      ensures HasWall(after[r].state, e) <==>
        HasWall(cells[r].state, e) && (r, e) != (p, d) && (r, e) != (q, Opposite(d))
    {
      OpenEdgeBits(cells, p, d, r, e);
    }
    assert HasWall(cells[q].state, Opposite(d));
  }

  /** The grid part of the loop invariant: walls consistent, fixed cells untouched, unvisited cells closed. */
  ghost predicate GridOk(width: int, height: int, start: Cells, cells: Cells)
  {
    && cells.Keys == GridCoords(width, height) && start.Keys == cells.Keys
    && Masks(cells) && Symmetric(cells) && BorderClosed(cells)
    && FlagsOk(start, cells)
  }

  /** The flags: fixed as at the start, never visited when fixed; an unvisited cell keeps all its walls. */
  ghost predicate FlagsOk(start: Cells, cells: Cells)
    requires start.Keys == cells.Keys
  {
    && (forall p :: p in cells ==> cells[p].fixed == start[p].fixed)
    && (forall p :: p in cells && !cells[p].visited ==> cells[p].state == AllWalls)
    && (forall p :: p in cells && cells[p].fixed ==> !cells[p].visited)
  }

  /** The stack `passed_cells` / `directions_followed`: an open chain of distinct visited cells from the entry. */
  ghost predicate StackOk(entry: Coord, cells: Cells, passed: seq<Coord>, followed: seq<Direction>)
  {
    && OpenChain(cells, passed, followed) && passed[0] == entry && Distinct(passed)
    && (forall k :: 0 <= k < |passed| ==> cells[passed[k]].visited)
  }

  /** The snapshot `exit_path` / `path_dir`: taken exactly when the exit was visited. */
  ghost predicate RouteOk(entry: Coord, exit: Coord, cells: Cells, route: Option<seq<Coord>>, routeDirs: Option<seq<Direction>>)
  {
    && exit in cells
    && route.Some? == routeDirs.Some?
    && (route.Some? ==> OpenChain(cells, route.value, routeDirs.value) && route.value[0] == entry
                        && route.value[|route.value| - 1] == exit && Distinct(route.value))
    && (entry != exit ==> (route.Some? <==> cells[exit].visited))
  }

  /** Every visited cell is reached from the entry by the recorded chain (`paths` is ghost bookkeeping). */
  ghost predicate PathsOk(entry: Coord, cells: Cells, paths: map<Coord, seq<Coord>>, pathDirs: map<Coord, seq<Direction>>)
  {
    forall p {:trigger paths[p]} :: p in cells && cells[p].visited ==>
      p in paths && p in pathDirs && OpenChain(cells, paths[p], pathDirs[p])
      && paths[p][0] == entry && paths[p][|paths[p]| - 1] == p
  }

  /** The carved edges number one less than the visited cells. */
  ghost predicate TreeOk(cells: Cells)
  {
    |OpenEdges(cells)| + 1 == |Visited(cells)|
  }

  /** The facts the main loop of `dfs_generation` keeps. */
  ghost predicate Carving(width: int, height: int, entry: Coord, exit: Coord, start: Cells, cells: Cells,
                          passed: seq<Coord>, followed: seq<Direction>,
                          route: Option<seq<Coord>>, routeDirs: Option<seq<Direction>>,
                          paths: map<Coord, seq<Coord>>, pathDirs: map<Coord, seq<Direction>>)
  {
    // bound to a name so that a proof obligation `Carving(..)` stays one obligation
    var holds :=
      && GridOk(width, height, start, cells)
      && StackOk(entry, cells, passed, followed)
      && RouteOk(entry, exit, cells, route, routeDirs)
      && PathsOk(entry, cells, paths, pathDirs)
      && TreeOk(cells);
    holds
  }

  /** A carve changes only the two wall bits of the edge and the visited flag of the neighbour. */
  lemma CarveCells(cells: Cells, p: Coord, d: Direction)
    requires Masks(cells) && Symmetric(cells)
    requires p in cells && Step(p, d) in cells
    ensures var after := Carve(cells, p, d);
      && after.Keys == cells.Keys
      && (forall r :: r in cells ==> after[r].state == OpenEdge(cells, p, d)[r].state)
      && (forall r :: r in cells ==> after[r].fixed == cells[r].fixed)
      && (forall r :: r in cells ==> after[r].visited == (cells[r].visited || r == Step(p, d)))
  {
    OpenEdgeValid(cells, p, d);
  }

  /** The walls after a carve: still masks, symmetric and closed at the border; only opened. */
  lemma CarveWalls(cells: Cells, p: Coord, d: Direction)
    requires Masks(cells) && Symmetric(cells) && BorderClosed(cells)
    requires p in cells && Step(p, d) in cells
    ensures var after := Carve(cells, p, d);
      Masks(after) && Symmetric(after) && BorderClosed(after) && OnlyOpened(cells, after)
  {
    CarveCells(cells, p, d);
    OpenEdgeValid(cells, p, d);
  }

  /** A carve into an unvisited cell finds both sides of its edge closed. */
  lemma CarveClosed(cells: Cells, p: Coord, d: Direction)
    requires Symmetric(cells)
    requires forall r :: r in cells && !cells[r].visited ==> cells[r].state == AllWalls
    requires p in cells && Step(p, d) in cells && !cells[Step(p, d)].visited
    ensures HasWall(cells[p].state, d) && HasWall(cells[Step(p, d)].state, Opposite(d))
  {
    var q := Step(p, d);
    assert cells[q].state == AllWalls;
    assert HasWall(cells[q].state, Opposite(d));
  }

  /** A carve adds its neighbour to the visited cells and removes it from the unvisited ones. */
  lemma CarveVisits(cells: Cells, p: Coord, d: Direction)
    requires Masks(cells) && Symmetric(cells)
    requires p in cells && Step(p, d) in cells && !cells[Step(p, d)].visited
    ensures Visited(Carve(cells, p, d)) == Visited(cells) + {Step(p, d)} && Step(p, d) !in Visited(cells)
    ensures Unvisited(Carve(cells, p, d)) == Unvisited(cells) - {Step(p, d)} && Step(p, d) in Unvisited(cells)
    ensures |Visited(Carve(cells, p, d))| == |Visited(cells)| + 1
    ensures |Unvisited(Carve(cells, p, d))| == |Unvisited(cells)| - 1
  {
    CarveCells(cells, p, d);
    var after := Carve(cells, p, d);
    assert Visited(after) == Visited(cells) + {Step(p, d)};
    assert Unvisited(after) == Unvisited(cells) - {Step(p, d)};
  }

  /** A carve through a closed wall adds one open edge. */
  lemma CarveEdges(cells: Cells, p: Coord, d: Direction)
    requires Masks(cells) && Symmetric(cells)
    requires p in cells && Step(p, d) in cells && HasWall(cells[p].state, d)
    ensures |OpenEdges(Carve(cells, p, d))| == |OpenEdges(cells)| + 1
  {
    CarveCells(cells, p, d);
    OpenEdgesGrow(cells, p, d);
    var after := Carve(cells, p, d);
    assert OpenEdges(after) == OpenEdges(OpenEdge(cells, p, d));
  }

  /** The grid part survives a carve into a viable neighbour. */
  lemma GridAdvance(width: int, height: int, start: Cells, cells: Cells, p: Coord, d: Direction)
    requires GridOk(width, height, start, cells)
    requires p in cells && cells[p].visited && Viable(cells, width, height, p, d)
    ensures GridOk(width, height, start, Carve(cells, p, d))
  {
    KeysInGrid(width, height, cells, p);
    CarveWalls(cells, p, d);
    FlagsAdvance(start, cells, p, d);
  }

  lemma FlagsAdvance(start: Cells, cells: Cells, p: Coord, d: Direction)
    requires start.Keys == cells.Keys && Masks(cells) && Symmetric(cells) && FlagsOk(start, cells)
    requires p in cells && cells[p].visited && Step(p, d) in cells && !cells[Step(p, d)].fixed
    ensures Carve(cells, p, d).Keys == cells.Keys && FlagsOk(start, Carve(cells, p, d))
  {
    CarveCells(cells, p, d);
    var after := Carve(cells, p, d);
    forall r | r in after && !after[r].visited
      ensures after[r].state == AllWalls
    {
      assert r != Step(p, d) && r != p;
    }
  }

  /** The initial state of the loop satisfies `Carving`. */
  lemma CarvingStart(width: int, height: int, entry: Coord, exit: Coord, logo: set<Coord>)
    requires InGrid(width, height, entry) && InGrid(width, height, exit) && entry !in logo
    ensures var marked := InitialCells(width, height, logo);
      var start := marked[entry := marked[entry].(visited := true)];
      Carving(width, height, entry, exit, start, start, [entry], [], None, None, map[entry := [entry]], map[entry := []])
  {
    var marked := InitialCells(width, height, logo);
    var start := marked[entry := marked[entry].(visited := true)];
    InitialCellsValid(width, height, logo);
    assert SameWalls(marked, start);
    SameWallsValid(marked, start);
    assert forall p :: p in start && start[p].fixed ==> !start[p].visited by {
      forall p | p in start && start[p].fixed
        ensures !start[p].visited
      {
        assert p != entry;
      }
    }
    assert GridOk(width, height, start, start);
    assert Visited(start) == {entry};
    forall e | e in OpenEdges(start)
      ensures false
    {
      assert e.0 in marked && marked[e.0].state == AllWalls;
      AllWallsClosed(e.1);
    }
    assert OpenEdges(start) == {};
  }

  /** A carve step keeps `Carving` and strictly reduces the unvisited cells. */
  lemma CarvingAdvance(width: int, height: int, entry: Coord, exit: Coord, start: Cells, cells: Cells,
                       passed: seq<Coord>, followed: seq<Direction>,
                       route: Option<seq<Coord>>, routeDirs: Option<seq<Direction>>,
                       paths: map<Coord, seq<Coord>>, pathDirs: map<Coord, seq<Direction>>, d: Direction)
    requires Carving(width, height, entry, exit, start, cells, passed, followed, route, routeDirs, paths, pathDirs)
    requires Viable(cells, width, height, passed[|passed| - 1], d)
    ensures var p := passed[|passed| - 1];
      var q := Step(p, d);
      var after := Carve(cells, p, d);
      && HasWall(cells[p].state, d) && HasWall(cells[q].state, Opposite(d))
      && |Unvisited(after)| < |Unvisited(cells)|
      && Carving(width, height, entry, exit, start, after, passed + [q], followed + [d],
                 if q == exit then Some(passed + [q]) else route,
                 if q == exit then Some(followed + [d]) else routeDirs,
                 paths[q := passed + [q]], pathDirs[q := followed + [d]])
  {
    var p := passed[|passed| - 1];
    var q := Step(p, d);
    assert p in cells;
    KeysInGrid(width, height, cells, p);
    GridAdvance(width, height, start, cells, p, d);
    CarveCells(cells, p, d);
    CarveWalls(cells, p, d);
    CarveClosed(cells, p, d);
    CarveVisits(cells, p, d);
    CarveEdges(cells, p, d);
    var after := Carve(cells, p, d);
    assert q in cells && !cells[q].visited;
    OpenEdgeValid(cells, p, d);
    assert !HasWall(after[p].state, d);
    StackAdvance(entry, cells, after, passed, followed, d);
    RouteAdvance(entry, exit, cells, after, passed, followed, route, routeDirs, d);
    PathsAdvance(entry, cells, after, passed, followed, paths, pathDirs, d);
    assert TreeOk(after);
  }

  lemma StackAdvance(entry: Coord, cells: Cells, after: Cells, passed: seq<Coord>, followed: seq<Direction>, d: Direction)
    requires StackOk(entry, cells, passed, followed)
    requires OnlyOpened(cells, after)
    requires var q := Step(passed[|passed| - 1], d);
      q in cells && !cells[q].visited && !HasWall(after[passed[|passed| - 1]].state, d)
      && forall r :: r in cells ==> after[r].visited == (cells[r].visited || r == q)
    ensures StackOk(entry, after, passed + [Step(passed[|passed| - 1], d)], followed + [d])
  {
    ChainMonotone(cells, after, passed, followed);
    ChainExtend(after, passed, followed, d);
  }

  lemma RouteAdvance(entry: Coord, exit: Coord, cells: Cells, after: Cells, passed: seq<Coord>, followed: seq<Direction>,
                     route: Option<seq<Coord>>, routeDirs: Option<seq<Direction>>, d: Direction)
    requires RouteOk(entry, exit, cells, route, routeDirs)
    requires OnlyOpened(cells, after)
    requires |passed| > 0
    requires StackOk(entry, after, passed + [Step(passed[|passed| - 1], d)], followed + [d])
    requires var q := Step(passed[|passed| - 1], d);
      forall r :: r in cells ==> after[r].visited == (cells[r].visited || r == q)
    ensures var q := Step(passed[|passed| - 1], d);
      RouteOk(entry, exit, after,
              if q == exit then Some(passed + [q]) else route,
              if q == exit then Some(followed + [d]) else routeDirs)
  {
    if route.Some? {
      ChainMonotone(cells, after, route.value, routeDirs.value);
    }
  }

  lemma PathsAdvance(entry: Coord, cells: Cells, after: Cells, passed: seq<Coord>, followed: seq<Direction>,
                     paths: map<Coord, seq<Coord>>, pathDirs: map<Coord, seq<Direction>>, d: Direction)
    requires PathsOk(entry, cells, paths, pathDirs)
    requires OnlyOpened(cells, after) && after.Keys == cells.Keys
    requires |passed| > 0
    requires StackOk(entry, after, passed + [Step(passed[|passed| - 1], d)], followed + [d])
    requires var q := Step(passed[|passed| - 1], d);
      forall r :: r in cells ==> after[r].visited == (cells[r].visited || r == q)
    ensures var q := Step(passed[|passed| - 1], d);
      PathsOk(entry, after, paths[q := passed + [q]], pathDirs[q := followed + [d]])
  {
    var q := Step(passed[|passed| - 1], d);
    forall r | r in after && after[r].visited && r != q
      ensures OpenChain(after, paths[r], pathDirs[r])
    {
      ChainMonotone(cells, after, paths[r], pathDirs[r]);
    }
  }

  /** Popping the stack keeps `Carving`. */
  lemma CarvingBacktrack(width: int, height: int, entry: Coord, exit: Coord, start: Cells, cells: Cells,
                         passed: seq<Coord>, followed: seq<Direction>,
                         route: Option<seq<Coord>>, routeDirs: Option<seq<Direction>>,
                         paths: map<Coord, seq<Coord>>, pathDirs: map<Coord, seq<Direction>>)
    requires Carving(width, height, entry, exit, start, cells, passed, followed, route, routeDirs, paths, pathDirs)
    requires |followed| > 0
    ensures Carving(width, height, entry, exit, start, cells, passed[..|passed| - 1], followed[..|followed| - 1],
                    route, routeDirs, paths, pathDirs)
  {
    StackPop(entry, cells, passed, followed);
  }

  lemma StackPop(entry: Coord, cells: Cells, passed: seq<Coord>, followed: seq<Direction>)
    requires StackOk(entry, cells, passed, followed) && |followed| > 0
    ensures StackOk(entry, cells, passed[..|passed| - 1], followed[..|followed| - 1])
  {
  }

  /** The grid the main loop starts from: fresh cells, the logo fixed, the entry visited. */
  function StartCells(width: int, height: int, logo: set<Coord>, entry: Coord): Cells
    requires InGrid(width, height, entry)
  {
    var marked := InitialCells(width, height, logo);
    marked[entry := marked[entry].(visited := true)]
  }

  /** The carver can leave the entry of the starting grid exactly when the entry is not blocked. */
  lemma BlockedIffStuck(width: int, height: int, logo: set<Coord>, entry: Coord)
    requires InGrid(width, height, entry)
    ensures EntryBlocked(width, height, logo, entry) <==>
      Stuck(StartCells(width, height, logo, entry), width, height, entry)
  {
    var start := StartCells(width, height, logo, entry);
    forall d
      ensures Viable(start, width, height, entry, d) <==>
        Adjacent(width, height, entry, d).Some? && Adjacent(width, height, entry, d).value !in logo
    {
      var n := Adjacent(width, height, entry, d);
      if n.Some? {
        assert n.value in start;
      }
    }
  }

  /** What `dfs_generation` promises about a maze it returns. */
  ghost predicate Carved(width: int, height: int, logo: set<Coord>, entry: Coord, exit: Coord, g: Generated)
  {
    var cells := g.cells;
    var holds :=
      // every cell of the grid is there, walls are 4-bit masks, consistent on both sides and closed at the border
      && cells.Keys == GridCoords(width, height)
      && Masks(cells) && Symmetric(cells) && BorderClosed(cells)
      // logo cells are exactly the fixed ones; they keep 0b1111 and are never entered
      && (forall p :: p in cells ==> (cells[p].fixed <==> p in logo))
      && (forall p :: p in cells && cells[p].fixed ==> cells[p].state == AllWalls && !cells[p].visited)
      // a cell the carver never entered keeps all four walls
      && (forall p :: p in cells && !cells[p].visited ==> cells[p].state == AllWalls)
      // the carved passages connect every visited cell to the entry and form a tree
      && entry in cells && cells[entry].visited
      && (forall p {:trigger Reachable(cells, entry, p)} :: p in cells && cells[p].visited ==> Reachable(cells, entry, p))
      && |OpenEdges(cells)| + 1 == |Visited(cells)|
      // the route: an open chain of distinct cells from the entry to the exit, recorded exactly when the exit was reached
      && RouteOk(entry, exit, cells, g.route, g.routeDirs);
    holds
  }

  /** The loop invariant at exit gives the promised maze. */
  lemma CarvingDone(width: int, height: int, logo: set<Coord>, entry: Coord, exit: Coord, cells: Cells,
                    passed: seq<Coord>, followed: seq<Direction>,
                    route: Option<seq<Coord>>, routeDirs: Option<seq<Direction>>,
                    paths: map<Coord, seq<Coord>>, pathDirs: map<Coord, seq<Direction>>)
    requires InGrid(width, height, entry)
    requires Carving(width, height, entry, exit, StartCells(width, height, logo, entry), cells,
                     passed, followed, route, routeDirs, paths, pathDirs)
    ensures Carved(width, height, logo, entry, exit, Generated(cells, route, routeDirs))
  {
    var start := StartCells(width, height, logo, entry);
    FixedAreLogo(width, height, logo, entry, cells);
    PathsReach(entry, cells, paths, pathDirs);
    assert StartCells(width, height, logo, entry)[entry].visited;
  }

  /** The fixed flags the carver kept are those of the start: exactly the logo cells. */
  lemma FixedAreLogo(width: int, height: int, logo: set<Coord>, entry: Coord, cells: Cells)
    requires InGrid(width, height, entry)
    requires var start := StartCells(width, height, logo, entry);
      start.Keys == cells.Keys && forall p :: p in cells ==> cells[p].fixed == start[p].fixed
    ensures forall p :: p in cells ==> (cells[p].fixed <==> p in logo)
  {
    var start := StartCells(width, height, logo, entry);
    forall p | p in cells
      ensures cells[p].fixed <==> p in logo
    {
      assert start[p].fixed == (p in logo);
    }
  }

  /** The recorded chains make every visited cell reachable from the entry. */
  lemma PathsReach(entry: Coord, cells: Cells, paths: map<Coord, seq<Coord>>, pathDirs: map<Coord, seq<Direction>>)
    requires PathsOk(entry, cells, paths, pathDirs)
    ensures forall p :: p in cells && cells[p].visited ==> Reachable(cells, entry, p)
  {
    forall p | p in cells && cells[p].visited
      ensures Reachable(cells, entry, p)
    {
      assert OpenChain(cells, paths[p], pathDirs[p]);
    }
  }

  /**
   * The inner `for dir in directions` loop of `dfs_generation`: the first
   * direction of `directions` whose neighbour exists, is unvisited and is
   * not fixed, or none.
   */
  method FirstViable(width: int, height: int, cells: Cells, point: Coord, directions: seq<Direction>)
    returns (found: bool, dir: Direction, next: Coord)
    requires cells.Keys == GridCoords(width, height) && point in cells
    requires IsOrder(directions)
    ensures found ==> Viable(cells, width, height, point, dir) && next == Step(point, dir)
    ensures found ==> exists j :: (0 <= j < |directions| && directions[j] == dir &&
      forall k :: 0 <= k < j ==> !Viable(cells, width, height, point, directions[k]))
    ensures !found <==> Stuck(cells, width, height, point)
  {
    dir, next := North, point;
    for j := 0 to |directions|
      invariant forall k :: 0 <= k < j ==> !Viable(cells, width, height, point, directions[k])
    {
      var adjacent := Adjacent(width, height, point, directions[j]);
      if adjacent.Some? {
        KeysInGrid(width, height, cells, point);
        KeysInGrid(width, height, cells, adjacent.value);
        var adCell := cells[adjacent.value];
        if !adCell.visited && !adCell.fixed {
          return true, directions[j], adjacent.value;
        }
      }
    }
    forall d ensures !Viable(cells, width, height, point, d) {
      assert d in directions;
      var k :| 0 <= k < |directions| && directions[k] == d;
    }
    return false, dir, next;
  }

  /** The two subtractions of a carve step, applied to walls that are closed, are `Carve`. */
  lemma SubtractIsCarve(cells: Cells, p: Coord, d: Direction)
    requires p in cells && Step(p, d) in cells
    requires HasWall(cells[p].state, d) && HasWall(cells[Step(p, d)].state, Opposite(d))
    ensures var q := Step(p, d);
      var first := cells[p := cells[p].(state := cells[p].state - Bit(d))];
      first[q := first[q].(state := first[q].state - Bit(Opposite(d)), visited := true)] == Carve(cells, p, d)
  {
    var q := Step(p, d);
    assert q != p;
    SubtractClosedBit(cells[p].state, d);
    SubtractClosedBit(cells[q].state, Opposite(d));
  }

  /**
   * One carve step of `dfs_generation` (maze.py:520-530): subtract the bit of
   * `d` from `p` and the opposite bit from the neighbour, and mark the
   * neighbour visited.
   */
  method CarveStep(cells: Cells, p: Coord, d: Direction) returns (carved: Cells)
    requires p in cells && Step(p, d) in cells
    requires HasWall(cells[p].state, d) && HasWall(cells[Step(p, d)].state, Opposite(d))
    ensures carved == Carve(cells, p, d)
  {
    SubtractIsCarve(cells, p, d);
    var next := Step(p, d);
    carved := cells[p := cells[p].(state := cells[p].state - Bit(d))];
    var adCell := carved[next];
    carved := carved[next := adCell.(state := adCell.state - Bit(Opposite(d)), visited := true)];
  }

  /**
   * The forward move of `dfs_generation` (maze.py:524-546): carve through the
   * wall towards `dir`, push the neighbour and `dir`, and copy the stack into
   * `exit_path` / `path_dir` when the neighbour is the exit.
   */
  method CarveForward(width: int, height: int, ghost entry: Coord, exit: Coord, ghost start: Cells, cells: Cells,
                      passed: seq<Coord>, followed: seq<Direction>,
                      route: Option<seq<Coord>>, routeDirs: Option<seq<Direction>>,
                      ghost paths: map<Coord, seq<Coord>>, ghost pathDirs: map<Coord, seq<Direction>>, dir: Direction)
    returns (carved: Cells, pushed: seq<Coord>, pushedDirs: seq<Direction>,
             newRoute: Option<seq<Coord>>, newRouteDirs: Option<seq<Direction>>,
             ghost newPaths: map<Coord, seq<Coord>>, ghost newPathDirs: map<Coord, seq<Direction>>)
    requires Carving(width, height, entry, exit, start, cells, passed, followed, route, routeDirs, paths, pathDirs)
    requires Viable(cells, width, height, passed[|passed| - 1], dir)
    ensures Carving(width, height, entry, exit, start, carved, pushed, pushedDirs, newRoute, newRouteDirs, newPaths, newPathDirs)
    ensures carved == Carve(cells, passed[|passed| - 1], dir)
    ensures |Unvisited(carved)| < |Unvisited(cells)|
    ensures pushed == passed + [Step(passed[|passed| - 1], dir)] && pushedDirs == followed + [dir]
    ensures newRoute == (if Step(passed[|passed| - 1], dir) == exit then Some(pushed) else route)
    ensures newRouteDirs == (if Step(passed[|passed| - 1], dir) == exit then Some(pushedDirs) else routeDirs)
  {
    var point := passed[|passed| - 1];
    CarvingAdvance(width, height, entry, exit, start, cells, passed, followed, route, routeDirs, paths, pathDirs, dir);
    carved := CarveStep(cells, point, dir);
    point := Step(point, dir);
    pushed := passed + [point];
    pushedDirs := followed + [dir];
    newRoute, newRouteDirs := route, routeDirs;
    if point == exit {
      newRoute := Some(pushed);
      newRouteDirs := Some(pushedDirs);
    }
    newPaths := paths[point := pushed];
    newPathDirs := pathDirs[point := pushedDirs];
  }

  /**
   * The set-up of `dfs_generation` (maze.py:478-505): fresh cells, the logo
   * fixed (when `ft_logo`), a fixed entry or exit refused, the entry visited.
   */
  method PrepareCells(width: int, height: int, ftLogo: bool, entry: Coord, exit: Coord)
    returns (r: Result<Cells, CarveError>)
    requires InGrid(width, height, entry) && InGrid(width, height, exit)
    ensures var logo := LogoCells(width, height, ftLogo);
      && (r == Failure(EntryProtected) <==> entry in logo)
      && (r == Failure(ExitProtected) <==> entry !in logo && exit in logo)
      && (r.Success? <==> entry !in logo && exit !in logo)
      && (r.Success? ==> r.value == StartCells(width, height, logo, entry))
  {
    var cells := NewCells(width, height);
    ghost var logo := LogoCells(width, height, ftLogo);
    if ftLogo {
      var ftLogoCells := FtLogoCells(width, height);
      if ftLogoCells.Some? {
        cells := MarkFixed(width, height, ftLogoCells.value, cells);
      }
    }
    assert cells == InitialCells(width, height, logo);
    KeysInGrid(width, height, cells, entry);
    KeysInGrid(width, height, cells, exit);
    if cells[entry].fixed {
      return Failure(EntryProtected);
    }
    if cells[exit].fixed {
      return Failure(ExitProtected);
    }
    cells := cells[entry := cells[entry].(visited := true)];
    return Success(cells);
  }

  /**
   * `Generator.dfs_generation`: the set-up of `PrepareCells`, then the
   * depth-first carving of `CarveFrom`.
   */
  method DfsGeneration(width: int, height: int, ftLogo: bool, entry: Coord, exit: Coord, order: nat -> seq<Direction>)
    returns (r: Result<Generated, CarveError>)
    requires InGrid(width, height, entry) && InGrid(width, height, exit)
    requires forall i :: IsOrder(order(i))
    ensures var logo := LogoCells(width, height, ftLogo);
      && (r == Failure(EntryProtected) <==> entry in logo)
      && (r == Failure(ExitProtected) <==> entry !in logo && exit in logo)
      && (r == Failure(EmptyPop) <==> entry !in logo && exit !in logo && EntryBlocked(width, height, logo, entry))
    ensures r.Failure? ==> !r.error.NoLogoMethod?
    ensures r.Success? ==> Carved(width, height, LogoCells(width, height, ftLogo), entry, exit, r.value)
  {
    var prepared := PrepareCells(width, height, ftLogo, entry, exit);
    if prepared.Failure? {
      return Failure(prepared.error);
    }
    r := CarveFrom(width, height, LogoCells(width, height, ftLogo), entry, exit, prepared.value, order);
  }

  /**
   * `dfs_generation` of src/generator/src/generator.py as written. With the
   * logo on, line 66 calls `maze.get_ft_logo_cells()`, which `Maze` does not
   * define, so it raises AttributeError before carving; `Maze.__init__`
   * always turns the logo on. With the logo off it is maze.py's carver.
   */
  method GeneratorDfsGeneration(width: int, height: int, ftLogo: bool, entry: Coord, exit: Coord, order: nat -> seq<Direction>)
    returns (r: Result<Generated, CarveError>)
    requires InGrid(width, height, entry) && InGrid(width, height, exit)
    requires forall i :: IsOrder(order(i))
    ensures ftLogo <==> r == Failure(NoLogoMethod)
    ensures !ftLogo ==> (r == Failure(EmptyPop) <==> EntryBlocked(width, height, {}, entry))
    ensures r.Success? ==> Carved(width, height, {}, entry, exit, r.value)
  {
    if ftLogo {
      return Failure(NoLogoMethod);
    }
    r := DfsGeneration(width, height, false, entry, exit, order);
  }

  /**
   * The main loop of `dfs_generation` (maze.py:497-554). Each iteration tries
   * the directions in the order `order(i)` and enters the first existing,
   * unvisited, not fixed neighbour, clearing the wall on both sides; when
   * there is none it pops the stack. It stops the first time it backs up to
   * the entry, and fails with IndexError when the entry itself has nowhere to go.
   */
  method CarveFrom(width: int, height: int, logo: set<Coord>, entry: Coord, exit: Coord, start: Cells, order: nat -> seq<Direction>)
    returns (r: Result<Generated, CarveError>)
    requires InGrid(width, height, entry) && InGrid(width, height, exit) && entry !in logo && exit !in logo
    requires start == StartCells(width, height, logo, entry)
    requires forall i :: IsOrder(order(i))
    ensures r.Failure? <==> EntryBlocked(width, height, logo, entry)
    ensures r.Failure? ==> r.error == EmptyPop
    ensures r.Success? ==> Carved(width, height, logo, entry, exit, r.value)
  {
    var cells := start;
    var point := entry;
    var passed := [point];
    var followed: seq<Direction> := [];
    var route: Option<seq<Coord>> := None;
    var routeDirs: Option<seq<Direction>> := None;
    ghost var paths := map[entry := [entry]];
    ghost var pathDirs: map<Coord, seq<Direction>> := map[entry := []];
    var advanced := true;
    var iteration: nat := 0;
    CarvingStart(width, height, entry, exit, logo);
    BlockedIffStuck(width, height, logo, entry);

    while !(point == entry && !advanced)
      invariant Carving(width, height, entry, exit, start, cells, passed, followed, route, routeDirs, paths, pathDirs)
      invariant |passed| == |followed| + 1 && point == passed[|passed| - 1]
      invariant iteration == 0 ==> cells == start && |passed| == 1 && advanced
      invariant |passed| == 1 && advanced ==> iteration == 0
      invariant EntryBlocked(width, height, logo, entry) ==> iteration == 0
      decreases |Unvisited(cells)|, |passed|
    {
      advanced := false;
      var directions := order(iteration);
      iteration := iteration + 1;
      var dir, next;
      advanced, dir, next := FirstViable(width, height, cells, point, directions);
      if advanced {
        cells, passed, followed, route, routeDirs, paths, pathDirs :=
          CarveForward(width, height, entry, exit, start, cells, passed, followed, route, routeDirs, paths, pathDirs, dir);
        point := next;
      } else {
        // go back: `passed_cells.pop()` succeeds, `directions_followed.pop()` fails on an empty list
        if |followed| == 0 {
          assert point == entry && cells == start;
          return Failure(EmptyPop);
        }
        CarvingBacktrack(width, height, entry, exit, start, cells, passed, followed, route, routeDirs, paths, pathDirs);
        passed := passed[..|passed| - 1];
        followed := followed[..|followed| - 1];
        point := passed[|passed| - 1];
      }
    }
    CarvingDone(width, height, logo, entry, exit, cells, passed, followed, route, routeDirs, paths, pathDirs);
    return Success(Generated(cells, route, routeDirs));
  }
}
