/**
 * `Generator.open_random_walls` (src/generator/src/maze.py:642-668): the pass
 * that turns a perfect maze into one with loops by opening some more walls.
 * The two random draws per cell (`choice(POSSIBLE_DIRECTIONS)` and
 * `random() < WALL_OPENING_CHANCE`) come from the oracles `pick` and `opens`.
 */
module Relaxer {
  import opened Wrappers
  import opened Walls
  import opened Grid
  import opened MazeCells

  /** A grid of wall masks as the carver leaves it: whole, consistent on both sides, closed at the border. */
  predicate WallsValid(width: int, height: int, cells: Cells)
  {
    cells.Keys == GridCoords(width, height) && Masks(cells) && Symmetric(cells) && BorderClosed(cells)
  }

  /**
   * The relaxer wants to open the wall of `p` towards `d`: `p` is not fixed,
   * `d` is its drawn direction, its draw fell below the chance, and the
   * neighbour exists and is not fixed.
   */
  predicate Chosen(cells: Cells, pick: Coord -> Direction, opens: Coord -> bool, p: Coord, d: Direction)
  {
    p in cells && !cells[p].fixed && pick(p) == d && opens(p) && Step(p, d) in cells && !cells[Step(p, d)].fixed
  }

  /** Either end of the edge between `p` and its `d` neighbour wants it open. */
  predicate EdgeChosen(cells: Cells, pick: Coord -> Direction, opens: Coord -> bool, p: Coord, d: Direction)
  {
    Chosen(cells, pick, opens, p, d) || Chosen(cells, pick, opens, Step(p, d), Opposite(d))
  }

  /** `p` comes before column `x` of row `y` in the row-major sweep. */
  predicate Before(p: Coord, x: int, y: int)
  {
    p.1 < y || (p.1 == y && p.0 < x)
  }

  /** The edges chosen by a cell the sweep has already visited. */
  predicate ChosenBefore(cells: Cells, pick: Coord -> Direction, opens: Coord -> bool, p: Coord, d: Direction, x: int, y: int)
  {
    (Chosen(cells, pick, opens, p, d) && Before(p, x, y))
    || (Chosen(cells, pick, opens, Step(p, d), Opposite(d)) && Before(Step(p, d), x, y))
  }

  /**
   * After the sweep reached (x, y), a wall of `current` is closed exactly when
   * it was closed in `cells` and no visited cell chose its edge.
   */
  predicate RelaxedUpTo(cells: Cells, current: Cells, pick: Coord -> Direction, opens: Coord -> bool, x: int, y: int)
    requires cells.Keys == current.Keys
  {
    forall p, d :: p in cells ==>
      (HasWall(current[p].state, d) <==> HasWall(cells[p].state, d) && !ChosenBefore(cells, pick, opens, p, d, x, y))
  }

  /** What the sweep does at `p`: skip a fixed cell, otherwise open the drawn wall when the draw and the neighbour allow it. */
  function RelaxAt(current: Cells, pick: Coord -> Direction, opens: Coord -> bool, p: Coord): Cells
    requires p in current
  {
    var d := pick(p);
    if !current[p].fixed && opens(p) && Step(p, d) in current && !current[Step(p, d)].fixed
       && HasWall(current[p].state, d)
    then OpenEdge(current, p, d)
    else current
  }

  /** The two subtractions of the sweep, on a wall closed on both sides, are `OpenEdge`. */
  lemma SubtractIsOpenEdge(cells: Cells, p: Coord, d: Direction)
    requires p in cells && Step(p, d) in cells
    requires HasWall(cells[p].state, d) && HasWall(cells[Step(p, d)].state, Opposite(d))
    ensures var q := Step(p, d);
      var first := cells[p := cells[p].(state := cells[p].state - Bit(d))];
      first[q := first[q].(state := first[q].state - Bit(Opposite(d)))] == OpenEdge(cells, p, d)
  {
    assert Step(p, d) != p;
    SubtractClosedBit(cells[p].state, d);
    SubtractClosedBit(cells[Step(p, d)].state, Opposite(d));
  }

  /**
   * The body of the sweep for the cell `p` (maze.py:652-667): a fixed cell is
   * skipped; otherwise, when the draw is below the chance, the neighbour in
   * the drawn direction exists and is not fixed, and the wall is closed, the
   * bit is subtracted from the cell and the opposite bit from the neighbour.
   */
  method RelaxCell(width: int, height: int, current: Cells, pick: Coord -> Direction, opens: Coord -> bool, p: Coord)
    returns (after: Cells)
    requires WallsValid(width, height, current) && InGrid(width, height, p)
    ensures after == RelaxAt(current, pick, opens, p)
  {
    after := current;
    KeysInGrid(width, height, current, p);
    if current[p].fixed {
      return;
    }
    var dir := pick(p);
    if opens(p) {
      var adjacent := Adjacent(width, height, p, dir);
      StepInGrid(width, height, p, dir);
      KeysInGrid(width, height, current, Step(p, dir));
      if adjacent.Some? && !current[adjacent.value].fixed && BitAnd(current[p].state, dir) != 0 {
        SubtractIsOpenEdge(current, p, dir);
        after := after[p := after[p].(state := after[p].state - Bit(dir))];
        var adCell := after[adjacent.value];
        after := after[adjacent.value := adCell.(state := adCell.state - Bit(Opposite(dir)))];
      }
    }
  }

  /** Moving the sweep one column on adds exactly the two sides of the edge the cell at (x, y) chose. */
  lemma ChosenNext(cells: Cells, pick: Coord -> Direction, opens: Coord -> bool, x: int, y: int, r: Coord, e: Direction)
    ensures var p, d := (x, y), pick((x, y));
      ChosenBefore(cells, pick, opens, r, e, x + 1, y) <==>
        || ChosenBefore(cells, pick, opens, r, e, x, y)
        || (Chosen(cells, pick, opens, p, d) && ((r, e) == (p, d) || (r, e) == (Step(p, d), Opposite(d))))
  {
    var p, d := (x, y), pick((x, y));
    OppositeIsInvolution(e);
    OppositeIsInvolution(d);
    StepBack(r, Step(r, e), e);
    StepBack(p, Step(p, d), d);
    if Chosen(cells, pick, opens, Step(r, e), Opposite(e)) && Step(r, e) == p {
      assert Opposite(e) == d;
    }
  }

  /** When the sweep leaves `p` unchanged, the chosen edges it adds are already open. */
  lemma RelaxKeeps(width: int, height: int, cells: Cells, current: Cells, pick: Coord -> Direction, opens: Coord -> bool,
                   x: int, y: int)
    requires WallsValid(width, height, current) && SameFlags(cells, current)
    requires RelaxedUpTo(cells, current, pick, opens, x, y)
    requires (x, y) in current
    requires !(Chosen(cells, pick, opens, (x, y), pick((x, y))) && HasWall(current[(x, y)].state, pick((x, y))))
    ensures RelaxedUpTo(cells, current, pick, opens, x + 1, y)
  {
    var p, d := (x, y), pick((x, y));
    forall r, e | r in cells
      ensures HasWall(current[r].state, e) <==> HasWall(cells[r].state, e) && !ChosenBefore(cells, pick, opens, r, e, x + 1, y)
    {
      ChosenNext(cells, pick, opens, x, y, r, e);
      if Chosen(cells, pick, opens, p, d) && (r, e) == (Step(p, d), Opposite(d)) {
        // the edge is already open on `p`'s side, so on this side too
        assert !HasWall(current[p].state, d);
      }
    }
  }

  /** When the sweep opens the edge of `p` towards `d`, exactly that edge joins the chosen ones. */
  lemma RelaxOpens(width: int, height: int, cells: Cells, current: Cells, pick: Coord -> Direction, opens: Coord -> bool,
                   x: int, y: int)
    requires WallsValid(width, height, current) && SameFlags(cells, current)
    requires RelaxedUpTo(cells, current, pick, opens, x, y)
    requires (x, y) in current
    requires Chosen(cells, pick, opens, (x, y), pick((x, y))) && HasWall(current[(x, y)].state, pick((x, y)))
    ensures var after := OpenEdge(current, (x, y), pick((x, y)));
      WallsValid(width, height, after) && SameFlags(cells, after) && RelaxedUpTo(cells, after, pick, opens, x + 1, y)
  {
    var p, d := (x, y), pick((x, y));
    var after := OpenEdge(current, p, d);
    OpenEdgeValid(current, p, d);
    forall r, e | r in cells
      ensures HasWall(after[r].state, e) <==> HasWall(cells[r].state, e) && !ChosenBefore(cells, pick, opens, r, e, x + 1, y)
    {
      OpenEdgeBits(current, p, d, r, e);
      ChosenNext(cells, pick, opens, x, y, r, e);
    }
  }

  /**
   * The state of the sweep at (x, y): the grid is still valid, no flag has
   * changed and exactly the edges chosen by the cells already visited are
   * open on top of the original ones.
   */
  predicate Sweeping(width: int, height: int, cells: Cells, current: Cells, pick: Coord -> Direction, opens: Coord -> bool,
                     x: int, y: int)
  {
    // one conjunction bound to a name, so that a goal `Sweeping(..)` stays one obligation
    var holds :=
      && WallsValid(width, height, current) && SameFlags(cells, current)
      && RelaxedUpTo(cells, current, pick, opens, x, y);
    holds
  }

  /** Nothing is chosen before the first cell, so the sweep starts on the original grid. */
  lemma SweepStart(width: int, height: int, cells: Cells, pick: Coord -> Direction, opens: Coord -> bool)
    requires WallsValid(width, height, cells)
    ensures Sweeping(width, height, cells, cells, pick, opens, 1, 1)
  {
    forall r, e | r in cells
      ensures !ChosenBefore(cells, pick, opens, r, e, 1, 1)
    {
      KeysInGrid(width, height, cells, r);
      KeysInGrid(width, height, cells, Step(r, e));
    }
  }

  /** One cell of the sweep keeps `Sweeping` and moves it one column on. */
  lemma SweepCell(width: int, height: int, cells: Cells, current: Cells, pick: Coord -> Direction, opens: Coord -> bool,
                  x: int, y: int)
    requires Sweeping(width, height, cells, current, pick, opens, x, y) && InGrid(width, height, (x, y))
    ensures (x, y) in current && Sweeping(width, height, cells, RelaxAt(current, pick, opens, (x, y)), pick, opens, x + 1, y)
  {
    KeysInGrid(width, height, current, (x, y));
    if Chosen(cells, pick, opens, (x, y), pick((x, y))) && HasWall(current[(x, y)].state, pick((x, y))) {
      RelaxOpens(width, height, cells, current, pick, opens, x, y);
    } else {
      RelaxKeeps(width, height, cells, current, pick, opens, x, y);
    }
  }

  /** The end of a row is the start of the next one. */
  lemma RelaxRow(width: int, height: int, cells: Cells, current: Cells, pick: Coord -> Direction, opens: Coord -> bool,
                  x: int, y: int)
    requires x > width && Sweeping(width, height, cells, current, pick, opens, x, y)
    ensures Sweeping(width, height, cells, current, pick, opens, 1, y + 1)
  {
    var rowEnd, nextRow := x, y + 1;
    forall r, e | r in cells
      ensures ChosenBefore(cells, pick, opens, r, e, 1, nextRow) == ChosenBefore(cells, pick, opens, r, e, rowEnd, y)
    {
      KeysInGrid(width, height, cells, r);
      KeysInGrid(width, height, cells, Step(r, e));
    }
  }

  /** After the last row every cell has been visited. */
  lemma RelaxDone(width: int, height: int, cells: Cells, current: Cells, pick: Coord -> Direction, opens: Coord -> bool, y: int)
    requires y > height
    requires Sweeping(width, height, cells, current, pick, opens, 1, y)
    ensures WallsValid(width, height, current) && SameFlags(cells, current)
    ensures forall p, d :: p in cells ==>
      (HasWall(current[p].state, d) <==> HasWall(cells[p].state, d) && !EdgeChosen(cells, pick, opens, p, d))
  {
    forall r, e | r in cells
      ensures ChosenBefore(cells, pick, opens, r, e, 1, y) == EdgeChosen(cells, pick, opens, r, e)
    {
      KeysInGrid(width, height, cells, r);
      KeysInGrid(width, height, cells, Step(r, e));
    }
  }

  /**
   * `open_random_walls`: a row-major sweep over the grid. Afterwards a wall is
   * closed exactly when it was closed before and neither cell of its edge
   * chose it; the grid stays valid and no flag changes.
   */
  method OpenRandomWalls(width: int, height: int, cells: Cells, pick: Coord -> Direction, opens: Coord -> bool)
    returns (relaxed: Cells)
    requires WallsValid(width, height, cells)
    ensures WallsValid(width, height, relaxed) && SameFlags(cells, relaxed)
    ensures RelaxedFrom(cells, relaxed, pick, opens)
  {
    relaxed := cells;
    SweepStart(width, height, cells, pick, opens);
    var y := 1;
    while y <= height
      invariant 1 <= y
      invariant Sweeping(width, height, cells, relaxed, pick, opens, 1, y)
    {
      var x := 1;
      while x <= width
        invariant 1 <= x
        invariant Sweeping(width, height, cells, relaxed, pick, opens, x, y)
      {
        SweepCell(width, height, cells, relaxed, pick, opens, x, y);
        relaxed := RelaxCell(width, height, relaxed, pick, opens, (x, y));
        x := x + 1;
      }
      RelaxRow(width, height, cells, relaxed, pick, opens, x, y);
      y := y + 1;
    }
    RelaxDone(width, height, cells, relaxed, pick, opens, y);
  }

  /** The walls of `relaxed` are those of `cells` minus the chosen edges: what `OpenRandomWalls` ensures. */
  predicate RelaxedFrom(cells: Cells, relaxed: Cells, pick: Coord -> Direction, opens: Coord -> bool)
  {
    && relaxed.Keys == cells.Keys
    && forall p, d :: p in cells ==>
      (HasWall(relaxed[p].state, d) <==> HasWall(cells[p].state, d) && !EdgeChosen(cells, pick, opens, p, d))
  }

  /** The relaxer never closes a wall. */
  lemma RelaxOnlyOpens(cells: Cells, relaxed: Cells, pick: Coord -> Direction, opens: Coord -> bool)
    requires RelaxedFrom(cells, relaxed, pick, opens)
    ensures OnlyOpened(cells, relaxed)
  {
    forall p, d | p in cells && !HasWall(cells[p].state, d)
      ensures !HasWall(relaxed[p].state, d)
    {
    }
  }

  /** A fixed (logo) cell keeps its wall mask: neither it nor a neighbour can choose one of its edges. */
  lemma RelaxKeepsLogo(cells: Cells, relaxed: Cells, pick: Coord -> Direction, opens: Coord -> bool, p: Coord)
    requires Masks(cells) && Masks(relaxed) && RelaxedFrom(cells, relaxed, pick, opens)
    requires p in cells && cells[p].fixed
    ensures relaxed[p].state == cells[p].state
  {
    forall d
      ensures HasWall(relaxed[p].state, d) == HasWall(cells[p].state, d)
    {
      OppositeIsInvolution(d);
      StepBack(p, Step(p, d), d);
      assert !EdgeChosen(cells, pick, opens, p, d);
    }
    MaskExtensional(relaxed[p].state, cells[p].state);
  }

  /** Opening walls keeps every cell reachable that was reachable before. */
  lemma RelaxKeepsReach(cells: Cells, relaxed: Cells, pick: Coord -> Direction, opens: Coord -> bool, from: Coord, to: Coord)
    requires RelaxedFrom(cells, relaxed, pick, opens)
    requires Reachable(cells, from, to)
    ensures Reachable(relaxed, from, to)
  {
    var path, dirs :| OpenChain(cells, path, dirs) && path[0] == from && path[|path| - 1] == to;
    RelaxOnlyOpens(cells, relaxed, pick, opens);
    ChainMonotone(cells, relaxed, path, dirs);
  }

  /** A wall that no cell chose is left exactly as it was. */
  lemma RelaxUnchosen(cells: Cells, relaxed: Cells, pick: Coord -> Direction, opens: Coord -> bool, p: Coord, d: Direction)
    requires RelaxedFrom(cells, relaxed, pick, opens) && p in cells
    requires !opens(p) && (Step(p, d) in cells ==> !opens(Step(p, d)))
    ensures HasWall(relaxed[p].state, d) == HasWall(cells[p].state, d)
  {
    assert !EdgeChosen(cells, pick, opens, p, d);
  }
}
