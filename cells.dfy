/**
 * The `cells` dictionary of the engine (src/generator/src/maze.py): one
 * record {"state", "visited", "fixed"} per coordinate, and the facts about
 * walls that the carver, the relaxer and the path finder share.
 */
module MazeCells {
  import opened Walls
  import opened Grid

  /** One value of the `cells` dictionary: wall mask, visited flag, fixed (logo) flag. */
  datatype Cell = Cell(state: int, visited: bool, fixed: bool)

  type Cells = map<Coord, Cell>

  /** Every state is a 4-bit wall mask. */
  predicate Masks(cells: Cells)
  {
    forall p :: p in cells ==> IsMask(cells[p].state)
  }

  /** Both sides of every inner edge agree on whether the wall is there. */
  predicate Symmetric(cells: Cells)
  {
    forall p, d :: p in cells && Step(p, d) in cells ==>
      (HasWall(cells[p].state, d) <==> HasWall(cells[Step(p, d)].state, Opposite(d)))
  }

  /** Walls towards the outside of the grid are closed. */
  predicate BorderClosed(cells: Cells)
  {
    forall p, d {:trigger Step(p, d)} :: p in cells && Step(p, d) !in cells ==> HasWall(cells[p].state, d)
  }

  /** A wall no longer present in `before` is not present in `after` either, and no cell disappears. */
  predicate OnlyOpened(before: Cells, after: Cells)
  {
    && before.Keys <= after.Keys
    && forall p, d :: p in before && !HasWall(before[p].state, d) ==> !HasWall(after[p].state, d)
  }

  /** The flags of every cell are the same in both maps. */
  predicate SameFlags(before: Cells, after: Cells)
  {
    before.Keys == after.Keys &&
    forall p :: p in before ==> after[p].visited == before[p].visited && after[p].fixed == before[p].fixed
  }

  /**
   * `path` walks through open walls: `dirs[k]` leads from `path[k]` to
   * `path[k + 1]` and the wall of `path[k]` in that direction is open.
   */
  predicate OpenChain(cells: Cells, path: seq<Coord>, dirs: seq<Direction>)
  {
    && |path| == |dirs| + 1
    && (forall k :: 0 <= k < |path| ==> path[k] in cells)
    && (forall k :: 0 <= k < |dirs| ==> path[k + 1] == Step(path[k], dirs[k]) && !HasWall(cells[path[k]].state, dirs[k]))
  }

  /** No coordinate occurs twice. */
  predicate Distinct(path: seq<Coord>)
  {
    forall i, j :: 0 <= i < j < |path| ==> path[i] != path[j]
  }

  /** `to` is reached from `from` through open walls. */
  ghost predicate Reachable(cells: Cells, from: Coord, to: Coord)
  {
    exists path, dirs :: OpenChain(cells, path, dirs) && path[0] == from && path[|path| - 1] == to
  }

  /** Two maps over the same cells with the same wall states. */
  predicate SameWalls(a: Cells, b: Cells)
  {
    a.Keys == b.Keys && forall p :: p in a ==> a[p].state == b[p].state
  }

  /** The wall predicates depend on the states alone. */
  lemma SameWallsValid(a: Cells, b: Cells)
    requires SameWalls(a, b)
    ensures Masks(a) ==> Masks(b)
    ensures Symmetric(a) ==> Symmetric(b)
    ensures BorderClosed(a) ==> BorderClosed(b)
  {
  }

  /** An open chain stays open when walls are only ever opened. */
  lemma ChainMonotone(before: Cells, after: Cells, path: seq<Coord>, dirs: seq<Direction>)
    requires OpenChain(before, path, dirs) && OnlyOpened(before, after)
    ensures OpenChain(after, path, dirs)
  {
    forall k | 0 <= k < |dirs|
      ensures !HasWall(after[path[k]].state, dirs[k])
    {
      assert !HasWall(before[path[k]].state, dirs[k]);
    }
  }

  /** Extending an open chain by one open step keeps it open. */
  lemma ChainExtend(cells: Cells, path: seq<Coord>, dirs: seq<Direction>, d: Direction)
    requires OpenChain(cells, path, dirs)
    requires Step(path[|path| - 1], d) in cells && !HasWall(cells[path[|path| - 1]].state, d)
    ensures OpenChain(cells, path + [Step(path[|path| - 1], d)], dirs + [d])
  {
  }

  /** `p` is inside the grid exactly when it is a key of a map over the whole grid. */
  lemma KeysInGrid(width: int, height: int, cells: Cells, p: Coord)
    requires cells.Keys == GridCoords(width, height)
    ensures p in cells <==> InGrid(width, height, p)
  {
  }

  /** Inside the grid, the `d` neighbour is inside exactly when `p` is not at that edge. */
  lemma StepInGrid(width: int, height: int, p: Coord, d: Direction)
    requires InGrid(width, height, p)
    ensures InGrid(width, height, Step(p, d)) <==> !AtEdge(width, height, p, d)
  {
  }

  /** The fresh grid: every cell closed on all four sides, unvisited, fixed exactly on `fixedCells`. */
  function InitialCells(width: int, height: int, fixedCells: set<Coord>): (cells: Cells)
    ensures cells.Keys == GridCoords(width, height)
  {
    map p | p in GridCoords(width, height) :: Cell(AllWalls, false, p in fixedCells)
  }

  /** The fresh grid has every wall closed, so it is trivially symmetric and closed at the border. */
  lemma InitialCellsValid(width: int, height: int, fixedCells: set<Coord>)
    ensures Masks(InitialCells(width, height, fixedCells))
    ensures Symmetric(InitialCells(width, height, fixedCells))
    ensures BorderClosed(InitialCells(width, height, fixedCells))
  {
    var cells := InitialCells(width, height, fixedCells);
    forall p, d | p in cells
      ensures HasWall(cells[p].state, d)
    {
      assert cells[p].state == 15;
    }
  }

  /** Clears the wall of `p` towards `d` and the opposite wall of that neighbour. */
  function OpenEdge(cells: Cells, p: Coord, d: Direction): Cells
    requires p in cells && Step(p, d) in cells
  {
    var q := Step(p, d);
    var first := cells[p := cells[p].(state := ClearWall(cells[p].state, d))];
    first[q := first[q].(state := ClearWall(first[q].state, Opposite(d)))]
  }

  /** The wall bits after `OpenEdge`: exactly the two sides of the edge are cleared. */
  lemma OpenEdgeBits(cells: Cells, p: Coord, d: Direction, r: Coord, e: Direction)
    requires Masks(cells) && p in cells && Step(p, d) in cells && r in cells
    ensures r in OpenEdge(cells, p, d) && IsMask(OpenEdge(cells, p, d)[r].state)
    ensures HasWall(OpenEdge(cells, p, d)[r].state, e) <==>
      HasWall(cells[r].state, e) && (r, e) != (p, d) && (r, e) != (Step(p, d), Opposite(d))
  {
    var q := Step(p, d);
    assert q != p;
    var after := OpenEdge(cells, p, d);
    if r == p {
      ClearWallEffect(cells[p].state, d);
      assert after[r].state == ClearWall(cells[p].state, d);
    } else if r == q {
      ClearWallEffect(cells[q].state, Opposite(d));
      assert after[r].state == ClearWall(cells[q].state, Opposite(d));
    } else {
      assert after[r] == cells[r];
    }
  }

  /**
   * `OpenEdge` keeps the keys, the flags, the masks, the symmetry and the
   * closed border (the edge it opens is inside the grid); it only opens walls.
   */
  lemma OpenEdgeValid(cells: Cells, p: Coord, d: Direction)
    requires Masks(cells) && Symmetric(cells) && p in cells && Step(p, d) in cells
    ensures Masks(OpenEdge(cells, p, d))
    ensures SameFlags(cells, OpenEdge(cells, p, d))
    ensures Symmetric(OpenEdge(cells, p, d))
    ensures OnlyOpened(cells, OpenEdge(cells, p, d))
    ensures BorderClosed(cells) ==> BorderClosed(OpenEdge(cells, p, d))
    ensures !HasWall(OpenEdge(cells, p, d)[p].state, d)
  {
    var q := Step(p, d);
    var after := OpenEdge(cells, p, d);
    forall r, e | r in cells
      ensures r in after && IsMask(after[r].state)
      ensures HasWall(after[r].state, e) <==>
        HasWall(cells[r].state, e) && (r, e) != (p, d) && (r, e) != (q, Opposite(d))
    {
      OpenEdgeBits(cells, p, d, r, e);
    }
    forall r, e | r in after && Step(r, e) in after
      ensures HasWall(after[r].state, e) <==> HasWall(after[Step(r, e)].state, Opposite(e))
    {
      var s := Step(r, e);
      OppositeIsInvolution(e);
      OppositeIsInvolution(d);
      StepBack(r, s, e);
      StepBack(p, q, d);
      StepInjective(r, e, d);
      if r == p && e == d {
      } else if r == q && e == Opposite(d) {
      } else {
        assert (s, Opposite(e)) != (p, d) && (s, Opposite(e)) != (q, Opposite(d));
      }
    }
  }

  /** `OpenEdge` from either side of an edge opens the same edge. */
  lemma OpenEdgeFromEitherSide(cells: Cells, p: Coord, d: Direction)
    requires p in cells && Step(p, d) in cells
    ensures Step(Step(p, d), Opposite(d)) == p
    ensures OpenEdge(cells, Step(p, d), Opposite(d)) == OpenEdge(cells, p, d)
  {
    OppositeIsInvolution(d);
    StepBack(p, Step(p, d), d);
  }
}
