/**
 * The wall-mask helpers shared by src/maze_generator.py and
 * src/generator/src/maze_generator.py (their first 34 lines are the same):
 * the table of every wall combination, a dictionary of random masks keyed
 * by (row, column), and the later file's `can_go_somewhere` test of the
 * player's cell. `random.choice` is the oracle `pick`, which names the
 * index it draws for each key.
 */
module WallCombinations {
  import opened Walls
  import opened Grid
  import opened CellObjects
  import ObjectMaze

  /** The literal set of the masks with the north bit. */
  const NorthClose: set<int> := {1, 3, 5, 9, 7, 11, 13, 15}
  /** The literal set of the masks with the east bit. */
  const EastClose: set<int> := {2, 3, 6, 10, 7, 11, 14, 15}
  /** The literal set of the masks with the south bit. */
  const SouthClose: set<int> := {4, 5, 6, 12, 7, 14, 13, 15}
  /** The literal set of the masks with the west bit. */
  const WestClose: set<int> := {8, 9, 10, 12, 11, 13, 14, 15}

  /** The literal set written out for direction `d`. */
  function Closing(d: Direction): set<int>
  {
    match d
    case North => NorthClose
    case East => EastClose
    case South => SouthClose
    case West => WestClose
  }

  /** The union of the four sets with `all_close` and `all_open`. */
  function Combinations(): set<int>
  {
    NorthClose + EastClose + SouthClose + WestClose + {15} + {0}
  }

  /** Each directional set holds exactly the eight masks with that direction's bit. */
  lemma ClosingIsBit(d: Direction)
    ensures forall m :: m in Closing(d) <==> IsMask(m) && HasWall(m, d)
  {
    forall m | IsMask(m)
      ensures m in Closing(d) <==> HasWall(m, d)
    {
      ClosingAt(d, m);
    }
  }

  /** One mask against one directional set. */
  lemma ClosingAt(d: Direction, m: int)
    requires IsMask(m)
    ensures m in Closing(d) <==> HasWall(m, d)
  {
    MaskCases(m);
    match d
    case North => assert m in NorthClose <==> m % 2 == 1;
    case East => assert m in EastClose <==> (m / 2) % 2 == 1;
    case South => assert m in SouthClose <==> (m / 4) % 2 == 1;
    case West => assert m in WestClose <==> (m / 8) % 2 == 1;
  }

  /** The masks listed one by one, so that a proof can go case by case. */
  lemma MaskCases(m: int)
    requires IsMask(m)
    ensures m == 0 || m == 1 || m == 2 || m == 3 || m == 4 || m == 5 || m == 6 || m == 7
         || m == 8 || m == 9 || m == 10 || m == 11 || m == 12 || m == 13 || m == 14 || m == 15
  {
  }

  /** The union is every four-bit mask: the sets miss none and add nothing outside 0..15. */
  lemma CombinationsAreAllMasks()
    ensures forall m :: m in Combinations() <==> IsMask(m)
  {
    forall m | IsMask(m)
      ensures m in Combinations()
    {
      MaskCases(m);
    }
  }

  /**
   * `tuple(...)` of the union. The set holds small non-negative ints, which
   * CPython's set iterates in ascending order; no property below depends on
   * that order.
   */
  function WallCombinations(): (t: seq<int>)
    ensures |t| == 16
  {
    [0, 1, 2, 3, 4, 5, 6, 7, 8, 9, 10, 11, 12, 13, 14, 15]
  }

  /** The tuple holds every combination of the union exactly once, and nothing else: the sixteen four-bit masks. */
  lemma WallCombinationsExactlyOnce()
    ensures forall i, j :: 0 <= i < j < |WallCombinations()| ==> WallCombinations()[i] != WallCombinations()[j]
    ensures forall m :: m in WallCombinations() <==> m in Combinations()
    ensures forall m :: m in WallCombinations() <==> IsMask(m)
  {
    var t := WallCombinations();
    assert forall i :: 0 <= i < |t| ==> t[i] == i;
    CombinationsAreAllMasks();
  }

  /** The keys of `get_maze_dict`: (row, column) for every row 1..height and column 1..width. */
  function DictKeys(width: int, height: int): set<(int, int)>
  {
    set h, w | 1 <= h <= height && 1 <= w <= width :: (h, w)
  }

  /** A key lies in rows 1..height and columns 1..width. */
  predicate InDict(width: int, height: int, k: (int, int))
  {
    1 <= k.0 <= height && 1 <= k.1 <= width
  }

  /** The keys are exactly the pairs in range. */
  lemma DictKeysHas(width: int, height: int, k: (int, int))
    ensures k in DictKeys(width, height) <==> InDict(width, height, k)
  {
    if InDict(width, height, k) {
      assert k == (k.0, k.1);
    }
  }

  /** A key is the grid cell at column `w` of row `h`: the coordinate order is reversed. */
  lemma DictKeysAreGrid(width: int, height: int, k: (int, int))
    ensures k in DictKeys(width, height) <==> InGrid(width, height, (k.1, k.0))
  {
    DictKeysHas(width, height, k);
  }

  /** The keys of row `h`. */
  function RowKeys(width: int, h: int): set<(int, int)>
  {
    set w | 1 <= w <= width :: (h, w)
  }

  /** A row of keys has one key per column. */
  lemma {:induction false} RowKeysCount(width: nat, h: int)
    ensures |RowKeys(width, h)| == width
    decreases width
  {
    if width > 0 {
      RowKeysCount(width - 1, h);
      forall k
        ensures k in RowKeys(width, h) <==> k in RowKeys(width - 1, h) || k == (h, width)
      {
        if k.0 == h && 1 <= k.1 <= width {
          assert k == (h, k.1);
        }
      }
      assert RowKeys(width, h) == RowKeys(width - 1, h) + {(h, width)};
    } else {
      assert RowKeys(width, h) == {};
    }
  }

  /** The keys up to row `height` are those up to the row before, and the keys of row `height`, which are new. */
  lemma DictKeysSplit(width: int, height: int)
    requires height >= 1
    ensures DictKeys(width, height) == DictKeys(width, height - 1) + RowKeys(width, height)
    ensures DictKeys(width, height - 1) !! RowKeys(width, height)
  {
    forall k
      ensures k in DictKeys(width, height) <==> k in DictKeys(width, height - 1) || k in RowKeys(width, height)
      ensures !(k in DictKeys(width, height - 1) && k in RowKeys(width, height))
    {
      DictKeysHas(width, height, k);
      DictKeysHas(width, height - 1, k);
      if k.0 == height && 1 <= k.1 <= width {
        assert k == (height, k.1);
      }
    }
  }

  /** The dictionary has height times width keys. */
  lemma {:induction false} DictKeysCount(width: nat, height: nat)
    ensures |DictKeys(width, height)| == width * height
    decreases height
  {
    if height > 0 {
      DictKeysCount(width, height - 1);
      RowKeysCount(width, height);
      DictKeysSplit(width, height);
      assert width * height == width * (height - 1) + width;
    } else {
      assert DictKeys(width, height) == {};
    }
  }

  /** What `get_maze_dict` returns: at every key, the combination drawn for it. */
  function MazeDict(width: int, height: int, pick: ((int, int)) -> int): map<(int, int), int>
    requires forall k :: 0 <= pick(k) < 16
  {
    map k | k in DictKeys(width, height) :: WallCombinations()[pick(k)]
  }

  /** Every value of the dictionary is one of the combinations, that is a four-bit mask. */
  lemma MazeDictValues(width: int, height: int, pick: ((int, int)) -> int)
    requires forall k :: 0 <= pick(k) < 16
    ensures forall k :: k in MazeDict(width, height, pick) ==>
      MazeDict(width, height, pick)[k] in Combinations() && IsMask(MazeDict(width, height, pick)[k])
  {
    CombinationsAreAllMasks();
    WallCombinationsExactlyOnce();
    forall k | k in MazeDict(width, height, pick)
      ensures MazeDict(width, height, pick)[k] in Combinations()
    {
      assert WallCombinations()[pick(k)] in WallCombinations();
    }
  }

  /** `get_maze_dict`: rows 1..height, then columns 1..width, each key receiving a drawn combination. */
  method GetMazeDict(width: int, height: int, pick: ((int, int)) -> int) returns (dict: map<(int, int), int>)
    requires forall k :: 0 <= pick(k) < 16
    ensures dict == MazeDict(width, height, pick)
  {
    dict := map[];
    var combinations := WallCombinations();
    var h := 1;
    while h <= height
      invariant h >= 1
      invariant forall k :: k in dict <==> InDict(width, height, k) && k.0 < h
      invariant forall k :: k in dict ==> dict[k] == combinations[pick(k)]
    {
      dict := FillRow(dict, combinations, width, height, h, pick);
      h := h + 1;
    }
    MazeDictIs(dict, width, height, pick);
  }

  /** A dictionary with the keys in range, each holding its drawn combination, is `MazeDict`. */
  lemma MazeDictIs(dict: map<(int, int), int>, width: int, height: int, pick: ((int, int)) -> int)
    requires forall k :: 0 <= pick(k) < 16
    requires forall k :: k in dict <==> InDict(width, height, k)
    requires forall k :: k in dict ==> dict[k] == WallCombinations()[pick(k)]
    ensures dict == MazeDict(width, height, pick)
  {
    var spec := MazeDict(width, height, pick);
    forall k
      ensures k in dict <==> k in spec
    {
      DictKeysHas(width, height, k);
    }
    assert dict.Keys == spec.Keys;
    forall k | k in dict
      ensures dict[k] == spec[k]
    {
    }
  }

  /** The inner loop of `get_maze_dict` for row `h`, drawing from the tuple `combinations`. */
  method FillRow(dict: map<(int, int), int>, combinations: seq<int>, width: int, height: int, h: int, pick: ((int, int)) -> int)
    returns (next: map<(int, int), int>)
    requires forall k :: 0 <= pick(k) < |combinations|
    requires 1 <= h <= height
    requires forall k :: k in dict <==> InDict(width, height, k) && k.0 < h
    requires forall k :: k in dict ==> dict[k] == combinations[pick(k)]
    ensures forall k :: k in next <==> InDict(width, height, k) && k.0 < h + 1
    ensures forall k :: k in next ==> next[k] == combinations[pick(k)]
  {
    next := dict;
    var w := 1;
    while w <= width
      invariant 1 <= w <= (if width < 1 then 1 else width + 1)
      invariant forall k :: k in next <==> (InDict(width, height, k) && k.0 < h) || (k.0 == h && 1 <= k.1 < w)
      invariant forall k :: k in next ==> next[k] == combinations[pick(k)]
    {
      next := next[(h, w) := combinations[pick((h, w))]];
      forall k
        ensures k in next <==> (InDict(width, height, k) && k.0 < h) || (k.0 == h && 1 <= k.1 < w + 1)
      {
        if k.0 == h && k.1 == w {
          assert k == (h, w);
        }
      }
      w := w + 1;
    }
  }

  /** `POSSIBLE_DIRECTIONS` of src/generator/src/maze_class.py, the order `can_go_somewhere` tries. */
  const ScanOrder: seq<Direction> := [North, South, East, West]

  /** The neighbour of the player's cell towards `d` exists, is not visited and is not fixed. */
  predicate Free(cells: Graph, at: Coord, d: Direction)
    requires at in cells && Closed(cells)
  {
    var link := cells[at].adjacent.At(d);
    link.Some? && !cells[link.value].visited && !cells[link.value].fixed
  }

  /** Every direction appears in the scan order. */
  lemma ScanOrderComplete(d: Direction)
    ensures d in ScanOrder
  {
    assert ScanOrder[0] == North && ScanOrder[1] == South && ScanOrder[2] == East && ScanOrder[3] == West;
  }

  /**
   * `can_go_somewhere`: the directions in order, answering True at the
   * first free neighbour of the player's cell, and False after the four.
   * This is the function's body; its module's own import of `print_output`
   * from maze_class.py fails, since that file defines it only as a method.
   */
  method CanGoSomewhere(cells: Graph, at: Coord) returns (r: bool)
    requires at in cells && Closed(cells)
    ensures r <==> exists d :: Free(cells, at, d)
  {
    for i := 0 to |ScanOrder|
      invariant forall j :: 0 <= j < i ==> !Free(cells, at, ScanOrder[j])
    {
      var adjacent := cells[at].adjacent.At(ScanOrder[i]);
      if adjacent.Some? && !cells[adjacent.value].visited && !cells[adjacent.value].fixed {
        assert Free(cells, at, ScanOrder[i]);
        return true;
      }
    }
    forall d: Direction
      ensures !Free(cells, at, d)
    {
      ScanOrderComplete(d);
    }
    return false;
  }

  /**
   * In a maze built by `initiate_cells`, the player can go somewhere exactly
   * when some direction is not at the grid's edge and the cell one step that
   * way is neither visited nor fixed.
   */
  lemma CanGoInGrid(width: int, height: int, cells: Graph, at: Coord)
    requires cells.Keys == GridCoords(width, height) && ObjectMaze.Linked(width, height, cells) && at in cells
    ensures Closed(cells)
    ensures (exists d :: Free(cells, at, d)) <==>
      exists d :: !AtEdge(width, height, at, d) && Step(at, d) in cells && !cells[Step(at, d)].visited && !cells[Step(at, d)].fixed
  {
    ObjectMaze.LinkedGrid(width, height, cells);
    forall d: Direction
      ensures Free(cells, at, d) <==>
        !AtEdge(width, height, at, d) && Step(at, d) in cells && !cells[Step(at, d)].visited && !cells[Step(at, d)].fixed
    {
    }
  }
}
