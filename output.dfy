/**
 * The text `Maze.print_output` writes (src/generator/src/maze.py:315-369),
 * as a pure function of the maze: one row of hexadecimal wall masks per grid
 * row, the entry and exit, the carver's directions and route, the pathways
 * found and the shortest of them.
 */
module MazeOutput {
  import opened Wrappers
  import opened Walls
  import opened Grid
  import opened MazeCells
  import opened PyInt

  const OriginalHeader: string := "Original Pathway----------------------\n"
  const FoundHeader: string := "Pathways found------------------------\n"
  const ShortestHeader: string := "Shortest path-------------------------\n"

  /** Every cell of the grid is present and holds a 4-bit mask: what formatting the grid needs. */
  predicate Printable(width: int, height: int, cells: Cells)
  {
    forall x, y {:trigger (x, y) in cells} :: 1 <= x <= width && 1 <= y <= height ==>
      (x, y) in cells && 0 <= cells[(x, y)].state < 16
  }

  /** The first `n` columns of row `y`: each mask as one hexadecimal digit followed by a space. */
  function HexRow(cells: Cells, width: int, height: int, y: int, n: nat): (row: string)
    requires Printable(width, height, cells) && 1 <= y <= height && n <= width
    ensures |row| == 2 * n
  {
    if n == 0 then ""
    else HexRow(cells, width, height, y, n - 1) + [HexDigit(cells[(n, y)].state), ' ']
  }

  /** The first `n` rows of the grid, each ended by a newline. */
  function HexRows(cells: Cells, width: int, height: int, n: nat): (text: string)
    requires Printable(width, height, cells) && width >= 0 && n <= height
    ensures |text| == n * (2 * width + 1)
  {
    if n == 0 then ""
    else HexRows(cells, width, height, n - 1) + HexRow(cells, width, height, n, width) + "\n"
  }

  /** Where the digit of column `x`, row `y` is written. */
  function DigitPosition(width: int, x: int, y: int): int
  {
    (y - 1) * (2 * width + 1) + 2 * (x - 1)
  }

  /** The mask read back from the written grid at column `x`, row `y`; None if that character is missing or not a hexadecimal digit. */
  function ReadState(text: string, width: int, x: int, y: int): Option<int>
  {
    var k := DigitPosition(width, x, y);
    if 0 <= k < |text| then HexValue(text[k]) else None
  }

  /** Column `x` of a row holds the digit of `(x, y)` followed by a space. */
  lemma {:induction false} HexRowAt(cells: Cells, width: int, height: int, y: int, n: nat, x: int)
    requires Printable(width, height, cells) && 1 <= y <= height && n <= width && 1 <= x <= n
    ensures HexRow(cells, width, height, y, n)[2 * (x - 1)] == HexDigit(cells[(x, y)].state)
    ensures HexRow(cells, width, height, y, n)[2 * (x - 1) + 1] == ' '
  {
    if x < n {
      HexRowAt(cells, width, height, y, n - 1, x);
    }
  }

  /** The positions of row `y`: its digits come before its newline, which comes before row `y + 1`. */
  lemma RowBounds(width: int, x: int, y: int, n: int)
    requires 1 <= x <= width && 1 <= y <= n
    ensures 0 <= DigitPosition(width, x, y) && DigitPosition(width, x, y) + 1 < y * (2 * width + 1)
    ensures y * (2 * width + 1) <= n * (2 * width + 1)
  {
    MulLeq(y, n, 2 * width + 1);
  }

  /** Row `y` of the grid text starts at `(y - 1) * (2 * width + 1)` and ends with a newline. */
  lemma {:induction false} HexRowsAt(cells: Cells, width: int, height: int, n: nat, x: int, y: int)
    requires Printable(width, height, cells) && width >= 0 && n <= height
    requires 1 <= x <= width && 1 <= y <= n
    ensures 0 <= DigitPosition(width, x, y) && DigitPosition(width, x, y) + 1 < y * (2 * width + 1)
    ensures y * (2 * width + 1) <= |HexRows(cells, width, height, n)|
    ensures HexRows(cells, width, height, n)[DigitPosition(width, x, y)] == HexDigit(cells[(x, y)].state)
    ensures HexRows(cells, width, height, n)[DigitPosition(width, x, y) + 1] == ' '
    ensures HexRows(cells, width, height, n)[y * (2 * width + 1) - 1] == '\n'
  {
    RowBounds(width, x, y, n);
    var before := HexRows(cells, width, height, n - 1);
    var row := HexRow(cells, width, height, n, width);
    assert HexRows(cells, width, height, n) == before + row + "\n";
    if y < n {
      HexRowsAt(cells, width, height, n - 1, x, y);
    } else {
      HexRowAt(cells, width, height, n, width, x);
      assert |before| == (y - 1) * (2 * width + 1);
      assert y * (2 * width + 1) == |before| + 2 * width + 1;
    }
  }

  lemma MulLeq(a: int, b: int, c: int)
    requires a <= b && c >= 0
    ensures a * c <= b * c
  {
  }

  /** The grid section reads back as the wall masks: every cell's state can be recovered from its position. */
  lemma HexGridRoundTrip(cells: Cells, width: int, height: int, x: int, y: int)
    requires Printable(width, height, cells) && 1 <= x <= width && 1 <= y <= height
    ensures ReadState(HexRows(cells, width, height, height), width, x, y) == Some(cells[(x, y)].state)
  {
    HexRowsAt(cells, width, height, height, x, y);
    HexRoundTrip(cells[(x, y)].state);
  }

  /** The letter `print_output` writes for a direction. */
  function DirectionLetter(d: Direction): (s: string)
    ensures |s| == 1
  {
    match d
    case North => "N"
    case East => "E"
    case South => "S"
    case West => "W"
  }

  /** The directions concatenated, one letter each. */
  function DirectionsText(dirs: seq<Direction>): (s: string)
    ensures |s| == |dirs|
    ensures forall k :: 0 <= k < |dirs| ==> [s[k]] == DirectionLetter(dirs[k])
  {
    if dirs == [] then "" else DirectionsText(dirs[..|dirs| - 1]) + DirectionLetter(dirs[|dirs| - 1])
  }

  /** `str` of a coordinate tuple: "(x, y)". */
  function CoordText(p: Coord): string
  {
    "(" + IntToString(p.0) + ", " + IntToString(p.1) + ")"
  }

  /** A path as `print_output` writes it: every coordinate followed by " | ". */
  function PathText(path: seq<Coord>): string
  {
    if path == [] then "" else PathText(path[..|path| - 1]) + CoordText(path[|path| - 1]) + " | "
  }

  /** The "Pathways found" section: a numbered header, the path and a newline for each pathway. */
  function PathwaysText(pathways: seq<seq<Coord>>, first: int): string
  {
    if pathways == [] then ""
    else "=== " + IntToString(first) + " ===\n" + PathText(pathways[0]) + "\n" + PathwaysText(pathways[1..], first + 1)
  }

  /**
   * `min(pathways, key=len)`: the first pathway of least length, or None for
   * an empty list.
   */
  function Shortest(pathways: seq<seq<Coord>>): (r: Option<seq<Coord>>)
    ensures r.None? <==> pathways == []
    ensures r.Some? ==> r.value in pathways
    ensures r.Some? ==> forall q :: q in pathways ==> |r.value| <= |q|
    ensures r.Some? ==> exists i :: 0 <= i < |pathways| && pathways[i] == r.value && forall j :: 0 <= j < i ==> |pathways[j]| > |r.value|
  {
    if pathways == [] then None
    else
      var rest := Shortest(pathways[1..]);
      if rest.None? || |pathways[0]| <= |rest.value| then Some(pathways[0])
      else
        assert forall q :: q in pathways ==> q == pathways[0] || q in pathways[1..];
        var i :| 0 <= i < |pathways[1..]| && pathways[1..][i] == rest.value && forall j :: 0 <= j < i ==> |pathways[1..][j]| > |rest.value|;
        assert pathways[i + 1] == rest.value;
        Some(rest.value)
  }

  /** The blank line and the entry and exit lines `print_output` writes after the grid rows. */
  function PointsText(entry: Coord, exit: Coord): string
  {
    "\n"
    + IntToString(entry.0) + ", " + IntToString(entry.1) + "\n"
    + IntToString(exit.0) + ", " + IntToString(exit.1) + "\n"
  }

  /** What `print_output` writes after the entry and exit once it has the directions and the route. */
  function RouteText(route: seq<Coord>, routeDirs: seq<Direction>, pathways: seq<seq<Coord>>): string
  {
    var shortest := Shortest(pathways);
    DirectionsText(routeDirs) + "\n"
    + OriginalHeader + PathText(route) + "\n"
    + FoundHeader + PathwaysText(pathways, 0)
    + ShortestHeader + (if shortest.Some? then PathText(shortest.value) else "")
  }

  /** The file as `print_output` leaves it, and whether it returned normally. */
  datatype Written = Written(text: string, complete: bool)

  /**
   * The file `print_output` leaves. It raises TypeError, after the part
   * already written, when the carver never reached the exit: the loop over
   * the directions fails on None, and so would the loop over the route.
   */
  function OutputText(width: int, height: int, cells: Cells, entry: Coord, exit: Coord,
                      route: Option<seq<Coord>>, routeDirs: Option<seq<Direction>>,
                      pathways: seq<seq<Coord>>): (w: Written)
    requires Printable(width, height, cells) && width >= 0 && 0 <= height
    ensures w.complete <==> route.Some? && routeDirs.Some?
    ensures var grid := HexRows(cells, width, height, height); |grid| <= |w.text| && w.text[..|grid|] == grid
    ensures routeDirs.None? ==> w.text == HexRows(cells, width, height, height) + PointsText(entry, exit)
  {
    var grid := HexRows(cells, width, height, height);
    var after :=
      if routeDirs.None? then ""
      else if route.None? then DirectionsText(routeDirs.value) + "\n" + OriginalHeader
      else RouteText(route.value, routeDirs.value, pathways);
    var text := grid + (PointsText(entry, exit) + after);
    assert text[..|grid|] == grid;
    assert routeDirs.None? ==> text == grid + PointsText(entry, exit);
    Written(text, route.Some? && routeDirs.Some?)
  }

  /** Every cell of the grid present, with a 4-bit mask: the maze can be printed. */
  lemma ValidPrintable(width: int, height: int, cells: Cells)
    requires cells.Keys == GridCoords(width, height) && Masks(cells)
    ensures Printable(width, height, cells)
  {
    forall x, y | 1 <= x <= width && 1 <= y <= height
      ensures (x, y) in cells && 0 <= cells[(x, y)].state < 16
    {
      KeysInGrid(width, height, cells, (x, y));
    }
  }

  /** The written file starts with the grid, also when `print_output` fails later, so every cell's mask reads back from it. */
  lemma OutputReadsBack(width: int, height: int, cells: Cells, entry: Coord, exit: Coord,
                        route: Option<seq<Coord>>, routeDirs: Option<seq<Direction>>,
                        pathways: seq<seq<Coord>>)
    requires Printable(width, height, cells) && width >= 0 && 0 <= height
    ensures var text := OutputText(width, height, cells, entry, exit, route, routeDirs, pathways).text;
      forall x, y :: 1 <= x <= width && 1 <= y <= height ==>
        ReadState(text, width, x, y) == Some(cells[(x, y)].state)
  {
    var text := OutputText(width, height, cells, entry, exit, route, routeDirs, pathways).text;
    var grid := HexRows(cells, width, height, height);
    forall x, y | 1 <= x <= width && 1 <= y <= height
      ensures ReadState(text, width, x, y) == Some(cells[(x, y)].state)
    {
      HexGridRoundTrip(cells, width, height, x, y);
      HexRowsAt(cells, width, height, height, x, y);
      assert text[DigitPosition(width, x, y)] == grid[DigitPosition(width, x, y)];
    }
  }
}
