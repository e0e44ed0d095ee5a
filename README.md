# A-Maze-ing: a verified model of the maze engine

This project models the core of *A-Maze-ing*, a maze generator and viewer written in Python.

The engine (`src/generator/src/maze.py`) builds a maze of `width x height` cells. Coordinates are 1-based `(x, y)`; x grows to the east and y to the south. Each cell is a record `{"state", "visited", "fixed"}`. Its `state` is a 4-bit wall mask: north 1, east 2, south 4, west 8, and a set bit is a closed wall.

The `Maze` constructor does five things:
- It validates its arguments.
- It places the "42" logo of fixed cells at the centre of the grid. The logo is scaled to the grid's size (`ft_logo_cells.py`).
- It carves a perfect maze by randomized depth-first search from the entry and records the route to the exit.
- Unless the maze is perfect, it opens a few more walls at random.
- On request, it searches for up to ten distinct pathways from the entry to the exit.

`print_output` writes the grid as hexadecimal masks, followed by the entry, the exit, the route and the pathways.

Around the engine the model also covers:
- the object-graph variants of the maze: cells linked to their neighbours (`cell.py`, `unused/cell.py`, `maze_class.py`, the earlier `src/maze_class.py`) and a player walking over them (`player.py`);
- the two configuration readers (`config_validator.py`, `config_checker.py`);
- the wall-combination helpers of the two `maze_generator.py` files;
- the visualizer's event bus, input manager, sprite pool, scene and cell component.

How the model stands in for Python:
- Randomness is passed in as oracles:
  - `shuffle` becomes a function giving the direction order of each loop iteration;
  - `choice` and `random()` become functions of the cell.
- An object that the source shares by reference is identified by its coordinate, or by a number that stands for its identity.
- Exceptions are `Failure` values of a `Result`, or `Some(error)`.

Every `.dfy` file is one module. The files `walls`, `grid`, `cells`, `logo`, `carver`, `relaxer`, `pathfinder`, `output` and `facade` model the engine. The files `pyint`, `pystr` and `pylist` model the Python built-ins the program relies on.

## Model

| member | source | states |
|---|---|---|
| Walls.Bit | src/generator/src/maze.py:26-27 | Every direction's wall is one of the bits 1, 2, 4, 8 |
| Walls.Opposite | src/generator/src/maze.py:20-21 | The opposite direction differs from the direction, and so does its bit |
| Walls.OppositeIsInvolution | src/generator/src/maze.py:20-21 | The opposite of the opposite is the direction itself |
| Walls.BitInjective | src/generator/src/maze.py:26-27 | Two directions share a bit only if they are the same direction |
| Walls.HasWallByBit | src/generator/src/maze.py:617 | A wall is closed exactly when its bit is set in the state |
| Walls.BitAnd | src/generator/src/maze.py:659 | `state & WALLS[d]` is 0 or the bit, and is non-zero exactly when the wall is closed |
| Walls.MaskBits | src/generator/src/maze.py:26-27 | A 4-bit mask is the sum of the bits of its closed walls |
| Walls.MaskExtensional | src/generator/src/maze.py:26-27 | Two masks with the same closed walls are equal |
| Walls.ClearWallKeepsOther | src/generator/src/maze.py:663-667 | Opening one wall leaves every other wall as it was |
| Walls.ClearWallEffect | src/generator/src/maze.py:663-667 | Opening a wall keeps a mask, opens that wall, keeps the others, and is idempotent |
| Walls.SubtractClosedBit | src/generator/src/maze.py:663 | Subtracting the bit of a closed wall is opening that wall |
| Walls.AllWallsClosed | src/generator/src/maze.py:479-483 | The initial state 0b1111 has every wall closed |
| Grid.Adjacent | src/generator/src/maze.py:403-434 | The neighbour is None exactly at the grid's edge; otherwise it is the step in that direction, another cell, and inside the grid |
| Grid.AdjacentBack | src/generator/src/maze.py:418-434 | Going to a neighbour and back the opposite way returns to the cell |
| Grid.StepInjective | src/generator/src/maze.py:418-434 | Different directions lead to different cells |
| Grid.StepBack | src/generator/src/maze.py:418-434 | q is p's neighbour in direction d exactly when p is q's neighbour in the opposite direction |
| MazeCells.SameWallsValid | src/generator/src/maze.py:520-532 | Cell maps with the same walls agree on validity, symmetry and closed borders |
| MazeCells.ChainMonotone | src/generator/src/maze.py:663-667 | A walk through open walls stays open when walls are only opened |
| MazeCells.ChainExtend | src/generator/src/maze.py:614-624 | A walk through open walls extends by one step through an open wall |
| MazeCells.KeysInGrid | src/generator/src/maze.py:479-483 | A cell exists exactly when its coordinate is inside the grid |
| MazeCells.StepInGrid | src/generator/src/maze.py:418-434 | A step from a cell stays inside the grid exactly when the cell is not at that edge |
| MazeCells.InitialCells | src/generator/src/maze.py:479-483 | The initial dictionary has one cell per grid coordinate |
| MazeCells.InitialCellsValid | src/generator/src/maze.py:479-483 | The initial cells are masks, the walls agree on both sides, and the border is closed |
| MazeCells.OpenEdgeBits | src/generator/src/maze.py:663-667 | Opening an edge opens exactly the two wall bits of that edge and keeps every other wall |
| MazeCells.OpenEdgeValid | src/generator/src/maze.py:663-667 | Opening an edge keeps masks, flags, symmetry and a closed border; it only opens, and it opens the wall |
| MazeCells.OpenEdgeFromEitherSide | src/generator/src/maze.py:520-532 | Opening an edge from either of its cells gives the same maze |
| FtLogo.DefaultCellsDistinct | src/generator/src/ft_logo_cells.py:19-38 | The template has 18 distinct cells |
| FtLogo.DefaultCellsSpan | src/generator/src/ft_logo_cells.py:19-38 | The template spans x in -3..3 and y in -2..2 |
| FtLogo.IndexOf | src/generator/src/ft_logo_cells.py:64-72 | The first position of a cell in the template, or -1 when it is absent |
| FtLogo.IndexOfDistinct | src/generator/src/ft_logo_cells.py:64-72 | In a list of distinct cells, the first position of the k-th cell is k |
| FtLogo.BlockOfBlock | src/generator/src/ft_logo_cells.py:64-72 | A cell of a scaled block maps back to its template cell, and its offset is its remainder |
| FtLogo.BlockDecompose | src/generator/src/ft_logo_cells.py:64-72 | Every point is the block of its template cell at its remainder offset |
| FtLogo.ScaledMember | src/generator/src/ft_logo_cells.py:64-72 | A point is in the scaled logo exactly when its floor-divided coordinate is a template cell |
| FtLogo.ScaledLogoMember | src/generator/src/ft_logo_cells.py:42-72 | The same membership for the default template |
| FtLogo.ScaleOneIsTemplate | src/generator/src/ft_logo_cells.py:42-72 | Scale 1 gives the template itself |
| FtLogo.EmitNext | src/generator/src/ft_logo_cells.py:68-72 | One inner-loop step adds one new cell, and the emitted set matches the loop position |
| FtLogo.EmitColumn | src/generator/src/ft_logo_cells.py:66-72 | The end of a column of a block moves the loop to the next column |
| FtLogo.EmitBlock | src/generator/src/ft_logo_cells.py:64-72 | The end of a block moves the loop to the next template cell |
| FtLogo.EmitAll | src/generator/src/ft_logo_cells.py:64-72 | After the whole template, the emitted cells are the scaled logo |
| FtLogo.ScaleCells | src/generator/src/ft_logo_cells.py:64-72 | The loops produce the scaled logo, with `scale * scale` cells per template cell |
| FtLogo.ScaleLogo | src/generator/src/ft_logo_cells.py:42-72 | `scale_logo` raises exactly when scale <= 0; otherwise it returns the scaled logo of 18 * scale^2 cells |
| FtLogo.ChooseLogoScale | src/generator/src/ft_logo_cells.py:75-103 | The scale is 0 exactly when the grid is below 9 x 7, and is never above 4 |
| FtLogo.ScaleCountsThresholds | src/generator/src/ft_logo_cells.py:91-103 | The scale is one plus the number of the thresholds 30, 75 and 150 that the smaller side reaches, and the smaller side lies between its scale's threshold and the next |
| FtLogo.ScaleMonotonic | src/generator/src/ft_logo_cells.py:94-103 | A grid with a larger smaller side never gets a smaller logo |
| FtLogo.PlacedLogoNonEmpty | src/generator/src/maze.py:376-400 | A placed logo of positive scale has cells |
| FtLogo.TranslateMember | src/generator/src/maze.py:392-400 | A point is in the translated logo exactly when it minus the offset is in the logo |
| FtLogo.TranslateAdd | src/generator/src/maze.py:392-400 | Translating one more cell adds its translated point |
| FtLogo.ScaledSpan | src/generator/src/ft_logo_cells.py:42-72 | The scaled logo spans -3s..4s-1 in x and -2s..3s-1 in y |
| FtLogo.PlacedLogoInGrid | src/generator/src/maze.py:376-400 | Whenever a logo is chosen, every cell of the placed logo is inside the grid |
| Carver.FtLogoCells | src/generator/src/maze.py:376-400 | No logo exactly when the scale is 0; otherwise a non-empty set of cells, all inside the grid |
| Carver.NewCells | src/generator/src/maze.py:479-483 | One closed, unvisited, unfixed cell per grid coordinate |
| Carver.MarkFixed | src/generator/src/maze.py:486-491 | Exactly the logo cells become fixed |
| Carver.PrepareCells | src/generator/src/maze.py:478-505 | EntryProtected exactly when the entry is a logo cell; ExitProtected when only the exit is; otherwise the start cells |
| Carver.OpenEdgesGrow | src/generator/src/maze.py:520-532 | Carving a closed wall adds exactly that edge to the set of open edges |
| Carver.CarveCells | src/generator/src/maze.py:520-532 | A carve opens the edge, keeps the fixed flags and marks exactly the new cell visited |
| Carver.CarveWalls | src/generator/src/maze.py:520-532 | A carve keeps masks, symmetry and a closed border, and only opens walls |
| Carver.CarveClosed | src/generator/src/maze.py:520-532 | The wall towards an unvisited cell is still closed on both sides |
| Carver.CarveVisits | src/generator/src/maze.py:520-532 | A carve moves exactly one cell from unvisited to visited |
| Carver.CarveEdges | src/generator/src/maze.py:520-532 | A carve adds exactly one open edge |
| Carver.GridAdvance | src/generator/src/maze.py:514-532 | A carve keeps the grid's keys, masks, symmetry and closed border |
| Carver.FlagsAdvance | src/generator/src/maze.py:514-532 | A carve keeps the fixed flags of the start |
| Carver.CarvingStart | src/generator/src/maze.py:497-505 | The start state satisfies the carving invariant |
| Carver.CarvingAdvance | src/generator/src/maze.py:520-546 | A forward step keeps the invariant: the open edges still form a tree over the visited cells |
| Carver.StackAdvance | src/generator/src/maze.py:524-530 | Pushing the carved cell keeps the stack a walk through open walls from the entry |
| Carver.RouteAdvance | src/generator/src/maze.py:533-546 | The route is recorded exactly when the exit is reached, as the stack |
| Carver.PathsAdvance | src/generator/src/maze.py:524-530 | Every visited cell keeps a recorded open walk from the entry |
| Carver.CarvingBacktrack | src/generator/src/maze.py:547-554 | Popping the stack keeps the invariant |
| Carver.StackPop | src/generator/src/maze.py:547-554 | The popped stack is still an open walk from the entry |
| Carver.BlockedIffStuck | src/generator/src/maze.py:549-551 | The first pop empties the stack exactly when the entry has no carvable neighbour |
| Carver.CarvingDone | src/generator/src/maze.py:508-554 | When the loop ends, the result is a carved maze |
| Carver.FixedAreLogo | src/generator/src/maze.py:486-491 | A cell is fixed exactly when it is a logo cell |
| Carver.PathsReach | src/generator/src/maze.py:524-530 | Every visited cell is reachable from the entry |
| Carver.FirstViable | src/generator/src/maze.py:514-519 | The first direction in the shuffled order whose neighbour can be carved, or none exactly when the cell is stuck |
| Carver.SubtractIsCarve | src/generator/src/maze.py:524-530 | The two subtractions and the visited mark are one carve |
| Carver.CarveStep | src/generator/src/maze.py:524-530 | Carving one step opens the edge and visits the new cell |
| Carver.CarveForward | src/generator/src/maze.py:520-546 | One forward step of the loop keeps the carving invariant |
| Carver.DfsGeneration | src/generator/src/maze.py:437-554 | Fails exactly when the entry or exit is a logo cell or the entry is walled in, and never on a missing logo method. On success: a perfect maze over every reachable cell, with fixed cells exactly the logo, and the route to the exit when it was reached |
| Carver.GeneratorDfsGeneration | src/generator/src/generator.py:16-132 | With the logo on, AttributeError before anything is carved; with it off, fails exactly when the entry is walled in, and otherwise the result is a carved maze |
| Carver.CarveFrom | src/generator/src/maze.py:497-554 | Fails (empty pop) exactly when the entry is walled in; otherwise the result is a carved maze |
| Relaxer.SubtractIsOpenEdge | src/generator/src/maze.py:663-667 | The two subtractions open exactly the chosen edge |
| Relaxer.RelaxCell | src/generator/src/maze.py:652-667 | One cell's turn of `open_random_walls` |
| Relaxer.ChosenNext | src/generator/src/maze.py:650-667 | An edge is chosen up to the next cell exactly when it was chosen before or is this cell's choice |
| Relaxer.RelaxKeeps | src/generator/src/maze.py:652-659 | A cell that opens nothing keeps the sweep invariant |
| Relaxer.RelaxOpens | src/generator/src/maze.py:659-667 | A cell that opens its chosen wall keeps the sweep invariant |
| Relaxer.SweepStart | src/generator/src/maze.py:650-651 | The sweep invariant holds before the first cell |
| Relaxer.SweepCell | src/generator/src/maze.py:651-667 | Each cell's turn advances the sweep invariant |
| Relaxer.RelaxRow | src/generator/src/maze.py:650-651 | The end of a row moves the sweep to the next row |
| Relaxer.RelaxDone | src/generator/src/maze.py:650-668 | After the sweep, a wall is closed exactly when it was closed and no cell chose its edge |
| Relaxer.OpenRandomWalls | src/generator/src/maze.py:642-668 | The result is a valid maze with the same flags, and a wall is closed exactly when it was closed and neither end chose it |
| Relaxer.RelaxOnlyOpens | src/generator/src/maze.py:663-667 | Relaxing never closes a wall |
| Relaxer.RelaxKeepsLogo | src/generator/src/maze.py:652-658 | Logo cells keep their walls |
| Relaxer.RelaxKeepsReach | src/generator/src/maze.py:663-667 | Every cell reachable before relaxing is still reachable |
| Relaxer.RelaxUnchosen | src/generator/src/maze.py:655 | A wall between two cells that both drew no opening is unchanged |
| Pathfinder.SearchStart | src/generator/src/maze.py:600-607 | The start state satisfies the search invariant |
| Pathfinder.SearchAdvance | src/generator/src/maze.py:614-624 | A move to a cell other than the exit keeps the search invariant |
| Pathfinder.ArrivalPathway | src/generator/src/maze.py:631-634 | Arriving at the exit yields an open pathway from the entry, so the exit is reachable |
| Pathfinder.RecordFound | src/generator/src/maze.py:632-634 | Recording a pathway once keeps the list distinct and counts the attempt |
| Pathfinder.SearchArrive | src/generator/src/maze.py:631-638 | An arrival records the pathway and restarts from the entry, keeping the invariant |
| Pathfinder.SearchBacktrack | src/generator/src/maze.py:625-630 | Popping a dead end and marking it wrong keeps the invariant |
| Pathfinder.StuckAtEntry | src/generator/src/maze.py:625-629 | A dead end at the entry means the exit is the entry or cannot be reached |
| Pathfinder.SearchDone | src/generator/src/maze.py:610 | Ten arrivals end the search with the recorded pathways |
| Pathfinder.FirstMove | src/generator/src/maze.py:614-624 | The first direction in the shuffled order that can be taken, or none exactly at a dead end |
| Pathfinder.Backtrack | src/generator/src/maze.py:625-630 | The pop step of the loop keeps the invariant |
| Pathfinder.Advance | src/generator/src/maze.py:619-638 | The move step of the loop, and the arrival that may follow, keep the invariant |
| Pathfinder.SearchIteration | src/generator/src/maze.py:610-638 | One iteration of the loop keeps the invariant or ends with a result |
| Pathfinder.PathSearch | src/generator/src/maze.py:557-639 | The search result for both copies of the code |
| Pathfinder.PathFinder | src/generator/src/maze.py:557-639 | Succeeds exactly when the exit differs from the entry and is reachable. It returns 1 to 10 distinct pathways, each an open walk from the entry to the exit. Otherwise the stack is popped empty |
| Pathfinder.PathFinderDfs | src/generator/src/pathfinder.py:15-97 | Never returns pathways; it fails with the arity error exactly when the exit is reachable and differs from the entry |
| MazeOutput.HexRow | src/generator/src/maze.py:326-331 | A row of n cells is 2n characters |
| MazeOutput.HexRows | src/generator/src/maze.py:326-331 | n rows take n * (2 * width + 1) characters |
| MazeOutput.HexRowAt | src/generator/src/maze.py:327-330 | The x-th cell of a row is its hexadecimal digit followed by a space |
| MazeOutput.HexRowsAt | src/generator/src/maze.py:326-331 | Cell (x, y) is at its fixed position in the grid text, each row ending in a newline |
| MazeOutput.HexGridRoundTrip | src/generator/src/maze.py:326-331 | Reading the digit at a cell's position gives back the cell's state |
| MazeOutput.DirectionLetter | src/generator/src/maze.py:15-18 | Every direction is written as one letter |
| MazeOutput.DirectionsText | src/generator/src/maze.py:340-342 | The directions text has one letter per direction, in order |
| MazeOutput.Shortest | src/generator/src/maze.py:297-309 | None exactly when no pathway was found; otherwise the first pathway of minimal length |
| MazeOutput.OutputText | src/generator/src/maze.py:315-369 | The file left behind always starts with the hexadecimal grid. The call completes exactly when the directions and the route were recorded; without directions the file holds the grid, the entry and the exit |
| MazeOutput.ValidPrintable | src/generator/src/maze.py:326-330 | A valid maze can be printed |
| MazeOutput.OutputReadsBack | src/generator/src/maze.py:315-369 | Every cell's state reads back from the written file, whether or not the call completed |
| MazeFacade.PrecheckAccepts | src/generator/src/maze.py:43-52 | The checks accept exactly positive sizes, a non-empty output file, and an entry and exit inside the grid that differ |
| MazeFacade.PrecheckZeroVersusNegative | src/generator/src/maze.py:43-52 | A zero width is "not provided"; a negative one reaches `set_width` and is "too small", and likewise for the height |
| MazeFacade.RouteSurvivesRelaxing | src/generator/src/maze.py:84-88 | The carved route's exit is still reachable after relaxing |
| MazeFacade.BuiltValid | src/generator/src/maze.py:84-99 | A built maze is valid |
| MazeFacade.Build | src/generator/src/maze.py:84-99 | Fails exactly as the carver does. Otherwise the maze is relaxed unless perfect, and the search fails exactly when the maze is not perfect, the path finder is on, and the exit is the entry or unreachable in the relaxed maze; on success the pathways are searched only when asked for and not perfect |
| MazeFacade.ConstructedFrom | src/generator/src/maze.py:35-100 | A maze whose fields come from a build satisfies the class invariant |
| MazeFacade.Maze.constructor | src/generator/src/maze.py:35-41 | A fresh maze has no size, no cells and no pathways |
| MazeFacade.Maze.Create | src/generator/src/maze.py:35-100 | `Maze(...)` fails the checks exactly as the setters do, fails on the logo or a walled-in entry exactly as the carver does, then fails the search exactly when not perfect, the path finder is on, and the exit is the entry or unreachable; otherwise gives a constructed maze |
| MazeFacade.Maze.SetWidth | src/generator/src/maze.py:117-120 | Refuses exactly widths below 1, keeping the old one |
| MazeFacade.Maze.SetHeight | src/generator/src/maze.py:126-129 | Refuses exactly heights below 1, keeping the old one |
| MazeFacade.Maze.SetEntry | src/generator/src/maze.py:135-140 | Refuses exactly entries outside the grid |
| MazeFacade.Maze.SetExit | src/generator/src/maze.py:146-153 | Refuses exits outside the grid or equal to the entry, with the matching error |
| MazeFacade.Maze.SetCell | src/generator/src/maze.py:165-170 | Replaces an existing cell and ignores an unknown coordinate |
| MazeFacade.Maze.GetCell | src/generator/src/maze.py:172-178 | The cell at a coordinate, or None exactly when there is none |
| MazeFacade.Maze.GetCellPosition | src/generator/src/maze.py:180-187 | The first coordinate holding the cell in column-major order, which is the dict's insertion order, or None exactly when no coordinate does |
| MazeFacade.Maze.Output | src/generator/src/maze.py:315-369 | The call completes exactly when the directions and the route were recorded, and every cell's state reads back from the file left behind |
| MazeFacade.Maze.InitBase | src/generator/src/maze.py:103-114 | The four setters in order; the fields are set exactly when all accept |
| MazeFacade.Maze.Fill | src/generator/src/maze.py:67-95 | Stores the build's cells, route and pathways |
| MazeFacade.Maze.Generate | src/generator/src/maze.py:53-99 | Keeps the size and ends; fails exactly as the carver does; after a successful carve, the search fails exactly when not perfect, the path finder is on, and the exit is the entry or unreachable; otherwise the maze satisfies the class invariant |
| PyInt.DigitValue | src/generator/src/config_validator.py:33-40 | A decimal digit's value is below 10 |
| PyInt.DigitChar | src/generator/src/maze.py:329 | The digit written for a value reads back as that value |
| PyInt.StripLeft | src/generator/src/config_validator.py:35 | Leading whitespace is removed |
| PyInt.StripRight | src/generator/src/config_validator.py:35 | Trailing whitespace is removed |
| PyInt.StripLeftSuffix | src/generator/src/config_validator.py:35 | Stripping the left keeps a suffix |
| PyInt.StripRightPrefix | src/generator/src/config_validator.py:35 | Stripping the right keeps a prefix |
| PyInt.NatToString | src/generator/src/maze.py:334-337 | `str(n)` is non-empty digits without a leading zero |
| PyInt.IntToStringChars | src/generator/src/maze.py:334-337 | `str(n)` ends with a digit and holds only digits and a minus sign |
| PyInt.NatToStringValue | src/generator/src/maze.py:334-337 | The digits of `str(n)` read back as n |
| PyInt.StripNoSpace | src/generator/src/config_validator.py:35 | A string without surrounding whitespace is its own strip |
| PyInt.ParseIntToString | src/generator/src/config_validator.py:33-50 | `int(str(n)) == n` for every integer |
| PyInt.ParseIntSpaces | src/generator/src/config_validator.py:33-50 | Surrounding whitespace does not change `int()` |
| PyInt.StripRightPad | src/generator/src/config_validator.py:35 | A trailing space is stripped |
| PyInt.StripLeftPad | src/generator/src/config_validator.py:35 | A trailing space is stripped after the left strip too |
| PyInt.ParseIntPlain | src/generator/src/config_validator.py:33-50 | Without surrounding whitespace, `int()` is the signed digit parse |
| PyInt.ParseIntRejects | src/generator/src/config_validator.py:33-50 | Empty, blank, sign-only, decimal and badly grouped texts raise ValueError |
| PyInt.ParseIntSigns | src/generator/src/config_validator.py:33-50 | One leading sign is accepted |
| PyInt.ParseIntGrouping | src/generator/src/config_validator.py:33-50 | Single underscores between digits and leading zeros are accepted |
| PyInt.HexRoundTrip | src/generator/src/maze.py:329-330 | `format(n, 'X')` of a mask is one digit that reads back as n and is not a separator |
| PyStr.CountIn | src/generator/src/config_validator.py:247 | A character is in a string exactly when it occurs in it |
| PyStr.Split | src/generator/src/config_validator.py:251 | `split` gives one more part than there are separators, none holding the separator |
| PyStr.JoinSplit | src/generator/src/config_validator.py:251 | Joining the parts of a split gives the string back |
| PyStr.SplitPrefix | src/generator/src/config_validator.py:251 | A separator-free prefix joins the first part |
| PyStr.SplitJoin | src/generator/src/config_validator.py:251 | Splitting separator-free parts joined by the separator gives the parts back |
| PyStr.SplitTwo | src/generator/src/config_validator.py:251-252 | `a=b` splits into exactly `[a, b]` |
| PyStr.LStrip | src/generator/src/config_validator.py:239 | A left strip removes the leading copies of the character |
| PyStr.RStrip | src/generator/src/config_validator.py:201 | A right strip removes the trailing copies of the character |
| PyStr.RStripPrefix | src/generator/src/config_validator.py:201 | A right strip keeps a prefix and removes only copies of the character |
| PyStr.RStripOne | src/generator/src/config_validator.py:201 | `rstrip("\n")` removes the one newline of a line |
| PyStr.StripCharsNone | src/generator/src/config_validator.py:239-243 | `strip(' ')` leaves a string without surrounding spaces unchanged |
| PyStr.ContainsAt | src/generator/src/config_validator.py:95-116 | A substring found at a position is contained |
| ConfigValidator.DefaultsCoverKeys | src/generator/src/config_validator.py:12-30 | The defaults have exactly the ten configuration keys |
| ConfigValidator.KeyKinds | src/generator/src/config_validator.py:12-30 | Every key is an integer, pair, file or boolean key; `DEFAULT_VALUES` is the extra member name; no member name holds '=' |
| ConfigValidator.ParseCoord | src/generator/src/config_validator.py:53-92 | An accepted coordinate has exactly one comma and both parts parse as integers |
| ConfigValidator.IntTextPlain | src/generator/src/config_validator.py:53-92 | `str(n)` has no comma, space or newline |
| ConfigValidator.CoordRoundTrip | src/generator/src/config_validator.py:53-92 | The text `x,y` parses back to `(x, y)` |
| ConfigValidator.CoordNeedsOneComma | src/generator/src/config_validator.py:56-57 | A value without exactly one comma is refused |
| ConfigValidator.ParseOutputFile | src/generator/src/config_validator.py:95-116 | A file name is accepted exactly when it ends in ".txt", has no space and no "..", and is not just ".txt" |
| ConfigValidator.OutputFileStem | src/generator/src/config_validator.py:95-116 | An accepted name has a non-empty stem that does not end in '.' |
| ConfigValidator.ParseBool | src/generator/src/config_validator.py:119-192 | A boolean is accepted exactly when it is "True" or "False" |
| ConfigValidator.BoolRoundTrip | src/generator/src/config_validator.py:119-192 | Booleans parse back from their text, and only from it |
| ConfigValidator.ParseValue | src/generator/src/config_validator.py:202-222 | Each key's value is parsed by its kind's parser and is refused exactly when that parser refuses it |
| ConfigValidator.ParseConfig | src/generator/src/config_validator.py:195-223 | Unknown keys are refused, and an accepted value has no space |
| ConfigValidator.ParseConfigAgrees | src/generator/src/config_validator.py:195-223 | The corrected parse and the code as written agree on every key but `DEFAULT_VALUES` |
| ConfigValidator.DefaultValuesKeyUnbound | src/generator/src/config_validator.py:197-223 | The key `DEFAULT_VALUES` passes the member check and ends unbound; the corrected parse refuses it |
| ConfigValidator.SpaceCheckedFirst | src/generator/src/config_validator.py:199-201 | A trailing space is refused before the newline is stripped, though `int()` would accept it |
| ConfigValidator.Classify | src/generator/src/config_validator.py:239-255 | A key=value line is exactly its key, '=' and its value, neither holding '=', and the value is not a lone newline |
| ConfigValidator.FillDefaults | src/generator/src/config_validator.py:228-233 | The dictionary starts as the defaults |
| ConfigValidator.ReadLinesStep | src/generator/src/config_validator.py:237-258 | Reading stops at the first failing line and otherwise continues from its result |
| ConfigValidator.ReadConfig | src/generator/src/config_validator.py:226-262 | The loop's result is reading all lines over the defaults, with the corrected key check of ParseConfig |
| ConfigValidator.ReadLinesAsWrittenAgrees | src/generator/src/config_validator.py:197-262 | On every file without a `DEFAULT_VALUES=` line, reading with the key check as written gives the same result as reading with the corrected one |
| ConfigValidator.ReadDefaultValuesLine | src/generator/src/config_validator.py:197-257 | A file whose first line assigns a plain value to `DEFAULT_VALUES` makes the reader as written end unbound, while the corrected reader refuses the key |
| ConfigValidator.ReadSkipsCommentsAndBlanks | src/generator/src/config_validator.py:239-246 | Comment and blank lines change nothing |
| ConfigValidator.ReadRefusesShape | src/generator/src/config_validator.py:247-255 | A line that is not one key=value with a value is refused |
| ConfigValidator.LineKeepsKeys | src/generator/src/config_validator.py:256-257 | A line keeps the dictionary's keys the configuration keys |
| ConfigValidator.ReadKeepsKeys | src/generator/src/config_validator.py:256-257 | A successful read has exactly the configuration keys |
| ConfigValidator.ReadLineAssignment | src/generator/src/config_validator.py:256-257 | An accepted assignment stores its value under its key |
| ConfigValidator.ReadLinesAppend | src/generator/src/config_validator.py:237-258 | Reading one more line continues from the earlier result |
| ConfigValidator.ReadLaterLineWins | src/generator/src/config_validator.py:256-257 | A later assignment overrides an earlier one |
| ConfigValidator.PlainAround | src/generator/src/config_validator.py:199 | Two values without spaces joined by a comma have no space |
| ConfigValidator.ValueTextReads | src/generator/src/config_validator.py:202-222 | Every writable value's text parses back to the value |
| ConfigValidator.ClassifyWrittenLine | src/generator/src/config_validator.py:239-255 | A written `key=value` line is read as that assignment |
| ConfigValidator.ParseWrittenValue | src/generator/src/config_validator.py:195-223 | A written value parses back under its key |
| ConfigValidator.ReadWrittenLine | src/generator/src/config_validator.py:237-258 | A written line stores its value and reading continues |
| ConfigValidator.ReadWrittenConfig | src/generator/src/config_validator.py:226-262 | A written configuration reads back as its entries over the start dictionary |
| ConfigChecker.ConvertInput | src/generator/src/config_checker.py:17-36 | Succeeds exactly for WIDTH and HEIGHT with an integer value; the other known keys end unbound |
| ConfigChecker.ConvertWrittenSize | src/generator/src/config_checker.py:22-33 | A written size converts back to its integer |
| ConfigChecker.SizeKeyPlain | src/generator/src/config_checker.py:7-13 | Size keys hold no '=' |
| ConfigChecker.ZeroKeys | src/generator/src/config_checker.py:41-43 | Every key starts at 0 |
| ConfigChecker.CheckLinesStep | src/generator/src/config_checker.py:47-57 | Reading stops at the first failing line and otherwise continues |
| ConfigChecker.CheckConfig | src/generator/src/config_checker.py:39-57 | The loop's result is reading all lines over the zeros |
| ConfigChecker.CheckRefusesShape | src/generator/src/config_checker.py:49-53 | A line that is not one key=value with a value is refused |
| ConfigChecker.CheckStoresOnlySizes | src/generator/src/config_checker.py:54-55 | A successful read keeps the keys and changes only the sizes |
| ConfigChecker.CheckLinesAppend | src/generator/src/config_checker.py:47-57 | Reading one more line continues from the earlier result |
| ConfigChecker.CheckAssignment | src/generator/src/config_checker.py:51-55 | A converted assignment stores its value |
| ConfigChecker.CheckWrittenSize | src/generator/src/config_checker.py:54-55 | A written size line stores the size |
| ConfigChecker.CheckLaterSizeWins | src/generator/src/config_checker.py:54-55 | A later size line overrides an earlier one |
| CellObjects.NewCell | src/generator/src/cell.py:5-11 | A new cell is closed, unvisited and unlinked, with the given fixed flag |
| CellObjects.GridLinksAt | src/generator/src/maze_class.py:235-250 | A cell's links are its grid neighbours, None at the edges |
| CellObjects.WallTableFoundExactly | src/generator/src/cell.py:43-44 | The wall table is found for every cell class except cell.py's |
| CellObjects.CanGo | src/generator/src/maze_class.py:57-60 | A cell can be left in a direction exactly when that wall is open |
| CellObjects.CheckIfCanGo | src/generator/src/cell.py:42-46 | Raises exactly when the class's wall table is missing |
| CellObjects.CheckIfCanGoFound | src/generator/src/unused/cell.py:39-58 | With a wall table, the check is whether the wall is open |
| CellObjects.CellPyCannotCheck | src/generator/src/cell.py:44 | cell.py's check always raises AttributeError |
| CellObjects.Opened | src/generator/src/maze_class.py:65-82 | Opening keeps the set of cells |
| CellObjects.OpenOutcome | src/generator/src/cell.py:51-68 | Raises exactly when the wall could be opened but the wall table is missing |
| CellObjects.OpenOutcomeFound | src/generator/src/unused/cell.py:60-91 | With a wall table, opening succeeds, and it changes nothing when there is no neighbour or the neighbour is fixed |
| CellObjects.CellPyCannotOpen | src/generator/src/cell.py:56 | cell.py raises AttributeError whenever it would open a wall |
| CellObjects.OpenedEffect | src/generator/src/maze_class.py:65-82 | Opening clears the wall on both sides and keeps every other wall |
| CellObjects.OpenedNeverCloses | src/generator/src/maze_class.py:65-82 | Opening never closes a wall |
| CellObjects.OpenedIdempotent | src/generator/src/maze_class.py:65-82 | Opening the same wall twice is opening it once |
| CellObjects.OpenedLetsThrough | src/generator/src/maze_class.py:65-82 | After opening, both cells can be left through that wall |
| CellObjects.MoveTo | src/generator/src/unused/cell.py:39-58 | The player moves exactly when the wall is open and there is a neighbour, and it lands on that neighbour |
| CellObjects.PlayerOverCellPy | src/generator/src/player.py:35 | Over cell.py cells every move raises AttributeError |
| CellObjects.PlayerMissesLinks | src/generator/src/player.py:36 | Over maze_class.py cells a move through an open wall raises AttributeError |
| CellObjects.PlayerOverUnusedCells | src/generator/src/player.py:19-40 | Over unused/cell.py cells a move is the intended move |
| CellObjects.CellGraph.constructor | src/generator/src/maze_class.py:223-250 | The graph holds the given cells of the given class |
| CellObjects.CellGraph.OpenDirection | src/generator/src/cell.py:51-68 | The cells become the opening's outcome, or stay as they were when it raises |
| CellObjects.Player.constructor | src/generator/src/player.py:8-9 | The player stands on the given cell |
| CellObjects.Player.SetCell | src/generator/src/player.py:14-17 | None leaves the player where it is; a cell moves the player there |
| CellObjects.Player.Move | src/generator/src/player.py:19-40 | The player's move and new cell are the intended move |
| ObjectMaze.SetterCheckAccepts | src/generator/src/maze_class.py:115-160 | The setters accept exactly positive sizes and an entry and exit inside the grid |
| ObjectMaze.PlacedMember | src/generator/src/maze_class.py:211-215 | A cell is in the placed template exactly when it minus the centre is a template offset |
| ObjectMaze.PlacedStep | src/generator/src/maze_class.py:213-221 | Each loop step places one more template cell |
| ObjectMaze.PlacedHas | src/generator/src/maze_class.py:213-221 | Every template cell is placed |
| ObjectMaze.PlacedCount | src/generator/src/maze_class.py:191-221 | Distinct template cells place as many cells |
| ObjectMaze.LogoCellsFit | src/generator/src/maze_class.py:187-221 | Below 9 x 7 there is no logo; otherwise the logo has 18 cells, all inside the grid |
| ObjectMaze.Records | src/generator/src/maze_class.py:19-26 | The wall records have the same coordinates as the cell objects |
| ObjectMaze.LinkedGrid | src/generator/src/maze_class.py:223-250 | In a linked grid, a link is None exactly at the edge, otherwise the neighbour, and links point back |
| ObjectMaze.InitialGridValid | src/generator/src/maze_class.py:223-252 | The initial grid is linked; its records are closed cells with exactly the logo fixed, symmetric and with a closed border |
| ObjectMaze.RecordsUpdate | src/generator/src/maze_class.py:65-82 | Updating a cell object updates its record |
| ObjectMaze.OpenedIsOpenEdge | src/generator/src/maze_class.py:65-82 | Opening a cell object's wall is opening that edge in the records, and keeps the grid linked |
| ObjectMaze.AfterOpenKeepsFacts | src/generator/src/maze_class.py:65-82 | Opening keeps the grid's facts and only opens walls |
| ObjectMaze.PlayerMove | src/generator/src/maze_class.py:93-102 | The player moves exactly when the wall is open; otherwise it stays |
| ObjectMaze.PlayerMoveInGrid | src/generator/src/maze_class.py:93-102 | In a linked grid with a closed border, a move is one step and stays inside the grid |
| ObjectMaze.OpenStates | src/generator/src/maze_class.py:65-82 | The opening's new wall states |
| ObjectMaze.RelinkCell | src/generator/src/maze_class.py:234-250 | A cell's links become its grid neighbours |
| ObjectMaze.MakeRow | src/generator/src/maze_class.py:227-230 | One row of new cells is added and every other cell is kept |
| ObjectMaze.LinkRow | src/generator/src/maze_class.py:231-250 | One row is linked to its neighbours and every other cell is kept |
| ObjectMaze.BuildGrid | src/generator/src/maze_class.py:223-250 | Every grid cell is new and linked, and cells outside the grid are kept |
| ObjectMaze.FixLogo | src/generator/src/maze_class.py:187-221 | Raises exactly when a logo cell is missing; otherwise exactly the logo cells become fixed |
| ObjectMaze.FixTemplate | src/generator/src/maze_class.py:211-221 | The template placed at the centre becomes fixed, or the call raises when a cell is missing |
| ObjectMaze.Initiate | src/generator/src/maze_class.py:223-252 | `initiate_cells` builds the linked grid and fixes the logo |
| ObjectMaze.BuiltThenFixed | src/generator/src/maze_class.py:223-252 | Building the grid and then fixing the logo gives the initiated grid |
| ObjectMaze.BuiltThenFixedKeys | src/generator/src/maze_class.py:223-252 | The same coordinates as the initiated grid |
| ObjectMaze.BuiltThenFixedInside | src/generator/src/maze_class.py:223-252 | The same cells inside the grid |
| ObjectMaze.BuiltThenFixedOutside | src/generator/src/maze_class.py:223-252 | The same cells outside the grid |
| ObjectMaze.InitiatedEmpty | src/generator/src/maze_class.py:115-123 | Initiating an empty maze gives the initial grid, which satisfies the grid facts |
| ObjectMaze.Maze.constructor | src/generator/src/maze_class.py:115-123 | A fresh maze has no size and no cells |
| ObjectMaze.Maze.Create | src/generator/src/maze_class.py:115-123 | Fails exactly when a setter refuses; otherwise a valid maze of the initial grid with the player on the entry |
| ObjectMaze.Maze.SetWidth | src/generator/src/maze_class.py:126-129 | Refuses exactly widths below 1 |
| ObjectMaze.Maze.SetHeight | src/generator/src/maze_class.py:135-138 | Refuses exactly heights below 1 |
| ObjectMaze.Maze.SetEntry | src/generator/src/maze_class.py:144-149 | Refuses exactly entries outside the grid |
| ObjectMaze.Maze.SetExit | src/generator/src/maze_class.py:155-160 | Refuses exactly exits outside the grid |
| ObjectMaze.Maze.SetCell | src/generator/src/maze_class.py:172-174 | Replaces an existing cell and ignores an unknown coordinate |
| ObjectMaze.Maze.GetCell | src/generator/src/maze_class.py:176-179 | The cell at a coordinate, or None exactly when there is none |
| ObjectMaze.Maze.GenerateFtLogo | src/generator/src/maze_class.py:187-221 | Raises exactly when a logo cell is missing; otherwise fixes exactly the logo cells |
| ObjectMaze.Maze.InitiateCells | src/generator/src/maze_class.py:223-252 | The cells become the initiated grid |
| ObjectMaze.Maze.Start | src/generator/src/maze_class.py:121-123 | The grid is initiated and the player stands on the entry |
| ObjectMaze.Maze.OpenCellDirection | src/generator/src/maze_class.py:65-82 | Opening a wall keeps the maze valid |
| ObjectMaze.Maze.MovePlayer | src/generator/src/maze_class.py:261-262 | The player's move, which keeps the maze valid |
| ObjectMaze.Maze.LinkedGridStep | src/generator/src/maze_class.py:99-100 | A link of a valid maze leads to a cell of the maze |
| ObjectMaze.Maze.PutPlayerAt | src/generator/src/maze_class.py:264-267 | The player moves to an existing cell and ignores an unknown coordinate |
| ObjectMaze.Maze.PlayerCoordinates | src/generator/src/maze_class.py:269-270 | The player's coordinate, or None when the player's cell is not in the maze |
| EarlyMaze.Named | src/maze_class.py:52-53 | A direction named by a string is the one whose name it is |
| EarlyMaze.NamedName | src/maze_class.py:52-53 | Every direction's name names it |
| EarlyMaze.CheckIfCanGo | src/maze_class.py:36-45 | An unknown name lets the player through; a direction is passable exactly when its wall is open |
| EarlyMaze.OpenedAsWritten | src/maze_class.py:22-34 | Opening as written keeps the set of cells |
| EarlyMaze.Opened | src/maze_class.py:22-34 | Opening as intended keeps the set of cells |
| EarlyMaze.Records | src/maze_class.py:14-19 | The wall records have the same coordinates as the cells |
| EarlyMaze.RecordsUpdate | src/maze_class.py:22-34 | Updating a cell updates its record |
| EarlyMaze.AsWrittenWhenClosed | src/maze_class.py:22-34 | When both walls are closed and the cell's opposite wall is closed, the code as written opens the edge as intended |
| EarlyMaze.AsWrittenLeavesNeighbourClosed | src/maze_class.py:22-34 | A cell with its south wall already open opens north, but its neighbour's south wall stays closed |
| EarlyMaze.AsWrittenTwiceCorrupts | src/maze_class.py:22-34 | Opening the same wall twice also opens the neighbour's west wall |
| EarlyMaze.OpenedIsOpenEdge | src/maze_class.py:22-34 | The intended opening is opening that edge in the records, and it keeps the grid linked |
| EarlyMaze.OpenedRecords | src/maze_class.py:22-34 | The intended opening is opening that edge in the records |
| EarlyMaze.OpenedKeepsLinks | src/maze_class.py:22-34 | The intended opening keeps the links |
| EarlyMaze.StateUpdateKeepsLinks | src/maze_class.py:24-25 | Changing a state keeps the links |
| EarlyMaze.OpenedKeepsFacts | src/maze_class.py:22-34 | The intended opening keeps the grid's facts, only opens walls, and opens the wall |
| EarlyMaze.OpenedWhenOpen | src/maze_class.py:22-34 | Opening an open edge changes nothing |
| EarlyMaze.OpenedIdempotent | src/maze_class.py:22-34 | Opening twice is opening once |
| EarlyMaze.PlayerStep | src/maze_class.py:146-176 | The step raises KeyError exactly when the player's coordinate has no cell and the move would be tried. It moves exactly when the name is a direction, the player is not at that edge, and the wall is open |
| EarlyMaze.PlayerStepInside | src/maze_class.py:146-176 | A step from inside the grid stays inside |
| EarlyMaze.WalkStaysInside | src/maze_class.py:146-176 | A walk from inside the grid stays inside |
| EarlyMaze.WalkNeverFails | src/maze_class.py:146-176 | Over a full grid a walk never raises |
| EarlyMaze.MakeRow | src/maze_class.py:115-118 | One row of fresh cells is added and every other cell is kept |
| EarlyMaze.LinkRow | src/maze_class.py:119-137 | One row is linked to its neighbours and every other cell is kept |
| EarlyMaze.Initiate | src/maze_class.py:112-137 | `initiate_cells` builds the linked grid |
| EarlyMaze.InitiatedKeys | src/maze_class.py:112-137 | The loops give exactly the initiated coordinates |
| EarlyMaze.InitiatedEmpty | src/maze_class.py:112-137 | An empty maze initiates to the grid of closed cells, which satisfies the grid facts |
| EarlyMaze.OpenDirectionOf | src/maze_class.py:22-34 | The intended opening |
| EarlyMaze.Maze.constructor | src/maze_class.py:55-63 | A fresh maze has no size |
| EarlyMaze.Maze.Create | src/maze_class.py:55-63 | Fails exactly when a setter refuses; otherwise a valid maze of the initiated grid with the player on the entry |
| EarlyMaze.Maze.SetWidth | src/maze_class.py:66-69 | Refuses exactly widths below 1 |
| EarlyMaze.Maze.SetHeight | src/maze_class.py:75-78 | Refuses exactly heights below 1 |
| EarlyMaze.Maze.SetEntry | src/maze_class.py:84-89 | Refuses exactly entries outside the grid |
| EarlyMaze.Maze.SetExit | src/maze_class.py:95-100 | Refuses exactly exits outside the grid |
| EarlyMaze.Maze.InitiateCells | src/maze_class.py:112-137 | The cells become the initiated grid |
| EarlyMaze.Maze.Configure | src/maze_class.py:55-60 | The four setters in order; the fields are set exactly when all accept |
| EarlyMaze.Maze.Start | src/maze_class.py:61-63 | The grid is initiated and the player stands on the entry |
| EarlyMaze.Maze.SetCells | src/maze_class.py:106-107 | The cells are replaced |
| EarlyMaze.Maze.SetPlayer | src/maze_class.py:184-185 | The player is placed without any check |
| EarlyMaze.Maze.OpenDirection | src/maze_class.py:22-34 | The intended opening keeps the maze valid |
| EarlyMaze.Maze.MovePlayer | src/maze_class.py:146-176 | The player's step, or KeyError leaving the player in place |
| WallCombinations.ClosingIsBit | src/maze_generator.py:12-19 | Each listed set holds exactly the masks with that wall closed |
| WallCombinations.ClosingAt | src/maze_generator.py:12-19 | A mask is in a direction's set exactly when that wall is closed |
| WallCombinations.MaskCases | src/maze_generator.py:11-23 | A 4-bit mask is one of 0 to 15 |
| WallCombinations.CombinationsAreAllMasks | src/maze_generator.py:11-23 | The union of the sets is exactly the 16 masks |
| WallCombinations.WallCombinations | src/maze_generator.py:22-23 | The tuple has 16 entries |
| WallCombinations.WallCombinationsExactlyOnce | src/maze_generator.py:11-23 | Every mask occurs in the tuple exactly once |
| WallCombinations.DictKeysHas | src/maze_generator.py:31-33 | The keys are exactly the (row, column) pairs of the loops |
| WallCombinations.DictKeysAreGrid | src/maze_generator.py:31-33 | A key is a grid cell with its coordinates swapped |
| WallCombinations.RowKeysCount | src/maze_generator.py:32-33 | A row has width keys |
| WallCombinations.DictKeysSplit | src/maze_generator.py:31-33 | The keys are the earlier rows plus the last row, which do not overlap |
| WallCombinations.DictKeysCount | src/maze_generator.py:31-33 | There are width * height keys |
| WallCombinations.MazeDictValues | src/maze_generator.py:28-34 | Every value is one of the wall combinations, a 4-bit mask |
| WallCombinations.GetMazeDict | src/maze_generator.py:28-34 | The loops build the dictionary of drawn masks |
| WallCombinations.MazeDictIs | src/maze_generator.py:28-34 | A dictionary with those keys and the drawn values is the maze dictionary |
| WallCombinations.FillRow | src/maze_generator.py:32-33 | One row of keys gets its drawn masks and the other entries are kept |
| WallCombinations.ScanOrderComplete | src/generator/src/maze_generator.py:38 | The scan tries every direction |
| WallCombinations.CanGoSomewhere | src/generator/src/maze_generator.py:37-46 | True exactly when some neighbour exists and is neither visited nor fixed |
| WallCombinations.CanGoInGrid | src/generator/src/maze_generator.py:37-46 | In a linked grid this is having an unvisited, unfixed neighbour inside the grid |
| Events.Added | src/visualizer/src/core/events.py:22-27 | The event gets the callback and every other event is unchanged |
| Events.Removed | src/visualizer/src/core/events.py:30-34 | KeyError exactly when the event has listeners but not this one; otherwise exactly that callback leaves |
| Events.AddedIdempotent | src/visualizer/src/core/events.py:24-25 | Adding a listener twice is adding it once |
| Events.AddedThenRemoved | src/visualizer/src/core/events.py:22-34 | Removing a newly added listener restores the listeners |
| Events.RemovedWithoutListeners | src/visualizer/src/core/events.py:31-33 | Removing from an event without listeners changes nothing |
| Events.EventManager.constructor | src/visualizer/src/core/events.py:5 | The bus starts without listeners |
| Events.EventManager.GetEvents | src/visualizer/src/core/events.py:8-12 | The events are the dictionary's keys |
| Events.EventManager.GetListeners | src/visualizer/src/core/events.py:15-19 | The event's listeners, or none |
| Events.EventManager.AddListener | src/visualizer/src/core/events.py:22-27 | The listeners after adding |
| Events.EventManager.RemoveListener | src/visualizer/src/core/events.py:30-34 | The listeners after removing, or KeyError with nothing changed |
| Events.EventManager.TriggerEvent | src/visualizer/src/core/events.py:36-41 | Calls exactly the event's listeners, each once |
| Input.EventNameInjective | src/visualizer/src/core/input.py:16-43 | Two key events have the same name exactly when they are the same kind for the same key |
| Input.ButtonKeys | src/visualizer/src/core/input.py:56-61 | Button 1 is XK_Pointer_Button1; different buttons are different keys and different press events |
| Input.InputManager.constructor | src/visualizer/src/core/input.py:8 | No key starts held down |
| Input.InputManager.OnUpdate | src/visualizer/src/core/input.py:11-13 | Fires one hold event per held key, each once |
| Input.InputManager.AddKeyListener | src/visualizer/src/core/input.py:16-28 | Adds the listener to the key event's name |
| Input.InputManager.RemoveKeyListener | src/visualizer/src/core/input.py:31-43 | Removes the listener from the key event's name, or KeyError |
| Input.InputManager.TriggerPress | src/visualizer/src/core/input.py:46-48 | Calls exactly the press listeners and marks the key held |
| Input.InputManager.TriggerRelease | src/visualizer/src/core/input.py:51-53 | Calls exactly the release listeners and marks the key released |
| Input.InputManager.TriggerButtonPress | src/visualizer/src/core/input.py:56-57 | A button press is the press of its pointer key |
| Input.InputManager.TriggerButtonRelease | src/visualizer/src/core/input.py:60-61 | A button release is the release of its pointer key |
| Input.KeyListenerIsolated | src/visualizer/src/core/input.py:16-43 | Adding a listener for one key event leaves every other key event's listeners unchanged |
| PyList.IndexOf | src/visualizer/src/core/sprite.py:58-62 | The first position holding the element, or None exactly when it is absent |
| PyList.RemoveFirst | src/visualizer/src/core/scenes/base_scene.py:49-51 | `list.remove` takes out exactly the first occurrence and keeps the order, or raises when the element is absent |
| PyList.RemoveAppended | src/visualizer/src/core/sprite.py:106-110 | Removing an element just appended gives the list back |
| PyList.RemoveFirstKeeps | src/visualizer/src/core/sprite.py:109-110 | What `list.remove` leaves was in the list |
| Sprites.Find | src/visualizer/src/core/sprite.py:39-42 | The first sprite with the path, or None exactly when there is none |
| Sprites.LoadedSpec | src/visualizer/src/core/sprite.py:35-45 | Refuses exactly a falsy user, or a new path whose file does not load. Otherwise the pool stays valid, the sprite has the user appended, and other sprites are kept |
| Sprites.FindAt | src/visualizer/src/core/sprite.py:58-62 | The first sprite with the path is found |
| Sprites.UpdatedValid | src/visualizer/src/core/sprite.py:39-42 | Updating a sprite's users keeps the pool valid |
| Sprites.AppendedValid | src/visualizer/src/core/sprite.py:43-45 | Appending a sprite for a new path keeps the pool valid |
| Sprites.DroppedValid | src/visualizer/src/core/sprite.py:53-55 | Dropping a sprite keeps the pool valid and forgets its path |
| Sprites.KeptValid | src/visualizer/src/core/sprite.py:52-53 | A sprite that keeps users keeps the pool valid |
| Sprites.UnloadedSpec | src/visualizer/src/core/sprite.py:48-55 | An unknown path leaves the pool as it is. ValueError exactly when the sprite exists without this user. The last user's leaving removes the sprite; otherwise one use of the user goes. Every other sprite is kept |
| Sprites.LoadThenUnload | src/visualizer/src/core/sprite.py:35-55 | Unloading what was just loaded restores the pool |
| Sprites.UnloadAdded | src/visualizer/src/core/sprite.py:41-55 | Unloading a user just added to a sprite restores the pool |
| Sprites.UnloadAppended | src/visualizer/src/core/sprite.py:43-55 | Unloading a sprite just created restores the pool |
| Sprites.SpriteManager.constructor | src/visualizer/src/core/sprite.py:32 | The pool starts empty |
| Sprites.SpriteManager.Lookup | src/visualizer/src/core/sprite.py:58-62 | The scan's answer is `Find` |
| Sprites.SpriteManager.GetSprite | src/visualizer/src/core/sprite.py:57-62 | A pooled sprite with the path, or None exactly when there is none |
| Sprites.SpriteManager.LoadSprite | src/visualizer/src/core/sprite.py:34-45 | The pool and the answer after loading, or the error with nothing changed |
| Sprites.SpriteManager.UnloadSprite | src/visualizer/src/core/sprite.py:47-55 | The pool after unloading, or the error with nothing changed |
| Scenes.FirstNamed | src/visualizer/src/core/scenes/base_scene.py:22-44 | The first node with the name, or None exactly when no node has it |
| Scenes.NamedAt | src/visualizer/src/core/scenes/base_scene.py:22-44 | A name's first position is what the lookups find |
| Scenes.AddedFound | src/visualizer/src/core/scenes/base_scene.py:46-47 | An added node is found by its name unless an earlier node has the same name |
| Scenes.AddedKeepsOthers | src/visualizer/src/core/scenes/base_scene.py:46-47 | Adding a node leaves every other name's lookup unchanged |
| Scenes.BaseScene.constructor | src/visualizer/src/core/scenes/base_scene.py:9-14 | The scene holds the given nodes, or none |
| Scenes.BaseScene.Contains | src/visualizer/src/core/scenes/base_scene.py:16-20 | True exactly when some node has the name |
| Scenes.BaseScene.Lookup | src/visualizer/src/core/scenes/base_scene.py:24-27 | The scan finds the first node with the name |
| Scenes.BaseScene.GetItem | src/visualizer/src/core/scenes/base_scene.py:22-37 | The first node with the name, or EngineElementNotFound exactly when there is none |
| Scenes.BaseScene.GetNode | src/visualizer/src/core/scenes/base_scene.py:39-44 | The first node with the name, or None exactly when there is none |
| Scenes.BaseScene.AddNode | src/visualizer/src/core/scenes/base_scene.py:46-47 | The node joins the end of the scene |
| Scenes.BaseScene.RemoveNode | src/visualizer/src/core/scenes/base_scene.py:49-51 | The node is destroyed on both paths; then its first occurrence leaves, or ValueError with the list unchanged |
| Scenes.BaseScene.OnUnload | src/visualizer/src/core/scenes/base_scene.py:53-56 | Every node is destroyed in order and the scene is emptied |
| CellSprites.WallWord | src/visualizer/src/components/cell_component.py:30-37 | Each wall's word is non-empty and has no '-' |
| CellSprites.WordIf | src/visualizer/src/components/cell_component.py:30-37 | A wall's word is present exactly when the wall is closed |
| CellSprites.WallWords | src/visualizer/src/components/cell_component.py:29-37 | At most four words, none with '-' |
| CellSprites.DashedAppend | src/visualizer/src/components/cell_component.py:29-37 | Dashing two word lists is dashing each |
| CellSprites.DashedJoin | src/visualizer/src/components/cell_component.py:38 | A dashed list is '-' followed by the words joined by '-' |
| CellSprites.AppendedStep | src/visualizer/src/components/cell_component.py:30-37 | Each "-".join step adds '-' and the word exactly when the wall is closed |
| CellSprites.GrownDashed | src/visualizer/src/components/cell_component.py:29-37 | The grown name is every closed wall's word, each preceded by '-' |
| CellSprites.WallSpriteNameWords | src/visualizer/src/components/cell_component.py:26-40 | No walls show no sprite; otherwise the closed walls' words joined by '-', then ".png" |
| CellSprites.WallWordsHave | src/visualizer/src/components/cell_component.py:30-37 | A wall's word is in the name exactly when the wall is closed |
| CellSprites.WallSpriteNameShape | src/visualizer/src/components/cell_component.py:29-39 | A mask with a closed wall names one to four words and starts with a word |
| CellSprites.WallSpriteNameInjective | src/visualizer/src/components/cell_component.py:29-40 | Different masks show different sprites |
| CellSprites.CellDict.constructor | src/visualizer/src/components/cell_component.py:13 | The shared cell record holds the state and the fixed flag |
| CellSprites.Renderer.constructor | src/visualizer/src/components/cell_component.py:11 | The renderer shows the given file |
| CellSprites.CellComponent.constructor | src/visualizer/src/components/cell_component.py:8-13 | The component draws the given cell with the given renderer |
| CellSprites.CellComponent.OnInit | src/visualizer/src/components/cell_component.py:8-18 | A fixed cell shows "fixed.png"; the state is read once |
| CellSprites.CellComponent.OnUpdate | src/visualizer/src/components/cell_component.py:20-40 | Fixed cells and cells whose state changed keep their sprite; others show their state's sprite |

## Left out

- Randomness is an oracle: `shuffle`, `choice` and `random()` are parameters. `seed` and the random generator behind them are not modelled, and neither is the probability 1/5 of `WALL_OPENING_CHANCE`.
- File and console I/O is not modelled:
  - `print_output` is modelled as the text it would leave in the file, including the part written before its TypeError (MazeOutput.OutputText);
  - `read_config` reads the lines that `readline` would return, and its `FileNotFoundError` exit is not modelled;
  - all `print` calls are left out.
- The `__main__` demonstration blocks are not modelled. This covers the player-driven loop of src/generator/src/maze_generator.py:49-114, src/maze_class.py:188-282 and src/generator/src/maze_class.py:296-361. The method `Maze.print_output` of src/generator/src/maze_class.py:277-293 writes a file and is not modelled. The line loop of config_checker.py's `__main__` is the exception: it is modelled as ConfigChecker.CheckConfig.
- The player methods of the engine's `Maze` (src/generator/src/maze.py:222-286) are not modelled. They call `get_coordinates` and `set_coordinates`, which the `Player` of player.py does not have, and `get_adjacent_cells` with a Player for a coordinate. The constructor's `Player(self._cells[entry])` (maze.py:75) wraps a cell record that the model does not keep.
- Object identity and aliasing are modelled by value:
  - cells are named by their coordinate;
  - nodes, callbacks and sprite users are named by a number;
  - `get_cells`, `get_nodes` and `get_references` return values;
  - a scene built from a given list does not share that list with the caller.
- Iteration order of dicts and sets is not modelled:
  - `on_update` and `trigger_event` visit keys and listeners in an unspecified order;
  - Input.InputManager.OnUpdate and Events.EventManager.TriggerEvent state only which ones they visit, each once;
  - `get_possible_wall_combinations` is taken in ascending order, which is how CPython iterates a set of small integers.
- What a callback, `on_destroy` or a listener does is code outside the model. So is changing a set while it is iterated.
- Direction strings outside the four names are not modelled, except in EarlyMaze, whose code tests the names one by one. The engine indexes `WALLS[direction]`, which would raise KeyError for them.
- `int()` is modelled for ASCII text only. Unicode digits and Unicode whitespace are not modelled.
- The image library is an oracle (`FileStatus`): `cv2` loading, alpha channels and image sizes are not modelled. Sprite paths are not resolved against the file system.
- The X11 keysym table is not part of this model. Only XK_Pointer_Button1 = 0xFEE9 is used.
- `ft_logo` is always on in the engine, because its constructor turns a false `ft_logo` into True (maze.py:53-54). The `ft_logo` parameter of the carver is kept, but the facade always passes True.
- WallCombinations.CanGoSomewhere models the body of `can_go_somewhere`. Its module, src/generator/src/maze_generator.py, imports `print_output` from maze_class.py (line 5), which defines it only as a method of `Maze`, so importing that module raises ImportError and the function cannot be reached as written. The wall-mask and dict helpers that file shares are cited from src/maze_generator.py, which imports only `Maze`.
- MazeFacade.Maze.GetCellPosition requires the keys to be exactly the grid, which `__init__` gives and `set_cell` keeps. A dict given to `set_cells` with other keys or another insertion order is not covered.
- ConfigChecker.ConvertInput assumes Python 3.12 or later, where `key not in cls` on an Enum tests the members' values. On Python 3.10 and 3.11 the test raises TypeError for every string key.
- ConfigValidator.ReadConfig and ConfigValidator.ReadLine parse with the corrected key check. On a `DEFAULT_VALUES=` line the code as written raises UnboundLocalError instead (ConfigValidator.ReadDefaultValuesLine); on every other file the two agree (ConfigValidator.ReadLinesAsWrittenAgrees).
- Carver.DfsGeneration requires the entry and exit inside the grid. The `Maze` setters check this before the carver runs.
- Pathfinder.PathFinder requires a grid-shaped cell map holding the entry. The carver's result always is one.
- CellObjects.Opened requires every link to name a cell of the map (`Closed`). This holds whenever cells are linked by `initiate_cells`.
- MazeFacade.Maze.Output requires the class invariant `Valid()`, which a constructed maze satisfies.
- Pathfinder.PathFinderDfs states only that the first arrival raises. What the code as written does before that arrival is modelled by the shared search.
- CellSprites.CellComponent.OnUpdate models the cached state as written: it is read once in `on_init` and never refreshed.

## Findings

| source | as written | input that shows it | evidently intended | confidence | as-written member | corrected member |
|---|---|---|---|---|---|---|
| src/generator/src/generator.py:66 | `dfs_generation` calls `maze.get_ft_logo_cells()`, which `Maze` does not define, and `Maze.__init__` always turns `ft_logo` on, so it raises AttributeError before carving | any maze built by `Maze(...)` | the logo cells of the grid, as `Generator.__get_ft_logo_cells` gives them in maze.py:486-491 | not executed | Carver.GeneratorDfsGeneration | Carver.DfsGeneration |
| src/generator/src/pathfinder.py:96 | After an arrival, `maze.get_adjacent_cells(point, width, height)` passes three arguments to a method that takes one, so the first arrival raises TypeError | any maze whose exit is reachable and differs from the entry | `maze.get_adjacent_cells(point)`, as on line 88, returning the pathways found | not executed | Pathfinder.PathFinderDfs | Pathfinder.PathFinder |
| src/generator/src/config_validator.py:197-223 | `DEFAULT_VALUES` is a member of `AvailableKeys`, so it passes the key check. No `case` binds `result` for it, so it raises UnboundLocalError | the line `DEFAULT_VALUES=0` | refuse the key as unknown, like any other name that is not a configuration key | not executed | ConfigValidator.DefaultValuesKeyUnbound | ConfigValidator.ParseConfig |
| src/generator/src/cell.py:44 | `check_if_can_go` reads `Maze.CLOSE_WALLS`, which maze.py's `Maze` does not define (it has `WALLS`), so it raises AttributeError | any call, e.g. `Cell().check_if_can_go("N")` | test the wall bit, as maze_class.py:57-60 does | not executed | CellObjects.CellPyCannotCheck | CellObjects.CanGo |
| src/generator/src/player.py:36 | `move_to` reads `self._cell._adjacent`, but the maze's cells store their links in `_adyacent`, so a move through an open wall raises AttributeError | a player on a maze_class.py cell whose north wall is open, moving north | follow the link to the neighbour | not executed | CellObjects.PlayerMissesLinks | CellObjects.MoveTo |
| src/maze_class.py:22-34 | The neighbour subtracts `self._state & CLOSE_WALLS[opposite]`, which is the cell's own updated state, not the neighbour's | a 1 x 3 column: opening north from the middle cell (state 11, south already open) leaves the top cell's south wall closed | subtract the neighbour's own bit, as maze_class.py:71-82 does | not executed | EarlyMaze.AsWrittenLeavesNeighbourClosed | EarlyMaze.OpenedKeepsFacts |
