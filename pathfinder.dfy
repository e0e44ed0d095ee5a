/**
 * The multi-path search `Generator.path_finder` (src/generator/src/maze.py:557-639)
 * and its split-out copy `PathFinder.path_finder_dfs`
 * (src/generator/src/pathfinder.py:15-97).
 *
 * The search walks a stack `passed` from the entry through open walls,
 * never into a cell already on the stack or already known to be a dead end
 * (`wrong`). A cell with no move left is popped and remembered as a dead
 * end; reaching the exit records the stack as a pathway (unless it was
 * found before) and restarts from the entry, keeping the dead ends. The
 * search stops after `PathAttempts` arrivals. `shuffle(directions)` is the
 * oracle `order`: iteration `i` tries the directions in the order `order(i)`.
 */
module Pathfinder {
  import opened Wrappers
  import opened Walls
  import opened Grid
  import opened MazeCells

  /** `Maze.PATH_ATTEMPTS`. */
  const PathAttempts: nat := 10

  /**
   * The errors the search raises: `passed_cells[-1]` on the empty stack after
   * the entry itself was popped (IndexError), and the three-argument call of
   * the one-argument `get_adjacent_cells` at pathfinder.py:96 (TypeError).
   */
  datatype SearchError = EmptyPop | ArityError

  /** The elements of a stack, as a set. */
  function Elements(s: seq<Coord>): (r: set<Coord>)
    ensures forall q :: q in r <==> q in s
  {
    set q | q in s
  }

  /**
   * The search may step from `point` towards `d`: the neighbour exists, the
   * wall is open, and the neighbour is neither on the stack nor a dead end.
   */
  predicate CanMove(cells: Cells, point: Coord, d: Direction, passed: seq<Coord>, wrong: set<Coord>)
    requires point in cells
  {
    Step(point, d) in cells && !HasWall(cells[point].state, d) && Step(point, d) !in passed && Step(point, d) !in wrong
  }

  /** No move is left from `point`. */
  predicate DeadEnd(cells: Cells, point: Coord, passed: seq<Coord>, wrong: set<Coord>)
    requires point in cells
  {
    forall d :: !CanMove(cells, point, d, passed, wrong)
  }

  /** A pathway: from the entry to the exit through open walls, without repeating a cell. */
  ghost predicate IsPathway(cells: Cells, entry: Coord, exit: Coord, path: seq<Coord>)
  {
    && |path| >= 1 && path[0] == entry && path[|path| - 1] == exit && Distinct(path)
    && exists dirs :: OpenChain(cells, path, dirs)
  }

  /** `to` is reachable from `from` through open walls without entering a cell of `avoid`. */
  ghost predicate ReachableAvoiding(cells: Cells, from: Coord, to: Coord, avoid: set<Coord>)
  {
    exists path, dirs :: (OpenChain(cells, path, dirs) && path[0] == from && path[|path| - 1] == to
      && forall k :: 0 <= k < |path| ==> path[k] !in avoid)
  }

  /** What is known about the pathways after `attempts` arrivals. */
  ghost predicate Found(cells: Cells, entry: Coord, exit: Coord, pathways: seq<seq<Coord>>, attempts: nat)
  {
    && |pathways| <= attempts <= PathAttempts
    && (attempts > 0 ==> |pathways| >= 1)
    && (forall i :: 0 <= i < |pathways| ==> IsPathway(cells, entry, exit, pathways[i]))
    && (forall i, j :: 0 <= i < j < |pathways| ==> pathways[i] != pathways[j])
  }

  /**
   * The loop invariant of the search. `oldWrong` is the set of dead ends at
   * the start of the current attempt. Every dead end found since then has all
   * its open neighbours among the dead ends or on the stack, and, when the
   * exit is reachable at all, it is reachable around the older dead ends.
   */
  ghost predicate Searching(width: int, height: int, cells: Cells, entry: Coord, exit: Coord,
                            passed: seq<Coord>, passedDirs: seq<Direction>, wrong: set<Coord>, oldWrong: set<Coord>,
                            pathways: seq<seq<Coord>>, attempts: nat)
  {
    // one conjunction bound to a name, so that a goal `Searching(..)` stays one obligation
    var holds :=
      && cells.Keys == GridCoords(width, height)
      && |passed| >= 1 && passed[0] == entry
      && OpenChain(cells, passed, passedDirs) && Distinct(passed)
      && (forall k :: 0 <= k < |passed| ==> passed[k] !in wrong)
      && (forall k :: 1 <= k < |passed| ==> passed[k] != exit)
      && oldWrong <= wrong && wrong <= cells.Keys && exit !in wrong
      && (forall w, d {:trigger Step(w, d)} ::
            (w in wrong && w !in oldWrong && Step(w, d) in cells && !HasWall(cells[w].state, d))
            ==> Step(w, d) in wrong || Step(w, d) in passed)
      && (Reachable(cells, entry, exit) ==> ReachableAvoiding(cells, entry, exit, oldWrong))
      && (exit == entry ==> attempts == 0)
      && Found(cells, entry, exit, pathways, attempts);
    holds
  }

  /** The search starts with the entry alone on the stack and nothing known. */
  lemma SearchStart(width: int, height: int, cells: Cells, entry: Coord, exit: Coord)
    requires cells.Keys == GridCoords(width, height) && entry in cells
    ensures Searching(width, height, cells, entry, exit, [entry], [], {}, {}, [], 0)
  {
    if Reachable(cells, entry, exit) {
      var path, dirs :| OpenChain(cells, path, dirs) && path[0] == entry && path[|path| - 1] == exit;
      assert forall k :: 0 <= k < |path| ==> path[k] !in {};
    }
  }

  /** A step to a neighbour other than the exit keeps the invariant and shrinks the unexplored cells. */
  lemma SearchAdvance(width: int, height: int, cells: Cells, entry: Coord, exit: Coord,
                      passed: seq<Coord>, passedDirs: seq<Direction>, wrong: set<Coord>, oldWrong: set<Coord>,
                      pathways: seq<seq<Coord>>, attempts: nat, d: Direction)
    requires Searching(width, height, cells, entry, exit, passed, passedDirs, wrong, oldWrong, pathways, attempts)
    requires CanMove(cells, passed[|passed| - 1], d, passed, wrong)
    requires Step(passed[|passed| - 1], d) != exit
    ensures var next := Step(passed[|passed| - 1], d);
      && Searching(width, height, cells, entry, exit, passed + [next], passedDirs + [d], wrong, oldWrong, pathways, attempts)
      && |cells.Keys - wrong - Elements(passed + [next])| < |cells.Keys - wrong - Elements(passed)|
  {
    var next := Step(passed[|passed| - 1], d);
    ChainExtend(cells, passed, passedDirs, d);
    assert Elements(passed + [next]) == Elements(passed) + {next};
    assert cells.Keys - wrong - Elements(passed + [next]) == (cells.Keys - wrong - Elements(passed)) - {next};
  }

  /** The stack plus the exit it steps into is a pathway, and it avoids every dead end. */
  lemma ArrivalPathway(width: int, height: int, cells: Cells, entry: Coord, exit: Coord,
                       passed: seq<Coord>, passedDirs: seq<Direction>, wrong: set<Coord>, oldWrong: set<Coord>,
                       pathways: seq<seq<Coord>>, attempts: nat, d: Direction)
    requires Searching(width, height, cells, entry, exit, passed, passedDirs, wrong, oldWrong, pathways, attempts)
    requires CanMove(cells, passed[|passed| - 1], d, passed, wrong)
    requires Step(passed[|passed| - 1], d) == exit
    ensures exit != entry && IsPathway(cells, entry, exit, passed + [exit]) && Reachable(cells, entry, exit)
    ensures ReachableAvoiding(cells, entry, exit, wrong)
  {
    var walk := passed + [exit];
    ChainExtend(cells, passed, passedDirs, d);
    assert forall k :: 0 <= k < |walk| ==> walk[k] !in wrong;
  }

  /** Recording a new pathway, unless it is already recorded, keeps what is known about the pathways. */
  lemma RecordFound(cells: Cells, entry: Coord, exit: Coord, pathways: seq<seq<Coord>>, attempts: nat, walk: seq<Coord>)
    requires Found(cells, entry, exit, pathways, attempts) && attempts < PathAttempts
    requires IsPathway(cells, entry, exit, walk)
    ensures Found(cells, entry, exit, if walk in pathways then pathways else pathways + [walk], attempts + 1)
  {
  }

  /**
   * Reaching the exit: the stack plus the exit is a pathway, and the search
   * restarts from the entry with the dead ends found so far as the old ones.
   */
  lemma SearchArrive(width: int, height: int, cells: Cells, entry: Coord, exit: Coord,
                     passed: seq<Coord>, passedDirs: seq<Direction>, wrong: set<Coord>, oldWrong: set<Coord>,
                     pathways: seq<seq<Coord>>, attempts: nat, d: Direction)
    requires Searching(width, height, cells, entry, exit, passed, passedDirs, wrong, oldWrong, pathways, attempts)
    requires attempts < PathAttempts
    requires CanMove(cells, passed[|passed| - 1], d, passed, wrong)
    requires Step(passed[|passed| - 1], d) == exit
    ensures exit != entry && Reachable(cells, entry, exit)
    ensures var walk := passed + [exit];
      var recorded := if walk in pathways then pathways else pathways + [walk];
      Searching(width, height, cells, entry, exit, [entry], [], wrong, wrong, recorded, attempts + 1)
  {
    ArrivalPathway(width, height, cells, entry, exit, passed, passedDirs, wrong, oldWrong, pathways, attempts, d);
    RecordFound(cells, entry, exit, pathways, attempts, passed + [exit]);
  }

  /** Popping a dead end other than the entry keeps the invariant and adds it to the dead ends. */
  lemma SearchBacktrack(width: int, height: int, cells: Cells, entry: Coord, exit: Coord,
                        passed: seq<Coord>, passedDirs: seq<Direction>, wrong: set<Coord>, oldWrong: set<Coord>,
                        pathways: seq<seq<Coord>>, attempts: nat)
    requires Searching(width, height, cells, entry, exit, passed, passedDirs, wrong, oldWrong, pathways, attempts)
    requires |passed| > 1 && DeadEnd(cells, passed[|passed| - 1], passed, wrong)
    ensures var point := passed[|passed| - 1];
      && point != exit
      && Searching(width, height, cells, entry, exit, passed[..|passed| - 1], passedDirs[..|passedDirs| - 1],
                   wrong + {point}, oldWrong, pathways, attempts)
      && |cells.Keys - (wrong + {point})| < |cells.Keys - wrong|
  {
    var point := passed[|passed| - 1];
    var popped := passed[..|passed| - 1];
    var wrong' := wrong + {point};
    forall w, e | w in wrong' && w !in oldWrong && w in cells && Step(w, e) in cells && !HasWall(cells[w].state, e)
      ensures Step(w, e) in wrong' || Step(w, e) in popped
    {
      if w == point {
        assert !CanMove(cells, point, e, passed, wrong);
        assert Step(w, e) != w;
      }
      if Step(w, e) in passed && Step(w, e) != point {
        var k :| 0 <= k < |passed| && passed[k] == Step(w, e);
        assert popped[k] == Step(w, e);
      }
    }
    assert cells.Keys - wrong' == (cells.Keys - wrong) - {point};
  }

  /**
   * The entry itself is a dead end: then the exit is the entry or cannot be
   * reached at all. Every cell on a route from the entry around the old dead
   * ends would be the entry or a new dead end, and the exit is neither.
   */
  lemma StuckAtEntry(width: int, height: int, cells: Cells, entry: Coord, exit: Coord,
                     passed: seq<Coord>, passedDirs: seq<Direction>, wrong: set<Coord>, oldWrong: set<Coord>,
                     pathways: seq<seq<Coord>>, attempts: nat)
    requires Searching(width, height, cells, entry, exit, passed, passedDirs, wrong, oldWrong, pathways, attempts)
    requires |passed| == 1 && DeadEnd(cells, entry, passed, wrong)
    ensures exit == entry || !Reachable(cells, entry, exit)
  {
    if exit != entry && Reachable(cells, entry, exit) {
      var path, dirs :| OpenChain(cells, path, dirs) && path[0] == entry && path[|path| - 1] == exit
        && forall k :: 0 <= k < |path| ==> path[k] !in oldWrong;
      for k := 0 to |dirs|
        invariant path[k] == entry || (path[k] in wrong && path[k] !in oldWrong)
      {
        var d := dirs[k];
        assert path[k + 1] == Step(path[k], d) && path[k + 1] in cells && !HasWall(cells[path[k]].state, d);
        if path[k] == entry {
          assert !CanMove(cells, entry, d, passed, wrong);
        }
        assert path[k + 1] !in oldWrong;
      }
      assert false;
    }
  }

  /**
   * What the search promises about its result `r`. When it returns, there
   * are between one and `PathAttempts` pathways, all different. maze.py's
   * copy (`splitOut` false) returns exactly when the exit is another cell
   * reachable from the entry, and raises IndexError otherwise.
   * pathfinder.py's copy (`splitOut` true) always raises: TypeError exactly
   * when the exit is another reachable cell, IndexError otherwise.
   */
  ghost predicate SearchResult(cells: Cells, entry: Coord, exit: Coord, splitOut: bool,
                               r: Result<seq<seq<Coord>>, SearchError>)
  {
    var reaches := exit != entry && Reachable(cells, entry, exit);
    // one conjunction bound to a name, so that a goal `SearchResult(..)` stays one obligation
    var holds :=
      && (r.Success? ==> 1 <= |r.value| <= PathAttempts)
      && (r.Success? ==> forall i :: 0 <= i < |r.value| ==> IsPathway(cells, entry, exit, r.value[i]))
      && (r.Success? ==> forall i, j :: 0 <= i < j < |r.value| ==> r.value[i] != r.value[j])
      && (!splitOut ==> (r.Success? <==> reaches) && (r.Failure? ==> r.error == EmptyPop))
      && (splitOut ==> r.Failure? && (r.error == ArityError <==> reaches));
    holds
  }

  /** After the last attempt the pathways are what the search promises. */
  lemma SearchDone(width: int, height: int, cells: Cells, entry: Coord, exit: Coord,
                   passed: seq<Coord>, passedDirs: seq<Direction>, wrong: set<Coord>, oldWrong: set<Coord>,
                   pathways: seq<seq<Coord>>, attempts: nat, splitOut: bool)
    requires Searching(width, height, cells, entry, exit, passed, passedDirs, wrong, oldWrong, pathways, attempts)
    requires attempts >= PathAttempts && (splitOut ==> attempts == 0)
    ensures SearchResult(cells, entry, exit, splitOut, Success(pathways))
  {
    assert IsPathway(cells, entry, exit, pathways[0]);
    var dirs :| OpenChain(cells, pathways[0], dirs);
    assert Reachable(cells, entry, exit);
  }

  /**
   * The inner `for dir in directions` loop: the first direction of
   * `directions` the search may move towards, or none.
   */
  method FirstMove(width: int, height: int, cells: Cells, point: Coord, passed: seq<Coord>, wrong: set<Coord>,
                   directions: seq<Direction>)
    returns (moved: bool, dir: Direction, next: Coord)
    requires cells.Keys == GridCoords(width, height) && point in cells
    requires IsOrder(directions)
    ensures moved ==> CanMove(cells, point, dir, passed, wrong) && next == Step(point, dir)
    ensures moved ==> exists j :: (0 <= j < |directions| && directions[j] == dir &&
      forall k :: 0 <= k < j ==> !CanMove(cells, point, directions[k], passed, wrong))
    ensures !moved <==> DeadEnd(cells, point, passed, wrong)
  {
    dir, next := North, point;
    KeysInGrid(width, height, cells, point);
    for j := 0 to |directions|
      invariant forall k :: 0 <= k < j ==> !CanMove(cells, point, directions[k], passed, wrong)
    {
      var d := directions[j];
      var adjacent := Adjacent(width, height, point, d);
      StepInGrid(width, height, point, d);
      KeysInGrid(width, height, cells, Step(point, d));
      if adjacent.None? || adjacent.value in passed {
        continue;
      }
      if BitAnd(cells[point].state, d) != 0 {
        continue;
      } else if adjacent.value !in wrong {
        assert CanMove(cells, point, d, passed, wrong);
        return true, d, adjacent.value;
      }
    }
    forall d ensures !CanMove(cells, point, d, passed, wrong) {
      assert d in directions;
      var k :| 0 <= k < |directions| && directions[k] == d;
    }
    return false, dir, next;
  }

  /**
   * No move from `point`, which is not the entry: pop it from the stack,
   * remember it as a dead end (it is not the exit) and go back to the cell
   * below it.
   */
  method Backtrack(width: int, height: int, cells: Cells, entry: Coord, exit: Coord,
                   passed: seq<Coord>, ghost passedDirs: seq<Direction>, wrong: set<Coord>, ghost oldWrong: set<Coord>,
                   ghost pathways: seq<seq<Coord>>, ghost attempts: nat)
    returns (popped: seq<Coord>, ghost poppedDirs: seq<Direction>, marked: set<Coord>, point: Coord)
    requires Searching(width, height, cells, entry, exit, passed, passedDirs, wrong, oldWrong, pathways, attempts)
    requires |passed| > 1 && DeadEnd(cells, passed[|passed| - 1], passed, wrong)
    ensures Searching(width, height, cells, entry, exit, popped, poppedDirs, marked, oldWrong, pathways, attempts)
    ensures popped == passed[..|passed| - 1] && marked == wrong + {passed[|passed| - 1]} && point == popped[|popped| - 1]
    ensures |cells.Keys - marked| < |cells.Keys - wrong|
  {
    SearchBacktrack(width, height, cells, entry, exit, passed, passedDirs, wrong, oldWrong, pathways, attempts);
    var last := passed[|passed| - 1];
    popped := passed[..|passed| - 1];
    poppedDirs := passedDirs[..|passedDirs| - 1];
    marked := wrong;
    if last != exit {
      marked := marked + {last};
    }
    point := popped[|popped| - 1];
  }

  /**
   * Move from the top of the stack towards `dir`. When the new cell is the
   * exit, record the stack as a pathway unless it is already one, count the
   * attempt and restart from the entry.
   */
  method Advance(width: int, height: int, cells: Cells, entry: Coord, exit: Coord,
                 passed: seq<Coord>, ghost passedDirs: seq<Direction>, wrong: set<Coord>, ghost oldWrong: set<Coord>,
                 pathways: seq<seq<Coord>>, attempts: nat, dir: Direction)
    returns (arrived: bool, pushed: seq<Coord>, ghost pushedDirs: seq<Direction>, ghost newOldWrong: set<Coord>,
             recorded: seq<seq<Coord>>, newAttempts: nat, point: Coord)
    requires Searching(width, height, cells, entry, exit, passed, passedDirs, wrong, oldWrong, pathways, attempts)
    requires attempts < PathAttempts
    requires CanMove(cells, passed[|passed| - 1], dir, passed, wrong)
    ensures Searching(width, height, cells, entry, exit, pushed, pushedDirs, wrong, newOldWrong, recorded, newAttempts)
    ensures point == pushed[|pushed| - 1]
    ensures var next := Step(passed[|passed| - 1], dir);
      && (arrived <==> next == exit)
      && (!arrived ==> pushed == passed + [next] && recorded == pathways && newAttempts == attempts)
      && (arrived ==> pushed == [entry] && newAttempts == attempts + 1
                      && recorded == (if passed + [next] in pathways then pathways else pathways + [passed + [next]]))
    ensures !arrived ==> |cells.Keys - wrong - Elements(pushed)| < |cells.Keys - wrong - Elements(passed)|
    ensures arrived ==> exit != entry && Reachable(cells, entry, exit)
  {
    var next := Step(passed[|passed| - 1], dir);
    if next == exit {
      SearchArrive(width, height, cells, entry, exit, passed, passedDirs, wrong, oldWrong, pathways, attempts, dir);
    } else {
      SearchAdvance(width, height, cells, entry, exit, passed, passedDirs, wrong, oldWrong, pathways, attempts, dir);
    }
    point := next;
    pushed := passed + [point];
    pushedDirs := passedDirs + [dir];
    arrived, recorded, newAttempts, newOldWrong := false, pathways, attempts, oldWrong;
    if point == exit {
      arrived := true;
      newAttempts := attempts + 1;
      if pushed !in pathways {
        recorded := pathways + [pushed];
      }
      pushed := [entry];
      pushedDirs := [];
      point := entry;
      newOldWrong := wrong;
    }
  }

  /** How one iteration of the search loop ended. */
  datatype Outcome = Continue | Raise(error: SearchError)

  /**
   * One iteration of the search loop (maze.py:610-637): try the directions
   * in the order `directions`; move, or pop a dead end, or raise when the
   * entry itself is a dead end or, in pathfinder.py's copy, at an arrival.
   */
  method SearchIteration(width: int, height: int, cells: Cells, entry: Coord, exit: Coord, directions: seq<Direction>,
                         splitOut: bool, passed: seq<Coord>, ghost passedDirs: seq<Direction>, wrong: set<Coord>,
                         ghost oldWrong: set<Coord>, pathways: seq<seq<Coord>>, attempts: nat)
    returns (outcome: Outcome, passed': seq<Coord>, ghost passedDirs': seq<Direction>, wrong': set<Coord>,
             ghost oldWrong': set<Coord>, pathways': seq<seq<Coord>>, attempts': nat)
    requires Searching(width, height, cells, entry, exit, passed, passedDirs, wrong, oldWrong, pathways, attempts)
    requires attempts < PathAttempts && IsOrder(directions)
    requires splitOut ==> attempts == 0
    ensures outcome.Continue? ==>
      && Searching(width, height, cells, entry, exit, passed', passedDirs', wrong', oldWrong', pathways', attempts')
      && (splitOut ==> attempts' == 0)
      && (|| attempts' > attempts
          || (attempts' == attempts && |cells.Keys - wrong'| < |cells.Keys - wrong|)
          || (attempts' == attempts && wrong' == wrong
              && |cells.Keys - wrong - Elements(passed')| < |cells.Keys - wrong - Elements(passed)|))
    ensures outcome.Raise? ==> SearchResult(cells, entry, exit, splitOut, Failure(outcome.error))
  {
    outcome, passed', passedDirs', wrong', oldWrong', pathways', attempts' :=
      Continue, passed, passedDirs, wrong, oldWrong, pathways, attempts;
    var point := passed[|passed| - 1];
    var moved, dir, next := FirstMove(width, height, cells, point, passed, wrong, directions);
    if !moved {
      if |passed| == 1 {
        // `passed_cells.pop()` empties the stack and `passed_cells[-1]` raises
        StuckAtEntry(width, height, cells, entry, exit, passed, passedDirs, wrong, oldWrong, pathways, attempts);
        outcome := Raise(EmptyPop);
        return;
      }
      passed', passedDirs', wrong', point :=
        Backtrack(width, height, cells, entry, exit, passed, passedDirs, wrong, oldWrong, pathways, attempts);
    } else {
      var arrived;
      arrived, passed', passedDirs', oldWrong', pathways', attempts', point :=
        Advance(width, height, cells, entry, exit, passed, passedDirs, wrong, oldWrong, pathways, attempts, dir);
      if arrived && splitOut {
        outcome := Raise(ArityError);
      }
    }
  }

  /**
   * The search loop shared by both copies. `splitOut` selects the copy in
   * pathfinder.py, whose restart after an arrival calls the one-argument
   * `get_adjacent_cells` with three arguments and so raises TypeError.
   */
  method PathSearch(width: int, height: int, cells: Cells, entry: Coord, exit: Coord, order: nat -> seq<Direction>,
                    splitOut: bool)
    returns (r: Result<seq<seq<Coord>>, SearchError>)
    requires cells.Keys == GridCoords(width, height) && entry in cells
    requires forall i :: IsOrder(order(i))
    ensures SearchResult(cells, entry, exit, splitOut, r)
  {
    var attempts: nat := 0;
    var pathways: seq<seq<Coord>> := [];
    var passed := [entry];
    ghost var passedDirs: seq<Direction> := [];
    var wrong: set<Coord> := {};
    ghost var oldWrong: set<Coord> := {};
    var iteration: nat := 0;
    SearchStart(width, height, cells, entry, exit);
    while attempts < PathAttempts
      invariant Searching(width, height, cells, entry, exit, passed, passedDirs, wrong, oldWrong, pathways, attempts)
      invariant splitOut ==> attempts == 0
      decreases PathAttempts - attempts, |cells.Keys - wrong|, |cells.Keys - wrong - Elements(passed)|
    {
      var outcome;
      outcome, passed, passedDirs, wrong, oldWrong, pathways, attempts :=
        SearchIteration(width, height, cells, entry, exit, order(iteration), splitOut,
                        passed, passedDirs, wrong, oldWrong, pathways, attempts);
      iteration := iteration + 1;
      if outcome.Raise? {
        return Failure(outcome.error);
      }
    }
    SearchDone(width, height, cells, entry, exit, passed, passedDirs, wrong, oldWrong, pathways, attempts, splitOut);
    return Success(pathways);
  }

  /**
   * `Generator.path_finder`: at most `PathAttempts` distinct pathways, at
   * least one; it returns exactly when the exit is another cell reachable
   * from the entry, and otherwise pops the entry and raises IndexError.
   */
  method PathFinder(width: int, height: int, cells: Cells, entry: Coord, exit: Coord, order: nat -> seq<Direction>)
    returns (r: Result<seq<seq<Coord>>, SearchError>)
    requires cells.Keys == GridCoords(width, height) && entry in cells
    requires forall i :: IsOrder(order(i))
    ensures r.Success? <==> exit != entry && Reachable(cells, entry, exit)
    ensures r.Success? ==> 1 <= |r.value| <= PathAttempts
    ensures r.Success? ==> forall i :: 0 <= i < |r.value| ==> IsPathway(cells, entry, exit, r.value[i])
    ensures r.Success? ==> forall i, j :: 0 <= i < j < |r.value| ==> r.value[i] != r.value[j]
    ensures r.Failure? ==> r.error == EmptyPop
  {
    r := PathSearch(width, height, cells, entry, exit, order, false);
  }

  /**
   * `PathFinder.path_finder_dfs` as written: it never returns pathways. It
   * raises TypeError at the first arrival when the exit is reachable, and
   * IndexError otherwise.
   */
  method PathFinderDfs(width: int, height: int, cells: Cells, entry: Coord, exit: Coord, order: nat -> seq<Direction>)
    returns (r: Result<seq<seq<Coord>>, SearchError>)
    requires cells.Keys == GridCoords(width, height) && entry in cells
    requires forall i :: IsOrder(order(i))
    ensures r.Failure?
    ensures r.error == ArityError <==> exit != entry && Reachable(cells, entry, exit)
  {
    r := PathSearch(width, height, cells, entry, exit, order, true);
  }
}
