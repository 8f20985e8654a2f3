/** The game state and the player's commands: pick a cell, undo, clear,
    submit the path, and load a new puzzle. */
module Game {
  import opened Cells
  import opened Board
  import opened Paths

  /** What happened to a click on a cell. */
  datatype SelectOutcome =
    | AlreadyUsed      // the cell belongs to an accepted path
    | AlreadyInPath    // the cell is already part of the current path
    | NotTouching      // the cell does not touch the last cell of the path
    | Added            // the cell was appended to the path

  /** What happened to a submitted path. */
  datatype SubmitOutcome =
    | TooShort               // fewer than two cells
    | WrongSum(sum: int)     // the path adds up to something other than the target
    | Accepted               // the path's cells are now used

  class Session {
    var size: nat
    var target: int
    var grid: seq<seq<int>>
    /** The cells of every accepted path since the puzzle was loaded. */
    var used: set<Cell>
    /** The path being built. */
    var current: seq<Step>
    var pathsFound: nat

    /** The game invariant: the grid is square, every used cell is on the
        board, and the current path is a simple, connected chain of free
        cells that carry their grid values. */
    ghost predicate Valid()
      reads this
    {
      Square(size, grid) &&
      OnBoard(size, used) &&
      PathOk(current, used, size, grid)
    }

    /** The state the page starts in, before any puzzle is loaded: the
        built-in puzzle, nothing used, no path. */
    constructor ()
      ensures Valid()
      ensures size == FALLBACK.size && target == FALLBACK.target && grid == FALLBACK.grid
      ensures used == {} && current == [] && pathsFound == 0
    {
      size, target, grid := 5, 18, FALLBACK.grid;
      used, current, pathsFound := {}, [], 0;
    }

    /** Install a loaded puzzle and start over. */
    method Load(p: Puzzle)
      requires WellFormed(p)
      modifies this
      ensures Valid()
      ensures size == p.size && target == p.target && grid == p.grid
      ensures used == {} && current == [] && pathsFound == 0
    {
      size, target, grid := p.size, p.target, p.grid;
      used := {};
      current := [];
      pathsFound := 0;
    }

    /** The sum of the values on the current path. */
    function CurrentSum(): int
      reads this
    {
      Sum(current)
    }

    /** The sum shown for the current path is the total of the grid over the
        path's cells. */
    lemma CurrentSumIsGridTotal()
      requires Valid()
      ensures CurrentSum() == GridTotal(grid, size, CellsOf(current))
    {
      SumIsGridTotal(current, used, size, grid);
    }

    /** The board is completely covered by accepted paths. */
    function Perfect(): (full: bool)
      reads this
      requires Valid()
      ensures full <==> used == AllCells(size)
      ensures full <==> forall x :: InBounds(size, x) ==> x in used
    {
      FullBoard(used, size);
      |used| == size * size
    }

    /** The keys the used cells are stored under; there are as many of them
        as there are used cells, so counting keys counts cells. */
    ghost function UsedKeys(): (ks: set<string>)
      reads this
      requires Valid()
      ensures |ks| == |used|
      ensures forall x :: x in used ==> Key(x.r, x.c) in ks
    {
      KeysCardinality(used);
      Keys(used)
    }

    /** No more cells are used than the board has. */
    lemma UsedBounded()
      requires Valid()
      ensures |used| <= size * size
    {
      FullBoard(used, size);
    }

    /** A click on cell (r, c). */
    method Select(r: int, c: int) returns (outcome: SelectOutcome)
      requires Valid() && 0 <= r < size && 0 <= c < size
      modifies this
      ensures Valid()
      ensures size == old(size) && target == old(target) && grid == old(grid)
      ensures used == old(used) && pathsFound == old(pathsFound)
      ensures outcome == AlreadyUsed <==> Cell(r, c) in old(used)
      ensures outcome == AlreadyInPath <==> Cell(r, c) !in old(used) && Occurs(old(current), Cell(r, c))
      ensures outcome == NotTouching <==>
        Cell(r, c) !in old(used) && !Occurs(old(current), Cell(r, c)) &&
        old(current) != [] && !IsAdjacent(At(old(current)[|old(current)| - 1]), Cell(r, c))
      ensures outcome == Added ==> current == old(current) + [Step(r, c, grid[r][c])]
      ensures outcome == Added ==> CurrentSum() == old(CurrentSum()) + grid[r][c]
      ensures outcome != Added ==> current == old(current)
    {
      var x := Cell(r, c);
      if x in used {
        return AlreadyUsed;
      }
      if Occurs(current, x) {
        return AlreadyInPath;
      }
      var val := grid[r][c];
      if |current| > 0 {
        var last := current[|current| - 1];
        if !IsAdjacent(At(last), x) {
          return NotTouching;
        }
      }
      ExtendPath(current, used, size, grid, x);
      current := current + [Step(r, c, val)];
      outcome := Added;
      assert current[..|current| - 1] == old(current);
    }

    /** Take back the last step of the path, if there is one. */
    method Undo()
      requires Valid()
      modifies this
      ensures Valid()
      ensures size == old(size) && target == old(target) && grid == old(grid)
      ensures used == old(used) && pathsFound == old(pathsFound)
      ensures old(current) == [] ==> current == []
      ensures old(current) != [] ==> current == old(current)[..|old(current)| - 1]
    {
      if |current| == 0 {
        return;
      }
      ShortenPath(current, used, size, grid, |current| - 1);
      current := current[..|current| - 1];
    }

    /** Drop the whole path. */
    method Clear()
      requires Valid()
      modifies this
      ensures Valid()
      ensures size == old(size) && target == old(target) && grid == old(grid)
      ensures used == old(used) && pathsFound == old(pathsFound)
      ensures current == []
    {
      current := [];
    }

    /** Add every cell of the current path to the used set, one at a time. */
    method MarkUsed()
      requires Valid()
      modifies this
      ensures size == old(size) && target == old(target) && grid == old(grid)
      ensures current == old(current) && pathsFound == old(pathsFound)
      ensures used == old(used) + CellSet(current)
      ensures OnBoard(size, used) && |used| == |old(used)| + |current|
    {
      var i := 0;
      while i < |current|
        invariant 0 <= i <= |current|
        invariant used == old(used) + CellSet(current[..i])
        invariant size == old(size) && target == old(target) && grid == old(grid)
        invariant current == old(current) && pathsFound == old(pathsFound)
      {
        CellSetGrows(current, i);
        used := used + {At(current[i])};
        i := i + 1;
      }
      assert current[..i] == current;
      RetirePath(current, old(used), size, grid);
    }

    /** Submit the current path: it must have at least two cells and add up
        to the target; then its cells become used for good. */
    method Submit() returns (outcome: SubmitOutcome)
      requires Valid()
      modifies this
      ensures Valid()
      ensures size == old(size) && target == old(target) && grid == old(grid)
      ensures outcome == TooShort <==> |old(current)| < 2
      ensures outcome.WrongSum? <==> |old(current)| >= 2 && old(CurrentSum()) != target
      ensures outcome.WrongSum? ==> outcome.sum == old(CurrentSum())
      ensures outcome == Accepted <==> |old(current)| >= 2 && old(CurrentSum()) == target
      ensures outcome != Accepted ==>
        used == old(used) && current == old(current) && pathsFound == old(pathsFound)
      ensures outcome == Accepted ==>
        used == old(used) + CellSet(old(current)) && |used| == |old(used)| + |old(current)| &&
        pathsFound == old(pathsFound) + 1 && current == []
      ensures old(used) <= used && |used| <= size * size
    {
      if |current| < 2 {
        outcome := TooShort;
        UsedBounded();
        return;
      }
      var sum := CurrentSum();
      if sum != target {
        outcome := WrongSum(sum);
        UsedBounded();
        return;
      }
      MarkUsed();
      pathsFound := pathsFound + 1;
      current := [];
      outcome := Accepted;
      UsedBounded();
    }
  }

  // -----------------------------------------------------------------------
  // Two games on the built-in puzzle.

  /** A game on the built-in puzzle with nothing used, no path found yet and
      the given path in progress. */
  ghost predicate Playing(game: Session, path: seq<Step>)
    reads game
  {
    game.Valid() && game.size == 5 && game.target == 18 && game.grid == FALLBACK.grid &&
    game.used == {} && game.pathsFound == 0 && game.current == path
  }

  /** Tapping a free cell that touches the end of the path (or starting the
      path with it) appends it with its grid value. */
  method Extend(game: Session, r: int, c: int, ghost path: seq<Step>)
    requires Playing(game, path) && 0 <= r < 5 && 0 <= c < 5
    requires forall i :: 0 <= i < |path| ==> At(path[i]) != Cell(r, c)
    requires path == [] || IsAdjacent(At(path[|path| - 1]), Cell(r, c))
    modifies game
    ensures Playing(game, path + [Step(r, c, FALLBACK.grid[r][c])])
    ensures game.CurrentSum() == Sum(path) + FALLBACK.grid[r][c]
  {
    var outcome := game.Select(r, c);
    assert outcome == Added;
  }

  /** Tap (0,0), then (2,2), which does not touch it, then (0,1) (0,2) (0,3):
      the path runs along the top row and adds up to 9 + 3 + 4 + 1 = 17. */
  method TapTopRow(game: Session) returns (jump: SelectOutcome)
    requires Playing(game, [])
    modifies game
    ensures Playing(game, [Step(0, 0, 9), Step(0, 1, 3), Step(0, 2, 4), Step(0, 3, 1)])
    ensures game.CurrentSum() == 17
    ensures jump == NotTouching
  {
    Extend(game, 0, 0, []);
    jump := game.Select(2, 2);
    Extend(game, 0, 1, [Step(0, 0, 9)]);
    Extend(game, 0, 2, [Step(0, 0, 9), Step(0, 1, 3)]);
    Extend(game, 0, 3, [Step(0, 0, 9), Step(0, 1, 3), Step(0, 2, 4)]);
  }

  /** Along the top row, (0,0) (0,1) (0,2) (0,3) adds up to 17, one short of
      the target 18, so the path is refused and nothing is used. A jump from
      (0,0) to (2,2) is refused as not touching. */
  method FallbackWrongSum() returns (jump: SelectOutcome, outcome: SubmitOutcome, usedCount: nat, length: nat)
    ensures jump == NotTouching
    ensures outcome == WrongSum(17) && usedCount == 0 && length == 4
  {
    var game := new Session();
    jump := TapTopRow(game);
    outcome := game.Submit();
    usedCount, length := |game.used|, |game.current|;
  }

  /** Tap (0,0) (1,1) (0,2), tap (0,2) again, then (0,1): the repeated tap is
      refused and the path adds up to 9 + 2 + 4 + 3 = 18. */
  method TapZigzag(game: Session) returns (retap: SelectOutcome)
    requires Playing(game, [])
    modifies game
    ensures Playing(game, [Step(0, 0, 9), Step(1, 1, 2), Step(0, 2, 4), Step(0, 1, 3)])
    ensures game.CurrentSum() == 18
    ensures retap == AlreadyInPath
  {
    Extend(game, 0, 0, []);
    Extend(game, 1, 1, [Step(0, 0, 9)]);
    Extend(game, 0, 2, [Step(0, 0, 9), Step(1, 1, 2)]);
    assert At(game.current[2]) == Cell(0, 2);
    retap := game.Select(0, 2);
    Extend(game, 0, 1, [Step(0, 0, 9), Step(1, 1, 2), Step(0, 2, 4)]);
  }

  /** Submitting the zigzag path retires its four cells and counts a path. */
  method SubmitZigzag(game: Session) returns (outcome: SubmitOutcome)
    requires Playing(game, [Step(0, 0, 9), Step(1, 1, 2), Step(0, 2, 4), Step(0, 1, 3)])
    requires game.CurrentSum() == 18
    modifies game
    ensures game.Valid() && game.size == 5
    ensures outcome == Accepted && |game.used| == 4 && game.pathsFound == 1
  {
    outcome := game.Submit();
  }

  /** (0,0) (1,1) (0,2) (0,1) adds up to 18 and is accepted: four cells
      become used, one path is counted, the board is not yet complete.
      Tapping the last cell again is refused, not undone. */
  method FallbackAccepted() returns (retap: SelectOutcome, outcome: SubmitOutcome, usedCount: nat, paths: nat, perfect: bool)
    ensures retap == AlreadyInPath
    ensures outcome == Accepted && usedCount == 4 && paths == 1 && !perfect
  {
    var game := new Session();
    retap := TapZigzag(game);
    outcome := SubmitZigzag(game);
    usedCount, paths := |game.used|, game.pathsFound;
    perfect := game.Perfect();
  }
}
