/** The path the player is building: a sequence of picked cells, each with
    the number read from the grid when it was picked. */
module Paths {
  import opened Cells
  import opened Board

  /** One picked cell of the current path and its value. */
  datatype Step = Step(r: int, c: int, val: int)

  /** The coordinate of a step. */
  function At(s: Step): Cell
  {
    Cell(s.r, s.c)
  }

  /** The coordinates of a path, in order. */
  function CellsOf(path: seq<Step>): seq<Cell>
  {
    seq(|path|, i requires 0 <= i < |path| => At(path[i]))
  }

  /** The set of coordinates a path visits. */
  function CellSet(path: seq<Step>): set<Cell>
  {
    set i | 0 <= i < |path| :: At(path[i])
  }

  /** The running sum: the values of the steps added from the first to the
      last, starting from 0. */
  function Sum(path: seq<Step>): int
  {
    if path == [] then 0 else Sum(path[..|path| - 1]) + path[|path| - 1].val
  }

  /** Whether some step of the path is at the given coordinate. */
  function Occurs(path: seq<Step>, x: Cell): (b: bool)
    ensures b <==> exists i :: 0 <= i < |path| && At(path[i]) == x
  {
    if path == [] then false
    else At(path[0]) == x || (assert forall i :: 0 <= i < |path| - 1 ==> path[1..][i] == path[i + 1]; Occurs(path[1..], x))
  }

  // ---------------------------------------------------------------------
  // What a well-built path looks like.

  /** No cell is visited twice. */
  predicate Simple(path: seq<Step>)
  {
    forall i, j :: 0 <= i < j < |path| ==> At(path[i]) != At(path[j])
  }

  /** Step i touches the step before it. */
  predicate Touches(path: seq<Step>, i: int)
    requires 0 < i < |path|
  {
    IsAdjacent(At(path[i - 1]), At(path[i]))
  }

  /** Every step touches the step before it. */
  predicate Connected(path: seq<Step>)
  {
    forall i :: 0 < i < |path| ==> Touches(path, i)
  }

  /** Every step is an unused cell of the board carrying the value the grid
      holds there. */
  predicate OnFreeCells(path: seq<Step>, used: set<Cell>, size: nat, grid: seq<seq<int>>)
    requires Square(size, grid)
  {
    forall i :: 0 <= i < |path| ==>
      InBounds(size, At(path[i])) && At(path[i]) !in used && path[i].val == ValueAt(grid, size, At(path[i]))
  }

  predicate PathOk(path: seq<Step>, used: set<Cell>, size: nat, grid: seq<seq<int>>)
    requires Square(size, grid)
  {
    Simple(path) && Connected(path) && OnFreeCells(path, used, size, grid)
  }

  // ---------------------------------------------------------------------
  // The running sum against the grid.

  /** The grid values of a sequence of cells, added from the first cell. */
  function GridTotal(grid: seq<seq<int>>, size: nat, cells: seq<Cell>): int
    requires Square(size, grid)
    requires forall i :: 0 <= i < |cells| ==> InBounds(size, cells[i])
  {
    if cells == [] then 0 else ValueAt(grid, size, cells[0]) + GridTotal(grid, size, cells[1..])
  }

  lemma {:induction false} GridTotalSnoc(grid: seq<seq<int>>, size: nat, cells: seq<Cell>, x: Cell)
    requires Square(size, grid) && InBounds(size, x)
    requires forall i :: 0 <= i < |cells| ==> InBounds(size, cells[i])
    ensures GridTotal(grid, size, cells + [x]) == GridTotal(grid, size, cells) + ValueAt(grid, size, x)
  {
    if cells != [] {
      assert (cells + [x])[1..] == cells[1..] + [x];
      GridTotalSnoc(grid, size, cells[1..], x);
    }
  }

  /** The running sum of a path whose values were read from the grid is the
      total of the grid over the path's cells. */
  lemma {:induction false} SumIsGridTotal(path: seq<Step>, used: set<Cell>, size: nat, grid: seq<seq<int>>)
    requires Square(size, grid) && OnFreeCells(path, used, size, grid)
    ensures Sum(path) == GridTotal(grid, size, CellsOf(path))
  {
    if path != [] {
      var n := |path| - 1;
      var front := path[..n];
      assert OnFreeCells(front, used, size, grid);
      SumIsGridTotal(front, used, size, grid);
      assert CellsOf(path) == CellsOf(front) + [At(path[n])];
      GridTotalSnoc(grid, size, CellsOf(front), At(path[n]));
    }
  }

  // ---------------------------------------------------------------------
  // How the path invariant survives the edits the game makes.

  /** Appending an unused, unvisited cell that touches the last step (or
      starting a path with it) keeps the path well built. */
  lemma ExtendPath(path: seq<Step>, used: set<Cell>, size: nat, grid: seq<seq<int>>, x: Cell)
    requires Square(size, grid) && PathOk(path, used, size, grid)
    requires InBounds(size, x) && x !in used && !Occurs(path, x)
    requires path == [] || IsAdjacent(At(path[|path| - 1]), x)
    ensures PathOk(path + [Step(x.r, x.c, ValueAt(grid, size, x))], used, size, grid)
  {
    var q := path + [Step(x.r, x.c, ValueAt(grid, size, x))];
    forall i | 0 < i < |q| ensures Touches(q, i) {
      if i < |path| {
        assert Touches(path, i);
      }
    }
    forall i, j | 0 <= i < j < |q| ensures At(q[i]) != At(q[j]) {
      if j == |path| {
        assert At(path[i]) != x;
      }
    }
  }

  /** Dropping steps from the end keeps the path well built. */
  lemma ShortenPath(path: seq<Step>, used: set<Cell>, size: nat, grid: seq<seq<int>>, n: nat)
    requires Square(size, grid) && PathOk(path, used, size, grid) && n <= |path|
    ensures PathOk(path[..n], used, size, grid)
  {
    forall i | 0 < i < n ensures Touches(path[..n], i) {
      assert Touches(path, i);
    }
  }

  /** A path that visits no cell twice visits exactly |path| cells. */
  lemma {:induction false} SimpleCellCount(path: seq<Step>)
    requires Simple(path)
    ensures |CellSet(path)| == |path|
  {
    if path != [] {
      var n := |path| - 1;
      var front := path[..n];
      assert Simple(front);
      SimpleCellCount(front);
      assert CellSet(path) == CellSet(front) + {At(path[n])};
      assert At(path[n]) !in CellSet(front);
    }
  }

  /** The cells of the first i + 1 steps are those of the first i steps and
      the cell of step i. */
  lemma CellSetGrows(path: seq<Step>, i: nat)
    requires i < |path|
    ensures CellSet(path[..i + 1]) == CellSet(path[..i]) + {At(path[i])}
  {
    assert path[..i + 1] == path[..i] + [path[i]];
  }

  /** Retiring a well-built path's cells adds exactly |path| cells to the
      used set, all on the board. */
  lemma RetirePath(path: seq<Step>, used: set<Cell>, size: nat, grid: seq<seq<int>>)
    requires Square(size, grid) && PathOk(path, used, size, grid)
    requires OnBoard(size, used)
    ensures OnBoard(size, used + CellSet(path))
    ensures |used + CellSet(path)| == |used| + |path|
  {
    SimpleCellCount(path);
    assert used !! CellSet(path);
  }
}
