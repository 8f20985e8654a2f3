/** The puzzle: a square grid of numbers and the target sum, the built-in
    fallback puzzle, and the set of every cell of a board. */
module Board {
  import opened Cells

  /** A puzzle as the loader hands it to the game. */
  datatype Puzzle = Puzzle(size: nat, target: int, grid: seq<seq<int>>)

  /** The grid has exactly size rows of size numbers each. */
  predicate Square(size: nat, grid: seq<seq<int>>)
  {
    |grid| == size && forall i :: 0 <= i < |grid| ==> |grid[i]| == size
  }

  predicate WellFormed(p: Puzzle)
  {
    Square(p.size, p.grid)
  }

  /** Every cell of the set lies on a size-by-size board. */
  predicate OnBoard(size: nat, s: set<Cell>)
  {
    forall x :: x in s ==> InBounds(size, x)
  }

  /** The number written in an on-board cell. */
  function ValueAt(grid: seq<seq<int>>, size: nat, x: Cell): int
    requires Square(size, grid) && InBounds(size, x)
  {
    grid[x.r][x.c]
  }

  /** The built-in 5-by-5 puzzle used when no other puzzle can be loaded. */
  const FALLBACK: Puzzle := Puzzle(5, 18, [
    [9, 3, 4, 1, 6],
    [7, 2, 3, 8, 2],
    [9, 1, 3, 4, 3],
    [1, 6, 9, 9, 4],
    [9, 1, 8, 8, 6]
  ])

  lemma FallbackWellFormed()
    ensures WellFormed(FALLBACK) && FALLBACK.size == 5 && FALLBACK.target == 18
  {
  }

  // ---------------------------------------------------------------------
  // Every cell of a board, built row by row so that its size can be counted.

  /** The cells (r, 0) .. (r, n-1). */
  function RowCells(r: int, n: nat): set<Cell>
  {
    if n == 0 then {} else RowCells(r, n - 1) + {Cell(r, n - 1)}
  }

  /** The cells of rows 0 .. k-1 of a board that is n columns wide. */
  function RowsCells(k: nat, n: nat): set<Cell>
  {
    if k == 0 then {} else RowsCells(k - 1, n) + RowCells(k - 1, n)
  }

  lemma {:induction false} RowCellsMember(r: int, n: nat, x: Cell)
    ensures x in RowCells(r, n) <==> x.r == r && 0 <= x.c < n
  {
    if n > 0 {
      RowCellsMember(r, n - 1, x);
    }
  }

  lemma {:induction false} RowsCellsMember(k: nat, n: nat, x: Cell)
    ensures x in RowsCells(k, n) <==> 0 <= x.r < k && 0 <= x.c < n
  {
    if k > 0 {
      RowsCellsMember(k - 1, n, x);
      RowCellsMember(k - 1, n, x);
    }
  }

  /** Every cell of a size-by-size board. */
  function AllCells(size: nat): (s: set<Cell>)
    ensures forall x :: x in s <==> InBounds(size, x)
  {
    var s := RowsCells(size, size);
    assert forall x :: x in s <==> InBounds(size, x) by {
      forall x ensures x in s <==> InBounds(size, x) {
        RowsCellsMember(size, size, x);
      }
    }
    s
  }

  lemma {:induction false} RowCellsCardinality(r: int, n: nat)
    ensures |RowCells(r, n)| == n
  {
    if n > 0 {
      RowCellsCardinality(r, n - 1);
      RowCellsMember(r, n - 1, Cell(r, n - 1));
    }
  }

  lemma {:induction false} RowsCellsCardinality(k: nat, n: nat)
    ensures |RowsCells(k, n)| == k * n
  {
    if k > 0 {
      RowsCellsCardinality(k - 1, n);
      RowCellsCardinality(k - 1, n);
      var above, row := RowsCells(k - 1, n), RowCells(k - 1, n);
      forall x | x in row ensures x !in above {
        RowCellsMember(k - 1, n, x);
        RowsCellsMember(k - 1, n, x);
      }
      assert above * row == {};
      assert |RowsCells(k, n)| == (k - 1) * n + n;
    }
  }

  /** A board has size * size cells. */
  lemma AllCellsCardinality(size: nat)
    ensures |AllCells(size)| == size * size
  {
    RowsCellsCardinality(size, size);
  }

  /** A set never has more elements than a superset of it. */
  lemma {:induction false} SubsetCardinality(a: set<Cell>, b: set<Cell>)
    requires a <= b
    ensures |a| <= |b|
  {
    if a != {} {
      var x :| x in a;
      SubsetCardinality(a - {x}, b - {x});
    }
  }

  /** A set of on-board cells never holds more than size * size cells, and it
      holds exactly that many precisely when it is the whole board. */
  lemma {:induction false} FullBoard(used: set<Cell>, size: nat)
    requires OnBoard(size, used)
    ensures |used| <= size * size
    ensures |used| == size * size <==> used == AllCells(size)
  {
    var all := AllCells(size);
    AllCellsCardinality(size);
    assert used <= all;
    if used != all {
      assert used < all;
      var x :| x in all && x !in used;
      SubsetCardinality(used, all - {x});
    }
  }
}
