/** Board coordinates, the 8-adjacency test and the string key under which
    the game stores a coordinate in its set of used cells. */
module Cells {

  /** A (row, column) coordinate on the board. */
  datatype Cell = Cell(r: int, c: int)

  function Abs(x: int): (a: int)
    ensures a >= 0 && (a == x || a == -x)
  {
    if x < 0 then -x else x
  }

  /** The two cells touch horizontally, vertically or diagonally. */
  function IsAdjacent(a: Cell, b: Cell): (adj: bool)
    ensures adj <==> a != b && -1 <= a.r - b.r <= 1 && -1 <= a.c - b.c <= 1
  {
    var dr := Abs(a.r - b.r);
    var dc := Abs(a.c - b.c);
    dr <= 1 && dc <= 1 && dr + dc > 0
  }

  lemma AdjacentSymmetric(a: Cell, b: Cell)
    ensures IsAdjacent(a, b) == IsAdjacent(b, a)
  {
  }

  lemma AdjacentIrreflexive(a: Cell)
    ensures !IsAdjacent(a, a)
  {
  }

  /** The cell lies on a size-by-size board. */
  predicate InBounds(size: nat, x: Cell)
  {
    0 <= x.r < size && 0 <= x.c < size
  }

  // ---------------------------------------------------------------------
  // The key "r,c" of a coordinate, as a template string renders it.

  function DigitChar(d: nat): (ch: char)
    requires d < 10
    ensures '0' <= ch <= '9'
  {
    "0123456789"[d]
  }

  /** The decimal rendering of a natural number, without leading zeros. */
  function Decimal(n: nat): (s: string)
    ensures |s| >= 1
    ensures forall i :: 0 <= i < |s| ==> '0' <= s[i] <= '9'
    ensures n >= 10 ==> |s| >= 2
  {
    if n < 10 then [DigitChar(n)] else Decimal(n / 10) + [DigitChar(n % 10)]
  }

  lemma {:induction false} DecimalInjective(m: nat, n: nat)
    requires Decimal(m) == Decimal(n)
    ensures m == n
  {
    if m < 10 && n < 10 {
      assert DigitChar(m) == Decimal(m)[0] == Decimal(n)[0] == DigitChar(n);
    } else if m >= 10 && n >= 10 {
      var sm, sn := Decimal(m), Decimal(n);
      assert sm[..|sm| - 1] == Decimal(m / 10);
      assert sn[..|sn| - 1] == Decimal(n / 10);
      DecimalInjective(m / 10, n / 10);
      assert DigitChar(m % 10) == sm[|sm| - 1] == sn[|sn| - 1] == DigitChar(n % 10);
    }
  }

  /** The key of a coordinate in the set of used cells. */
  function Key(r: nat, c: nat): (k: string)
    ensures |k| == |Decimal(r)| + 1 + |Decimal(c)|
    ensures k[|Decimal(r)|] == ','
  {
    Decimal(r) + "," + Decimal(c)
  }

  /** Distinct coordinates have distinct keys, so a set of keys and the set
      of coordinates they encode have the same size. */
  lemma KeyInjective(r1: nat, c1: nat, r2: nat, c2: nat)
    requires Key(r1, c1) == Key(r2, c2)
    ensures r1 == r2 && c1 == c2
  {
    var k := Key(r1, c1);
    var a1, a2 := Decimal(r1), Decimal(r2);
    assert a1 == k[..|a1|] == a2;
    assert Decimal(c1) == k[|a1| + 1..] == Decimal(c2);
    DecimalInjective(r1, r2);
    DecimalInjective(c1, c2);
  }

  /** The key of an on-board cell. */
  function CellKey(x: Cell): string
    requires x.r >= 0 && x.c >= 0
  {
    Key(x.r, x.c)
  }

  /** The set of keys of a set of on-board cells. */
  function Keys(s: set<Cell>): (ks: set<string>)
    requires forall x :: x in s ==> x.r >= 0 && x.c >= 0
    ensures forall x :: x in s ==> CellKey(x) in ks
  {
    set x | x in s :: CellKey(x)
  }

  /** A set of keys has as many elements as the set of cells it encodes. */
  lemma {:induction false} KeysCardinality(s: set<Cell>)
    requires forall x :: x in s ==> x.r >= 0 && x.c >= 0
    ensures |Keys(s)| == |s|
  {
    if s != {} {
      var x :| x in s;
      var rest := s - {x};
      KeysCardinality(rest);
      assert Keys(s) == Keys(rest) + {CellKey(x)};
      if CellKey(x) in Keys(rest) {
        var y :| y in rest && CellKey(y) == CellKey(x);
        KeyInjective(y.r, y.c, x.r, x.c);
        assert false;
      }
    }
  }
}
