// The module grid and the two-column zigzag over it (ISO/IEC 18004:2015, section 7.7).
module QrWalk {
  import opened QrStream

  // Rows of modules; g[y][x] is true for a dark module.
  type Grid = seq<seq<bool>>

  predicate IsGrid(g: Grid, size: nat) {
    |g| == size && forall y :: 0 <= y < size ==> |g[y]| == size
  }

  // A snapshot of the module arrays.
  ghost function Snap(m: array2<bool>): (g: Grid)
    requires m.Length0 == m.Length1
    reads m
    ensures IsGrid(g, m.Length0)
    ensures forall x, y :: 0 <= x < m.Length0 && 0 <= y < m.Length0 ==> g[y][x] == m[y, x]
  {
    seq(m.Length0, y requires 0 <= y < m.Length0 reads m =>
      seq(m.Length0, x requires 0 <= x < m.Length0 reads m => m[y, x]))
  }

  lemma GridsEqual(a: Grid, b: Grid, size: nat)
    requires IsGrid(a, size) && IsGrid(b, size)
    requires forall x, y :: 0 <= x < size && 0 <= y < size ==> a[y][x] == b[y][x]
    ensures a == b
  {
    forall y | 0 <= y < size ensures a[y] == b[y] {}
  }

  // ---- the walk: pair of columns, step along it, left or right module ----

  ghost predicate IsSize(size: int) {
    9 <= size && size % 4 == 1
  }

  // The right-hand column of pair p; column 6 is stepped over.
  function Right(size: nat, p: nat): int {
    var r := size - 1 - 2 * p;
    if r > 6 then r else r - 1
  }

  function Pairs(size: nat): nat {
    size / 2
  }

  function X(size: nat, p: nat, j: nat): int {
    Right(size, p) - j
  }

  predicate Upward(right: int) {
    (right + 1) / 2 % 2 == 0
  }

  function Y(size: nat, p: nat, vert: nat): int {
    if Upward(Right(size, p)) then size - 1 - vert else vert
  }

  // The inverse: when module (x, y) is visited.
  function PairOf(size: nat, x: nat): int {
    if x > 6 then (size - 1 - x) / 2 else (size - 2 - x) / 2
  }

  function SideOf(size: nat, x: nat): int {
    if x > 6 then (size - 1 - x) % 2 else (size - 2 - x) % 2
  }

  function VertOf(size: nat, x: nat, y: nat): int {
    if Upward(Right(size, if PairOf(size, x) < 0 then 0 else PairOf(size, x))) then size - 1 - y else y
  }

  // Every step of the walk is inside the grid and outside column 6.
  lemma StepInverse(size: nat, p: nat, vert: nat, j: nat)
    requires IsSize(size) && p < Pairs(size) && vert < size && j < 2
    ensures 0 <= X(size, p, j) < size && X(size, p, j) != 6 && 0 <= Y(size, p, vert) < size
    ensures PairOf(size, X(size, p, j)) == p && SideOf(size, X(size, p, j)) == j
    ensures VertOf(size, X(size, p, j), Y(size, p, vert)) == vert
  {}

  lemma ColumnInverse(size: nat, x: nat)
    requires IsSize(size) && x < size && x != 6
    ensures 0 <= PairOf(size, x) < Pairs(size) && 0 <= SideOf(size, x) < 2
    ensures X(size, PairOf(size, x), SideOf(size, x)) == x
  {}

  lemma CellStep(size: nat, x: nat, y: nat)
    requires IsSize(size) && x < size && y < size && x != 6
    ensures 0 <= PairOf(size, x) < Pairs(size) && 0 <= SideOf(size, x) < 2
    ensures 0 <= VertOf(size, x, y) < size
    ensures X(size, PairOf(size, x), SideOf(size, x)) == x && Y(size, PairOf(size, x), VertOf(size, x, y)) == y
  {
    hide PairOf, SideOf, Right, X;
    ColumnInverse(size, x);
  }

  // The walk reaches every module outside column 6, and reaches it once only.
  lemma WalkVisitsOnce(size: nat, x: nat, y: nat)
    requires IsSize(size) && x < size && y < size && x != 6
    ensures 0 <= PairOf(size, x) < Pairs(size)
    ensures 0 <= VertOf(size, x, y) < size && 0 <= SideOf(size, x) < 2
    ensures X(size, PairOf(size, x), SideOf(size, x)) == x && Y(size, PairOf(size, x), VertOf(size, x, y)) == y
    ensures forall p: nat, vert: nat, j: nat ::
      p < Pairs(size) && vert < size && j < 2 && X(size, p, j) == x && Y(size, p, vert) == y ==>
      p == PairOf(size, x) && vert == VertOf(size, x, y) && j == SideOf(size, x)
  {
    hide PairOf, SideOf, VertOf, X, Y;
    CellStep(size, x, y);
    forall p: nat, vert: nat, j: nat |
      p < Pairs(size) && vert < size && j < 2 && X(size, p, j) == x && Y(size, p, vert) == y
      ensures p == PairOf(size, x) && vert == VertOf(size, x, y) && j == SideOf(size, x)
    {
      StepInverse(size, p, vert, j);
    }
  }

  // ---- reading along the walk ----

  function CellBit(fn: Grid, g: Grid, size: nat, p: nat, vert: nat, j: nat): Bits
    requires IsSize(size) && IsGrid(fn, size) && IsGrid(g, size)
    requires p < Pairs(size) && vert < size && j < 2
  {
    StepInverse(size, p, vert, j);
    var x, y := X(size, p, j), Y(size, p, vert);
    if fn[y][x] then [] else [g[y][x]]
  }

  function ReadColumns(fn: Grid, g: Grid, size: nat, p: nat, v: nat): Bits
    requires IsSize(size) && IsGrid(fn, size) && IsGrid(g, size)
    requires p < Pairs(size) && v <= size
  {
    if v == 0 then []
    else ReadColumns(fn, g, size, p, v - 1) + CellBit(fn, g, size, p, v - 1, 0) + CellBit(fn, g, size, p, v - 1, 1)
  }

  // The modules outside the function patterns, in the order of the walk.
  function ReadWalk(fn: Grid, g: Grid, size: nat, n: nat): Bits
    requires IsSize(size) && IsGrid(fn, size) && IsGrid(g, size) && n <= Pairs(size)
  {
    if n == 0 then [] else ReadWalk(fn, g, size, n - 1) + ReadColumns(fn, g, size, n - 1, size)
  }

  // Module (x, y) comes before step (p, v, j).
  ghost predicate Before(size: nat, x: nat, y: nat, p: nat, v: nat, j: nat) {
    && x != 6
    && (PairOf(size, x) < p || (PairOf(size, x) == p &&
       (VertOf(size, x, y) < v || (VertOf(size, x, y) == v && SideOf(size, x) < j))))
  }

  ghost predicate AgreeBefore(a: Grid, b: Grid, size: nat, p: nat, v: nat)
    requires IsGrid(a, size) && IsGrid(b, size)
  {
    forall x, y :: 0 <= x < size && 0 <= y < size && Before(size, x, y, p, v, 0) ==> a[y][x] == b[y][x]
  }

  lemma {:induction false} ColumnsFrame(fn: Grid, a: Grid, b: Grid, size: nat, p: nat, v: nat)
    requires IsSize(size) && IsGrid(fn, size) && IsGrid(a, size) && IsGrid(b, size)
    requires p < Pairs(size) && v <= size
    requires AgreeBefore(a, b, size, p, v)
    ensures ReadColumns(fn, a, size, p, v) == ReadColumns(fn, b, size, p, v)
  {
    if v > 0 {
      ColumnsFrame(fn, a, b, size, p, v - 1);
      StepInverse(size, p, v - 1, 0);
      StepInverse(size, p, v - 1, 1);
    }
  }

  lemma {:induction false} WalkFrame(fn: Grid, a: Grid, b: Grid, size: nat, n: nat)
    requires IsSize(size) && IsGrid(fn, size) && IsGrid(a, size) && IsGrid(b, size) && n <= Pairs(size)
    requires AgreeBefore(a, b, size, n, 0)
    ensures ReadWalk(fn, a, size, n) == ReadWalk(fn, b, size, n)
  {
    hide PairOf, SideOf, VertOf, ReadColumns;
    if n > 0 {
      assert AgreeBefore(a, b, size, n - 1, size) by {
        forall x, y | 0 <= x < size && 0 <= y < size && Before(size, x, y, n - 1, size, 0)
          ensures a[y][x] == b[y][x]
        {
          assert Before(size, x, y, n, 0, 0);
        }
      }
      assert AgreeBefore(a, b, size, n - 1, 0);
      WalkFrame(fn, a, b, size, n - 1);
      ColumnsFrame(fn, a, b, size, n - 1, size);
    }
  }
}
