// Which modules belong to function patterns, and how many are left for data
// (ISO/IEC 18004:2015, sections 6.3 and 7.7, annex E).
module QrLayout {
  import opened QrTables
  import opened QrWalk

  function Size(ver: nat): nat {
    ver * 4 + 17
  }

  // Centre coordinates of the alignment patterns, from annex E of the standard.
  function AlignmentTable(ver: nat): (p: seq<nat>)
    requires IsVersion(ver)
    ensures |p| == if ver == 1 then 0 else ver / 7 + 2
    ensures ver >= 2 ==> p[0] == 6 && p[|p| - 1] == Size(ver) - 7
    ensures forall i :: 0 < i < |p| ==> p[i - 1] + 12 <= p[i]
  {
    match ver
    case 1 => []
    case 2 => [6, 18]
    case 3 => [6, 22]
    case 4 => [6, 26]
    case 5 => [6, 30]
    case 6 => [6, 34]
    case 7 => [6, 22, 38]
    case 8 => [6, 24, 42]
    case 9 => [6, 26, 46]
    case 10 => [6, 28, 50]
    case 11 => [6, 30, 54]
    case 12 => [6, 32, 58]
    case 13 => [6, 34, 62]
    case 14 => [6, 26, 46, 66]
    case _ => [6, 26, 48, 70]
  }

  // The encoder computes the same positions from a step width.
  method AlignmentPatternPositions(ver: nat) returns (result: seq<int>)
    requires IsVersion(ver)
    ensures result == AlignmentTable(ver)
  {
    hide AlignmentTable, CeilDiv;
    if ver == 1 {
      return [];
    }
    var numAlign := ver / 7 + 2;
    var step := if ver == 32 then 26 else CeilDiv(ver * 4 + 4, numAlign * 2 - 2) * 2;
    result := [6];
    var pos := ver * 4 + 10;
    while |result| < numAlign
      invariant 1 <= |result| <= numAlign
      invariant pos == ver * 4 + 10 - (|result| - 1) * step
      invariant result[0] == 6
      invariant forall k :: 1 <= k < |result| ==> result[k] == ver * 4 + 10 - (|result| - 1 - k) * step
      decreases numAlign - |result|
    {
      result := result[..1] + [pos] + result[1..];
      pos := pos - step;
    }
    TableSteps(ver);
  }

  function CeilDiv(a: nat, b: nat): nat
    requires 0 < b
  {
    (a + b - 1) / b
  }

  lemma TableSteps(ver: nat)
    requires IsVersion(ver) && ver >= 2
    ensures var t := AlignmentTable(ver);
      var step := CeilDiv(ver * 4 + 4, (ver / 7 + 2) * 2 - 2) * 2;
      forall k :: 1 <= k < |t| ==> t[k] == ver * 4 + 10 - (|t| - 1 - k) * step
  {
    var n := ver / 7 + 2;
    if ver < 7 {
      assert n == 2;
    } else if ver < 14 {
      assert n == 3;
      assert CeilDiv(ver * 4 + 4, 4) == ver + 1;
    } else {
      assert n == 4;
    }
  }

  function Abs(a: int): int {
    if a < 0 then -a else a
  }

  predicate Near(a: int, c: int) {
    Abs(a - c) <= 2
  }

  // Patterns that would fall on a finder pattern are left out.
  predicate OnFinder(i: nat, j: nat, n: nat) {
    (i == 0 && j == 0) || (i == 0 && j == n - 1) || (i == n - 1 && j == 0)
  }

  predicate InAlignment(ver: nat, x: int, y: int)
    requires IsVersion(ver)
  {
    var p := AlignmentTable(ver);
    exists i, j :: 0 <= i < |p| && 0 <= j < |p| && !OnFinder(i, j, |p|) && Near(x, p[i]) && Near(y, p[j])
  }

  // The corners: finder patterns, separators, format information and dark module.
  predicate InCorner(size: nat, x: int, y: int) {
    (x <= 8 && y <= 8) || (size - 8 <= x && y <= 8) || (x <= 8 && size - 8 <= y)
  }

  predicate InVersionInfo(ver: nat, x: int, y: int) {
    var a := Size(ver) - 11;
    ver >= 7 && ((a <= x < a + 3 && y <= 5) || (x <= 5 && a <= y < a + 3))
  }

  predicate IsFunction(ver: nat, x: int, y: int)
    requires IsVersion(ver)
  {
    x == 6 || y == 6 || InCorner(Size(ver), x, y) || InAlignment(ver, x, y) || InVersionInfo(ver, x, y)
  }

  ghost predicate MarksFunctions(fn: Grid, ver: nat)
    requires IsVersion(ver)
  {
    IsGrid(fn, Size(ver)) &&
    forall x, y :: 0 <= x < Size(ver) && 0 <= y < Size(ver) ==> fn[y][x] == IsFunction(ver, x, y)
  }

  function FunctionGrid(ver: nat): (fn: Grid)
    requires IsVersion(ver)
    ensures MarksFunctions(fn, ver)
  {
    seq(Size(ver), y requires 0 <= y < Size(ver) =>
      seq(Size(ver), x requires 0 <= x < Size(ver) => IsFunction(ver, x, y)))
  }

  // ---- alignment patterns without the quantifier ----

  // Within an alignment pattern that is neither the first nor the last.
  predicate Mid(ver: nat, a: int)
    requires IsVersion(ver)
  {
    var p := AlignmentTable(ver);
    (|p| >= 3 && Near(a, p[1])) || (|p| >= 4 && Near(a, p[2]))
  }

  predicate Last(ver: nat, a: int) {
    ver >= 2 && Near(a, Size(ver) - 7)
  }

  predicate AlignmentFlat(ver: nat, x: int, y: int)
    requires IsVersion(ver)
  {
    || (Near(x, 6) && Mid(ver, y))
    || (Mid(ver, x) && (Near(y, 6) || Mid(ver, y) || Last(ver, y)))
    || (Last(ver, x) && (Mid(ver, y) || Last(ver, y)))
  }

  lemma AlignmentIsFlat(ver: nat, x: int, y: int)
    requires IsVersion(ver)
    ensures InAlignment(ver, x, y) <==> AlignmentFlat(ver, x, y)
  {
    hide AlignmentTable, Near;
    var p := AlignmentTable(ver);
    var n := |p|;
    if InAlignment(ver, x, y) {
      var i, j :| 0 <= i < n && 0 <= j < n && !OnFinder(i, j, n) && Near(x, p[i]) && Near(y, p[j]);
      assert 0 < i < n - 1 ==> Mid(ver, x);
      assert 0 < j < n - 1 ==> Mid(ver, y);
    }
    if AlignmentFlat(ver, x, y) {
      var i := if Near(x, 6) && Mid(ver, y) then 0 else if Mid(ver, x) then MidIndex(ver, x) else n - 1;
      var j := if Mid(ver, y) then MidIndex(ver, y) else if Mid(ver, x) && Near(y, 6) then 0 else n - 1;
      assert Near(x, p[i]) && Near(y, p[j]) && !OnFinder(i, j, n);
    }
  }

  function MidIndex(ver: nat, a: int): (i: nat)
    requires IsVersion(ver) && Mid(ver, a)
    ensures 0 < i < |AlignmentTable(ver)| - 1 && Near(a, AlignmentTable(ver)[i])
  {
    if Near(a, AlignmentTable(ver)[1]) then 1 else 2
  }

  // ---- counting free modules ----

  function RangeCount(fn: Grid, size: nat, x: nat, lo: nat, hi: nat): nat
    requires IsGrid(fn, size) && x < size && lo <= hi <= size
  {
    if lo == hi then 0 else RangeCount(fn, size, x, lo, hi - 1) + if fn[hi - 1][x] then 0 else 1
  }

  lemma {:induction false} RangeSplit(fn: Grid, size: nat, x: nat, lo: nat, mid: nat, hi: nat)
    requires IsGrid(fn, size) && x < size && lo <= mid <= hi <= size
    ensures RangeCount(fn, size, x, lo, hi) == RangeCount(fn, size, x, lo, mid) + RangeCount(fn, size, x, mid, hi)
  {
    if mid < hi {
      RangeSplit(fn, size, x, lo, mid, hi - 1);
    }
  }

  lemma {:induction false} RangeConstant(fn: Grid, size: nat, x: nat, lo: nat, hi: nat, b: bool)
    requires IsGrid(fn, size) && x < size && lo <= hi <= size
    requires forall y :: lo <= y < hi ==> fn[y][x] == b
    ensures RangeCount(fn, size, x, lo, hi) == if b then 0 else hi - lo
  {
    if lo < hi {
      RangeConstant(fn, size, x, lo, hi - 1, b);
    }
  }

  // One more segment of a column with constant content.
  lemma Segment(fn: Grid, size: nat, x: nat, lo: nat, hi: nat, b: bool)
    requires IsGrid(fn, size) && x < size && lo <= hi <= size
    requires forall y :: lo <= y < hi ==> fn[y][x] == b
    ensures RangeCount(fn, size, x, 0, hi) == RangeCount(fn, size, x, 0, lo) + if b then 0 else hi - lo
  {
    RangeSplit(fn, size, x, 0, lo, hi);
    RangeConstant(fn, size, x, lo, hi, b);
  }

  function NumAlign(ver: nat): nat {
    ver / 7 + 2
  }

  lemma OneMid(fn: Grid, size: nat, x: nat, lo: nat, hi: nat, m: nat)
    requires IsGrid(fn, size) && x < size && lo + 2 <= m && m + 3 <= hi <= size
    requires forall y :: lo <= y < hi ==> fn[y][x] == Near(y, m)
    ensures RangeCount(fn, size, x, 0, hi) == RangeCount(fn, size, x, 0, lo) + hi - lo - 5
  {
    Segment(fn, size, x, lo, m - 2, false);
    Segment(fn, size, x, m - 2, m + 3, true);
    Segment(fn, size, x, m + 3, hi, false);
  }

  // The rows between the corner and the last alignment row, in a column where
  // exactly the middle alignment rows are function modules.
  lemma MidSegment(fn: Grid, ver: nat, x: nat)
    requires IsVersion(ver) && x < Size(ver) && IsGrid(fn, Size(ver))
    requires forall y :: 9 <= y < Size(ver) - 11 ==> fn[y][x] == Mid(ver, y)
    ensures var size := Size(ver);
      RangeCount(fn, size, x, 0, size - 11) == RangeCount(fn, size, x, 0, 9) + size - 20 - 5 * (NumAlign(ver) - 2)
  {
    hide RangeCount;
    var size := Size(ver);
    var p := AlignmentTable(ver);
    if ver < 7 {
      Segment(fn, size, x, 9, size - 11, false);
    } else if ver < 14 {
      OneMid(fn, size, x, 9, size - 11, p[1]);
    } else {
      OneMid(fn, size, x, 9, p[1] + 3, p[1]);
      OneMid(fn, size, x, p[1] + 3, size - 11, p[2]);
    }
  }

  lemma MidBounds(ver: nat, a: int)
    requires IsVersion(ver) && Mid(ver, a)
    ensures 11 <= a < Size(ver) - 11
  {}

  // IsFunction without the quantifier, as the counting uses it.
  ghost predicate FlatFunctions(fn: Grid, ver: nat)
    requires IsVersion(ver)
  {
    IsGrid(fn, Size(ver)) &&
    forall x, y :: 0 <= x < Size(ver) && 0 <= y < Size(ver) ==>
      fn[y][x] == (x == 6 || y == 6 || InCorner(Size(ver), x, y) || AlignmentFlat(ver, x, y) ||
        InVersionInfo(ver, x, y))
  }

  lemma MarksFlat(fn: Grid, ver: nat)
    requires IsVersion(ver) && MarksFunctions(fn, ver)
    ensures FlatFunctions(fn, ver)
  {
    hide InAlignment, AlignmentFlat, InCorner, InVersionInfo;
    forall x, y | 0 <= x < Size(ver) && 0 <= y < Size(ver)
      ensures fn[y][x] == (x == 6 || y == 6 || InCorner(Size(ver), x, y) || AlignmentFlat(ver, x, y) ||
        InVersionInfo(ver, x, y))
    {
      AlignmentIsFlat(ver, x, y);
    }
  }

  // The free modules of column x.
  function ColumnFree(ver: nat, x: nat): int
    requires IsVersion(ver)
  {
    var size, mids, info := Size(ver), 5 * (NumAlign(ver) - 2), if ver >= 7 then 1 else 0;
    var last := if ver >= 2 then 5 else 0;
    if x == 6 then 0
    else if x < 9 then size - 17 - (if x < 4 then 0 else mids) - (if x < 6 then 3 * info else 0)
    else if x < size - 11 then (if Mid(ver, x) then size - 10 - mids else size - 1)
    else if x < size - 9 then size - 1 - 6 * info
    else if x == size - 9 then size - 1 - 6 * info - (if ver >= 2 then mids + 5 else 0)
    else if x < size - 4 then size - 9 - (if ver >= 2 then mids + 5 else 0)
    else size - 9
  }

  lemma LeftColumns(fn: Grid, ver: nat, x: nat)
    requires IsVersion(ver) && x < 9 && FlatFunctions(fn, ver)
    ensures RangeCount(fn, Size(ver), x, 0, Size(ver)) == ColumnFree(ver, x)
  {
    hide Mid, RangeCount;
    var size := Size(ver);
    forall y | Mid(ver, y) ensures 11 <= y < size - 11 { MidBounds(ver, y); }
    if x == 6 {
      RangeConstant(fn, size, x, 0, size, true);
    } else {
      RangeConstant(fn, size, x, 0, 0, true);
      Segment(fn, size, x, 0, 9, true);
      if x < 4 {
        Segment(fn, size, x, 9, size - 11, false);
      } else {
        MidSegment(fn, ver, x);
      }
      Segment(fn, size, x, size - 11, size - 8, ver >= 7 && x < 6);
      Segment(fn, size, x, size - 8, size, true);
    }
  }

  lemma MiddleColumns(fn: Grid, ver: nat, x: nat)
    requires IsVersion(ver) && 9 <= x < Size(ver) - 11 && FlatFunctions(fn, ver)
    ensures RangeCount(fn, Size(ver), x, 0, Size(ver)) == ColumnFree(ver, x)
  {
    hide Mid, RangeCount;
    var size := Size(ver);
    forall y | Mid(ver, y) ensures 11 <= y < size - 11 { MidBounds(ver, y); }
    RangeConstant(fn, size, x, 0, 0, true);
    var m := Mid(ver, x);
    Segment(fn, size, x, 0, 4, false);
    Segment(fn, size, x, 4, 6, m);
    Segment(fn, size, x, 6, 7, true);
    Segment(fn, size, x, 7, 9, m);
    if m {
      MidNeedsSeven(ver, x);
      MidSegment(fn, ver, x);
    } else {
      Segment(fn, size, x, 9, size - 11, false);
    }
    Segment(fn, size, x, size - 11, size - 9, false);
    Segment(fn, size, x, size - 9, size - 4, m);
    Segment(fn, size, x, size - 4, size, false);
  }

  lemma MidNeedsSeven(ver: nat, a: int)
    requires IsVersion(ver) && Mid(ver, a)
    ensures ver >= 7
  {}

  lemma RightColumns(fn: Grid, ver: nat, x: nat)
    requires IsVersion(ver) && Size(ver) - 11 <= x < Size(ver) && FlatFunctions(fn, ver)
    ensures RangeCount(fn, Size(ver), x, 0, Size(ver)) == ColumnFree(ver, x)
  {
    hide Mid, RangeCount;
    var size := Size(ver);
    forall y | Mid(ver, y) ensures 11 <= y < size - 11 { MidBounds(ver, y); }
    RangeConstant(fn, size, x, 0, 0, true);
    var top := if x < size - 8 then ver >= 7 else true;
    var last := Last(ver, x);
    Segment(fn, size, x, 0, 6, top);
    Segment(fn, size, x, 6, 7, true);
    Segment(fn, size, x, 7, 9, x >= size - 8);
    if last {
      MidSegment(fn, ver, x);
    } else {
      Segment(fn, size, x, 9, size - 11, false);
    }
    Segment(fn, size, x, size - 11, size - 9, false);
    Segment(fn, size, x, size - 9, size - 4, last);
    Segment(fn, size, x, size - 4, size, false);
  }

  lemma ColumnCount(fn: Grid, ver: nat, x: nat)
    requires IsVersion(ver) && x < Size(ver) && FlatFunctions(fn, ver)
    ensures RangeCount(fn, Size(ver), x, 0, Size(ver)) == ColumnFree(ver, x)
  {
    if x < 9 {
      LeftColumns(fn, ver, x);
    } else if x < Size(ver) - 11 {
      MiddleColumns(fn, ver, x);
    } else {
      RightColumns(fn, ver, x);
    }
  }

  // ---- summing the columns ----

  function ColumnsFree(ver: nat, lo: nat, hi: nat): int
    requires IsVersion(ver) && lo <= hi
  {
    if lo == hi then 0 else ColumnsFree(ver, lo, hi - 1) + ColumnFree(ver, hi - 1)
  }

  lemma {:induction false} SumSplit(ver: nat, lo: nat, mid: nat, hi: nat)
    requires IsVersion(ver) && lo <= mid <= hi
    ensures ColumnsFree(ver, lo, hi) == ColumnsFree(ver, lo, mid) + ColumnsFree(ver, mid, hi)
  {
    if mid < hi {
      SumSplit(ver, lo, mid, hi - 1);
    }
  }

  lemma {:induction false} SumConstant(ver: nat, lo: nat, hi: nat, c: int)
    requires IsVersion(ver) && lo <= hi
    requires forall x :: lo <= x < hi ==> ColumnFree(ver, x) == c
    ensures ColumnsFree(ver, lo, hi) == (hi - lo) * c
  {
    hide ColumnFree;
    if lo < hi {
      SumConstant(ver, lo, hi - 1, c);
      assert (hi - lo) * c == (hi - 1 - lo) * c + c;
    }
  }

  lemma Columns(ver: nat, lo: nat, hi: nat, c: int)
    requires IsVersion(ver) && lo <= hi
    requires forall x :: lo <= x < hi ==> ColumnFree(ver, x) == c
    ensures ColumnsFree(ver, 0, hi) == ColumnsFree(ver, 0, lo) + (hi - lo) * c
  {
    SumSplit(ver, 0, lo, hi);
    SumConstant(ver, lo, hi, c);
  }

  lemma OneMidColumns(ver: nat, lo: nat, m: nat, hi: nat)
    requires IsVersion(ver) && 9 <= lo && lo + 2 <= m && m + 3 <= hi <= Size(ver) - 11
    requires forall x :: lo <= x < hi ==> Mid(ver, x) == Near(x, m)
    ensures ColumnsFree(ver, 0, hi) ==
      ColumnsFree(ver, 0, lo) + (hi - lo) * (Size(ver) - 1) - 5 * (9 + 5 * (NumAlign(ver) - 2))
  {
    hide Mid, ColumnsFree;
    var plain, mids := Size(ver) - 1, 5 * (NumAlign(ver) - 2);
    Columns(ver, lo, m - 2, plain);
    Columns(ver, m - 2, m + 3, plain - 9 - mids);
    Columns(ver, m + 3, hi, plain);
    assert (m - 2 - lo) * plain + 5 * plain + (hi - m - 3) * plain == (hi - lo) * plain;
  }

  lemma MidColumns(ver: nat)
    requires IsVersion(ver)
    ensures var size, mids := Size(ver), NumAlign(ver) - 2;
      ColumnsFree(ver, 0, size - 11) == ColumnsFree(ver, 0, 9) + (size - 20) * (size - 1) - 5 * mids * (9 + 5 * mids)
  {
    hide ColumnsFree, ColumnFree;
    var size := Size(ver);
    var p := AlignmentTable(ver);
    if ver < 7 {
      NoMidColumns(ver);
    } else if ver < 14 {
      OneMidColumns(ver, 9, p[1], size - 11);
    } else {
      var s := p[1] + 3;
      OneMidColumns(ver, 9, p[1], s);
      OneMidColumns(ver, s, p[2], size - 11);
      assert (s - 9) * (size - 1) + (size - 11 - s) * (size - 1) == (size - 20) * (size - 1);
    }
  }

  lemma NoMidColumns(ver: nat)
    requires 1 <= ver < 7
    ensures ColumnsFree(ver, 0, Size(ver) - 11) == ColumnsFree(ver, 0, 9) + (Size(ver) - 20) * (Size(ver) - 1)
  {
    hide ColumnsFree;
    Columns(ver, 9, Size(ver) - 11, Size(ver) - 1);
  }

  function Info(ver: nat): nat {
    if ver >= 7 then 1 else 0
  }

  function LastRows(ver: nat): nat {
    if ver >= 2 then 5 * (NumAlign(ver) - 2) + 5 else 0
  }

  lemma LeftSum(ver: nat)
    requires IsVersion(ver)
    ensures ColumnsFree(ver, 0, 9) == 8 * (Size(ver) - 17) - 20 * (NumAlign(ver) - 2) - 18 * Info(ver)
  {
    hide ColumnsFree, Mid;
    var size, mids, info := Size(ver), 5 * (NumAlign(ver) - 2), Info(ver);
    SumConstant(ver, 0, 0, 0);
    Columns(ver, 0, 4, size - 17 - 3 * info);
    Columns(ver, 4, 6, size - 17 - mids - 3 * info);
    Columns(ver, 6, 7, 0);
    Columns(ver, 7, 9, size - 17 - mids);
  }

  lemma RightSum(ver: nat)
    requires IsVersion(ver)
    ensures ColumnsFree(ver, 0, Size(ver)) ==
      ColumnsFree(ver, 0, Size(ver) - 11) + 3 * (Size(ver) - 1) + 8 * (Size(ver) - 9)
        - 18 * Info(ver) - 5 * LastRows(ver)
  {
    hide ColumnsFree, Mid;
    var size, info, last := Size(ver), Info(ver), LastRows(ver);
    Columns(ver, size - 11, size - 9, size - 1 - 6 * info);
    Columns(ver, size - 9, size - 8, size - 1 - 6 * info - last);
    Columns(ver, size - 8, size - 4, size - 9 - last);
    Columns(ver, size - 4, size, size - 9);
  }

  // Summing the column counts gives the encoder's formula.
  lemma AllColumns(ver: nat)
    requires IsVersion(ver)
    ensures ColumnsFree(ver, 0, Size(ver)) == NumRawDataModules(ver)
  {
    hide ColumnsFree, AlignmentTable;
    LeftSum(ver);
    MidColumns(ver);
    RightSum(ver);
    assert (Size(ver) - 20) * (Size(ver) - 1) == 16 * (ver * ver) + 52 * ver - 48;
    assert (16 * ver + 128) * ver == 16 * (ver * ver) + 128 * ver;
    if ver < 7 {
      assert NumAlign(ver) == 2;
    } else if ver < 14 {
      assert NumAlign(ver) == 3;
    } else {
      assert NumAlign(ver) == 4;
    }
  }

  // ---- the number of modules the walk reads ----

  function ColumnsCount(fn: Grid, size: nat, lo: nat): nat
    requires IsGrid(fn, size) && lo <= size
    decreases size - lo
  {
    if lo == size then 0 else RangeCount(fn, size, lo, 0, size) + ColumnsCount(fn, size, lo + 1)
  }

  lemma {:induction false} ColumnsTotal(fn: Grid, ver: nat, lo: nat)
    requires IsVersion(ver) && FlatFunctions(fn, ver) && lo <= Size(ver)
    ensures ColumnsCount(fn, Size(ver), lo) == ColumnsFree(ver, lo, Size(ver))
    decreases Size(ver) - lo
  {
    hide FlatFunctions, RangeCount, ColumnFree;
    if lo < Size(ver) {
      ColumnsTotal(fn, ver, lo + 1);
      ColumnCount(fn, ver, lo);
      SumSplit(ver, lo, lo + 1, Size(ver));
      assert ColumnsFree(ver, lo, lo) == 0;
    }
  }

  // One step reads the free modules of one row of two columns.
  lemma StepRead(fn: Grid, g: Grid, size: nat, p: nat, vert: nat)
    requires IsSize(size) && IsGrid(fn, size) && IsGrid(g, size) && p < Pairs(size) && vert < size
    ensures var r := Right(size, p); var y := Y(size, p, vert);
      && 0 < r < size && 0 <= y < size
      && |CellBit(fn, g, size, p, vert, 0)| + |CellBit(fn, g, size, p, vert, 1)| ==
           RangeCount(fn, size, r, y, y + 1) + RangeCount(fn, size, r - 1, y, y + 1)
  {
    hide Right, Upward;
    StepInverse(size, p, vert, 0);
    StepInverse(size, p, vert, 1);
  }

  // Going up or down, v steps read the free modules of v rows of two columns.
  lemma {:induction false} ColumnsRead(fn: Grid, g: Grid, size: nat, p: nat, v: nat)
    requires IsSize(size) && IsGrid(fn, size) && IsGrid(g, size) && p < Pairs(size) && v <= size
    ensures 0 < Right(size, p) < size
    ensures var (lo, hi) := if Upward(Right(size, p)) then (size - v, size) else (0, v);
      |ReadColumns(fn, g, size, p, v)| ==
        RangeCount(fn, size, Right(size, p), lo, hi) + RangeCount(fn, size, Right(size, p) - 1, lo, hi)
  {
    hide CellBit;
    StepRead(fn, g, size, p, 0);
    var r := Right(size, p);
    if v > 0 {
      ColumnsRead(fn, g, size, p, v - 1);
      StepRead(fn, g, size, p, v - 1);
      if Upward(r) {
        RangeSplit(fn, size, r, size - v, size - v + 1, size);
        RangeSplit(fn, size, r - 1, size - v, size - v + 1, size);
      } else {
        RangeSplit(fn, size, r, 0, v - 1, v);
        RangeSplit(fn, size, r - 1, 0, v - 1, v);
      }
    }
  }

  lemma {:induction false} WalkReads(fn: Grid, g: Grid, size: nat, n: nat)
    requires IsSize(size) && IsGrid(fn, size) && IsGrid(g, size) && n <= Pairs(size)
    requires forall y :: 0 <= y < size ==> fn[y][6]
    ensures var lo := if n == 0 then size else Right(size, n - 1) - 1;
      0 <= lo <= size && |ReadWalk(fn, g, size, n)| == ColumnsCount(fn, size, lo)
  {
    hide ReadColumns, RangeCount;
    if n > 0 {
      WalkReads(fn, g, size, n - 1);
      ColumnsRead(fn, g, size, n - 1, size);
      var r := Right(size, n - 1);
      assert ColumnsCount(fn, size, r - 1) ==
        RangeCount(fn, size, r - 1, 0, size) + RangeCount(fn, size, r, 0, size) + ColumnsCount(fn, size, r + 1);
      if r == 5 {
        RangeConstant(fn, size, 6, 0, size, true);
      }
    }
  }

  // The walk reads exactly as many modules as the encoder's capacity formula says.
  lemma WalkLength(fn: Grid, g: Grid, ver: nat)
    requires IsVersion(ver) && MarksFunctions(fn, ver) && IsGrid(g, Size(ver))
    ensures |ReadWalk(fn, g, Size(ver), Pairs(Size(ver)))| == NumRawDataModules(ver)
  {
    hide InAlignment, InCorner, InVersionInfo, NumRawDataModules, ReadWalk, ColumnsCount, ColumnsFree, FlatFunctions;
    assert forall y :: 0 <= y < Size(ver) ==> fn[y][6];
    MarksFlat(fn, ver);
    WalkReads(fn, g, Size(ver), Pairs(Size(ver)));
    ColumnsTotal(fn, ver, 0);
    AllColumns(ver);
  }
}
