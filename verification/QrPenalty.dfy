// The score by which the encoder compares masks: runs of five or more equal
// modules, monochrome 2x2 blocks, and the share of dark modules
// (ISO/IEC 18004:2015, section 7.8.3, without the finder-like pattern rule).
module QrPenalty {
  import opened QrWalk
  import opened QrLayout

  // ---- specification: maximal runs ----

  // The length of the run of equal modules a line starts with.
  function LeadRun(line: seq<bool>): (n: nat)
    requires line != []
    ensures 1 <= n <= |line|
    ensures forall i :: 0 <= i < n ==> line[i] == line[0]
    ensures n < |line| ==> line[n] != line[0]
  {
    if |line| == 1 || line[1] != line[0] then 1 else 1 + LeadRun(line[1..])
  }

  // A run of r >= 5 modules scores 3 + (r - 5).
  function RunPoints(r: nat): nat {
    if r < 5 then 0 else r - 2
  }

  function LineScore(line: seq<bool>): nat {
    if line == [] then 0 else RunPoints(LeadRun(line)) + LineScore(line[LeadRun(line)..])
  }

  function TrailRun(line: seq<bool>): (n: nat)
    requires line != []
    ensures 1 <= n <= |line|
  {
    var n := |line|;
    if n == 1 || line[n - 2] != line[n - 1] then 1 else 1 + TrailRun(line[..n - 1])
  }

  lemma ScoreFrom(line: seq<bool>, r: nat)
    requires 1 <= r <= |line|
    requires forall i :: 0 <= i < r ==> line[i] == line[0]
    requires r < |line| ==> line[r] != line[0]
    ensures LineScore(line) == RunPoints(r) + LineScore(line[r..])
  {
    LeadRunIs(line, r);
  }

  lemma ExtendSingleRun(line: seq<bool>, b: bool)
    requires line != [] && LeadRun(line) == |line|
    ensures TrailRun(line) == |line| && LineScore(line) == RunPoints(|line|)
    ensures LineScore(line + [b]) == RunPoints(if b == line[0] then |line| + 1 else |line|)
  {
    var r := |line|;
    WholeRun(line);
    assert line[r..] == [];
    if b == line[0] {
      ScoreFrom(line + [b], r + 1);
      assert (line + [b])[r + 1..] == [];
    } else {
      ScoreFrom(line + [b], r);
      assert (line + [b])[r..] == [b];
      assert [b][1..] == [];
    }
  }

  // The incremental count of the loop: only the last run changes.
  lemma {:induction false} LineExtend(line: seq<bool>, b: bool)
    requires line != []
    ensures LineScore(line + [b]) ==
      if b == line[|line| - 1] then LineScore(line) - RunPoints(TrailRun(line)) + RunPoints(TrailRun(line) + 1)
      else LineScore(line)
    decreases |line|
  {
    hide TrailRun, RunPoints, LineScore;
    var r := LeadRun(line);
    if r == |line| {
      ExtendSingleRun(line, b);
    } else {
      var rest := line[r..];
      LineExtend(rest, b);
      ScoreFrom(line, r);
      ScoreFrom(line + [b], r);
      assert (line + [b])[r..] == rest + [b];
      TrailInRest(line, r);
    }
  }

  lemma {:induction false} LeadRunIs(line: seq<bool>, r: nat)
    requires 1 <= r <= |line|
    requires forall i :: 0 <= i < r ==> line[i] == line[0]
    requires r < |line| ==> line[r] != line[0]
    ensures LeadRun(line) == r
  {}

  lemma {:induction false} WholeRun(line: seq<bool>)
    requires line != [] && LeadRun(line) == |line|
    ensures TrailRun(line) == |line|
  {
    if |line| > 1 {
      var shorter := line[..|line| - 1];
      LeadRunIs(shorter, |shorter|);
      WholeRun(shorter);
    }
  }

  lemma {:induction false} TrailInRest(line: seq<bool>, r: nat)
    requires 0 < r < |line| && line[r] != line[r - 1]
    ensures TrailRun(line) == TrailRun(line[r..])
    decreases |line|
  {
    var n := |line|;
    if r < n - 1 {
      var shorter := line[..n - 1];
      TrailInRest(shorter, r);
      assert shorter[r..] == line[r..][..n - 1 - r];
    }
  }

  function Column(g: Grid, size: nat, x: nat): seq<bool>
    requires IsGrid(g, size) && x < size
  {
    seq(size, y requires 0 <= y < size => g[y][x])
  }

  function RowsScore(g: Grid, size: nat, n: nat): nat
    requires IsGrid(g, size) && n <= size
  {
    if n == 0 then 0 else RowsScore(g, size, n - 1) + LineScore(g[n - 1])
  }

  function ColumnsScore(g: Grid, size: nat, n: nat): nat
    requires IsGrid(g, size) && n <= size
  {
    if n == 0 then 0 else ColumnsScore(g, size, n - 1) + LineScore(Column(g, size, n - 1))
  }

  predicate Monochrome(g: Grid, size: nat, x: nat, y: nat)
    requires IsGrid(g, size) && x + 1 < size && y + 1 < size
  {
    g[y][x] == g[y][x + 1] == g[y + 1][x] == g[y + 1][x + 1]
  }

  function BlocksInRow(g: Grid, size: nat, y: nat, n: nat): nat
    requires IsGrid(g, size) && y + 1 < size && n < size
  {
    if n == 0 then 0 else BlocksInRow(g, size, y, n - 1) + if Monochrome(g, size, n - 1, y) then 1 else 0
  }

  function Blocks(g: Grid, size: nat, n: nat): nat
    requires IsGrid(g, size) && n < size
  {
    if n == 0 then 0 else Blocks(g, size, n - 1) + BlocksInRow(g, size, n - 1, size - 1)
  }

  function DarkIn(line: seq<bool>): nat {
    if line == [] then 0 else DarkIn(line[..|line| - 1]) + if line[|line| - 1] then 1 else 0
  }

  function Dark(g: Grid): nat {
    if g == [] then 0 else Dark(g[..|g| - 1]) + DarkIn(g[|g| - 1])
  }

  // Steps of five percent away from an even share of dark modules.
  function BalanceSteps(dark: int, total: nat): int
    requires 0 < total
  {
    CeilDiv(Abs(dark * 20 - total * 10), total) - 1
  }

  function Penalty(g: Grid, size: nat): int
    requires IsGrid(g, size) && 0 < size
  {
    RowsScore(g, size, size) + ColumnsScore(g, size, size) + 3 * Blocks(g, size, size - 1)
    + 10 * BalanceSteps(Dark(g), size * size)
  }

  // An odd size never has an even share, so no score is negative.
  lemma PenaltyNonNegative(g: Grid, size: nat)
    requires IsGrid(g, size) && size % 2 == 1
    ensures 0 <= Penalty(g, size)
  {
    var h := size / 2;
    assert size * size == 2 * (2 * h * h + 2 * h) + 1;
    var gap := Abs(Dark(g) * 20 - size * size * 10);
    assert gap > 0;
    assert CeilDiv(gap, size * size) >= 1 by {
      assert (gap + size * size - 1) / (size * size) >= (size * size) / (size * size);
    }
  }

  // ---- the encoder's loops ----

  lemma FirstOfLine(line: seq<bool>)
    requires line != []
    ensures TrailRun(line[..1]) == 1 && LineScore(line[..1]) == 0
  {
    assert line[..1][1..] == [];
  }

  // What one more module adds to the run count and the score.
  lemma NextOfLine(line: seq<bool>, x: nat)
    requires 0 < x < |line|
    ensures var (run, score) := (TrailRun(line[..x]), LineScore(line[..x]));
      if line[x] == line[x - 1] then
        && TrailRun(line[..x + 1]) == run + 1
        && LineScore(line[..x + 1]) == score + (if run + 1 == 5 then 3 else if run + 1 > 5 then 1 else 0)
      else
        TrailRun(line[..x + 1]) == 1 && LineScore(line[..x + 1]) == score
  {
    hide LineScore;
    LineExtend(line[..x], line[x]);
    assert line[..x + 1] == line[..x] + [line[x]];
    assert line[..x + 1][..x] == line[..x];
  }

  method ScoreRow(modules: array2<bool>, y: nat) returns (p: nat)
    requires modules.Length0 == modules.Length1 && y < modules.Length0
    ensures p == LineScore(Snap(modules)[y])
  {
    hide LineScore, TrailRun;
    ghost var line := Snap(modules)[y];
    p := 0;
    var run := 1;
    FirstOfLine(line);
    for x := 1 to modules.Length0
      invariant run == TrailRun(line[..x])
      invariant p == LineScore(line[..x])
    {
      NextOfLine(line, x);
      if modules[y, x] == modules[y, x - 1] {
        run := run + 1;
        if run == 5 {
          p := p + 3;
        } else if run > 5 {
          p := p + 1;
        }
      } else {
        run := 1;
      }
    }
    assert line[..|line|] == line;
  }

  method ScoreColumn(modules: array2<bool>, x: nat) returns (p: nat)
    requires modules.Length0 == modules.Length1 && x < modules.Length0
    ensures p == LineScore(Column(Snap(modules), modules.Length0, x))
  {
    hide LineScore, TrailRun;
    ghost var line := Column(Snap(modules), modules.Length0, x);
    p := 0;
    var run := 1;
    FirstOfLine(line);
    for y := 1 to modules.Length0
      invariant run == TrailRun(line[..y])
      invariant p == LineScore(line[..y])
    {
      NextOfLine(line, y);
      if modules[y, x] == modules[y - 1, x] {
        run := run + 1;
        if run == 5 {
          p := p + 3;
        } else if run > 5 {
          p := p + 1;
        }
      } else {
        run := 1;
      }
    }
    assert line[..|line|] == line;
  }

  method CountDark(modules: array2<bool>) returns (dark: nat)
    requires modules.Length0 == modules.Length1
    ensures dark == Dark(Snap(modules))
  {
    ghost var g := Snap(modules);
    dark := 0;
    for y := 0 to modules.Length0
      invariant dark == Dark(g[..y])
    {
      for x := 0 to modules.Length1
        invariant dark == Dark(g[..y]) + DarkIn(g[y][..x])
      {
        assert g[y][..x + 1][..x] == g[y][..x];
        if modules[y, x] {
          dark := dark + 1;
        }
      }
      assert g[y][..modules.Length1] == g[y];
      assert g[..y + 1][..y] == g[..y];
    }
    assert g[..modules.Length0] == g;
  }

  method ComputePenalty(modules: array2<bool>) returns (p: int)
    requires modules.Length0 == modules.Length1 > 0
    ensures p == Penalty(Snap(modules), modules.Length0)
  {
    hide LineScore, Dark, Column;
    var size := modules.Length0;
    ghost var g := Snap(modules);
    p := 0;
    for y := 0 to size
      invariant p == RowsScore(g, size, y)
    {
      var s := ScoreRow(modules, y);
      p := p + s;
    }
    for x := 0 to size
      invariant p == RowsScore(g, size, size) + ColumnsScore(g, size, x)
    {
      var s := ScoreColumn(modules, x);
      p := p + s;
    }
    var b := ScoreBlocks(modules);
    p := p + b;
    var dark := CountDark(modules);
    var k := CeilDiv(Abs(dark * 20 - size * size * 10), size * size) - 1;
    p := p + k * 10;
  }

  method ScoreBlocks(modules: array2<bool>) returns (p: nat)
    requires modules.Length0 == modules.Length1 > 0
    ensures p == 3 * Blocks(Snap(modules), modules.Length0, modules.Length0 - 1)
  {
    var size := modules.Length0;
    ghost var g := Snap(modules);
    p := 0;
    for y := 0 to size - 1
      invariant p == 3 * Blocks(g, size, y)
    {
      for x := 0 to size - 1
        invariant p == 3 * Blocks(g, size, y) + 3 * BlocksInRow(g, size, y, x)
      {
        var c := modules[y, x];
        if c == modules[y, x + 1] && c == modules[y + 1, x] && c == modules[y + 1, x + 1] {
          p := p + 3;
        }
      }
    }
  }
}
