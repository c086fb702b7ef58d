// The mask score without its loops: how many places of the symbol show what is penalised.
module QrScore {
  import opened QrWalk
  import opened QrLayout
  import opened QrPenalty

  // ---- counting places ----

  // The places (a, b) with a < w and b < n where p holds.
  function Places(p: (int, int) -> bool, w: nat, n: nat): set<(int, int)> {
    set a, b | 0 <= a < w && 0 <= b < n && p(a, b) :: (a, b)
  }

  function InLine(p: (int, int) -> bool, w: nat, b: int): set<int> {
    set a | 0 <= a < w && p(a, b)
  }

  function Paired<T>(s: set<T>, b: int): set<(T, int)> {
    set a | a in s :: (a, b)
  }

  lemma {:induction false} PairedSize<T>(s: set<T>, b: int)
    ensures |Paired(s, b)| == |s|
  {
    if s == {} {
      assert Paired(s, b) == {};
    } else {
      var a :| a in s;
      PairedSize(s - {a}, b);
      assert Paired(s, b) == Paired(s - {a}, b) + {(a, b)};
    }
  }

  lemma PlacesNext(p: (int, int) -> bool, w: nat, n: nat)
    ensures |Places(p, w, n + 1)| == |Places(p, w, n)| + |InLine(p, w, n)|
  {
    var line := InLine(p, w, n);
    PairedSize(line, n);
    assert Places(p, w, n + 1) == Places(p, w, n) + Paired(line, n);
    assert Places(p, w, n) !! Paired(line, n);
  }

  // ---- runs in a line ----

  // Five equal modules from place i on.
  predicate Five(line: seq<bool>, i: int) {
    0 <= i <= |line| - 5 && line[i] == line[i + 1] == line[i + 2] == line[i + 3] == line[i + 4]
  }

  // They are the first five of their run.
  predicate FirstFive(line: seq<bool>, i: int) {
    Five(line, i) && (i == 0 || line[i - 1] != line[i])
  }

  function Fives(line: seq<bool>): set<int> {
    set i | 0 <= i < |line| && Five(line, i)
  }

  function FirstFives(line: seq<bool>): set<int> {
    set i | 0 <= i < |line| && FirstFive(line, i)
  }

  lemma {:induction false} TrailMeans(line: seq<bool>)
    requires line != []
    ensures var n := TrailRun(line);
      && (forall k :: |line| - n <= k < |line| ==> line[k] == line[|line| - 1])
      && (n < |line| ==> line[|line| - n - 1] != line[|line| - 1])
  {
    var n := |line|;
    if 1 < n && line[n - 2] == line[n - 1] {
      TrailMeans(line[..n - 1]);
    }
  }

  lemma LastFive(line: seq<bool>)
    requires line != []
    ensures Five(line, |line| - 5) <==> 5 <= TrailRun(line)
    ensures FirstFive(line, |line| - 5) <==> 5 == TrailRun(line)
  {
    hide TrailRun;
    TrailMeans(line);
  }

  lemma FivesNext(line: seq<bool>)
    requires line != []
    ensures var init := line[..|line| - 1];
      && Fives(line) == Fives(init) + (if Five(line, |line| - 5) then {|line| - 5} else {})
      && FirstFives(line) == FirstFives(init) + (if FirstFive(line, |line| - 5) then {|line| - 5} else {})
  {}

  // A run of five or more scores one point for each five in it and two for being a run.
  lemma {:induction false} LineScoreIs(line: seq<bool>)
    ensures LineScore(line) == |Fives(line)| + 2 * |FirstFives(line)|
  {
    hide Five, FirstFive, LineScore;
    if |line| <= 1 {
      ShortLine(line);
    } else {
      var n := |line| - 1;
      var init := line[..n];
      LineScoreIs(init);
      LineExtend(init, line[n]);
      assert init + [line[n]] == line;
      LastFive(line);
      FivesNext(line);
      NotYet(init);
    }
  }

  lemma ShortLine(line: seq<bool>)
    requires |line| <= 1
    ensures LineScore(line) == 0 && Fives(line) == FirstFives(line) == {}
  {
    if |line| == 1 {
      assert line[1..] == [];
    }
  }

  lemma NotYet(init: seq<bool>)
    ensures |init| - 4 !in Fives(init) && |init| - 4 !in FirstFives(init)
  {}

  // ---- the places of a symbol ----

  // Five equal modules in a row from (x, y) to the right, or down.
  predicate Across(g: Grid, size: nat, x: int, y: int)
    requires IsGrid(g, size)
  {
    0 <= y < size && 0 <= x <= size - 5 &&
    g[y][x] == g[y][x + 1] == g[y][x + 2] == g[y][x + 3] == g[y][x + 4]
  }

  predicate Down(g: Grid, size: nat, x: int, y: int)
    requires IsGrid(g, size)
  {
    0 <= x < size && 0 <= y <= size - 5 &&
    g[y][x] == g[y + 1][x] == g[y + 2][x] == g[y + 3][x] == g[y + 4][x]
  }

  // A square of four equal modules with (x, y) at its top left.
  predicate Square(g: Grid, size: nat, x: int, y: int)
    requires IsGrid(g, size)
  {
    0 <= x < size - 1 && 0 <= y < size - 1 && g[y][x] == g[y][x + 1] == g[y + 1][x] == g[y + 1][x + 1]
  }

  function AcrossRuns(g: Grid, size: nat): set<(int, int)>
    requires IsGrid(g, size)
  {
    set x, y | 0 <= x < size && 0 <= y < size && Across(g, size, x, y) && (x == 0 || g[y][x - 1] != g[y][x]) :: (x, y)
  }

  function AcrossFives(g: Grid, size: nat): set<(int, int)>
    requires IsGrid(g, size)
  {
    set x, y | 0 <= x < size && 0 <= y < size && Across(g, size, x, y) :: (x, y)
  }

  function DownRuns(g: Grid, size: nat): set<(int, int)>
    requires IsGrid(g, size)
  {
    set y, x | 0 <= y < size && 0 <= x < size && Down(g, size, x, y) && (y == 0 || g[y - 1][x] != g[y][x]) :: (y, x)
  }

  function DownFives(g: Grid, size: nat): set<(int, int)>
    requires IsGrid(g, size)
  {
    set y, x | 0 <= y < size && 0 <= x < size && Down(g, size, x, y) :: (y, x)
  }

  function Squares(g: Grid, size: nat): set<(int, int)>
    requires IsGrid(g, size)
  {
    set x, y | 0 <= x < size && 0 <= y < size && Square(g, size, x, y) :: (x, y)
  }

  function DarkModules(g: Grid, size: nat): set<(int, int)>
    requires IsGrid(g, size)
  {
    set x, y | 0 <= x < size && 0 <= y < size && g[y][x] :: (x, y)
  }

  // ---- lines of a symbol ----

  // Scores of lines, one after the other.
  function LinesScore(lines: seq<seq<bool>>): nat {
    if lines == [] then 0 else LinesScore(lines[..|lines| - 1]) + LineScore(lines[|lines| - 1])
  }

  lemma {:induction false} LinesScoreIs(lines: seq<seq<bool>>, size: nat)
    requires forall k :: 0 <= k < |lines| ==> |lines[k]| == size
    ensures LinesScore(lines) ==
      |set i, k | 0 <= i < size && 0 <= k < |lines| && Five(lines[k], i) :: (i, k)|
      + 2 * |set i, k | 0 <= i < size && 0 <= k < |lines| && FirstFive(lines[k], i) :: (i, k)|
  {
    hide Five, FirstFive, LineScore;
    var five := (i: int, k: int) => 0 <= k < |lines| && Five(lines[k], i);
    var first := (i: int, k: int) => 0 <= k < |lines| && FirstFive(lines[k], i);
    var a := set i, k | 0 <= i < size && 0 <= k < |lines| && Five(lines[k], i) :: (i, k);
    var b := set i, k | 0 <= i < size && 0 <= k < |lines| && FirstFive(lines[k], i) :: (i, k);
    if lines == [] {
      assert a == {} && b == {};
    } else {
      var n := |lines| - 1;
      var init := lines[..n];
      LinesScoreIs(init, size);
      LineScoreIs(lines[n]);
      PlacesNext(five, size, n);
      PlacesNext(first, size, n);
      assert InLine(five, size, n) == Fives(lines[n]) && InLine(first, size, n) == FirstFives(lines[n]);
      assert Places(five, size, n + 1) == a && Places(first, size, n + 1) == b;
      assert Places(five, size, n) ==
        set i, k | 0 <= i < size && 0 <= k < |init| && Five(init[k], i) :: (i, k);
      assert Places(first, size, n) ==
        set i, k | 0 <= i < size && 0 <= k < |init| && FirstFive(init[k], i) :: (i, k);
    }
  }

  lemma {:induction false} RowsAreLines(g: Grid, size: nat, n: nat)
    requires IsGrid(g, size) && n <= size
    ensures RowsScore(g, size, n) == LinesScore(g[..n])
  {
    hide LineScore;
    if n > 0 {
      RowsAreLines(g, size, n - 1);
      assert g[..n][..n - 1] == g[..n - 1];
    }
  }

  function ColumnLines(g: Grid, size: nat, n: nat): (lines: seq<seq<bool>>)
    requires IsGrid(g, size) && n <= size
    ensures |lines| == n && forall x :: 0 <= x < n ==> |lines[x]| == size
    ensures forall x, y :: 0 <= x < n && 0 <= y < size ==> |lines[x]| == size && lines[x][y] == g[y][x]
  {
    seq(n, x requires 0 <= x < n => Column(g, size, x))
  }

  lemma {:induction false} ColumnsAreLines(g: Grid, size: nat, n: nat)
    requires IsGrid(g, size) && n <= size
    ensures ColumnsScore(g, size, n) == LinesScore(ColumnLines(g, size, n))
  {
    hide LineScore;
    if n > 0 {
      ColumnsAreLines(g, size, n - 1);
      assert ColumnLines(g, size, n)[..n - 1] == ColumnLines(g, size, n - 1);
    }
  }

  lemma RowsScoreIs(g: Grid, size: nat)
    requires IsGrid(g, size)
    ensures RowsScore(g, size, size) == |AcrossFives(g, size)| + 2 * |AcrossRuns(g, size)|
  {
    hide RowsScore, LinesScore;
    RowsAreLines(g, size, size);
    assert g[..size] == g;
    LinesScoreIs(g, size);
    assert AcrossFives(g, size) == set i, k | 0 <= i < size && 0 <= k < |g| && Five(g[k], i) :: (i, k);
    assert AcrossRuns(g, size) == set i, k | 0 <= i < size && 0 <= k < |g| && FirstFive(g[k], i) :: (i, k);
  }

  lemma ColumnsScoreIs(g: Grid, size: nat)
    requires IsGrid(g, size)
    ensures ColumnsScore(g, size, size) == |DownFives(g, size)| + 2 * |DownRuns(g, size)|
  {
    hide ColumnsScore, LinesScore, ColumnLines;
    ColumnsAreLines(g, size, size);
    var lines := ColumnLines(g, size, size);
    LinesScoreIs(lines, size);
    assert DownFives(g, size) == set i, k | 0 <= i < size && 0 <= k < |lines| && Five(lines[k], i) :: (i, k);
    assert DownRuns(g, size) == set i, k | 0 <= i < size && 0 <= k < |lines| && FirstFive(lines[k], i) :: (i, k);
  }

  // ---- squares and dark modules ----

  lemma {:induction false} SquaresInRow(g: Grid, size: nat, y: nat, n: nat)
    requires IsGrid(g, size) && y + 1 < size && n < size
    ensures BlocksInRow(g, size, y, n) == |set x | 0 <= x < n && Square(g, size, x, y)|
  {
    var s := set x | 0 <= x < n && Square(g, size, x, y);
    if n == 0 {
      assert s == {};
    } else {
      SquaresInRow(g, size, y, n - 1);
      assert s == (set x | 0 <= x < n - 1 && Square(g, size, x, y))
        + if Square(g, size, n - 1, y) then {n - 1} else {};
    }
  }

  lemma {:induction false} SquaresAbove(g: Grid, size: nat, n: nat)
    requires IsGrid(g, size) && n < size
    ensures Blocks(g, size, n) == |Places((x, y) => Square(g, size, x, y), size, n)|
  {
    hide Square, BlocksInRow;
    var p := (x, y) => Square(g, size, x, y);
    if n == 0 {
      assert Places(p, size, 0) == {};
    } else {
      var y := n - 1;
      SquaresAbove(g, size, y);
      SquaresInRow(g, size, y, size - 1);
      PlacesNext(p, size, y);
      InsideRow(g, size, y);
      assert InLine(p, size, y) == set x | 0 <= x < size - 1 && Square(g, size, x, y);
    }
  }

  lemma InsideRow(g: Grid, size: nat, y: int)
    requires IsGrid(g, size)
    ensures forall x :: Square(g, size, x, y) ==> 0 <= x < size - 1
  {}

  lemma BlocksAreSquares(g: Grid, size: nat)
    requires IsGrid(g, size) && 0 < size
    ensures Blocks(g, size, size - 1) == |Squares(g, size)|
  {
    hide Blocks;
    SquaresAbove(g, size, size - 1);
    assert Squares(g, size) == Places((x, y) => Square(g, size, x, y), size, size - 1);
  }

  lemma {:induction false} DarkInLine(line: seq<bool>)
    ensures DarkIn(line) == |set x | 0 <= x < |line| && line[x]|
  {
    var s := set x | 0 <= x < |line| && line[x];
    if line == [] {
      assert s == {};
    } else {
      var n := |line| - 1;
      DarkInLine(line[..n]);
      assert s == (set x | 0 <= x < |line[..n]| && line[..n][x]) + if line[n] then {n} else {};
    }
  }

  lemma {:induction false} DarkAbove(g: Grid, size: nat, n: nat)
    requires IsGrid(g, size) && n <= size
    ensures Dark(g[..n]) == |Places((x, y) => 0 <= x < size && 0 <= y < size && g[y][x], size, n)|
  {
    var p := (x: int, y: int) => 0 <= x < size && 0 <= y < size && g[y][x];
    if n == 0 {
      assert Places(p, size, 0) == {};
    } else {
      var y := n - 1;
      var line := g[y];
      DarkAbove(g, size, y);
      assert g[..n][..y] == g[..y];
      DarkInLine(line);
      PlacesNext(p, size, y);
      assert InLine(p, size, y) == set x | 0 <= x < |line| && line[x];
    }
  }

  lemma DarkIsDark(g: Grid, size: nat)
    requires IsGrid(g, size)
    ensures Dark(g) == |DarkModules(g, size)|
  {
    hide Dark;
    DarkAbove(g, size, size);
    assert g[..size] == g;
    assert DarkModules(g, size) == Places((x, y) => 0 <= x < size && 0 <= y < size && g[y][x], size, size);
  }

  // The share of dark modules is more than k steps of five percent off one half, and at most
  // one step more.
  predicate StepsOff(dark: int, size: int, k: int) {
    k * (size * size) < Abs(20 * dark - 10 * (size * size)) <= (k + 1) * (size * size)
  }

  lemma StepsBound(dark: int, size: nat)
    requires 0 < size * size
    ensures StepsOff(dark, size, BalanceSteps(dark, size * size))
  {
    var total := size * size;
    var gap := Abs(dark * 20 - total * 10);
    var q, r := (gap + total - 1) / total, (gap + total - 1) % total;
    assert gap + total - 1 == q * total + r;
    assert (q - 1) * total == q * total - total;
  }

  // The score of a symbol: for rows and for columns one point for every five equal modules in
  // a line and two for every run of five or more, three for every square of four, and ten for
  // each full step of five percent by which the share of dark modules is off one half.
  lemma PenaltyExactly(g: Grid, size: nat)
    requires IsGrid(g, size) && 0 < size
    ensures exists k: int ::
      && StepsOff(|DarkModules(g, size)|, size, k)
      && Penalty(g, size) == |AcrossFives(g, size)| + 2 * |AcrossRuns(g, size)|
          + |DownFives(g, size)| + 2 * |DownRuns(g, size)| + 3 * |Squares(g, size)| + 10 * k
  {
    hide RowsScore, ColumnsScore, Blocks, Dark, BalanceSteps, AcrossFives, AcrossRuns, DownFives, DownRuns, Squares,
         DarkModules;
    RowsScoreIs(g, size);
    ColumnsScoreIs(g, size);
    BlocksAreSquares(g, size);
    DarkIsDark(g, size);
    assert 0 < size * size;
    StepsBound(Dark(g), size);
  }
}
