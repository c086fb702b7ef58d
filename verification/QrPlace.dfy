// Placing the codeword bits along the zigzag (ISO/IEC 18004:2015, section 7.7).
module QrPlace {
  import opened Arithmetic
  import opened GaloisField
  import opened QrStream
  import opened QrWalk

  // The first n bits, followed by light modules once the bits run out.
  function Prefix(bits: Bits, n: nat): (r: Bits)
    ensures |r| == n
  {
    if n <= |bits| then bits[..n] else bits + Falses(n - |bits|)
  }

  function WithModule(g: Grid, size: nat, x: nat, y: nat, v: bool): (r: Grid)
    requires IsGrid(g, size) && x < size && y < size
    ensures IsGrid(r, size)
    ensures forall i, j :: 0 <= i < size && 0 <= j < size ==> r[j][i] == if i == x && j == y then v else g[j][i]
  {
    g[y := g[y][x := v]]
  }

  // What has been read back when the walk stands before step (p, v, j).
  function ReadSoFar(fn: Grid, g: Grid, size: nat, p: nat, v: nat, j: nat): Bits
    requires IsSize(size) && IsGrid(fn, size) && IsGrid(g, size)
    requires p < Pairs(size) && v <= size && j < 2 && (j == 1 ==> v < size)
  {
    ReadWalk(fn, g, size, p) + ReadColumns(fn, g, size, p, v) + if j == 0 then [] else CellBit(fn, g, size, p, v, 0)
  }

  // Only modules already passed, and no function module, differ from the start.
  ghost predicate Untouched(fn: Grid, start: Grid, g: Grid, size: nat, p: nat, v: nat, j: nat)
    requires IsGrid(fn, size) && IsGrid(g, size) && IsGrid(start, size)
  {
    forall x, y :: 0 <= x < size && 0 <= y < size && (fn[y][x] || !Before(size, x, y, p, v, j)) ==>
      g[y][x] == start[y][x]
  }

  ghost predicate Placed(fn: Grid, start: Grid, g: Grid, bits: Bits, size: nat, p: nat, v: nat, j: nat, i: nat)
    requires IsSize(size) && IsGrid(fn, size) && IsGrid(g, size) && IsGrid(start, size)
    requires p < Pairs(size) && v <= size && j < 2 && (j == 1 ==> v < size)
  {
    && ReadSoFar(fn, g, size, p, v, j) == Prefix(bits, |ReadSoFar(fn, g, size, p, v, j)|)
    && i == Min(|ReadSoFar(fn, g, size, p, v, j)|, |bits|)
    && Untouched(fn, start, g, size, p, v, j)
  }

  ghost predicate LightOutside(fn: Grid, g: Grid, size: nat)
    requires IsGrid(fn, size) && IsGrid(g, size)
  {
    forall x, y :: 0 <= x < size && 0 <= y < size && !fn[y][x] ==> !g[y][x]
  }

  // Writing the module of the current step does not disturb what was read before it.
  lemma SoFarFrame(fn: Grid, a: Grid, size: nat, p: nat, v: nat, j: nat, b: bool)
    requires IsSize(size) && IsGrid(fn, size) && IsGrid(a, size)
    requires p < Pairs(size) && v < size && j < 2
    ensures 0 <= X(size, p, j) < size && 0 <= Y(size, p, v) < size
    ensures ReadSoFar(fn, WithModule(a, size, X(size, p, j), Y(size, p, v), b), size, p, v, j) ==
      ReadSoFar(fn, a, size, p, v, j)
  {
    hide PairOf, SideOf, VertOf, X, Y, ReadColumns, ReadWalk;
    StepInverse(size, p, v, j);
    var c := WithModule(a, size, X(size, p, j), Y(size, p, v), b);
    assert AgreeBefore(a, c, size, p, v);
    assert AgreeBefore(a, c, size, p, 0);
    ColumnsFrame(fn, a, c, size, p, v);
    WalkFrame(fn, a, c, size, p);
    StepInverse(size, p, v, 0);
  }

  // The new module extends what is read back by its own bit.
  lemma SoFarNext(fn: Grid, g: Grid, size: nat, p: nat, v: nat, j: nat)
    requires IsSize(size) && IsGrid(fn, size) && IsGrid(g, size)
    requires p < Pairs(size) && v < size && j < 2
    ensures var (v', j') := if j == 0 then (v, 1) else (v + 1, 0);
      ReadSoFar(fn, g, size, p, v', j') == ReadSoFar(fn, g, size, p, v, j) + CellBit(fn, g, size, p, v, j)
  {
    hide CellBit, ReadWalk;
  }

  lemma PrefixNext(bits: Bits, s: Bits, b: bool)
    requires s == Prefix(bits, |s|)
    requires b == (|s| < |bits| && bits[|s|])
    ensures s + [b] == Prefix(bits, |s| + 1)
  {}

  // One step of the loop: skip a function module, write the next bit, or leave
  // the module light when the bits are used up.
  lemma PlaceStep(fn: Grid, start: Grid, g: Grid, bits: Bits, size: nat, p: nat, v: nat, j: nat, i: nat)
    requires IsSize(size) && IsGrid(fn, size) && IsGrid(g, size) && IsGrid(start, size)
    requires p < Pairs(size) && v < size && j < 2
    requires Placed(fn, start, g, bits, size, p, v, j, i) && LightOutside(fn, start, size)
    ensures 0 <= X(size, p, j) < size && 0 <= Y(size, p, v) < size
    ensures var (x, y) := (X(size, p, j), Y(size, p, v));
      var writes := !fn[y][x] && i < |bits|;
      var next := if writes then WithModule(g, size, x, y, bits[i]) else g;
      var (v', j') := if j == 0 then (v, 1) else (v + 1, 0);
      Placed(fn, start, next, bits, size, p, v', j', if writes then i + 1 else i)
  {
    hide PairOf, SideOf, VertOf, X, Y, ReadSoFar, Prefix;
    StepInverse(size, p, v, j);
    var x, y := X(size, p, j), Y(size, p, v);
    var writes := !fn[y][x] && i < |bits|;
    var next := if writes then WithModule(g, size, x, y, bits[i]) else g;
    if writes {
      SoFarFrame(fn, g, size, p, v, j, bits[i]);
    }
    SoFarNext(fn, next, size, p, v, j);
    if !fn[y][x] {
      assert !Before(size, x, y, p, v, j);
      PrefixNext(bits, ReadSoFar(fn, next, size, p, v, j), next[y][x]);
    }
    var (v', j') := if j == 0 then (v, 1) else (v + 1, 0);
    assert Untouched(fn, start, next, size, p, v', j') by {
      forall a, b | 0 <= a < size && 0 <= b < size && (fn[b][a] || !Before(size, a, b, p, v', j'))
        ensures next[b][a] == start[b][a]
      {
        if Before(size, a, b, p, v, j) {
          assert fn[b][a];
        }
      }
    }
  }

  lemma PairDone(fn: Grid, start: Grid, g: Grid, bits: Bits, size: nat, p: nat, i: nat)
    requires IsSize(size) && IsGrid(fn, size) && IsGrid(g, size) && IsGrid(start, size)
    requires p < Pairs(size) && Placed(fn, start, g, bits, size, p, size, 0, i)
    ensures ReadWalk(fn, g, size, p + 1) == ReadSoFar(fn, g, size, p, size, 0)
    ensures if p + 1 < Pairs(size) then Placed(fn, start, g, bits, size, p + 1, 0, 0, i)
            else Finished(fn, start, g, bits, size)
  {
    hide PairOf, SideOf, VertOf, Prefix;
    assert ReadSoFar(fn, g, size, p, size, 0) == ReadWalk(fn, g, size, p + 1);
    if p + 1 < Pairs(size) {
      assert ReadSoFar(fn, g, size, p + 1, 0, 0) == ReadWalk(fn, g, size, p + 1);
    }
  }

  lemma {:induction false} FlattenBit(result: seq<Byte>, i: nat)
    requires i < 8 * |result|
    ensures Flatten(result)[i] == result[i / 8][i % 8]
  {
    FlattenAt(result, i / 8);
    assert Flatten(result)[8 * (i / 8)..8 * (i / 8) + 8][i % 8] == Flatten(result)[i];
  }

  // Snapshots follow single writes.
  lemma SnapWrite(m: array2<bool>, before: Grid, x: nat, y: nat)
    requires m.Length0 == m.Length1 && x < m.Length0 && y < m.Length0 && IsGrid(before, m.Length0)
    requires forall i, j :: 0 <= i < m.Length0 && 0 <= j < m.Length0 && !(i == x && j == y) ==> m[j, i] == before[j][i]
    ensures Snap(m) == WithModule(before, m.Length0, x, y, m[y, x])
  {
    GridsEqual(Snap(m), WithModule(before, m.Length0, x, y, m[y, x]), m.Length0);
  }

  method PlaceData(modules: array2<bool>, isFunction: array2<bool>, result: seq<Byte>)
    requires modules.Length0 == modules.Length1 == isFunction.Length0 == isFunction.Length1
    requires modules != isFunction && IsSize(modules.Length0)
    requires LightOutside(Snap(isFunction), Snap(modules), modules.Length0)
    modifies modules
    ensures Finished(Snap(isFunction), old(Snap(modules)), Snap(modules), Flatten(result), modules.Length0)
  {
    hide Snap, PairOf, SideOf, VertOf, X, Y, Flatten, ReadSoFar, Placed, LightOutside, Untouched, Finished;
    var size := modules.Length0;
    ghost var fn, start, bits := Snap(isFunction), Snap(modules), Flatten(result);
    var i := 0;
    ghost var p := 0;
    var right := size - 1;
    StartPlaced(fn, start, bits, size);
    while right >= 1
      invariant p <= Pairs(size) && right == size - 1 - 2 * p - (if size - 1 - 2 * p < 6 then 1 else 0)
      invariant Snap(isFunction) == fn
      invariant p < Pairs(size) ==> Placed(fn, start, Snap(modules), bits, size, p, 0, 0, i)
      invariant p == Pairs(size) ==> Finished(fn, start, Snap(modules), bits, size)
    {
      if right == 6 {
        right := 5;
      }
      for vert := 0 to size
        invariant Snap(isFunction) == fn
        invariant Placed(fn, start, Snap(modules), bits, size, p, vert, 0, i)
      {
        i := PlaceModule(modules, isFunction, result, fn, start, p, right, vert, 0, i);
        i := PlaceModule(modules, isFunction, result, fn, start, p, right, vert, 1, i);
      }
      right := right - 2;
      PairDone(fn, start, Snap(modules), bits, size, p, i);
      p := p + 1;
    }
  }

  // The body of the innermost loop.
  method PlaceModule(modules: array2<bool>, isFunction: array2<bool>, result: seq<Byte>, ghost fn: Grid,
                     ghost start: Grid, ghost p: nat, right: nat, vert: nat, j: nat, i: nat)
    returns (next: nat)
    requires modules.Length0 == modules.Length1 == isFunction.Length0 == isFunction.Length1
    requires modules != isFunction && IsSize(modules.Length0)
    requires fn == Snap(isFunction) && IsGrid(start, modules.Length0)
    requires p < Pairs(modules.Length0) && right == Right(modules.Length0, p) && vert < modules.Length0 && j < 2
    requires LightOutside(fn, start, modules.Length0)
    requires Placed(fn, start, Snap(modules), Flatten(result), modules.Length0, p, vert, j, i)
    modifies modules
    ensures var (v', j') := if j == 0 then (vert, 1) else (vert + 1, 0);
      Placed(fn, start, Snap(modules), Flatten(result), modules.Length0, p, v', j', next)
  {
    hide PairOf, SideOf, VertOf, X, Y, Flatten, ReadSoFar, Placed, LightOutside, Untouched;
    var size := modules.Length0;
    ghost var before, bits := Snap(modules), Flatten(result);
    var x := right - j;
    var upward := (right + 1) / 2 % 2 == 0;
    var y := if upward then size - 1 - vert else vert;
    StepAt(size, p, vert, j, right);
    PlaceStep(fn, start, before, bits, size, p, vert, j, i);
    next := i;
    if !isFunction[y, x] && i < |result| * 8 {
      FlattenBit(result, i);
      modules[y, x] := result[i / 8][i % 8];
      SnapWrite(modules, before, x, y);
      next := i + 1;
    }
  }

  ghost predicate Finished(fn: Grid, start: Grid, g: Grid, bits: Bits, size: nat)
    requires IsSize(size) && IsGrid(fn, size) && IsGrid(g, size) && IsGrid(start, size)
  {
    var read := ReadWalk(fn, g, size, Pairs(size));
    read == Prefix(bits, |read|) && Untouched(fn, start, g, size, Pairs(size), 0, 0)
  }

  lemma StartPlaced(fn: Grid, start: Grid, bits: Bits, size: nat)
    requires IsSize(size) && IsGrid(fn, size) && IsGrid(start, size)
    ensures Placed(fn, start, start, bits, size, 0, 0, 0, 0)
  {}

  lemma StepAt(size: nat, p: nat, vert: nat, j: nat, right: int)
    requires IsSize(size) && p < Pairs(size) && vert < size && j < 2
    requires right == Right(size, p)
    ensures X(size, p, j) == right - j
    ensures Y(size, p, vert) == if (right + 1) / 2 % 2 == 0 then size - 1 - vert else vert
    ensures 0 <= right - j < size && 0 <= Y(size, p, vert) < size
  {
    hide PairOf, SideOf, VertOf;
    StepInverse(size, p, vert, j);
  }
}
