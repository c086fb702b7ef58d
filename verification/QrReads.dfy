// The strict reader on what the encoder lays down: the walk, the blocks and the stream.
module QrReads {
  import opened Arithmetic
  import opened GaloisField
  import opened QrBlocks
  import opened QrAgreement
  import opened QrLayout
  import opened QrPatterns
  import opened QrPlace
  import opened QrStream
  import opened QrSymbol
  import opened QrTables
  import opened QrWalk
  import opened ReedSolomon
  import opened Wrappers
  import R = QrReader

  // ---- the walk ----

  // The reader unmasks exactly the data modules, whatever the other modules show.
  ghost predicate ShowsData(g: Grid, ver: nat, mask: nat, placed: Grid)
    requires IsVersion(ver)
  {
    && IsGrid(g, Size(ver)) && IsGrid(placed, Size(ver)) && mask < 8
    && forall x, y :: 0 <= x < Size(ver) && 0 <= y < Size(ver) ==>
      R.DataBit(g, ver, mask, x, y) == if IsFunction(ver, x, y) then [] else [placed[y][x]]
  }

  lemma SymbolShowsData(ver: nat, ecl: Level, mask: nat, placed: Grid)
    requires IsVersion(ver) && IsGrid(placed, Size(ver)) && mask < 8
    ensures ShowsData(SymbolGrid(ver, ecl, mask, placed), ver, mask, placed)
  {
    hide FunctionModule, R.RoleOf, MaskBit, R.MaskDark, IsFunction;
    forall x, y | 0 <= x < Size(ver) && 0 <= y < Size(ver)
      ensures R.DataBit(SymbolGrid(ver, ecl, mask, placed), ver, mask, x, y)
        == if IsFunction(ver, x, y) then [] else [placed[y][x]]
    {
      RolesAgree(ver, ecl, mask, x, y);
      MaskAgrees(mask, x, y);
    }
  }

  lemma StepReads(g: Grid, ver: nat, mask: nat, placed: Grid, p: nat, v: nat, j: nat, x: nat, y: nat)
    requires IsVersion(ver) && mask < 8 && p < Pairs(Size(ver)) && v < Size(ver) && j < 2
    requires IsGrid(g, Size(ver)) && IsGrid(placed, Size(ver)) && ShowsData(g, ver, mask, placed)
    requires x == X(Size(ver), p, j) && y == Y(Size(ver), p, v) && x < Size(ver) && y < Size(ver)
    ensures R.DataBit(g, ver, mask, x, y) == CellBit(FunctionGrid(ver), placed, Size(ver), p, v, j)
  {
    hide X, Y, R.DataBit, IsFunction;
  }

  // One row of a pair of columns.
  lemma RowReads(g: Grid, ver: nat, mask: nat, placed: Grid, p: nat, v: nat, right: nat, y: nat, rest: Bits)
    requires IsVersion(ver) && mask < 8 && p < Pairs(Size(ver)) && v < Size(ver)
    requires IsGrid(g, Size(ver)) && IsGrid(placed, Size(ver)) && ShowsData(g, ver, mask, placed)
    requires right == Right(Size(ver), p) && y == Y(Size(ver), p, v) && 1 <= right < Size(ver) && y < Size(ver)
    ensures ReadColumns(FunctionGrid(ver), placed, Size(ver), p, v + 1) + rest ==
      ReadColumns(FunctionGrid(ver), placed, Size(ver), p, v)
        + (R.DataBit(g, ver, mask, right, y) + R.DataBit(g, ver, mask, right - 1, y) + rest)
  {
    hide R.DataBit, CellBit, Right, Upward, Y, FunctionGrid, ShowsData;
    StepReads(g, ver, mask, placed, p, v, 0, right, y);
    StepReads(g, ver, mask, placed, p, v, 1, right - 1, y);
    Regroup(ReadColumns(FunctionGrid(ver), placed, Size(ver), p, v),
      CellBit(FunctionGrid(ver), placed, Size(ver), p, v, 0),
      CellBit(FunctionGrid(ver), placed, Size(ver), p, v, 1), rest);
  }

  lemma Regroup(a: Bits, b: Bits, c: Bits, d: Bits)
    ensures a + b + c + d == a + (b + c + d)
  {}

  lemma {:induction false} UpReads(g: Grid, ver: nat, mask: nat, placed: Grid, p: nat, rows: nat)
    requires IsVersion(ver) && p < Pairs(Size(ver)) && rows <= Size(ver) && mask < 8
    requires IsGrid(g, Size(ver)) && IsGrid(placed, Size(ver)) && ShowsData(g, ver, mask, placed)
    requires 1 <= Right(Size(ver), p) < Size(ver) && Upward(Right(Size(ver), p))
    ensures ReadColumns(FunctionGrid(ver), placed, Size(ver), p, Size(ver)) ==
      ReadColumns(FunctionGrid(ver), placed, Size(ver), p, Size(ver) - rows)
        + R.ReadUp(g, ver, mask, Right(Size(ver), p), rows)
  {
    hide R.DataBit, ReadColumns, Right, Upward, FunctionGrid, ShowsData;
    if rows > 0 {
      UpReads(g, ver, mask, placed, p, rows - 1);
      RowReads(g, ver, mask, placed, p, Size(ver) - rows, Right(Size(ver), p), rows - 1,
        R.ReadUp(g, ver, mask, Right(Size(ver), p), rows - 1));
    }
  }

  lemma {:induction false} DownReads(g: Grid, ver: nat, mask: nat, placed: Grid, p: nat, y: nat)
    requires IsVersion(ver) && p < Pairs(Size(ver)) && y <= Size(ver) && mask < 8
    requires IsGrid(g, Size(ver)) && IsGrid(placed, Size(ver)) && ShowsData(g, ver, mask, placed)
    requires 1 <= Right(Size(ver), p) < Size(ver) && !Upward(Right(Size(ver), p))
    ensures ReadColumns(FunctionGrid(ver), placed, Size(ver), p, Size(ver)) ==
      ReadColumns(FunctionGrid(ver), placed, Size(ver), p, y) + R.ReadDown(g, ver, mask, Right(Size(ver), p), y)
    decreases Size(ver) - y
  {
    hide R.DataBit, ReadColumns, Right, Upward, FunctionGrid, ShowsData;
    if y < Size(ver) {
      DownReads(g, ver, mask, placed, p, y + 1);
      RowReads(g, ver, mask, placed, p, y, Right(Size(ver), p), y,
        R.ReadDown(g, ver, mask, Right(Size(ver), p), y + 1));
    }
  }

  // The right-hand column of pair p, and -1 after the last pair.
  function RightOr(size: nat, p: nat): int {
    if p < Pairs(size) then Right(size, p) else -1
  }

  lemma PairNext(ver: nat, p: nat)
    requires p < Pairs(Size(ver))
    ensures var (right, next) := (Right(Size(ver), p), RightOr(Size(ver), p + 1));
      && 1 <= right < Size(ver)
      && next == (if right == 8 then 5 else right - 2)
      && (p == 0 ==> right == Size(ver) - 1 && Upward(right))
      && (p + 1 < Pairs(Size(ver)) ==> 1 <= next && Upward(next) == !Upward(right))
  {}

  lemma {:induction false} PairsRead(g: Grid, ver: nat, mask: nat, placed: Grid, p: nat, up: bool)
    requires IsVersion(ver) && p <= Pairs(Size(ver)) && mask < 8
    requires IsGrid(g, Size(ver)) && IsGrid(placed, Size(ver)) && ShowsData(g, ver, mask, placed)
    requires p < Pairs(Size(ver)) ==> up == Upward(Right(Size(ver), p))
    ensures -1 <= RightOr(Size(ver), p) < Size(ver)
    ensures ReadWalk(FunctionGrid(ver), placed, Size(ver), Pairs(Size(ver))) ==
      ReadWalk(FunctionGrid(ver), placed, Size(ver), p)
        + R.ReadPairs(g, ver, mask, RightOr(Size(ver), p), up)
    decreases Pairs(Size(ver)) - p
  {
    hide Right, Upward, ReadColumns, R.ReadUp, R.ReadDown, ShowsData, FunctionGrid;
    if p < Pairs(Size(ver)) {
      PairNext(ver, p);
      PairsRead(g, ver, mask, placed, p + 1, !up);
      if up {
        UpReads(g, ver, mask, placed, p, Size(ver));
      } else {
        DownReads(g, ver, mask, placed, p, 0);
      }
      NoColumns(FunctionGrid(ver), placed, Size(ver), p);
    }
  }

  lemma NoColumns(fn: Grid, g: Grid, size: nat, p: nat)
    requires IsSize(size) && IsGrid(fn, size) && IsGrid(g, size) && p < Pairs(size)
    ensures ReadColumns(fn, g, size, p, 0) == []
  {}

  lemma WalkRead(ver: nat, ecl: Level, mask: nat, placed: Grid)
    requires IsVersion(ver) && IsGrid(placed, Size(ver)) && mask < 8
    ensures R.ReadPairs(SymbolGrid(ver, ecl, mask, placed), ver, mask, R.Side(ver) - 1, true) ==
      ReadWalk(FunctionGrid(ver), placed, Size(ver), Pairs(Size(ver)))
  {
    hide SymbolGrid, ShowsData, ReadColumns, R.ReadPairs, Upward, FunctionGrid;
    SymbolShowsData(ver, ecl, mask, placed);
    PairNext(ver, 0);
    PairsRead(SymbolGrid(ver, ecl, mask, placed), ver, mask, placed, 0, true);
  }

  // ---- the blocks ----

  ghost predicate Agrees(b: R.Blocks, sh: Shape) {
    && sh.Valid() && sh.numBlocks == b.short + b.long && sh.NumShort() == b.short
    && sh.ShortData() == b.data && sh.ShortData() + sh.eccLen == b.total
    && sh.raw == b.total * (b.short + b.long) + b.long
  }

  lemma RowsOfL(ver: nat)
    requires IsVersion(ver)
    ensures var b := R.BLOCKS_OF_L[ver - 1];
      && TOTAL_CODEWORDS[ver] == b.total * (b.short + b.long) + b.long && 0 < b.short
      && BLOCKS_L[ver] == b.short + b.long && ECC_CODEWORDS_L[ver] == b.total - b.data
  {
    match ver
    case 1 => case 2 => case 3 => case 4 => case 5 => case 6 => case 7 =>
    case 8 => case 9 => case 10 => case 11 => case 12 => case 13 => case 14 => case 15 =>
  }

  lemma RowsOfM(ver: nat)
    requires IsVersion(ver)
    ensures var b := R.BLOCKS_OF_M[ver - 1];
      && TOTAL_CODEWORDS[ver] == b.total * (b.short + b.long) + b.long && 0 < b.short
      && BLOCKS_M[ver] == b.short + b.long && ECC_CODEWORDS_M[ver] == b.total - b.data
  {
    match ver
    case 1 => case 2 => case 3 => case 4 => case 5 => case 6 => case 7 =>
    case 8 => case 9 => case 10 => case 11 => case 12 => case 13 => case 14 => case 15 =>
  }

  lemma RowAgrees(ver: nat, ecl: Level)
    requires IsVersion(ver)
    ensures var b := R.BlocksOf(ver, ecl);
      && TOTAL_CODEWORDS[ver] == b.total * (b.short + b.long) + b.long && 0 < b.short
      && NumBlocks(ver, ecl) == b.short + b.long && EccPerBlock(ver, ecl) == b.total - b.data
  {
    hide R.BLOCKS_OF_L, R.BLOCKS_OF_M, TOTAL_CODEWORDS, BLOCKS_L, BLOCKS_M, ECC_CODEWORDS_L, ECC_CODEWORDS_M;
    if ecl.L? {
      RowsOfL(ver);
    } else {
      RowsOfM(ver);
    }
  }

  lemma ShapeAgrees(ver: nat, ecl: Level)
    requires IsVersion(ver)
    ensures Agrees(R.BlocksOf(ver, ecl), BlockShape(ver, ecl))
  {
    hide R.BlocksOf, TOTAL_CODEWORDS, NumBlocks, EccPerBlock, RawCodewords;
    var b := R.BlocksOf(ver, ecl);
    RawCodewordsMatchTable(ver);
    RowAgrees(ver, ecl);
    DivModUnique(b.total, b.long, b.short + b.long);
  }

  lemma PlaceAgrees(b: R.Blocks, sh: Shape, j: nat, i: nat)
    requires Agrees(b, sh) && j < sh.numBlocks && i < sh.DataLen(j) + sh.eccLen
    ensures R.PlaceOf(b, j, i) == sh.Position(j, i)
  {
    hide Shape.NumShort, Shape.ShortData, Shape.NumData;
    sh.Sizes();
  }

  // The walk's bits hold the interleaved codewords.
  ghost predicate Holds(bits: Bits, result: seq<Byte>) {
    8 * |result| <= |bits| && bits[..8 * |result|] == Flatten(result)
  }

  lemma CodewordHeld(bits: Bits, result: seq<Byte>, k: nat)
    requires Holds(bits, result) && k < |result|
    ensures bits[8 * k..8 * k + 8] == result[k]
  {
    hide Flatten;
    FlattenAt(result, k);
    assert bits[8 * k..8 * k + 8] == bits[..8 * |result|][8 * k..8 * k + 8];
  }

  lemma BlockAgrees(b: R.Blocks, sh: Shape, bits: Bits, result: seq<Byte>, j: nat)
    requires Agrees(b, sh) && j < sh.numBlocks && |result| == sh.raw && Holds(bits, result)
    ensures R.BlockAt(b, bits, j) == ReadBlock(sh, result, j)
  {
    hide Shape.NumShort, Shape.ShortData, Shape.NumData, Shape.Position, R.PlaceOf, Flatten;
    var n := sh.DataLen(j) + sh.eccLen;
    forall i | 0 <= i < n ensures R.BlockAt(b, bits, j)[i] == ReadBlock(sh, result, j)[i] {
      PlaceAgrees(b, sh, j, i);
      PositionBounds(sh, j, i);
      CodewordHeld(bits, result, sh.Position(j, i));
    }
  }

  lemma {:induction false} JoinAgrees(codewords: seq<Byte>)
    ensures R.JoinBytes(codewords) == Flatten(codewords)
  {
    if codewords != [] {
      JoinAgrees(codewords[..|codewords| - 1]);
    }
  }

  lemma {:induction false} DataAgrees(b: R.Blocks, sh: Shape, bits: Bits, result: seq<Byte>, n: nat)
    requires Agrees(b, sh) && n <= sh.numBlocks && |result| == sh.raw && Holds(bits, result) && b.data < b.total
    ensures R.DataBits(b, bits, n) == Flatten(QrBlocks.ReadData(sh, result, n))
  {
    hide Shape.NumShort, Shape.ShortData, Shape.NumData, R.JoinBytes, R.BlockAt, ReadBlock, Holds, Flatten;
    if n > 0 {
      DataAgrees(b, sh, bits, result, n - 1);
      BlockAgrees(b, sh, bits, result, n - 1);
      var dat := ReadBlock(sh, result, n - 1)[..sh.DataLen(n - 1)];
      JoinAgrees(dat);
      FlattenConcat(QrBlocks.ReadData(sh, result, n - 1), dat);
    }
  }

  // ---- syndromes ----

  lemma TwiceAgrees(z: Byte)
    ensures R.Twice(z) == Double(z)
  {
    forall k | 0 <= k < 8 ensures R.Twice(z)[k] == Double(z)[k] {}
  }

  lemma PlusAgrees(a: Byte, b: Byte)
    ensures R.Plus(a, b) == Xor(a, b)
  {
    forall k | 0 <= k < 8 ensures R.Plus(a, b)[k] == Xor(a, b)[k] {}
  }

  lemma {:induction false} PowersAgree(z: Byte, n: nat)
    ensures R.TwiceTimes(z, n) == Mul(z, Pow(TWO, n))
  {
    hide R.Twice, Double, Mul;
    if n == 0 {
      MulUnits(z);
    } else {
      PowersAgree(z, n - 1);
      TwiceAgrees(R.TwiceTimes(z, n - 1));
      MulByX(R.TwiceTimes(z, n - 1));
      MulAssociates(z, Pow(TWO, n - 1), TWO);
    }
  }

  lemma {:induction false} SyndromeAgrees(block: seq<Byte>, n: nat)
    ensures R.Syndrome(block, n) == Eval(block, Pow(TWO, n))
  {
    hide R.Plus, R.TwiceTimes, Xor, Mul, Pow;
    if block != [] {
      SyndromeAgrees(block[..|block| - 1], n);
      PowersAgree(R.Syndrome(block[..|block| - 1], n), n);
      PlusAgrees(R.TwiceTimes(R.Syndrome(block[..|block| - 1], n), n), block[|block| - 1]);
    }
  }

  lemma BlocksClean(b: R.Blocks, sh: Shape, bits: Bits, data: seq<Byte>, result: seq<Byte>)
    requires Agrees(b, sh) && |data| == sh.NumData() && b.data <= b.total
    requires IsInterleaved(sh, data, result) && Holds(bits, result)
    ensures R.AllClean(b, bits)
  {
    hide Shape.NumShort, Shape.ShortData, Shape.NumData, R.BlockAt, R.Syndrome, Divides, Generator, Eval, Pow, Holds;
    forall j | 0 <= j < b.short + b.long ensures R.IsClean(R.BlockAt(b, bits, j), b.total - b.data) {
      assert HoldsBlock(sh, data, result, j);
      BlockAgrees(b, sh, bits, result, j);
      var block := R.BlockAt(b, bits, j);
      forall n | 0 <= n < b.total - b.data ensures R.Syndrome(block, n) == ZERO {
        SyndromeAgrees(block, n);
        SyndromesVanish(sh.eccLen, block, n);
      }
    }
  }

  // ---- the stream ----

  lemma {:induction false} SpelledAgrees(bits: Bits)
    ensures R.Spelled(bits) == FromBits(bits)
  {
    if bits != [] {
      SpelledAgrees(bits[..|bits| - 1]);
    }
  }

  lemma PadBit(n: nat, i: nat)
    requires i < 8 * n
    ensures Flatten(PadCodewords(PAD0, n))[i] == (R.PADS[i % 16] == '#')
  {
    hide Flatten;
    FlattenBit(PadCodewords(PAD0, n), i);
    assert i % 16 == 8 * (i / 8 % 2) + i % 8;
  }

  lemma StreamPadded(s: Bits, zeros: nat, pads: nat, stream: Bits)
    requires stream == s + Falses(zeros) + Flatten(PadCodewords(PAD0, pads))
    requires var terminator := Min(4, |stream| - |s|); terminator <= zeros < terminator + 8
    requires (|s| + zeros) % 8 == 0
    ensures R.PaddedFrom(stream, |s|)
  {
    hide Flatten, PadCodewords;
    var n := |s|;
    var end := if n + 4 <= |stream| then n + 4 else |stream|;
    var start := (end + 7) / 8 * 8;
    assert start == n + zeros;
    forall k | n <= k < |stream| ensures stream[k] == (start <= k && R.PADS[(k - start) % 16] == '#') {
      if start <= k {
        PadBit(pads, k - start);
      }
    }
  }

  lemma BytesRead(data: seq<Byte>, ver: nat, codewords: seq<Byte>)
    requires IsVersion(ver) && |data| < Pow2(CountBits(ver)) && IsDataStream(codewords, data, ver)
    ensures R.ReadBytes(Flatten(codewords), ver) == Some(data)
  {
    hide Flatten, R.PaddedFrom, R.Spelled, FromBits, ToBits;
    var stream := Flatten(codewords);
    var head := 4 + CountBits(ver);
    ReadDataStream(data, ver, codewords);
    SpelledAgrees(stream[4..head]);
    var zeros: nat, pads: nat :| StreamWith(codewords, data, ver, zeros, pads);
    StreamPadded(QrStream.Segment(data, ver), zeros, pads, stream);
    HeadBits(data, ver, codewords);
  }

  lemma HeadBits(data: seq<Byte>, ver: nat, codewords: seq<Byte>)
    requires ReadStream(codewords, ver) == Some(data)
    ensures FromBits(Flatten(codewords)[4..4 + CountBits(ver)]) == |data|
    ensures |QrStream.Segment(data, ver)| == 4 + CountBits(ver) + 8 * |data|
  {}

  // ---- capacity ----

  // Bytes that a symbol of each version holds (table 7).
  const CAPACITY_L := [17, 32, 53, 78, 106, 134, 154, 192, 230, 271, 321, 367, 425, 458, 520]
  const CAPACITY_M := [14, 26, 42, 62, 84, 106, 122, 152, 180, 213, 251, 287, 331, 362, 412]

  function Capacity(ver: nat, ecl: Level): int
    requires IsVersion(ver)
  {
    if ecl.L? then CAPACITY_L[ver - 1] else CAPACITY_M[ver - 1]
  }

  lemma CapacityOfL(n: nat, ver: nat)
    requires IsVersion(ver)
    ensures 4 + CountBits(ver) + 8 * n <= 8 * (TOTAL_CODEWORDS[ver] - ECC_CODEWORDS_L[ver] * BLOCKS_L[ver]) <==>
      n <= CAPACITY_L[ver - 1]
  {
    match ver
    case 1 => case 2 => case 3 => case 4 => case 5 => case 6 => case 7 =>
    case 8 => case 9 => case 10 => case 11 => case 12 => case 13 => case 14 => case 15 =>
  }

  lemma CapacityOfM(n: nat, ver: nat)
    requires IsVersion(ver)
    ensures 4 + CountBits(ver) + 8 * n <= 8 * (TOTAL_CODEWORDS[ver] - ECC_CODEWORDS_M[ver] * BLOCKS_M[ver]) <==>
      n <= CAPACITY_M[ver - 1]
  {
    match ver
    case 1 => case 2 => case 3 => case 4 => case 5 => case 6 => case 7 =>
    case 8 => case 9 => case 10 => case 11 => case 12 => case 13 => case 14 => case 15 =>
  }

  lemma CapacityIs(n: nat, ver: nat, ecl: Level)
    requires IsVersion(ver)
    ensures Fits(n, ver, ecl) <==> n <= Capacity(ver, ecl)
  {
    hide TOTAL_CODEWORDS, BLOCKS_L, BLOCKS_M, ECC_CODEWORDS_L, ECC_CODEWORDS_M, CAPACITY_L, CAPACITY_M;
    RawCodewordsMatchTable(ver);
    hide RawCodewords, NumRawDataModules;
    if ecl.L? {
      CapacityOfL(n, ver);
    } else {
      CapacityOfM(n, ver);
    }
  }

  lemma LargestCapacity(n: nat, ecl: Level)
    ensures (forall v: nat :: !Fits(n, v, ecl)) <==> n > if ecl.L? then 520 else 412
  {
    hide Fits;
    forall v: nat | IsVersion(v) ensures Fits(n, v, ecl) <==> n <= Capacity(v, ecl) {
      CapacityIs(n, v, ecl);
    }
    assert Fits(n, 15, ecl) <==> n <= Capacity(15, ecl);
    if v: nat :| Fits(n, v, ecl) {
      FitsVersion(n, v, ecl);
    }
  }

  lemma FitsVersion(n: nat, ver: nat, ecl: Level)
    requires Fits(n, ver, ecl)
    ensures IsVersion(ver)
  {}
}
