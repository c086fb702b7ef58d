// encodeQR: the whole symbol, and the theorem that reading it back returns the data.
module QrEncoder {
  import opened GaloisField
  import opened QrTables
  import opened QrStream
  import opened QrBlocks
  import opened QrWalk
  import opened QrPlace
  import opened QrLayout
  import opened QrFormat
  import opened QrSymbol
  import opened QrCanvas
  import opened QrPenalty
  import opened QrPatterns
  import opened QrReads
  import opened Wrappers
  import R = QrReader

  // The interleaved codewords of the data stream.
  ghost predicate HasCodewords(result: seq<Byte>, data: seq<Byte>, ver: nat, ecl: Level, codewords: seq<Byte>)
    requires IsVersion(ver)
  {
    var sh := BlockShape(ver, ecl);
    |codewords| == sh.NumData() && IsDataStream(codewords, data, ver) && IsInterleaved(sh, codewords, result)
  }

  // The unmasked data modules: codewords laid along the walk, remainder modules light.
  ghost predicate IsPlaced(placed: Grid, result: seq<Byte>, ver: nat)
    requires IsVersion(ver)
  {
    var size := Size(ver);
    && IsGrid(placed, size)
    && ReadWalk(FunctionGrid(ver), placed, size, Pairs(size)) == Prefix(Flatten(result), NumRawDataModules(ver))
  }

  // Mask m scores least, and no smaller mask number scores as little.
  ghost predicate IsBestMask(ver: nat, ecl: Level, placed: Grid, best: nat)
    requires IsVersion(ver) && IsGrid(placed, Size(ver))
  {
    best < 8 && forall m: nat :: m < 8 ==>
      && MaskPenalty(ver, ecl, placed, best) <= MaskPenalty(ver, ecl, placed, m)
      && (m < best ==> MaskPenalty(ver, ecl, placed, best) < MaskPenalty(ver, ecl, placed, m))
  }

  ghost function MaskPenalty(ver: nat, ecl: Level, placed: Grid, m: nat): int
    requires IsVersion(ver) && IsGrid(placed, Size(ver))
  {
    Penalty(SymbolGrid(ver, ecl, m, placed), Size(ver))
  }

  ghost predicate IsSymbolWith(g: Grid, data: seq<Byte>, ver: nat, ecl: Level, mask: nat, placed: Grid,
                               codewords: seq<Byte>, result: seq<Byte>)
  {
    && Fits(|data|, ver, ecl)
    && (forall v: nat | v < ver :: !Fits(|data|, v, ecl))
    && HasCodewords(result, data, ver, ecl, codewords)
    && IsPlaced(placed, result, ver)
    && IsBestMask(ver, ecl, placed, mask)
    && g == SymbolGrid(ver, ecl, mask, placed)
  }

  // The symbol of the standard for this data and level, under the encoder's mask score.
  ghost predicate IsSymbolOf(g: Grid, data: seq<Byte>, ecl: Level) {
    exists ver: nat, mask: nat, placed: Grid, codewords: seq<Byte>, result: seq<Byte> ::
      IsSymbolWith(g, data, ver, ecl, mask, placed, codewords, result)
  }

  // ---- reading a symbol ----

  lemma RawBits(ver: nat)
    requires IsVersion(ver)
    ensures 0 <= 8 * RawCodewords(ver) <= NumRawDataModules(ver)
  {
    RawCodewordsMatchTable(ver);
  }

  lemma PrefixHolds(result: seq<Byte>, n: nat)
    requires 8 * |result| <= n
    ensures Holds(Prefix(Flatten(result), n), result)
  {
    hide Flatten;
  }

  // The walk over the symbol's modules holds the interleaved codewords.
  lemma WalkHolds(ver: nat, ecl: Level, mask: nat, placed: Grid, result: seq<Byte>)
    requires IsVersion(ver) && IsPlaced(placed, result, ver) && mask < 8 && |result| == RawCodewords(ver)
    ensures Holds(R.ReadPairs(SymbolGrid(ver, ecl, mask, placed), ver, mask, R.Side(ver) - 1, true), result)
  {
    hide ReadWalk, NumRawDataModules, RawCodewords, Flatten, Prefix, FunctionGrid, SymbolGrid, R.ReadPairs, Holds;
    WalkRead(ver, ecl, mask, placed);
    RawBits(ver);
    PrefixHolds(result, NumRawDataModules(ver));
  }

  // From the walk's bits to the data: blocks, syndromes, stream.
  lemma CodewordsRead(data: seq<Byte>, ver: nat, ecl: Level, codewords: seq<Byte>, result: seq<Byte>, bits: Bits)
    requires Fits(|data|, ver, ecl) && HasCodewords(result, data, ver, ecl, codewords)
    requires Holds(bits, result)
    ensures var b := R.BlocksOf(ver, ecl);
      && b.data < b.total && R.BlocksFit(b, bits) && R.AllClean(b, bits)
      && R.ReadBytes(R.DataBits(b, bits, b.short + b.long), ver) == Some(data)
  {
    hide IsDataStream, R.BlocksOf, R.AllClean, R.DataBits, R.ReadBytes, IsInterleaved, BlockShape, QrBlocks.ReadData,
         NumDataCodewords;
    var b, sh := R.BlocksOf(ver, ecl), BlockShape(ver, ecl);
    ShapeAgrees(ver, ecl);
    ResultLength(sh, codewords, result);
    BlocksClean(b, sh, bits, codewords, result);
    DataAgrees(b, sh, bits, result, sh.numBlocks);
    DeinterleaveRoundTrip(sh, codewords, result);
    CountFits(|data|, ver, ecl);
    BytesRead(data, ver, codewords);
  }

  lemma ResultLength(sh: Shape, codewords: seq<Byte>, result: seq<Byte>)
    requires sh.Valid() && |codewords| == sh.NumData() && IsInterleaved(sh, codewords, result)
    ensures |result| == sh.raw
  {}

  lemma ReadBack(data: seq<Byte>, ver: nat, ecl: Level, mask: nat, placed: Grid, codewords: seq<Byte>,
        result: seq<Byte>)
    requires Fits(|data|, ver, ecl) && IsGrid(placed, Size(ver)) && mask < 8
    requires HasCodewords(result, data, ver, ecl, codewords) && IsPlaced(placed, result, ver)
    ensures R.ReadCodewords(SymbolGrid(ver, ecl, mask, placed), ver, ecl, mask) == Some(data)
  {
    hide R.ReadPairs, R.BlocksOf, R.AllClean, R.DataBits, R.ReadBytes, SymbolGrid, IsPlaced, Holds, IsDataStream,
         IsInterleaved, R.BlocksFit, NumDataCodewords, RawCodewords;
    ResultLength(BlockShape(ver, ecl), codewords, result);
    WalkHolds(ver, ecl, mask, placed, result);
    var bits := R.ReadPairs(SymbolGrid(ver, ecl, mask, placed), ver, mask, R.Side(ver) - 1, true);
    CodewordsRead(data, ver, ecl, codewords, result, bits);
  }

  lemma DecodeWith(data: seq<Byte>, ver: nat, ecl: Level, mask: nat, placed: Grid, codewords: seq<Byte>,
        result: seq<Byte>)
    requires Fits(|data|, ver, ecl) && IsGrid(placed, Size(ver)) && mask < 8
    requires HasCodewords(result, data, ver, ecl, codewords) && IsPlaced(placed, result, ver)
    ensures R.Decode(SymbolGrid(ver, ecl, mask, placed)) == Some(data)
  {
    hide R.ReadCodewords, R.ReadFormat, R.PatternsRight, SymbolGrid, HasCodewords, IsPlaced, NumDataCodewords;
    SymbolPatterns(ver, ecl, mask, placed);
    FormatRead(ver, ecl, mask, placed, 8);
    ReadBack(data, ver, ecl, mask, placed, codewords, result);
    assert (Size(ver) - 17) / 4 == ver;
  }

  // The strict reader accepts the symbol of any data and returns that data.
  lemma DecodeSymbol(g: Grid, data: seq<Byte>, ecl: Level)
    requires IsSymbolOf(g, data, ecl)
    ensures R.Decode(g) == Some(data)
  {
    hide R.Decode, SymbolGrid, HasCodewords, IsBestMask, IsPlaced, NumDataCodewords;
    var ver: nat, mask: nat, placed: Grid, codewords: seq<Byte>, result: seq<Byte> :|
      IsSymbolWith(g, data, ver, ecl, mask, placed, codewords, result);
    PlacedIsGrid(placed, result, ver);
    BestIsMask(ver, ecl, placed, mask);
    DecodeWith(data, ver, ecl, mask, placed, codewords, result);
  }

  lemma PlacedIsGrid(placed: Grid, result: seq<Byte>, ver: nat)
    requires IsVersion(ver) && IsPlaced(placed, result, ver)
    ensures IsGrid(placed, Size(ver))
  {}

  lemma BestIsMask(ver: nat, ecl: Level, placed: Grid, best: nat)
    requires IsVersion(ver) && IsGrid(placed, Size(ver)) && IsBestMask(ver, ecl, placed, best)
    ensures best < 8
  {}

  // ---- the encoder ----

  // The canvas shows the unmasked data modules and the format information of mask m.
  ghost predicate Unmasked(fn: Grid, g: Grid, ver: nat, ecl: Level, m: nat, placed: Grid)
    requires IsVersion(ver)
  {
    && MarksFunctions(fn, ver) && IsGrid(g, Size(ver)) && IsGrid(placed, Size(ver))
    && forall x, y :: 0 <= x < Size(ver) && 0 <= y < Size(ver) ==>
      g[y][x] == if fn[y][x] then FunctionModule(ver, ecl, m, x, y) else placed[y][x]
  }

  lemma FormatSupport(size: nat, v: Bits, w: Bits, x: int, y: int)
    requires |v| == |w| == 15
    ensures FormatPaint(size, v, x, y).Some? == FormatPaint(size, w, x, y).Some?
  {}

  // applyMask(m); drawFormatBits(m): the symbol of mask m, from any unmasked state.
  method ShowMask(c: Canvas, ver: nat, ecl: Level, m: nat, ghost m0: nat, ghost placed: Grid)
    requires c.Valid() && IsVersion(ver) && c.size == Size(ver) && m < 8
    requires Unmasked(Snap(c.isFunction), Snap(c.modules), ver, ecl, m0, placed)
    modifies c.modules, c.isFunction
    ensures Snap(c.modules) == SymbolGrid(ver, ecl, m, placed)
    ensures Snap(c.isFunction) == old(Snap(c.isFunction))
  {
    hide FormatPaint, FormatWord, FixedModule, IsFunction, MaskBit;
    ghost var fn := Snap(c.isFunction);
    c.ApplyMask(m);
    c.DrawFormatBits(ecl, m);
    forall x, y | c.Inside(x, y)
      ensures c.isFunction[y, x] == fn[y][x]
      ensures c.modules[y, x] == SymbolModule(ver, ecl, m, placed, x, y)
    {
      PaintersCover(ver, ecl, m, x, y);
      FormatSupport(c.size, FormatWord(ecl, m0), FormatWord(ecl, m), x, y);
    }
    GridsEqual(Snap(c.isFunction), fn, c.size);
    GridsEqual(Snap(c.modules), SymbolGrid(ver, ecl, m, placed), c.size);
  }

  // The second applyMask(m) undoes the first.
  method UndoMask(c: Canvas, ver: nat, ecl: Level, m: nat, ghost placed: Grid)
    requires c.Valid() && IsVersion(ver) && c.size == Size(ver) && m < 8 && IsGrid(placed, Size(ver))
    requires MarksFunctions(Snap(c.isFunction), ver)
    requires Snap(c.modules) == SymbolGrid(ver, ecl, m, placed)
    modifies c.modules
    ensures Unmasked(Snap(c.isFunction), Snap(c.modules), ver, ecl, m, placed)
    ensures Snap(c.isFunction) == old(Snap(c.isFunction))
  {
    hide FunctionModule, IsFunction, MaskBit;
    ghost var g := Snap(c.modules);
    c.ApplyMask(m);
    GridsEqual(Snap(c.isFunction), old(Snap(c.isFunction)), c.size);
    forall x, y | c.Inside(x, y)
      ensures c.modules[y, x] == if c.isFunction[y, x] then FunctionModule(ver, ecl, m, x, y) else placed[y][x]
    {
      assert g[y][x] == SymbolModule(ver, ecl, m, placed, x, y);
      MaskTwice(m, x, y, placed[y][x]);
    }
  }

  // The mask search: try all eight, keep the first of least penalty.
  method ChooseMask(c: Canvas, ver: nat, ecl: Level, ghost placed: Grid) returns (best: nat)
    requires c.Valid() && IsVersion(ver) && c.size == Size(ver)
    requires Unmasked(Snap(c.isFunction), Snap(c.modules), ver, ecl, 0, placed)
    modifies c.modules, c.isFunction
    ensures IsBestMask(ver, ecl, placed, best)
    ensures Snap(c.modules) == SymbolGrid(ver, ecl, best, placed)
    ensures Snap(c.isFunction) == old(Snap(c.isFunction))
  {
    hide Unmasked, SymbolGrid, Penalty;
    ghost var fn := Snap(c.isFunction);
    UnmaskedMarks(fn, Snap(c.modules), ver, ecl, 0, placed);
    best := 0;
    var bestPenalty: Option<int> := None;
    ghost var shown := 0;
    for m := 0 to 8
      invariant Snap(c.isFunction) == fn
      invariant Unmasked(fn, Snap(c.modules), ver, ecl, shown, placed)
      invariant m == 0 <==> bestPenalty.None?
      invariant m > 0 ==> best < m && bestPenalty == Some(MaskPenalty(ver, ecl, placed, best))
      invariant forall k: nat :: k < m ==>
        && MaskPenalty(ver, ecl, placed, best) <= MaskPenalty(ver, ecl, placed, k)
        && (k < best ==> MaskPenalty(ver, ecl, placed, best) < MaskPenalty(ver, ecl, placed, k))
    {
      ShowMask(c, ver, ecl, m, shown, placed);
      var p := ComputePenalty(c.modules);
      if bestPenalty.None? || p < bestPenalty.value {
        bestPenalty := Some(p);
        best := m;
      }
      UndoMask(c, ver, ecl, m, placed);
      shown := m;
    }
    ShowMask(c, ver, ecl, best, shown, placed);
  }

  lemma UnmaskedMarks(fn: Grid, g: Grid, ver: nat, ecl: Level, m: nat, placed: Grid)
    requires IsVersion(ver) && Unmasked(fn, g, ver, ecl, m, placed)
    ensures MarksFunctions(fn, ver) && IsGrid(placed, Size(ver))
  {}

  // The data codewords with error correction, interleaved.
  method MakeCodewords(data: seq<Byte>, ver: nat, ecl: Level) returns (result: seq<Byte>, ghost codewords: seq<Byte>)
    requires Fits(|data|, ver, ecl)
    ensures HasCodewords(result, data, ver, ecl, codewords)
    ensures exists c: seq<Byte> :: HasCodewords(result, data, ver, ecl, c)
  {
    hide IsDataStream, IsInterleaved, AreBlocks;
    var dataCodewords := PackData(data, ver, ecl);
    var sh := BlockShape(ver, ecl);
    var blocks := SplitBlocks(sh, dataCodewords);
    result := Interleave(sh, dataCodewords, blocks);
    codewords := dataCodewords;
  }

  // Function patterns and data modules, format information of mask 0, nothing masked.
  method DrawSymbol(result: seq<Byte>, ver: nat, ecl: Level) returns (c: Canvas, ghost placed: Grid)
    requires IsVersion(ver)
    ensures c.Valid() && c.size == Size(ver) && fresh(c.modules) && fresh(c.isFunction)
    ensures Unmasked(Snap(c.isFunction), Snap(c.modules), ver, ecl, 0, placed)
    ensures IsPlaced(placed, result, ver)
  {
    hide FunctionModule, IsFunction, ReadWalk, Flatten, NumRawDataModules;
    c := new Canvas(ver);
    c.DrawFunctionPatterns(ver, ecl);
    ghost var fn, start := Snap(c.isFunction), Snap(c.modules);
    PlaceData(c.modules, c.isFunction, result);
    GridsEqual(Snap(c.isFunction), FunctionGrid(ver), c.size);
    placed := Snap(c.modules);
    WalkLength(fn, placed, ver);
  }

  // The side of the smallest version that table 7 allows for n bytes.
  ghost predicate SmallestFor(n: nat, side: nat, ecl: Level) {
    exists ver: nat :: IsVersion(ver) && side == 4 * ver + 17 && n <= Capacity(ver, ecl) &&
      forall v: nat :: 1 <= v < ver ==> Capacity(v, ecl) < n
  }

  lemma SmallestIs(n: nat, ver: nat, ecl: Level)
    requires Fits(n, ver, ecl) && forall v: nat | v < ver :: !Fits(n, v, ecl)
    ensures SmallestFor(n, Size(ver), ecl)
  {
    hide Fits, Capacity;
    FitsVersion(n, ver, ecl);
    CapacityIs(n, ver, ecl);
    forall v: nat | 1 <= v < ver ensures Capacity(v, ecl) < n {
      CapacityIs(n, v, ecl);
    }
  }

  // Data beyond the capacity of version 15 are refused; any other data become a symbol of the
  // smallest version that holds them, under the mask of least score, that reads back as them.
  method EncodeQR(data: seq<Byte>, ecl: Level) returns (r: Option<array2<bool>>)
    ensures r.None? <==> |data| > if ecl.L? then 520 else 412
    ensures r.Some? ==> r.value.Length0 == r.value.Length1 && IsSymbolOf(Snap(r.value), data, ecl)
    ensures r.Some? ==> SmallestFor(|data|, r.value.Length0, ecl)
    ensures r.Some? ==> r.value.Length0 == r.value.Length1 && R.Decode(Snap(r.value)) == Some(data)
  {
    hide R.Decode, HasCodewords, IsPlaced, Unmasked, IsBestMask, SymbolGrid;
    var version := ChooseVersion(|data|, ecl);
    LargestCapacity(|data|, ecl);
    if version.None? {
      return None;
    }
    var ver := version.value;
    var result, codewords := MakeCodewords(data, ver, ecl);
    var c, placed := DrawSymbol(result, ver, ecl);
    PlacedIsGrid(placed, result, ver);
    var best := ChooseMask(c, ver, ecl, placed);
    assert IsSymbolWith(Snap(c.modules), data, ver, ecl, best, placed, codewords, result);
    DecodeSymbol(Snap(c.modules), data, ecl);
    SmallestIs(|data|, ver, ecl);
    return Some(c.modules);
  }
}
