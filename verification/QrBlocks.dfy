// Splitting the data codewords into blocks, adding error correction to each, and
// interleaving (ISO/IEC 18004:2015, section 7.6), with the reader's inverse.
module QrBlocks {
  import opened Arithmetic
  import opened GaloisField
  import opened QrTables
  import opened ReedSolomon

  // How `raw` codewords are divided: numBlocks blocks with eccLen error-correction
  // codewords each; the first NumShort() blocks carry one data codeword less.
  datatype Shape = Shape(raw: nat, numBlocks: nat, eccLen: nat) {
    ghost predicate Valid() {
      0 < eccLen && 0 < numBlocks && eccLen <= raw / numBlocks
    }

    function NumShort(): (n: int)
      requires Valid()
      ensures 1 <= n <= numBlocks
    {
      numBlocks - raw % numBlocks
    }

    // Data codewords in a short block.
    function ShortData(): (n: nat)
      requires Valid()
    {
      raw / numBlocks - eccLen
    }

    // Data codewords in block j.
    function DataLen(j: nat): nat
      requires Valid()
    {
      ShortData() + if j < NumShort() then 0 else 1
    }

    // Where block j starts in the data codewords.
    function DataStart(j: nat): nat
      requires Valid()
    {
      j * ShortData() + if j <= NumShort() then 0 else j - NumShort()
    }

    // The number of data codewords.
    function NumData(): nat
      requires Valid()
    {
      DataStart(numBlocks)
    }

    // The place of codeword i of block j in the interleaved sequence: row by row,
    // one codeword from every block that has it, data rows before error correction.
    function Position(j: nat, i: nat): int
      requires Valid()
    {
      if i < ShortData() then i * numBlocks + j
      else if i < DataLen(j) then i * numBlocks + (j - NumShort())
      else NumData() + (i - DataLen(j)) * numBlocks + j
    }

    lemma Sizes()
      requires Valid()
      ensures NumData() + numBlocks * eccLen == raw
      ensures NumData() == ShortData() * numBlocks + (numBlocks - NumShort())
    {
      var q := raw / numBlocks;
      assert numBlocks * (q - eccLen) == numBlocks * q - numBlocks * eccLen;
      assert raw == numBlocks * q + raw % numBlocks;
    }

    // Data block j takes over where block j - 1 stopped.
    lemma {:induction false} DataStartNext(j: nat)
      requires Valid() && j < numBlocks
      ensures DataStart(j + 1) == DataStart(j) + DataLen(j)
      ensures DataStart(j + 1) <= NumData()
      decreases numBlocks - j
    {
      MulNext(j, ShortData());
      if j + 1 < numBlocks {
        DataStartNext(j + 1);
      }
    }
  }

  // Position i of row `row` of the interleaving is a gap in the short blocks.
  predicate Skipped(sh: Shape, j: nat, row: nat)
    requires sh.Valid()
  {
    row == sh.ShortData() && j < sh.NumShort()
  }

  // Blocks as the encoder stores them: short ones padded after their data.
  ghost predicate AreBlocks(sh: Shape, data: Poly, blocks: seq<Poly>)
    requires sh.Valid()
  {
    && |data| == sh.NumData()
    && |blocks| == sh.numBlocks
    && (forall j :: 0 <= j < |blocks| ==> IsBlock(sh, data, j, blocks[j]))
  }

  function DataOf(sh: Shape, data: Poly, j: nat): Poly
    requires sh.Valid() && j < sh.numBlocks && |data| == sh.NumData()
  {
    sh.DataStartNext(j);
    data[sh.DataStart(j)..sh.DataStart(j) + sh.DataLen(j)]
  }

  // Data, a pad in the short blocks, then error correction dividing by the generator.
  ghost predicate IsBlock(sh: Shape, data: Poly, j: nat, block: Poly)
    requires sh.Valid() && j < sh.numBlocks && |data| == sh.NumData()
  {
    && |block| == sh.ShortData() + 1 + sh.eccLen
    && block[..sh.DataLen(j)] == DataOf(sh, data, j)
    && Divides(Generator(sh.eccLen), block[..sh.DataLen(j)] + block[sh.ShortData() + 1..])
  }

  method SplitBlocks(sh: Shape, dataCodewords: Poly) returns (blocks: seq<Poly>)
    requires sh.Valid() && |dataCodewords| == sh.NumData()
    ensures AreBlocks(sh, dataCodewords, blocks)
  {
    hide Divides, Generator;
    blocks := [];
    var rsDiv := ComputeDivisor(sh.eccLen);
    var k := 0;
    for i := 0 to sh.numBlocks
      invariant |blocks| == i
      invariant k == sh.DataStart(i)
      invariant forall j :: 0 <= j < i ==> IsBlock(sh, dataCodewords, j, blocks[j])
    {
      sh.DataStartNext(i);
      var shortBlockLen := sh.raw / sh.numBlocks;
      var dat := dataCodewords[k..k + (shortBlockLen - sh.eccLen + if i < sh.NumShort() then 0 else 1)];
      k := k + |dat|;
      var ecc := ComputeRemainder(dat, rsDiv);
      ghost var plain := dat;
      if i < sh.NumShort() {
        dat := dat + [ZERO];
      }
      var block := dat + ecc;
      assert block[..sh.DataLen(i)] == plain;
      assert block[sh.ShortData() + 1..] == ecc;
      blocks := blocks + [block];
    }
  }

  // ---- interleaving ----

  // The codewords of the first n blocks in one row.
  ghost function Row(sh: Shape, blocks: seq<Poly>, row: nat, n: nat): (r: Poly)
    requires sh.Valid() && n <= |blocks| == sh.numBlocks
    requires forall j :: 0 <= j < |blocks| ==> row < |blocks[j]|
    ensures |r| == if row == sh.ShortData() then (if n <= sh.NumShort() then 0 else n - sh.NumShort()) else n
  {
    if n == 0 then []
    else Row(sh, blocks, row, n - 1) + if Skipped(sh, n - 1, row) then [] else [blocks[n - 1][row]]
  }

  ghost function Rows(sh: Shape, blocks: seq<Poly>, n: nat): (r: Poly)
    requires sh.Valid() && |blocks| == sh.numBlocks
    requires forall j :: 0 <= j < |blocks| ==> n <= |blocks[j]|
  {
    if n == 0 then [] else Rows(sh, blocks, n - 1) + Row(sh, blocks, n - 1, sh.numBlocks)
  }

  // Codewords in the first n rows.
  function RowStart(sh: Shape, n: nat): int
    requires sh.Valid()
  {
    n * sh.numBlocks - if n <= sh.ShortData() then 0 else sh.NumShort()
  }

  lemma {:induction false} RowAt(sh: Shape, blocks: seq<Poly>, row: nat, n: nat, j: nat)
    requires sh.Valid() && j < n <= |blocks| == sh.numBlocks
    requires forall j :: 0 <= j < |blocks| ==> row < |blocks[j]|
    requires !Skipped(sh, j, row)
    ensures var at := if row == sh.ShortData() then j - sh.NumShort() else j;
      Row(sh, blocks, row, n)[at] == blocks[j][row]
  {
    if j < n - 1 {
      RowAt(sh, blocks, row, n - 1, j);
    }
  }

  lemma {:induction false} RowsLength(sh: Shape, blocks: seq<Poly>, n: nat)
    requires sh.Valid() && |blocks| == sh.numBlocks
    requires forall j :: 0 <= j < |blocks| ==> n <= |blocks[j]|
    ensures |Rows(sh, blocks, n)| == RowStart(sh, n)
  {
    if n > 0 {
      RowsLength(sh, blocks, n - 1);
      assert n * sh.numBlocks == (n - 1) * sh.numBlocks + sh.numBlocks;
    }
  }

  lemma {:induction false} RowsAt(sh: Shape, blocks: seq<Poly>, n: nat, j: nat, row: nat)
    requires sh.Valid() && j < |blocks| == sh.numBlocks && row < n
    requires forall j :: 0 <= j < |blocks| ==> n <= |blocks[j]|
    requires !Skipped(sh, j, row)
    ensures var at := RowStart(sh, row) + if row == sh.ShortData() then j - sh.NumShort() else j;
      0 <= at < |Rows(sh, blocks, n)| && Rows(sh, blocks, n)[at] == blocks[j][row]
  {
    RowsLength(sh, blocks, n - 1);
    if row == n - 1 {
      RowAt(sh, blocks, row, sh.numBlocks, j);
    } else {
      RowsAt(sh, blocks, n - 1, j, row);
    }
  }

  // Block j without its pad.
  function Unpadded(sh: Shape, j: nat, block: Poly): Poly
    requires sh.Valid() && |block| == sh.ShortData() + 1 + sh.eccLen
  {
    block[..sh.DataLen(j)] + block[sh.ShortData() + 1..]
  }

  // The result holds every codeword of every block at its position, and nothing else:
  // with PositionBijective below, no pad leaks and no codeword is lost.
  ghost predicate IsInterleaved(sh: Shape, data: Poly, result: Poly)
    requires sh.Valid() && |data| == sh.NumData()
  {
    && |result| == sh.raw
    && forall j :: 0 <= j < sh.numBlocks ==> HoldsBlock(sh, data, result, j)
  }

  ghost predicate HoldsBlock(sh: Shape, data: Poly, result: Poly, j: nat)
    requires sh.Valid() && j < sh.numBlocks && |data| == sh.NumData() && |result| == sh.raw
  {
    var block := ReadBlock(sh, result, j);
    block[..sh.DataLen(j)] == DataOf(sh, data, j) && Divides(Generator(sh.eccLen), block)
  }

  // The reader: collect block j, data and error correction, from its positions.
  function ReadBlock(sh: Shape, result: Poly, j: nat): (block: Poly)
    requires sh.Valid() && j < sh.numBlocks && |result| == sh.raw
    ensures |block| == sh.DataLen(j) + sh.eccLen
  {
    seq(sh.DataLen(j) + sh.eccLen, i requires 0 <= i < sh.DataLen(j) + sh.eccLen =>
      PositionBounds(sh, j, i);
      result[sh.Position(j, i)])
  }

  // The data codewords of blocks 0..n-1, error correction dropped.
  function ReadData(sh: Shape, result: Poly, n: nat): Poly
    requires sh.Valid() && n <= sh.numBlocks && |result| == sh.raw
  {
    if n == 0 then [] else ReadData(sh, result, n - 1) + ReadBlock(sh, result, n - 1)[..sh.DataLen(n - 1)]
  }

  method Interleave(sh: Shape, ghost data: Poly, blocks: seq<Poly>) returns (result: Poly)
    requires sh.Valid() && |data| == sh.NumData()
    requires AreBlocks(sh, data, blocks)
    ensures IsInterleaved(sh, data, result)
  {
    hide Divides, Generator, DataOf;
    result := [];
    assert blocks[0] == blocks[0];
    for i := 0 to |blocks[0]|
      invariant result == Rows(sh, blocks, i)
    {
      for j := 0 to |blocks|
        invariant result == Rows(sh, blocks, i) + Row(sh, blocks, i, j)
      {
        if i != sh.raw / sh.numBlocks - sh.eccLen || j >= sh.NumShort() {
          result := result + [blocks[j][i]];
        }
      }
    }
    RowsLength(sh, blocks, |blocks[0]|);
    sh.Sizes();
    TotalRows(sh);
    forall j | 0 <= j < sh.numBlocks
      ensures HoldsBlock(sh, data, result, j)
    {
      BlockRead(sh, blocks, result, j);
      assert IsBlock(sh, data, j, blocks[j]);
    }
  }

  lemma TotalRows(sh: Shape)
    requires sh.Valid()
    ensures RowStart(sh, sh.ShortData() + 1 + sh.eccLen) == sh.raw
  {
    sh.Sizes();
    assert (sh.ShortData() + 1 + sh.eccLen) * sh.numBlocks
        == sh.ShortData() * sh.numBlocks + sh.numBlocks + sh.eccLen * sh.numBlocks;
  }

  // Place j of row i, among `rows` rows of n places.
  lemma PlaceInRows(i: nat, j: nat, n: nat, rows: nat)
    requires i < rows && j < n
    ensures 0 <= i * n + j < rows * n
  {
    MulBelow(i, rows, n);
    MulSign(i, n);
  }

  lemma PositionBounds(sh: Shape, j: nat, i: nat)
    requires sh.Valid() && j < sh.numBlocks && i < sh.DataLen(j) + sh.eccLen
    ensures 0 <= sh.Position(j, i) < sh.raw
  {
    hide Shape.ShortData, Shape.NumData, Shape.NumShort;
    sh.Sizes();
    var n, d := sh.numBlocks, sh.ShortData();
    MulSign(d, n);
    MulSign(n, sh.eccLen);
    if i < d {
      PlaceInRows(i, j, n, d);
    } else if i >= sh.DataLen(j) {
      PlaceInRows(i - sh.DataLen(j), j, n, sh.eccLen);
    }
  }

  lemma PositionRow(sh: Shape, j: nat, i: nat)
    requires sh.Valid() && j < sh.numBlocks && i < sh.DataLen(j) + sh.eccLen
    ensures var row := RowOf(sh, j, i);
      sh.Position(j, i) == RowStart(sh, row) + if row == sh.ShortData() then j - sh.NumShort() else j
  {
    hide Shape.ShortData;
    sh.Sizes();
    if i >= sh.DataLen(j) {
      var r := i - sh.DataLen(j);
      assert (sh.ShortData() + 1 + r) * sh.numBlocks == sh.ShortData() * sh.numBlocks + sh.numBlocks + r * sh.numBlocks;
    }
  }

  // The row of a padded block in which unpadded codeword i stands.
  function RowOf(sh: Shape, j: nat, i: nat): nat
    requires sh.Valid()
  {
    if i < sh.DataLen(j) then i else sh.ShortData() + 1 + (i - sh.DataLen(j))
  }

  lemma CodewordRead(sh: Shape, blocks: seq<Poly>, result: Poly, j: nat, i: nat)
    requires sh.Valid() && j < |blocks| == sh.numBlocks && |result| == sh.raw
    requires forall j :: 0 <= j < |blocks| ==> |blocks[j]| == sh.ShortData() + 1 + sh.eccLen
    requires result == Rows(sh, blocks, sh.ShortData() + 1 + sh.eccLen)
    requires i < sh.DataLen(j) + sh.eccLen
    ensures ReadBlock(sh, result, j)[i] == Unpadded(sh, j, blocks[j])[i]
  {
    hide Shape.NumShort, Shape.Position, RowStart, Rows;
    PositionBounds(sh, j, i);
    PositionRow(sh, j, i);
    RowsAt(sh, blocks, sh.ShortData() + 1 + sh.eccLen, j, RowOf(sh, j, i));
  }

  lemma BlockRead(sh: Shape, blocks: seq<Poly>, result: Poly, j: nat)
    requires sh.Valid() && j < |blocks| == sh.numBlocks && |result| == sh.raw
    requires forall j :: 0 <= j < |blocks| ==> |blocks[j]| == sh.ShortData() + 1 + sh.eccLen
    requires result == Rows(sh, blocks, sh.ShortData() + 1 + sh.eccLen)
    ensures ReadBlock(sh, result, j) == Unpadded(sh, j, blocks[j])
  {
    hide Shape.NumShort, Shape.Position, Rows;
    forall i | 0 <= i < sh.DataLen(j) + sh.eccLen
      ensures ReadBlock(sh, result, j)[i] == Unpadded(sh, j, blocks[j])[i]
    {
      CodewordRead(sh, blocks, result, j, i);
    }
  }

  // De-interleaving returns the data codewords.
  lemma {:induction false} ReadDataPrefix(sh: Shape, data: Poly, result: Poly, n: nat)
    requires sh.Valid() && |data| == sh.NumData() && n <= sh.numBlocks
    requires IsInterleaved(sh, data, result)
    ensures sh.DataStart(n) <= |data|
    ensures ReadData(sh, result, n) == data[..sh.DataStart(n)]
  {
    hide Divides, Generator;
    if n > 0 {
      ReadDataPrefix(sh, data, result, n - 1);
      sh.DataStartNext(n - 1);
      assert HoldsBlock(sh, data, result, n - 1);
      assert ReadBlock(sh, result, n - 1)[..sh.DataLen(n - 1)] == DataOf(sh, data, n - 1);
    }
  }

  lemma DeinterleaveRoundTrip(sh: Shape, data: Poly, result: Poly)
    requires sh.Valid() && |data| == sh.NumData()
    requires IsInterleaved(sh, data, result)
    ensures ReadData(sh, result, sh.numBlocks) == data
  {
    ReadDataPrefix(sh, data, result, sh.numBlocks);
  }

  // Every place of the interleaved sequence holds exactly one block codeword.
  lemma PositionBijective(sh: Shape, k: nat)
    requires sh.Valid() && k < sh.raw
    ensures var (j, i) := Owner(sh, k);
      0 <= j < sh.numBlocks && 0 <= i < sh.DataLen(j) + sh.eccLen && sh.Position(j, i) == k
    ensures forall j: nat, i: nat | j < sh.numBlocks && i < sh.DataLen(j) + sh.eccLen && sh.Position(j, i) == k ::
      (j, i) == Owner(sh, k)
  {
    sh.Sizes();
    OwnerOfPosition(sh, k);
    forall j: nat, i: nat | j < sh.numBlocks && i < sh.DataLen(j) + sh.eccLen && sh.Position(j, i) == k
      ensures (j, i) == Owner(sh, k)
    {
      PositionOwner(sh, j, i);
    }
  }

  function Owner(sh: Shape, k: nat): (int, int)
    requires sh.Valid()
  {
    var n := sh.ShortData();
    if k < n * sh.numBlocks then (k % sh.numBlocks, k / sh.numBlocks)
    else if k < sh.NumData() then (k - n * sh.numBlocks + sh.NumShort(), n)
    else
      var e := k - sh.NumData();
      (e % sh.numBlocks, sh.DataLen(e % sh.numBlocks) + e / sh.numBlocks)
  }

  lemma OwnerOfPosition(sh: Shape, k: nat)
    requires sh.Valid() && k < sh.raw
    ensures var (j, i) := Owner(sh, k);
      0 <= j < sh.numBlocks && 0 <= i < sh.DataLen(j) + sh.eccLen && sh.Position(j, i) == k
  {
    hide Shape.ShortData;
    sh.Sizes();
    if k < sh.ShortData() * sh.numBlocks {
      DivBelow(k, sh.ShortData(), sh.numBlocks);
      DivModParts(k, sh.numBlocks);
    } else if k >= sh.NumData() {
      DivBelow(k - sh.NumData(), sh.eccLen, sh.numBlocks);
      DivModParts(k - sh.NumData(), sh.numBlocks);
    }
  }

  lemma PositionOwner(sh: Shape, j: nat, i: nat)
    requires sh.Valid() && j < sh.numBlocks && i < sh.DataLen(j) + sh.eccLen
    ensures 0 <= sh.Position(j, i) && Owner(sh, sh.Position(j, i)) == (j, i)
  {
    hide Shape.ShortData;
    sh.Sizes();
    PositionBounds(sh, j, i);
    if i < sh.ShortData() {
      DivModUnique(i, j, sh.numBlocks);
      MulBelow(i, sh.ShortData(), sh.numBlocks);
    } else if i >= sh.DataLen(j) {
      var e := i - sh.DataLen(j);
      DivModUnique(e, j, sh.numBlocks);
      MulSign(e, sh.numBlocks);
    }
  }

  // How the codewords of a version and level are divided.
  function BlockShape(ver: nat, ecl: Level): (sh: Shape)
    requires IsVersion(ver)
    ensures sh.Valid() && sh.raw == RawCodewords(ver)
    ensures sh.NumData() == NumDataCodewords(ver, ecl)
  {
    BlockFacts(ver, ecl);
    RawCodewordsMatchTable(ver);
    var sh := Shape(RawCodewords(ver), NumBlocks(ver, ecl), EccPerBlock(ver, ecl));
    assert sh.Valid();
    sh.Sizes();
    sh
  }
}
