// Symbol sizes and error-correction characteristics for versions 1 to 15 at
// levels L and M (ISO/IEC 18004:2015, tables 1, 7 and 9).
module QrTables {

  datatype Level = L | M

  const MAX_VERSION := 15

  const ECC_CODEWORDS_L := [-1, 7, 10, 15, 20, 26, 18, 20, 24, 30, 18, 20, 24, 26, 30, 22]
  const ECC_CODEWORDS_M := [-1, 10, 16, 26, 18, 24, 16, 18, 22, 22, 26, 30, 22, 22, 24, 24]
  const BLOCKS_L := [-1, 1, 1, 1, 1, 1, 2, 2, 2, 2, 4, 4, 4, 4, 4, 6]
  const BLOCKS_M := [-1, 1, 1, 1, 2, 2, 4, 4, 4, 5, 5, 5, 8, 9, 9, 10]

  ghost predicate IsVersion(ver: int) {
    1 <= ver <= MAX_VERSION
  }

  function EccPerBlock(ver: nat, ecl: Level): (n: int)
    requires IsVersion(ver)
    ensures 7 <= n <= 30
  {
    if ecl.L? then ECC_CODEWORDS_L[ver] else ECC_CODEWORDS_M[ver]
  }

  function NumBlocks(ver: nat, ecl: Level): (n: int)
    requires IsVersion(ver)
    ensures 1 <= n <= 10
  {
    if ecl.L? then BLOCKS_L[ver] else BLOCKS_M[ver]
  }

  // The number of modules left for data, error correction and remainder bits.
  function NumRawDataModules(ver: int): int {
    var result := (16 * ver + 128) * ver + 64;
    if ver >= 2 then
      var numAlign := ver / 7 + 2;
      var result := result - ((25 * numAlign - 10) * numAlign - 55);
      if ver >= 7 then result - 36 else result
    else result
  }

  function RawCodewords(ver: nat): int {
    NumRawDataModules(ver) / 8
  }

  function NumDataCodewords(ver: nat, ecl: Level): int
    requires IsVersion(ver)
  {
    NumRawDataModules(ver) / 8 - EccPerBlock(ver, ecl) * NumBlocks(ver, ecl)
  }

  function CountBits(ver: nat): nat {
    if ver < 10 then 8 else 16
  }

  // The total number of codewords per version, as table 1 of the standard lists them.
  const TOTAL_CODEWORDS := [0, 26, 44, 70, 100, 134, 172, 196, 242, 292, 346, 404, 466, 532, 581, 655]

  lemma RawCodewordsMatchTable(ver: nat)
    requires IsVersion(ver)
    ensures RawCodewords(ver) == TOTAL_CODEWORDS[ver]
  {
    var n := ver / 7 + 2;
    if ver == 1 {} else if ver < 7 { assert n == 2; } else if ver < 14 { assert n == 3; } else { assert n == 4; }
  }

  // The character count always fits its field.
  lemma CapacityFacts(ver: nat, ecl: Level)
    requires IsVersion(ver)
    ensures 0 < NumDataCodewords(ver, ecl) < if ver < 10 then 258 else 65536
  {
    RawCodewordsMatchTable(ver);
  }

  // Every block has room for data.
  lemma BlockFacts(ver: nat, ecl: Level)
    requires IsVersion(ver)
    ensures EccPerBlock(ver, ecl) < RawCodewords(ver) / NumBlocks(ver, ecl)
  {
    RawCodewordsMatchTable(ver);
  }
}
