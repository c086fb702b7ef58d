// A strict reader for symbols of versions 1 to 15 at levels L and M, written from the figures
// and tables of ISO/IEC 18004:2015 alone. It sees the module grid only, shares nothing with the
// encoder but the types of bytes, levels and grids, and refuses a symbol that departs from the
// standard anywhere: in a function pattern, in either copy of the format or version
// information, in the error correction, in the stream or in its padding.
module QrReader {
  import opened GaloisField
  import opened QrTables
  import opened QrWalk
  import opened Wrappers

  // ---- pictures: '#' is a dark module ----

  // A finder pattern with its separator, seen from the corner of the symbol (section 6.3.3).
  const CORNER: seq<string> := [
    "#######.",
    "#.....#.",
    "#.###.#.",
    "#.###.#.",
    "#.###.#.",
    "#.....#.",
    "#######.",
    "........"]

  // An alignment pattern (section 6.3.6).
  const ALIGNMENT: seq<string> := [
    "#####",
    "#...#",
    "#.#.#",
    "#...#",
    "#####"]

  // The mask patterns (figure 21), each as the tile it repeats.
  const MASKS: seq<seq<string>> := [
    ["#.",
     ".#"],
    ["#",
     "."],
    ["#.."],
    ["#..",
     "..#",
     ".#."],
    ["###...",
     "###...",
     "...###",
     "...###"],
    ["######",
     "#.....",
     "#..#..",
     "#.#.#.",
     "#..#..",
     "#....."],
    ["######",
     "###...",
     "##.##.",
     "#.#.#.",
     "#.##.#",
     "#...##"],
    ["#.#.#.",
     "...###",
     "#...##",
     ".#.#.#",
     "###...",
     ".###.."]]

  function MaskDark(mask: nat, x: nat, y: nat): bool
    requires mask < 8
  {
    var rows := MASKS[mask];
    var row := rows[y % |rows|];
    row[x % |row|] == '#'
  }

  // ---- tables ----

  // Format information by mask number, mask pattern applied (table C.1).
  const FORMATS_L: seq<string> := [
    "111011111000100", "111001011110011", "111110110101010", "111100010011101",
    "110011000101111", "110001100011000", "110110001000001", "110100101110110"]

  const FORMATS_M: seq<string> := [
    "101010000010010", "101000100100101", "101111001111100", "101101101001011",
    "100010111111001", "100000011001110", "100111110010111", "100101010100000"]

  // Version information for versions 7 to 15 (table D.1).
  const VERSIONS: seq<string> := [
    "000111110010010100", "001000010110111100", "001001101010011001",
    "001010010011010011", "001011101111110110", "001100011101100010",
    "001101100001000111", "001110011000001101", "001111100100101000"]

  // Error correction blocks (table 9): some blocks of `total` codewords, `data` of them data
  // codewords, then some with one data codeword more.
  datatype Blocks = Blocks(short: nat, total: nat, data: nat, long: nat)

  const BLOCKS_OF_L: seq<Blocks> := [
    Blocks(1, 26, 19, 0), Blocks(1, 44, 34, 0), Blocks(1, 70, 55, 0), Blocks(1, 100, 80, 0),
    Blocks(1, 134, 108, 0), Blocks(2, 86, 68, 0), Blocks(2, 98, 78, 0), Blocks(2, 121, 97, 0),
    Blocks(2, 146, 116, 0), Blocks(2, 86, 68, 2), Blocks(4, 101, 81, 0), Blocks(2, 116, 92, 2),
    Blocks(4, 133, 107, 0), Blocks(3, 145, 115, 1), Blocks(5, 109, 87, 1)]

  const BLOCKS_OF_M: seq<Blocks> := [
    Blocks(1, 26, 16, 0), Blocks(1, 44, 28, 0), Blocks(1, 70, 44, 0), Blocks(2, 50, 32, 0),
    Blocks(2, 67, 43, 0), Blocks(4, 43, 27, 0), Blocks(4, 49, 31, 0), Blocks(2, 60, 38, 2),
    Blocks(3, 58, 36, 2), Blocks(4, 69, 43, 1), Blocks(1, 80, 50, 4), Blocks(6, 58, 36, 2),
    Blocks(8, 59, 37, 1), Blocks(4, 64, 40, 5), Blocks(5, 65, 41, 5)]

  function BlocksOf(ver: nat, ecl: Level): Blocks
    requires 1 <= ver <= 15
  {
    if ecl.L? then BLOCKS_OF_L[ver - 1] else BLOCKS_OF_M[ver - 1]
  }

  // Bit i of a word, bit 0 the last.
  function BitOf(word: string, i: nat): bool {
    i < |word| && word[|word| - 1 - i] == '1'
  }

  // ---- function patterns ----

  function Side(ver: nat): nat {
    4 * ver + 17
  }

  // Centres of alignment patterns (annex E): none in version 1; otherwise 6 and 7 modules
  // from the far side, with one centre halfway from version 7 and two from version 14 on.
  function Centres(ver: nat): seq<nat> {
    if ver <= 1 then []
    else if ver <= 6 then [6, 4 * ver + 10]
    else if ver <= 13 then [6, 2 * ver + 8, 4 * ver + 10]
    else if ver == 14 then [6, 26, 46, 66]
    else [6, 26, 48, 70]
  }

  // What a module is for.
  datatype Role = Pattern(dark: bool) | Format | Version(bit: nat) | Data

  function Drawn(picture: seq<string>, x: nat, y: nat): (r: Role)
    requires y < |picture| && x < |picture[y]|
    ensures r.Pattern?
  {
    Pattern(picture[y][x] == '#')
  }

  // (x, y) lies in the alignment pattern around the centres i and j.
  predicate Around(ver: nat, i: nat, j: nat, x: nat, y: nat) {
    var c := Centres(ver);
    && i < |c| && j < |c|
    && !(i == 0 && j == 0) && !(i == 0 && j == |c| - 1) && !(i == |c| - 1 && j == 0)
    && c[i] <= x + 2 && x <= c[i] + 2 && c[j] <= y + 2 && y <= c[j] + 2
  }

  // The alignment module at (x, y), looked up centre by centre.
  function AlignmentRole(ver: nat, x: nat, y: nat, i: nat, j: nat): (r: Role)
    requires j <= |Centres(ver)|
    decreases i, j
  {
    var c := Centres(ver);
    if j > 0 then
      if Around(ver, i, j - 1, x, y) then Drawn(ALIGNMENT, x + 2 - c[i], y + 2 - c[j - 1])
      else AlignmentRole(ver, x, y, i, j - 1)
    else if i > 0 then AlignmentRole(ver, x, y, i - 1, |c|)
    else Data
  }

  function RoleOf(ver: nat, x: nat, y: nat): Role
    requires 1 <= ver <= 15 && x < Side(ver) && y < Side(ver)
  {
    var s := Side(ver);
    var c := Centres(ver);
    if x < 8 && y < 8 then Drawn(CORNER, x, y)
    else if s - 8 <= x && y < 8 then Drawn(CORNER, s - 1 - x, y)
    else if x < 8 && s - 8 <= y then Drawn(CORNER, x, s - 1 - y)
    else if x == 6 || y == 6 then Pattern((x + y) % 2 == 0)
    else if x == 8 && y == s - 8 then Pattern(true)
    else if x == 8 && (y <= 8 || s - 8 <= y) then Format
    else if y == 8 && (x <= 8 || s - 8 <= x) then Format
    else if 7 <= ver && s - 11 <= x < s - 8 && y < 6 then Version(3 * y + x - (s - 11))
    else if 7 <= ver && s - 11 <= y < s - 8 && x < 6 then Version(3 * x + y - (s - 11))
    else AlignmentRole(ver, x, y, if c == [] then 0 else |c| - 1, |c|)
  }

  predicate PatternsRight(g: Grid, ver: nat)
    requires 1 <= ver <= 15 && IsGrid(g, Side(ver))
  {
    forall y, x :: 0 <= y < Side(ver) && 0 <= x < Side(ver) ==> ModuleRight(g, ver, x, y)
  }

  predicate ModuleRight(g: Grid, ver: nat, x: nat, y: nat)
    requires 1 <= ver <= 15 && IsGrid(g, Side(ver)) && x < Side(ver) && y < Side(ver)
  {
    match RoleOf(ver, x, y)
    case Pattern(dark) => g[y][x] == dark
    case Version(bit) => 7 <= ver && g[y][x] == BitOf(VERSIONS[ver - 7], bit)
    case _ => true
  }

  // ---- format information: where bits 0 to 14 stand (figure 25) ----

  const FIRST_COPY: seq<(nat, nat)> := [
    (8, 0), (8, 1), (8, 2), (8, 3), (8, 4), (8, 5), (8, 7), (8, 8), (7, 8),
    (5, 8), (4, 8), (3, 8), (2, 8), (1, 8), (0, 8)]

  // Positions in the second copy, counted back from the far side.
  const SECOND_COPY: seq<(nat, nat, bool)> := [
    (1, 8, true), (2, 8, true), (3, 8, true), (4, 8, true), (5, 8, true), (6, 8, true), (7, 8, true), (8, 8, true),
    (8, 7, false), (8, 6, false), (8, 5, false), (8, 4, false), (8, 3, false), (8, 2, false), (8, 1, false)]

  // The module of bit i in the second copy: a distance from the right or from below.
  function SecondAt(size: nat, i: nat): (nat, nat)
    requires i < 15 && 21 <= size
  {
    var (a, b, fromRight) := SECOND_COPY[i];
    if fromRight then (size - a, b) else (a, size - b)
  }

  predicate HasFormat(g: Grid, size: nat, word: string)
    requires IsGrid(g, size) && 21 <= size
  {
    forall i :: 0 <= i < 15 ==> FormatBitRight(g, size, word, i)
  }

  predicate FormatBitRight(g: Grid, size: nat, word: string, i: nat)
    requires IsGrid(g, size) && 21 <= size && i < 15
  {
    && g[FIRST_COPY[i].1][FIRST_COPY[i].0] == BitOf(word, i)
    && g[SecondAt(size, i).1][SecondAt(size, i).0] == BitOf(word, i)
  }

  // The level and mask whose format information both copies show.
  function ReadFormat(g: Grid, size: nat, n: nat): (r: Option<(Level, nat)>)
    requires IsGrid(g, size) && 21 <= size && n <= 8
    ensures r.Some? ==> r.value.1 < 8
  {
    if n == 0 then None
    else if HasFormat(g, size, FORMATS_L[n - 1]) then Some((L, n - 1))
    else if HasFormat(g, size, FORMATS_M[n - 1]) then Some((M, n - 1))
    else ReadFormat(g, size, n - 1)
  }

  // ---- the codewords ----

  function DataBit(g: Grid, ver: nat, mask: nat, x: nat, y: nat): seq<bool>
    requires 1 <= ver <= 15 && IsGrid(g, Side(ver)) && mask < 8 && x < Side(ver) && y < Side(ver)
  {
    if RoleOf(ver, x, y).Data? then [g[y][x] != MaskDark(mask, x, y)] else []
  }

  // The rest of a pair of columns, from row y upwards or downwards.
  function ReadUp(g: Grid, ver: nat, mask: nat, right: nat, rows: nat): seq<bool>
    requires 1 <= ver <= 15 && IsGrid(g, Side(ver)) && mask < 8 && 1 <= right < Side(ver) && rows <= Side(ver)
  {
    if rows == 0 then []
    else
      DataBit(g, ver, mask, right, rows - 1) + DataBit(g, ver, mask, right - 1, rows - 1)
        + ReadUp(g, ver, mask, right, rows - 1)
  }

  function ReadDown(g: Grid, ver: nat, mask: nat, right: nat, y: nat): seq<bool>
    requires 1 <= ver <= 15 && IsGrid(g, Side(ver)) && mask < 8 && 1 <= right < Side(ver) && y <= Side(ver)
    decreases Side(ver) - y
  {
    if y == Side(ver) then []
    else
      DataBit(g, ver, mask, right, y) + DataBit(g, ver, mask, right - 1, y) + ReadDown(g, ver, mask, right, y + 1)
  }

  // From the right, up and down in turn, two columns at a time, stepping over column 6
  // (section 7.7.3).
  function ReadPairs(g: Grid, ver: nat, mask: nat, right: int, up: bool): seq<bool>
    requires 1 <= ver <= 15 && IsGrid(g, Side(ver)) && mask < 8 && -1 <= right < Side(ver)
    decreases right + 1
  {
    if right < 1 then []
    else
      var pair := if up then ReadUp(g, ver, mask, right, Side(ver)) else ReadDown(g, ver, mask, right, 0);
      pair + ReadPairs(g, ver, mask, if right == 8 then 5 else right - 2, !up)
  }

  // ---- the blocks ----

  // Where codeword i of block j stands in the final sequence (section 7.6): data codewords
  // row by row, the long blocks' last ones, then error correction row by row.
  function PlaceOf(b: Blocks, j: nat, i: nat): int {
    var n := b.short + b.long;
    var length := if j < b.short then b.data else b.data + 1;
    if i < b.data then i * n + j
    else if i < length then b.data * n + j - b.short
    else b.data * n + b.long + (i - length) * n + j
  }

  predicate BlocksFit(b: Blocks, bits: seq<bool>) {
    8 * (b.total * (b.short + b.long) + b.long) <= |bits| && b.data < b.total
  }

  // Codeword i of block j, by its bits; b and bits fit.
  function CodewordAt(b: Blocks, bits: seq<bool>, j: nat, i: nat): (c: Byte) {
    var at := 8 * PlaceOf(b, j, i);
    if 0 <= at <= |bits| - 8 then bits[at..at + 8] else [false, false, false, false, false, false, false, false]
  }

  function BlockAt(b: Blocks, bits: seq<bool>, j: nat): seq<Byte>
    requires b.data <= b.total
  {
    seq(if j < b.short then b.total else b.total + 1, i requires 0 <= i => CodewordAt(b, bits, j, i))
  }

  // Multiplying by 2 modulo x^8 + x^4 + x^3 + x^2 + 1.
  function Twice(z: Byte): Byte {
    [z[1], z[2], z[3], z[4] != z[0], z[5] != z[0], z[6] != z[0], z[7], z[0]]
  }

  function TwiceTimes(z: Byte, n: nat): Byte {
    if n == 0 then z else Twice(TwiceTimes(z, n - 1))
  }

  function Plus(a: Byte, b: Byte): Byte {
    [a[0] != b[0], a[1] != b[1], a[2] != b[2], a[3] != b[3], a[4] != b[4], a[5] != b[5], a[6] != b[6], a[7] != b[7]]
  }

  // The block, as a polynomial, at 2^n: the nth syndrome (annex B).
  function Syndrome(block: seq<Byte>, n: nat): Byte {
    if block == [] then [false, false, false, false, false, false, false, false]
    else Plus(TwiceTimes(Syndrome(block[..|block| - 1], n), n), block[|block| - 1])
  }

  predicate IsClean(block: seq<Byte>, ecc: nat) {
    forall n :: 0 <= n < ecc ==> Syndrome(block, n) == [false, false, false, false, false, false, false, false]
  }

  predicate AllClean(b: Blocks, bits: seq<bool>)
    requires b.data <= b.total
  {
    forall j :: 0 <= j < b.short + b.long ==> IsClean(BlockAt(b, bits, j), b.total - b.data)
  }

  function JoinBytes(codewords: seq<Byte>): seq<bool> {
    if codewords == [] then [] else JoinBytes(codewords[..|codewords| - 1]) + codewords[|codewords| - 1]
  }

  // The data codewords of the first n blocks, one after the other, as bits.
  function DataBits(b: Blocks, bits: seq<bool>, n: nat): seq<bool>
    requires b.data < b.total && n <= b.short + b.long
  {
    if n == 0 then []
    else
      var length := if n - 1 < b.short then b.data else b.data + 1;
      DataBits(b, bits, n - 1) + JoinBytes(BlockAt(b, bits, n - 1)[..length])
  }

  // ---- the stream (section 7.4) ----

  const PADS: string := "###.##.....#...#"

  // The number some bits spell, the first the highest.
  function Spelled(bits: seq<bool>): nat {
    if bits == [] then 0 else 2 * Spelled(bits[..|bits| - 1]) + if bits[|bits| - 1] then 1 else 0
  }

  // What follows a stream of n bits in the capacity: the terminator, zeros to the next
  // codeword, and the two pad codewords in turn.
  predicate PaddedFrom(stream: seq<bool>, n: nat) {
    var end := if n + 4 <= |stream| then n + 4 else |stream|;
    var start := (end + 7) / 8 * 8;
    forall k :: n <= k < |stream| ==> stream[k] == (start <= k && PADS[(k - start) % 16] == '#')
  }

  function Bytes(bits: seq<bool>, n: nat): seq<Byte>
    requires 8 * n <= |bits|
  {
    seq(n, k requires 0 <= k < n => bits[8 * k..8 * k + 8])
  }

  // Byte mode, the count in 8 or 16 bits, the bytes, and nothing but padding.
  function ReadBytes(stream: seq<bool>, ver: nat): Option<seq<Byte>> {
    var head := if ver <= 9 then 12 else 20;
    if |stream| < head || stream[..4] != [false, true, false, false] then None
    else
      var n := Spelled(stream[4..head]);
      if |stream| < head + 8 * n || !PaddedFrom(stream, head + 8 * n) then None
      else Some(Bytes(stream[head..], n))
  }

  // ---- the reader ----

  function ReadCodewords(g: Grid, ver: nat, ecl: Level, mask: nat): Option<seq<Byte>>
    requires 1 <= ver <= 15 && IsGrid(g, Side(ver)) && mask < 8
  {
    var bits := ReadPairs(g, ver, mask, Side(ver) - 1, true);
    var b := BlocksOf(ver, ecl);
    if !BlocksFit(b, bits) || !AllClean(b, bits) then None
    else ReadBytes(DataBits(b, bits, b.short + b.long), ver)
  }

  function Decode(g: Grid): Option<seq<Byte>> {
    var size := |g|;
    if !IsGrid(g, size) || size < 21 || 77 < size || size % 4 != 1 then None
    else
      var ver := (size - 17) / 4;
      if !PatternsRight(g, ver) then None
      else
        match ReadFormat(g, size, 8)
        case None => None
        case Some((ecl, mask)) => ReadCodewords(g, ver, ecl, mask)
  }
}
