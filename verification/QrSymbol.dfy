// What every module of a symbol shows: function patterns (ISO/IEC 18004:2015,
// section 6.3), format and version information, and masked data (section 7.8).
module QrSymbol {
  import opened Arithmetic
  import opened QrTables
  import opened QrStream
  import opened QrWalk
  import opened QrLayout
  import opened QrFormat
  import opened Wrappers

  function Distance(cx: int, cy: int, x: int, y: int): int {
    Max(Abs(x - cx), Abs(y - cy))
  }

  // Each painter says what it shows at (x, y), or None outside its own modules.

  function TimingPaint(x: int, y: int): Option<bool> {
    if x == 6 then Some(y % 2 == 0) else if y == 6 then Some(x % 2 == 0) else None
  }

  // A finder pattern with its separator.
  function FinderPaint(cx: int, cy: int, x: int, y: int): Option<bool> {
    var d := Distance(cx, cy, x, y);
    if d <= 4 then Some(d != 2 && d != 4) else None
  }

  function FindersPaint(size: nat, x: int, y: int): Option<bool> {
    var a, b, c := FinderPaint(3, 3, x, y), FinderPaint(size - 4, 3, x, y), FinderPaint(3, size - 4, x, y);
    if c.Some? then c else if b.Some? then b else a
  }

  function AlignPaint(cx: int, cy: int, x: int, y: int): Option<bool> {
    var d := Distance(cx, cy, x, y);
    if d <= 2 then Some(d != 1) else None
  }

  // Alignment patterns are far enough apart for at most one to contain (x, y).
  ghost predicate AlignedAt(ver: nat, i: int, j: int, x: int, y: int)
    requires IsVersion(ver)
  {
    var p := AlignmentTable(ver);
    0 <= i < |p| && 0 <= j < |p| && !OnFinder(i, j, |p|) && AlignPaint(p[i], p[j], x, y).Some?
  }

  ghost function AlignmentsPaint(ver: nat, x: int, y: int): Option<bool>
    requires IsVersion(ver)
  {
    if exists i, j :: AlignedAt(ver, i, j, x, y) then
      var i, j :| AlignedAt(ver, i, j, x, y);
      AlignPaint(AlignmentTable(ver)[i], AlignmentTable(ver)[j], x, y)
    else None
  }

  // The two copies of the format information and the dark module.
  function FormatPaint(size: nat, word: Bits, x: int, y: int): Option<bool>
    requires |word| == 15
  {
    var index :=
      if x == 8 && 0 <= y <= 5 then y
      else if x == 8 && y == 7 then 6
      else if x == 8 && y == 8 then 7
      else if x == 7 && y == 8 then 8
      else if 0 <= x <= 5 && y == 8 then 14 - x
      else if size - 8 <= x < size && y == 8 then size - 1 - x
      else if x == 8 && size - 7 <= y < size then y - (size - 15)
      else -1;
    if x == 8 && y == size - 8 then Some(true)
    else if 0 <= index < 15 then Some(word[14 - index])
    else None
  }

  function VersionPaint(size: nat, word: Bits, x: int, y: int): Option<bool>
    requires |word| == 18
  {
    var a := size - 11;
    if a <= x < a + 3 && 0 <= y < 6 then Some(word[17 - (3 * y + (x - a))])
    else if a <= y < a + 3 && 0 <= x < 6 then Some(word[17 - (3 * x + (y - a))])
    else None
  }

  function Over(p: Option<bool>, v: bool): bool {
    if p.Some? then p.value else v
  }

  // The condition of table 10 for dark-light reversal.
  predicate MaskBit(mask: nat, x: nat, y: nat) {
    match mask
    case 0 => (x + y) % 2 == 0
    case 1 => y % 2 == 0
    case 2 => x % 3 == 0
    case 3 => (x + y) % 3 == 0
    case 4 => (x / 3 + y / 2) % 2 == 0
    case 5 => (x * y) % 2 + (x * y) % 3 == 0
    case 6 => ((x * y) % 2 + (x * y) % 3) % 2 == 0
    case _ => ((x + y) % 2 + (x * y) % 3) % 2 == 0
  }

  // A pattern of the fixed kinds, or a light module: everything but format information.
  ghost function FixedModule(ver: nat, x: int, y: int): bool
    requires IsVersion(ver)
  {
    var size := Size(ver);
    var version := if ver >= 7 then VersionPaint(size, VersionWord(ver), x, y) else None;
    Over(version, Over(AlignmentsPaint(ver, x, y), Over(FindersPaint(size, x, y), Over(TimingPaint(x, y), false))))
  }

  ghost function FunctionModule(ver: nat, ecl: Level, mask: nat, x: int, y: int): bool
    requires IsVersion(ver)
  {
    Over(FormatPaint(Size(ver), FormatWord(ecl, mask), x, y), FixedModule(ver, x, y))
  }

  // Module (x, y) of the symbol whose unmasked data modules are those of `data`.
  ghost function SymbolModule(ver: nat, ecl: Level, mask: nat, data: Grid, x: nat, y: nat): bool
    requires IsVersion(ver) && IsGrid(data, Size(ver)) && x < Size(ver) && y < Size(ver)
  {
    if IsFunction(ver, x, y) then FunctionModule(ver, ecl, mask, x, y) else data[y][x] != MaskBit(mask, x, y)
  }

  ghost function SymbolGrid(ver: nat, ecl: Level, mask: nat, data: Grid): (g: Grid)
    requires IsVersion(ver) && IsGrid(data, Size(ver))
    ensures IsGrid(g, Size(ver))
    ensures forall x, y :: 0 <= x < Size(ver) && 0 <= y < Size(ver) ==>
      g[y][x] == SymbolModule(ver, ecl, mask, data, x, y)
  {
    seq(Size(ver), y requires 0 <= y < Size(ver) =>
      seq(Size(ver), x requires 0 <= x < Size(ver) => SymbolModule(ver, ecl, mask, data, x, y)))
  }

  // ---- where the painters paint ----

  lemma AlignedUnique(ver: nat, i: int, j: int, k: int, l: int, x: int, y: int)
    requires IsVersion(ver) && AlignedAt(ver, i, j, x, y) && AlignedAt(ver, k, l, x, y)
    ensures i == k && j == l
  {
    Spaced(ver, i, k);
    Spaced(ver, k, i);
    Spaced(ver, j, l);
    Spaced(ver, l, j);
  }

  lemma {:induction false} Spaced(ver: nat, i: int, k: int)
    requires IsVersion(ver) && 0 <= i < |AlignmentTable(ver)| && 0 <= k < |AlignmentTable(ver)|
    ensures i < k ==> AlignmentTable(ver)[i] + 12 <= AlignmentTable(ver)[k]
    decreases k
  {
    hide AlignmentTable;
    if i < k - 1 {
      Spaced(ver, i, k - 1);
    }
  }

  lemma AlignmentPainted(ver: nat, x: int, y: int)
    requires IsVersion(ver)
    ensures InAlignment(ver, x, y) <==> AlignmentsPaint(ver, x, y).Some?
  {
    hide AlignmentTable;
    var p := AlignmentTable(ver);
    if InAlignment(ver, x, y) {
      var i, j :| 0 <= i < |p| && 0 <= j < |p| && !OnFinder(i, j, |p|) && Near(x, p[i]) && Near(y, p[j]);
      assert AlignedAt(ver, i, j, x, y);
    }
    if i, j :| AlignedAt(ver, i, j, x, y) {
      assert Near(x, p[i]) && Near(y, p[j]);
    }
  }

  // The union of the painters is exactly the function modules of the layout.
  lemma PaintersCover(ver: nat, ecl: Level, mask: nat, x: nat, y: nat)
    requires IsVersion(ver) && x < Size(ver) && y < Size(ver)
    ensures IsFunction(ver, x, y) <==>
      || TimingPaint(x, y).Some?
      || FindersPaint(Size(ver), x, y).Some?
      || AlignmentsPaint(ver, x, y).Some?
      || FormatPaint(Size(ver), FormatWord(ecl, mask), x, y).Some?
      || (ver >= 7 && VersionPaint(Size(ver), VersionWord(ver), x, y).Some?)
  {
    hide InAlignment, AlignmentsPaint, FormatWord, VersionWord;
    AlignmentPainted(ver, x, y);
  }

  // Format information never covers version information.
  lemma FormatVersionDisjoint(ver: nat, f: Bits, v: Bits, x: int, y: int)
    requires ver >= 7 && |f| == 15 && |v| == 18
    ensures FormatPaint(Size(ver), f, x, y).None? || VersionPaint(Size(ver), v, x, y).None?
  {}

  // Masking twice restores a data module.
  lemma MaskTwice(mask: nat, x: nat, y: nat, b: bool)
    ensures ((b != MaskBit(mask, x, y)) != MaskBit(mask, x, y)) == b
  {}
}
