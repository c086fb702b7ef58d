// The reader's figures of the function patterns against what the painters draw.
module QrPatterns {
  import opened QrAgreement
  import opened QrFormat
  import opened QrLayout
  import opened QrStream
  import opened QrSymbol
  import opened QrTables
  import opened QrWalk
  import opened Wrappers
  import R = QrReader

  // ---- alignment patterns ----

  lemma CentresAgree(ver: nat)
    requires IsVersion(ver)
    ensures R.Centres(ver) == AlignmentTable(ver)
  {}

  lemma CentresEven(ver: nat, i: nat)
    requires IsVersion(ver) && i < |AlignmentTable(ver)|
    ensures AlignmentTable(ver)[i] % 2 == 0
  {}

  lemma AroundAgrees(ver: nat, i: nat, j: nat, x: nat, y: nat)
    requires IsVersion(ver)
    ensures R.Around(ver, i, j, x, y) <==> AlignedAt(ver, i, j, x, y)
  {
    hide AlignmentTable, R.Centres;
    CentresAgree(ver);
  }

  // The picture of an alignment pattern, d modules right of and e below its top left corner.
  lemma AlignmentDrawn(cx: nat, cy: nat, x: nat, y: nat)
    requires cx <= x + 2 && x <= cx + 2 && cy <= y + 2 && y <= cy + 2
    ensures AlignPaint(cx, cy, x, y) == Some(R.Drawn(R.ALIGNMENT, x + 2 - cx, y + 2 - cy).dark)
  {}

  // What the search over all centres has found before (i, j).
  ghost predicate Found(ver: nat, x: nat, y: nat, i: nat, j: nat, r: R.Role)
    requires IsVersion(ver)
  {
    var c := AlignmentTable(ver);
    if r.Data? then
      forall a: nat, b: nat :: AlignedAt(ver, a, b, x, y) ==> i < a || (i == a && j <= b)
    else
      exists a: nat, b: nat :: AlignedAt(ver, a, b, x, y) && r.Pattern? && AlignPaint(c[a], c[b], x, y) == Some(r.dark)
  }

  lemma {:induction false} SearchFinds(ver: nat, x: nat, y: nat, i: nat, j: nat)
    requires IsVersion(ver) && j <= |R.Centres(ver)|
    ensures Found(ver, x, y, i, j, R.AlignmentRole(ver, x, y, i, j))
    decreases i, j
  {
    hide AlignmentTable, R.Centres, AlignPaint, R.Drawn, R.Around, AlignedAt;
    var c := R.Centres(ver);
    CentresAgree(ver);
    if j > 0 {
      AroundAgrees(ver, i, j - 1, x, y);
      if R.Around(ver, i, j - 1, x, y) {
        FoundHere(ver, x, y, i, j - 1);
      } else {
        SearchFinds(ver, x, y, i, j - 1);
      }
    } else if i > 0 {
      SearchFinds(ver, x, y, i - 1, |c|);
      forall a: nat, b: nat | AlignedAt(ver, a, b, x, y) ensures b < |c| {
        InTable(ver, a, b, x, y);
      }
    }
  }

  lemma FoundHere(ver: nat, x: nat, y: nat, i: nat, j: nat)
    requires IsVersion(ver) && R.Around(ver, i, j, x, y) && j < |R.Centres(ver)|
    ensures Found(ver, x, y, i, j + 1, R.AlignmentRole(ver, x, y, i, j + 1))
  {
    hide AlignmentTable, R.Centres, AlignPaint;
    CentresAgree(ver);
    AroundAgrees(ver, i, j, x, y);
    var c := R.Centres(ver);
    AlignmentDrawn(c[i], c[j], x, y);
  }

  lemma InTable(ver: nat, a: nat, b: nat, x: nat, y: nat)
    requires IsVersion(ver) && AlignedAt(ver, a, b, x, y)
    ensures a < |AlignmentTable(ver)| && b < |AlignmentTable(ver)|
  {}

  // The reader's alignment modules are the painters'.
  lemma AlignmentAgrees(ver: nat, x: nat, y: nat)
    requires IsVersion(ver)
    ensures var c := R.Centres(ver);
      var r := R.AlignmentRole(ver, x, y, if c == [] then 0 else |c| - 1, |c|);
      && (r.Data? || r.Pattern?)
      && (r.Data? <==> !InAlignment(ver, x, y))
      && AlignmentsPaint(ver, x, y) == if r.Pattern? then Some(r.dark) else None
  {
    hide AlignmentTable, R.Centres, AlignPaint, R.AlignmentRole;
    CentresAgree(ver);
    var c := R.Centres(ver);
    var i := if c == [] then 0 else |c| - 1;
    var r := R.AlignmentRole(ver, x, y, i, |c|);
    SearchFinds(ver, x, y, i, |c|);
    AlignmentPainted(ver, x, y);
    if r.Data? {
      forall a: nat, b: nat ensures !AlignedAt(ver, a, b, x, y) {
        if AlignedAt(ver, a, b, x, y) {
          InTable(ver, a, b, x, y);
        }
      }
      NatIndices(ver, x, y);
    } else {
      var a: nat, b: nat :|
        && AlignedAt(ver, a, b, x, y) && r.Pattern?
        && AlignPaint(AlignmentTable(ver)[a], AlignmentTable(ver)[b], x, y) == Some(r.dark);
      PaintedBy(ver, a, b, x, y);
    }
  }

  lemma NatIndices(ver: nat, x: nat, y: nat)
    requires IsVersion(ver) && forall a: nat, b: nat :: !AlignedAt(ver, a, b, x, y)
    ensures AlignmentsPaint(ver, x, y) == None
  {
    hide AlignmentTable;
  }

  lemma PaintedBy(ver: nat, a: nat, b: nat, x: nat, y: nat)
    requires IsVersion(ver) && AlignedAt(ver, a, b, x, y)
    ensures AlignmentsPaint(ver, x, y) == AlignPaint(AlignmentTable(ver)[a], AlignmentTable(ver)[b], x, y)
  {
    hide AlignmentTable;
    var i, j :| AlignedAt(ver, i, j, x, y) &&
      AlignmentsPaint(ver, x, y) == AlignPaint(AlignmentTable(ver)[i], AlignmentTable(ver)[j], x, y);
    AlignedUnique(ver, a, b, i, j, x, y);
  }

  // ---- corners ----

  // A quarter of the picture; the rest mirrors it or is the light separator.
  lemma CornerPicture(x: nat, y: nat)
    requires x < 4 && y < 4
    ensures R.CORNER[y][x] == if (x == 1 && 1 <= y) || (y == 1 && 1 <= x) then '.' else '#'
  {}

  lemma CornerQuarter(x: nat, y: nat)
    requires x < 4 && y < 4
    ensures FinderPaint(3, 3, x, y) == Some(R.Drawn(R.CORNER, x, y).dark)
  {
    CornerPicture(x, y);
    hide R.CORNER;
  }

  lemma CornerMirrors(x: nat, y: nat)
    requires x < 7 && y < 7
    ensures 4 <= x ==> R.Drawn(R.CORNER, x, y) == R.Drawn(R.CORNER, 6 - x, y)
    ensures 4 <= y ==> R.Drawn(R.CORNER, x, y) == R.Drawn(R.CORNER, x, 6 - y)
  {
    match y
    case 0 => case 1 => case 2 => case 3 => case 4 => case 5 => case 6 =>
  }

  lemma CornerEdge(x: nat, y: nat)
    requires x < 8 && y < 8 && (x == 7 || y == 7)
    ensures !R.Drawn(R.CORNER, x, y).dark
  {}

  lemma CornerDrawn(x: nat, y: nat)
    requires x < 8 && y < 8
    ensures FinderPaint(3, 3, x, y) == Some(R.Drawn(R.CORNER, x, y).dark)
  {
    hide R.Drawn;
    if x == 7 || y == 7 {
      CornerEdge(x, y);
    } else {
      var a, b := if x < 4 then x else 6 - x, if y < 4 then y else 6 - y;
      CornerMirrors(x, y);
      CornerMirrors(a, y);
      CornerQuarter(a, b);
    }
  }

  // The finder pattern that a corner shows.
  lemma CornersAgree(ver: nat, x: nat, y: nat)
    requires IsVersion(ver) && x < Size(ver) && y < Size(ver)
    ensures var size := Size(ver);
      FindersPaint(size, x, y) ==
        if x < 8 && y < 8 then Some(R.Drawn(R.CORNER, x, y).dark)
        else if size - 8 <= x && y < 8 then Some(R.Drawn(R.CORNER, size - 1 - x, y).dark)
        else if x < 8 && size - 8 <= y then Some(R.Drawn(R.CORNER, x, size - 1 - y).dark)
        else None
  {
    hide R.Drawn;
    var size := Size(ver);
    if x < 8 && y < 8 {
      CornerDrawn(x, y);
    } else if size - 8 <= x && y < 8 {
      CornerDrawn(size - 1 - x, y);
    } else if x < 8 && size - 8 <= y {
      CornerDrawn(x, size - 1 - y);
    }
  }

  // ---- every module ----

  // No alignment pattern reaches a corner, a format or a version module.
  lemma AlignmentsApart(ver: nat, x: nat, y: nat)
    requires IsVersion(ver) && x < Size(ver) && y < Size(ver)
    requires InCorner(Size(ver), x, y) || InVersionInfo(ver, x, y)
    ensures !InAlignment(ver, x, y)
  {
    hide InAlignment, Mid;
    AlignmentIsFlat(ver, x, y);
    forall a | Mid(ver, a) ensures 11 <= a < Size(ver) - 11 {
      MidBounds(ver, a);
    }
  }

  // On a timing line, an alignment pattern shows the timing pattern.
  lemma TimingContinues(ver: nat, x: nat, y: nat)
    requires IsVersion(ver) && (x == 6 || y == 6)
    ensures AlignmentsPaint(ver, x, y).Some? ==> AlignmentsPaint(ver, x, y).value == ((x + y) % 2 == 0)
  {
    hide AlignmentTable, AlignPaint;
    var p := AlignmentTable(ver);
    if AlignmentsPaint(ver, x, y).Some? {
      var i, j :| AlignedAt(ver, i, j, x, y) && AlignmentsPaint(ver, x, y) == AlignPaint(p[i], p[j], x, y);
      CentresEven(ver, i);
      CentresEven(ver, j);
      PaintedNear(p[i], p[j], x, y);
      if x == 6 {
        SixFirst(ver, i);
      } else {
        SixFirst(ver, j);
      }
      AxisParity(p[i], p[j], x, y);
    }
  }

  lemma PaintedNear(cx: int, cy: int, x: int, y: int)
    requires AlignPaint(cx, cy, x, y).Some?
    ensures Near(x, cx) && Near(y, cy)
  {}

  // The axes of an alignment pattern alternate.
  lemma AxisParity(cx: nat, cy: nat, x: nat, y: nat)
    requires cx % 2 == 0 && cy % 2 == 0 && (x == cx || y == cy)
    requires AlignPaint(cx, cy, x, y).Some?
    ensures AlignPaint(cx, cy, x, y).value == ((x + y) % 2 == 0)
  {}

  lemma SixFirst(ver: nat, i: nat)
    requires IsVersion(ver) && i < |AlignmentTable(ver)| && Near(6, AlignmentTable(ver)[i])
    ensures AlignmentTable(ver)[i] == 6
  {}

  ghost predicate RoleShows(ver: nat, ecl: Level, mask: nat, x: nat, y: nat, role: R.Role)
    requires IsVersion(ver)
  {
    match role
    case Pattern(dark) => IsFunction(ver, x, y) && FunctionModule(ver, ecl, mask, x, y) == dark
    case Version(bit) =>
      && IsFunction(ver, x, y) && 7 <= ver && bit < 18
      && FunctionModule(ver, ecl, mask, x, y) == VersionWord(ver)[17 - bit]
    case Format => IsFunction(ver, x, y)
    case Data => !IsFunction(ver, x, y)
  }

  // The role the reader gives a module is what the encoder draws there.
  lemma RolesAgree(ver: nat, ecl: Level, mask: nat, x: nat, y: nat)
    requires IsVersion(ver) && x < Size(ver) && y < Size(ver)
    ensures RoleShows(ver, ecl, mask, x, y, R.RoleOf(ver, x, y))
  {
    hide AlignmentTable, R.Centres, R.AlignmentRole, R.Drawn, FindersPaint, AlignmentsPaint, InAlignment,
         VersionWord, FormatWord;
    AlignmentAgrees(ver, x, y);
    AlignmentPainted(ver, x, y);
    CornersAgree(ver, x, y);
    if InCorner(Size(ver), x, y) || InVersionInfo(ver, x, y) {
      AlignmentsApart(ver, x, y);
    } else if x == 6 || y == 6 {
      TimingContinues(ver, x, y);
    }
  }

  // ---- what the reader checks in a symbol ----

  lemma BitOfWord(word: string, i: nat)
    requires i < |word|
    ensures R.BitOf(word, i) == Word(word)[|word| - 1 - i]
  {}

  lemma VersionBit(ver: nat, bit: nat)
    requires 7 <= ver <= 15 && bit < 18
    ensures R.BitOf(R.VERSIONS[ver - 7], bit) == VersionWord(ver)[17 - bit]
  {
    hide VersionWord, Word, R.BitOf;
    VersionShows(ver);
    BitOfWord(R.VERSIONS[ver - 7], bit);
  }

  lemma SymbolModuleRight(ver: nat, ecl: Level, mask: nat, placed: Grid, x: nat, y: nat)
    requires IsVersion(ver) && IsGrid(placed, Size(ver)) && x < Size(ver) && y < Size(ver)
    ensures R.ModuleRight(SymbolGrid(ver, ecl, mask, placed), ver, x, y)
  {
    hide FunctionModule, R.RoleOf, VersionWord, MaskBit, IsFunction, R.BitOf;
    RolesAgree(ver, ecl, mask, x, y);
    var role := R.RoleOf(ver, x, y);
    if role.Version? {
      VersionBit(ver, role.bit);
    }
  }

  lemma SymbolPatterns(ver: nat, ecl: Level, mask: nat, placed: Grid)
    requires IsVersion(ver) && IsGrid(placed, Size(ver))
    ensures R.PatternsRight(SymbolGrid(ver, ecl, mask, placed), ver)
  {
    hide R.ModuleRight, SymbolGrid;
    forall y, x | 0 <= y < R.Side(ver) && 0 <= x < R.Side(ver)
      ensures R.ModuleRight(SymbolGrid(ver, ecl, mask, placed), ver, x, y)
    {
      SymbolModuleRight(ver, ecl, mask, placed, x, y);
    }
  }

  lemma FirstCopyAt(ver: nat, w: Bits, i: nat)
    requires IsVersion(ver) && |w| == 15 && i < 15
    ensures var (x, y) := R.FIRST_COPY[i];
      x < Size(ver) && y < Size(ver) && InCorner(Size(ver), x, y) && FormatPaint(Size(ver), w, x, y) == Some(w[14 - i])
  {}

  lemma SecondCopyAt(ver: nat, w: Bits, i: nat)
    requires IsVersion(ver) && |w| == 15 && i < 15
    ensures var (x, y) := R.SecondAt(Size(ver), i);
      x < Size(ver) && y < Size(ver) && InCorner(Size(ver), x, y) && FormatPaint(Size(ver), w, x, y) == Some(w[14 - i])
  {}

  // Bit i of the format information stands at both of its places.
  lemma FormatStands(ver: nat, ecl: Level, mask: nat, placed: Grid, i: nat)
    requires IsVersion(ver) && IsGrid(placed, Size(ver)) && i < 15
    ensures var (g, w) := (SymbolGrid(ver, ecl, mask, placed), FormatWord(ecl, mask));
      && g[R.FIRST_COPY[i].1][R.FIRST_COPY[i].0] == w[14 - i]
      && g[R.SecondAt(Size(ver), i).1][R.SecondAt(Size(ver), i).0] == w[14 - i]
  {
    hide FixedModule, FormatPaint, FormatWord, MaskBit, R.SecondAt, InCorner, InAlignment;
    FirstCopyAt(ver, FormatWord(ecl, mask), i);
    SecondCopyAt(ver, FormatWord(ecl, mask), i);
  }

  // Both copies show the word of exactly this level and mask.
  lemma FormatFound(ver: nat, ecl: Level, mask: nat, placed: Grid, e: Level, m: nat)
    requires IsVersion(ver) && IsGrid(placed, Size(ver)) && mask < 8 && m < 8
    ensures R.HasFormat(SymbolGrid(ver, ecl, mask, placed), Size(ver), FormatOf(e, m)) <==> e == ecl && m == mask
  {
    hide SymbolGrid, FormatWord, FormatOf, R.SecondAt;
    var g := SymbolGrid(ver, ecl, mask, placed);
    FormatShows(e, m);
    var word := FormatOf(e, m);
    forall i | 0 <= i < 15
      ensures R.FormatBitRight(g, Size(ver), word, i) <==> FormatWord(e, m)[14 - i] == FormatWord(ecl, mask)[14 - i]
    {
      FormatStands(ver, ecl, mask, placed, i);
      BitOfWord(word, i);
    }
    if R.HasFormat(g, Size(ver), word) {
      forall k | 0 <= k < 15 ensures FormatWord(e, m)[k] == FormatWord(ecl, mask)[k] {
        assert R.FormatBitRight(g, Size(ver), word, 14 - k);
      }
      assert FormatWord(e, m) == FormatWord(ecl, mask);
      FormatRoundTrip(e, m);
      FormatRoundTrip(ecl, mask);
    }
  }

  lemma {:induction false} FormatRead(ver: nat, ecl: Level, mask: nat, placed: Grid, n: nat)
    requires IsVersion(ver) && IsGrid(placed, Size(ver)) && mask < n <= 8
    ensures R.ReadFormat(SymbolGrid(ver, ecl, mask, placed), Size(ver), n) == Some((ecl, mask))
  {
    hide SymbolGrid, R.HasFormat;
    FormatFound(ver, ecl, mask, placed, L, n - 1);
    FormatFound(ver, ecl, mask, placed, M, n - 1);
    if mask < n - 1 {
      FormatRead(ver, ecl, mask, placed, n - 1);
    }
  }
}
