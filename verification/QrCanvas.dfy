// Drawing the function patterns into the module arrays.
module QrCanvas {
  import opened Arithmetic
  import opened QrTables
  import opened QrStream
  import opened QrWalk
  import opened QrLayout
  import opened QrFormat
  import opened QrSymbol
  import opened Wrappers

  // The two module arrays of the encoder, indexed [y, x].
  class Canvas {
    const size: nat
    const modules: array2<bool>
    const isFunction: array2<bool>

    ghost predicate Valid() {
      && modules.Length0 == modules.Length1 == isFunction.Length0 == isFunction.Length1 == size
      && modules != isFunction
      && IsSize(size)
    }

    ghost predicate Inside(x: int, y: int) {
      0 <= x < size && 0 <= y < size
    }

    constructor (ver: nat)
      requires 1 <= ver
      ensures Valid() && size == Size(ver)
      ensures fresh(modules) && fresh(isFunction)
      ensures forall x, y :: Inside(x, y) ==> !modules[y, x] && !isFunction[y, x]
    {
      size := Size(ver);
      modules := new bool[Size(ver), Size(ver)]((y, x) => false);
      isFunction := new bool[Size(ver), Size(ver)]((y, x) => false);
    }

    method SetF(x: nat, y: nat, v: bool)
      requires Valid() && Inside(x, y)
      modifies modules, isFunction
      ensures modules[y, x] == v && isFunction[y, x]
      ensures forall i, j :: Inside(i, j) && !(i == x && j == y) ==>
        modules[j, i] == old(modules[j, i]) && isFunction[j, i] == old(isFunction[j, i])
    {
      modules[y, x] := v;
      isFunction[y, x] := true;
    }

    method DrawTiming()
      requires Valid()
      modifies modules, isFunction
      ensures forall x, y :: Inside(x, y) ==>
        && modules[y, x] == Over(TimingPaint(x, y), old(modules[y, x]))
        && isFunction[y, x] == (TimingPaint(x, y).Some? || old(isFunction[y, x]))
    {
      for i := 0 to size
        invariant forall x, y :: Inside(x, y) ==>
          var done := (x == 6 && y < i) || (y == 6 && x < i);
          && modules[y, x] == (if done then TimingPaint(x, y).value else old(modules[y, x]))
          && isFunction[y, x] == (done || old(isFunction[y, x]))
      {
        SetF(6, i, i % 2 == 0);
        SetF(i, 6, i % 2 == 0);
      }
    }

    method DrawFinder(cx: int, cy: int)
      requires Valid()
      modifies modules, isFunction
      ensures forall x, y :: Inside(x, y) ==>
        && modules[y, x] == Over(FinderPaint(cx, cy, x, y), old(modules[y, x]))
        && isFunction[y, x] == (FinderPaint(cx, cy, x, y).Some? || old(isFunction[y, x]))
    {
      for dy := -4 to 5
        invariant forall x, y :: Inside(x, y) ==>
          var done := Distance(cx, cy, x, y) <= 4 && y - cy < dy;
          && modules[y, x] == (if done then FinderPaint(cx, cy, x, y).value else old(modules[y, x]))
          && isFunction[y, x] == (done || old(isFunction[y, x]))
      {
        for dx := -4 to 5
          invariant forall x, y :: Inside(x, y) ==>
            var done := Distance(cx, cy, x, y) <= 4 && (y - cy < dy || (y - cy == dy && x - cx < dx));
            && modules[y, x] == (if done then FinderPaint(cx, cy, x, y).value else old(modules[y, x]))
            && isFunction[y, x] == (done || old(isFunction[y, x]))
        {
          var dist := Max(Abs(dx), Abs(dy));
          var xx, yy := cx + dx, cy + dy;
          if xx >= 0 && xx < size && yy >= 0 && yy < size {
            SetF(xx, yy, dist != 2 && dist != 4);
          }
        }
      }
    }

    method DrawAlign(cx: int, cy: int)
      requires Valid() && 2 <= cx < size - 2 && 2 <= cy < size - 2
      modifies modules, isFunction
      ensures forall x, y :: Inside(x, y) ==>
        && modules[y, x] == Over(AlignPaint(cx, cy, x, y), old(modules[y, x]))
        && isFunction[y, x] == (AlignPaint(cx, cy, x, y).Some? || old(isFunction[y, x]))
    {
      for dy := -2 to 3
        invariant forall x, y :: Inside(x, y) ==>
          var done := Distance(cx, cy, x, y) <= 2 && y - cy < dy;
          && modules[y, x] == (if done then AlignPaint(cx, cy, x, y).value else old(modules[y, x]))
          && isFunction[y, x] == (done || old(isFunction[y, x]))
      {
        for dx := -2 to 3
          invariant forall x, y :: Inside(x, y) ==>
            var done := Distance(cx, cy, x, y) <= 2 && (y - cy < dy || (y - cy == dy && x - cx < dx));
            && modules[y, x] == (if done then AlignPaint(cx, cy, x, y).value else old(modules[y, x]))
            && isFunction[y, x] == (done || old(isFunction[y, x]))
        {
          SetF(cx + dx, cy + dy, Max(Abs(dx), Abs(dy)) != 1);
        }
      }
    }

    // One copy beside the top-left finder pattern, the other split over the other two.
    method DrawFormatBits(ecl: Level, mask: nat)
      requires Valid() && mask < 8 && 21 <= size
      modifies modules, isFunction
      ensures forall x, y :: Inside(x, y) ==>
        && modules[y, x] == Over(FormatPaint(size, FormatWord(ecl, mask), x, y), old(modules[y, x]))
        && isFunction[y, x] == (FormatPaint(size, FormatWord(ecl, mask), x, y).Some? || old(isFunction[y, x]))
    {
      hide FormatWord;
      var w := ComputeFormatWord(ecl, mask);
      DrawFirstCopy(w);
      DrawSecondCopy(w);
    }

    method DrawFirstCopy(w: Bits)
      requires Valid() && |w| == 15 && 21 <= size
      modifies modules, isFunction
      ensures forall x, y :: Inside(x, y) ==>
        var p := if x <= 8 && y <= 8 then FormatPaint(size, w, x, y) else None;
        && modules[y, x] == Over(p, old(modules[y, x]))
        && isFunction[y, x] == (p.Some? || old(isFunction[y, x]))
    {
      for i := 0 to 6
        invariant forall x, y :: Inside(x, y) ==>
          var done := x == 8 && y < i;
          && modules[y, x] == (if done then w[14 - y] else old(modules[y, x]))
          && isFunction[y, x] == (done || old(isFunction[y, x]))
      {
        SetF(8, i, w[14 - i]);
      }
      SetF(8, 7, w[8]);
      SetF(8, 8, w[7]);
      SetF(7, 8, w[6]);
      for i := 9 to 15
        invariant forall x, y :: Inside(x, y) ==>
          var p := FormatPaint(size, w, x, y);
          var done := x <= 8 && y <= 8 && (y == 8 && x <= 5 ==> 14 - x < i) && p.Some?;
          && modules[y, x] == (if done then p.value else old(modules[y, x]))
          && isFunction[y, x] == (done || old(isFunction[y, x]))
      {
        SetF(14 - i, 8, w[14 - i]);
      }
    }

    method DrawSecondCopy(w: Bits)
      requires Valid() && |w| == 15 && 21 <= size
      modifies modules, isFunction
      ensures forall x, y :: Inside(x, y) ==>
        var p := if x <= 8 && y <= 8 then None else FormatPaint(size, w, x, y);
        && modules[y, x] == Over(p, old(modules[y, x]))
        && isFunction[y, x] == (p.Some? || old(isFunction[y, x]))
    {
      for i := 0 to 8
        invariant forall x, y :: Inside(x, y) ==>
          var done := y == 8 && size - i <= x;
          && modules[y, x] == (if done then w[14 - (size - 1 - x)] else old(modules[y, x]))
          && isFunction[y, x] == (done || old(isFunction[y, x]))
      {
        SetF(size - 1 - i, 8, w[14 - i]);
      }
      for i := 8 to 15
        invariant forall x, y :: Inside(x, y) ==>
          var p := if x <= 8 && y <= 8 then None else FormatPaint(size, w, x, y);
          var done := p.Some? && (x == 8 ==> y != size - 8 && y < size - 15 + i);
          && modules[y, x] == (if done then p.value else old(modules[y, x]))
          && isFunction[y, x] == (done || old(isFunction[y, x]))
      {
        SetF(8, size - 15 + i, w[14 - i]);
      }
      SetF(8, size - 8, true);
    }

    method DrawVersion(ver: nat)
      requires Valid() && size == Size(ver)
      modifies modules, isFunction
      ensures forall x, y :: Inside(x, y) ==>
        var p := if ver >= 7 then VersionPaint(size, VersionWord(ver), x, y) else None;
        && modules[y, x] == Over(p, old(modules[y, x]))
        && isFunction[y, x] == (p.Some? || old(isFunction[y, x]))
    {
      hide VersionWord;
      if ver >= 7 {
        var w := ComputeVersionWord(ver);
        for i := 0 to 18
          invariant forall x, y :: Inside(x, y) ==>
            var p := VersionPaint(size, w, x, y);
            var a, b := if y < 6 then y else x, if y < 6 then x else y;
            var done := p.Some? && 3 * a + (b - (size - 11)) < i;
            && modules[y, x] == (if done then p.value else old(modules[y, x]))
            && isFunction[y, x] == (done || old(isFunction[y, x]))
        {
          var v := w[17 - i];
          var a, c := size - 11 + i % 3, i / 3;
          SetF(a, c, v);
          SetF(c, a, v);
        }
      }
    }

    method DrawAlignments(ver: nat)
      requires Valid() && IsVersion(ver) && size == Size(ver)
      modifies modules, isFunction
      ensures forall x, y :: Inside(x, y) ==>
        && modules[y, x] == Over(AlignmentsPaint(ver, x, y), old(modules[y, x]))
        && isFunction[y, x] == (AlignmentsPaint(ver, x, y).Some? || old(isFunction[y, x]))
    {
      hide AlignmentTable, AlignmentsDrawn;
      var align := AlignmentPatternPositions(ver);
      ghost var n := |align|;
      ghost var m0, f0 := Snap(modules), Snap(isFunction);
      forall x, y | Inside(x, y) ensures AlignmentsDrawn(ver, 0, 0, x, y, m0[y][x], f0[y][x], m0[y][x], f0[y][x]) {
        NothingDrawn(ver, x, y, m0[y][x], f0[y][x]);
      }
      for i := 0 to |align|
        invariant forall x, y :: Inside(x, y) ==>
          AlignmentsDrawn(ver, i, 0, x, y, m0[y][x], f0[y][x], modules[y, x], isFunction[y, x])
      {
        for j := 0 to |align|
          invariant forall x, y :: Inside(x, y) ==>
            AlignmentsDrawn(ver, i, j, x, y, m0[y][x], f0[y][x], modules[y, x], isFunction[y, x])
        {
          ghost var m1, f1 := Snap(modules), Snap(isFunction);
          if !OnFinder(i, j, |align|) {
            AlignInside(ver, i);
            AlignInside(ver, j);
            DrawAlign(align[i], align[j]);
          }
          forall x, y | Inside(x, y)
            ensures AlignmentsDrawn(ver, i, j + 1, x, y, m0[y][x], f0[y][x], modules[y, x], isFunction[y, x])
          {
            AlignmentStep(ver, i, j, x, y, m0[y][x], f0[y][x], m1[y][x], f1[y][x]);
          }
        }
        forall x, y | Inside(x, y)
          ensures AlignmentsDrawn(ver, i + 1, 0, x, y, m0[y][x], f0[y][x], modules[y, x], isFunction[y, x])
        {
          AlignmentRow(ver, i, x, y, m0[y][x], f0[y][x], modules[y, x], isFunction[y, x]);
        }
      }
      forall x, y | Inside(x, y)
        ensures modules[y, x] == Over(AlignmentsPaint(ver, x, y), m0[y][x])
        ensures isFunction[y, x] == (AlignmentsPaint(ver, x, y).Some? || f0[y][x])
      {
        AllAlignments(ver, x, y, m0[y][x], f0[y][x], modules[y, x], isFunction[y, x]);
      }
    }

    lemma AlignInside(ver: nat, i: nat)
      requires IsVersion(ver) && size == Size(ver) && i < |AlignmentTable(ver)|
      ensures 2 <= AlignmentTable(ver)[i] < size - 2
    {
      hide AlignmentTable;
      Spaced(ver, 0, i);
      Spaced(ver, i, |AlignmentTable(ver)| - 1);
    }

    // All function patterns on a blank canvas, with the format information of mask 0.
    method DrawFunctionPatterns(ver: nat, ecl: Level)
      requires Valid() && IsVersion(ver) && size == Size(ver)
      requires forall x, y :: Inside(x, y) ==> !modules[y, x] && !isFunction[y, x]
      modifies modules, isFunction
      ensures forall x, y :: Inside(x, y) ==> isFunction[y, x] == IsFunction(ver, x, y)
      ensures forall x, y :: Inside(x, y) ==>
        modules[y, x] == (IsFunction(ver, x, y) && FunctionModule(ver, ecl, 0, x, y))
    {
      hide IsFunction, FormatPaint, VersionPaint, AlignmentsPaint, FormatWord, VersionWord, TimingPaint, FinderPaint;
      DrawTiming();
      DrawFinder(3, 3);
      DrawFinder(size - 4, 3);
      DrawFinder(3, size - 4);
      assert forall x, y :: Inside(x, y) ==>
        && modules[y, x] == Over(FindersPaint(size, x, y), Over(TimingPaint(x, y), false))
        && isFunction[y, x] == (FindersPaint(size, x, y).Some? || TimingPaint(x, y).Some?);
      DrawAlignments(ver);
      DrawFormatBits(ecl, 0);
      DrawVersion(ver);
      forall x, y | Inside(x, y)
        ensures isFunction[y, x] == IsFunction(ver, x, y)
        ensures modules[y, x] == (IsFunction(ver, x, y) && FunctionModule(ver, ecl, 0, x, y))
      {
        PaintersCover(ver, ecl, 0, x, y);
        if ver >= 7 {
          FormatVersionDisjoint(ver, FormatWord(ecl, 0), VersionWord(ver), x, y);
        }
      }
    }

    method ApplyMask(mask: nat)
      requires Valid() && mask < 8
      modifies modules
      ensures forall x, y :: Inside(x, y) ==>
        modules[y, x] == (if isFunction[y, x] then old(modules[y, x]) else old(modules[y, x]) != MaskBit(mask, x, y))
    {
      for y := 0 to size
        invariant forall i, j :: Inside(i, j) ==>
          modules[j, i] == (if isFunction[j, i] || y <= j then old(modules[j, i])
            else old(modules[j, i]) != MaskBit(mask, i, j))
      {
        for x := 0 to size
          invariant forall i, j :: Inside(i, j) ==>
            modules[j, i] == (if isFunction[j, i] || y < j || (j == y && x <= i) then old(modules[j, i])
                              else old(modules[j, i]) != MaskBit(mask, i, j))
        {
          var inv;
          match mask {
            case 0 => inv := (x + y) % 2 == 0;
            case 1 => inv := y % 2 == 0;
            case 2 => inv := x % 3 == 0;
            case 3 => inv := (x + y) % 3 == 0;
            case 4 => inv := (x / 3 + y / 2) % 2 == 0;
            case 5 => inv := (x * y) % 2 + (x * y) % 3 == 0;
            case 6 => inv := ((x * y) % 2 + (x * y) % 3) % 2 == 0;
            case _ => inv := ((x + y) % 2 + (x * y) % 3) % 2 == 0;
          }
          assert inv == MaskBit(mask, x, y);
          if !isFunction[y, x] && inv {
            modules[y, x] := !modules[y, x];
          }
        }
      }
    }
  }

  // Alignment patterns drawn by the loop before it reaches (i, j).
  ghost predicate Reached(ver: nat, i: int, j: int, k: int, l: int, x: int, y: int)
    requires IsVersion(ver)
  {
    AlignedAt(ver, k, l, x, y) && (k < i || (k == i && l < j))
  }

  // (m0, f0) is module (x, y) before the loop, (m, f) when it reaches (i, j).
  ghost predicate AlignmentsDrawn(ver: nat, i: int, j: int, x: int, y: int, m0: bool, f0: bool, m: bool, f: bool)
    requires IsVersion(ver)
  {
    && (forall k, l :: Reached(ver, i, j, k, l, x, y) ==>
      f && AlignPaint(AlignmentTable(ver)[k], AlignmentTable(ver)[l], x, y) == Some(m))
    && ((forall k, l :: !Reached(ver, i, j, k, l, x, y)) ==> m == m0 && f == f0)
  }

  lemma NothingDrawn(ver: nat, x: int, y: int, m: bool, f: bool)
    requires IsVersion(ver)
    ensures AlignmentsDrawn(ver, 0, 0, x, y, m, f, m, f)
  {}

  lemma AlignmentStep(ver: nat, i: nat, j: nat, x: int, y: int, m0: bool, f0: bool, m: bool, f: bool)
    requires IsVersion(ver) && i < |AlignmentTable(ver)| && j < |AlignmentTable(ver)|
    requires AlignmentsDrawn(ver, i, j, x, y, m0, f0, m, f)
    ensures var t := AlignmentTable(ver);
      var p := if OnFinder(i, j, |t|) then None else AlignPaint(t[i], t[j], x, y);
      AlignmentsDrawn(ver, i, j + 1, x, y, m0, f0, Over(p, m), p.Some? || f)
  {
    hide AlignmentTable, AlignPaint, AlignedAt;
    if AlignedAt(ver, i, j, x, y) {
      HereOnly(ver, i, j, j + 1, x, y);
    } else {
      forall k, l ensures Reached(ver, i, j + 1, k, l, x, y) <==> Reached(ver, i, j, k, l, x, y) {}
      NotHere(ver, i, j, x, y);
    }
  }

  lemma HereOnly(ver: nat, i: nat, j: nat, next: nat, x: int, y: int)
    requires IsVersion(ver) && AlignedAt(ver, i, j, x, y) && next == j + 1
    ensures AlignPaint(AlignmentTable(ver)[i], AlignmentTable(ver)[j], x, y).Some?
    ensures !OnFinder(i, j, |AlignmentTable(ver)|)
    ensures Reached(ver, i, next, i, j, x, y)
    ensures forall k, l :: Reached(ver, i, next, k, l, x, y) ==> k == i && l == j
  {
    hide AlignmentTable, AlignPaint;
    forall k, l | Reached(ver, i, next, k, l, x, y) ensures k == i && l == j {
      AlignedUnique(ver, i, j, k, l, x, y);
    }
  }

  lemma NotHere(ver: nat, i: nat, j: nat, x: int, y: int)
    requires IsVersion(ver) && i < |AlignmentTable(ver)| && j < |AlignmentTable(ver)| && !AlignedAt(ver, i, j, x, y)
    ensures OnFinder(i, j, |AlignmentTable(ver)|)
      || AlignPaint(AlignmentTable(ver)[i], AlignmentTable(ver)[j], x, y).None?
  {
    hide AlignmentTable, AlignPaint;
  }

  lemma AlignmentRow(ver: nat, i: nat, x: int, y: int, m0: bool, f0: bool, m: bool, f: bool)
    requires IsVersion(ver)
    requires AlignmentsDrawn(ver, i, |AlignmentTable(ver)|, x, y, m0, f0, m, f)
    ensures AlignmentsDrawn(ver, i + 1, 0, x, y, m0, f0, m, f)
  {
    hide AlignmentTable, AlignPaint, OnFinder;
    var n := |AlignmentTable(ver)|;
    forall k, l ensures Reached(ver, i + 1, 0, k, l, x, y) <==> Reached(ver, i, n, k, l, x, y) {}
  }

  lemma AllAlignments(ver: nat, x: int, y: int, m0: bool, f0: bool, m: bool, f: bool)
    requires IsVersion(ver)
    requires AlignmentsDrawn(ver, |AlignmentTable(ver)|, 0, x, y, m0, f0, m, f)
    ensures m == Over(AlignmentsPaint(ver, x, y), m0)
    ensures f == (AlignmentsPaint(ver, x, y).Some? || f0)
  {
    hide AlignmentTable, AlignPaint;
    var n := |AlignmentTable(ver)|;
    if k, l :| AlignedAt(ver, k, l, x, y) {
      forall i, j | AlignedAt(ver, i, j, x, y) ensures Reached(ver, n, 0, i, j, x, y) {}
    }
  }
}
