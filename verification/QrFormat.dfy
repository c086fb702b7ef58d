// Format and version information (ISO/IEC 18004:2015, sections 7.9 and 7.10).
module QrFormat {
  import opened QrStream
  import opened QrTables
  import opened Wrappers

  // ---- BCH codes: polynomials over GF(2), highest order first ----

  function XorBits(a: Bits, b: Bits): (r: Bits)
    requires |a| == |b|
    ensures |r| == |a|
  {
    seq(|a|, k requires 0 <= k < |a| => a[k] != b[k])
  }

  // p + g, aligned at the constant terms.
  function XorLow(p: Bits, g: Bits): (r: Bits)
    requires |g| <= |p|
    ensures |r| == |p|
  {
    var d := |p| - |g|;
    seq(|p|, k requires 0 <= k < |p| => if k < d then p[k] else p[k] != g[k - d])
  }

  function ScaleBits(b: bool, g: Bits): (r: Bits)
    ensures |r| == |g|
  {
    if b then g else Falses(|g|)
  }

  function MulBits(q: Bits, g: Bits): (r: Bits)
    requires g != []
    ensures |r| == |q| + |g| - 1
  {
    if q == [] then Falses(|g| - 1)
    else XorLow(MulBits(q[..|q| - 1], g) + [false], ScaleBits(q[|q| - 1], g))
  }

  // (rem << 1) ^ ((rem >>> (n - 1)) * poly) in an n-bit register; poly is
  // given without its leading bit, which cancels the bit shifted out.
  function Shift(rem: Bits, poly: Bits): (r: Bits)
    requires |rem| == |poly| > 0
    ensures |r| == |rem|
  {
    XorBits(rem[1..] + [false], ScaleBits(rem[0], poly))
  }

  function ShiftTimes(rem: Bits, poly: Bits, n: nat): (r: Bits)
    requires |rem| == |poly| > 0
    ensures |r| == |rem|
  {
    if n == 0 then rem else Shift(ShiftTimes(rem, poly, n - 1), poly)
  }

  // w, as a polynomial, is a multiple of the generator with the given tail.
  ghost predicate IsCodeword(w: Bits, poly: Bits) {
    exists q: Bits, lead: nat :: IsMultiple(q, lead, w, poly)
  }

  ghost predicate IsMultiple(q: Bits, lead: nat, w: Bits, poly: Bits) {
    MulBits(q, [true] + poly) == Falses(lead) + w
  }

  lemma ShiftStep(product: Bits, rem: Bits, poly: Bits, total: Bits)
    requires |rem| == |poly| > 0 && |rem| <= |product|
    requires XorLow(product, rem) == total
    ensures XorLow(XorLow(product + [false], ScaleBits(rem[0], [true] + poly)), Shift(rem, poly)) == total + [false]
  {
    var n := |product| - |rem|;
    var next := XorLow(product + [false], ScaleBits(rem[0], [true] + poly));
    var sum := XorLow(next, Shift(rem, poly));
    forall k | 0 <= k < |sum| ensures sum[k] == (total + [false])[k] {
      if n < k {
        assert Shift(rem, poly)[k - n - 1] == ((rem[1..] + [false])[k - n - 1] != ScaleBits(rem[0], poly)[k - n - 1]);
        assert ScaleBits(rem[0], [true] + poly)[k - n] == ScaleBits(rem[0], poly)[k - n - 1];
        assert (product + [false])[k] == if k < |product| then product[k] else false;
        assert k < |product| ==> total[k] == (product[k] != rem[k - n]);
      } else if k == n {
        assert total[k] == (product[k] != rem[0]);
      }
    }
  }

  lemma Associates(a: Bits, b: Bits, c: Bits)
    ensures (a + b) + c == a + (b + c)
  {}

  lemma FalsesNext(n: nat)
    ensures Falses(n + 1) == Falses(n) + [false]
  {}

  lemma ShiftNone(start: Bits, poly: Bits)
    requires |start| == |poly| > 0
    ensures XorLow(MulBits([], [true] + poly), start) == start + Falses(0)
  {}

  // After n shifts the register holds the remainder of start * x^n.
  lemma {:induction false} ShiftDivides(start: Bits, poly: Bits, n: nat) returns (q: Bits)
    requires |start| == |poly| > 0
    ensures XorLow(MulBits(q, [true] + poly), ShiftTimes(start, poly, n)) == start + Falses(n)
  {
    hide Shift, XorLow, Falses, ScaleBits;
    if n == 0 {
      ShiftNone(start, poly);
      q := [];
    } else {
      var q0 := ShiftDivides(start, poly, n - 1);
      var rem := ShiftTimes(start, poly, n - 1);
      q := q0 + [rem[0]];
      assert q[..|q0|] == q0;
      ShiftStep(MulBits(q0, [true] + poly), rem, poly, start + Falses(n - 1));
      FalsesNext(n - 1);
      Associates(start, Falses(n - 1), [false]);
    }
  }

  lemma RemainderMoves(product: Bits, start: Bits, rem: Bits)
    requires |rem| <= |product|
    requires XorLow(product, rem) == start + Falses(|rem|)
    ensures product == start + rem
  {
    assert |product| == |start| + |rem|;
    forall k | 0 <= k < |product| ensures product[k] == (start + rem)[k] {
      assert XorLow(product, rem)[k] == (start + Falses(|rem|))[k];
    }
  }

  lemma StartDivides(start: Bits, poly: Bits) returns (q: Bits)
    requires |start| == |poly| > 0
    ensures MulBits(q, [true] + poly) == start + ShiftTimes(start, poly, |poly|)
  {
    hide ShiftTimes, MulBits, XorLow;
    q := ShiftDivides(start, poly, |poly|);
    RemainderMoves(MulBits(q, [true] + poly), start, ShiftTimes(start, poly, |poly|));
  }

  lemma BchCodeword(dat: Bits, poly: Bits)
    requires 0 < |dat| <= |poly|
    ensures IsCodeword(dat + ShiftTimes(Falses(|poly| - |dat|) + dat, poly, |poly|), poly)
  {
    hide ShiftTimes, MulBits, Falses;
    var pad := Falses(|poly| - |dat|);
    var q := StartDivides(pad + dat, poly);
    var rem := ShiftTimes(pad + dat, poly, |poly|);
    Associates(pad, dat, rem);
    assert IsMultiple(q, |poly| - |dat|, dat + rem, poly);
  }

  // ---- format information ----

  // 0x537, x^10 implied
  const FORMAT_POLY: Bits := [false, true, false, false, true, true, false, true, true, true]

  // 0x5412
  const FORMAT_MASK: Bits := [
    true, false, true, false, true, false, false, false, false, false, true, false, false, true, false]

  // 0x1f25, x^12 implied
  const VERSION_POLY: Bits := [true, true, true, true, false, false, true, false, false, true, false, true]

  function LevelNumber(ecl: Level): nat {
    if ecl.L? then 1 else 0
  }

  function FormatData(ecl: Level, mask: nat): Bits {
    ToBits(LevelNumber(ecl) * 8 + mask, 5)
  }

  function FormatWord(ecl: Level, mask: nat): (w: Bits)
    ensures |w| == 15
  {
    var dat := FormatData(ecl, mask);
    XorBits(dat + ShiftTimes(Falses(5) + dat, FORMAT_POLY, 10), FORMAT_MASK)
  }

  function VersionWord(ver: nat): (w: Bits)
    ensures |w| == 18
  {
    var dat := ToBits(ver, 6);
    dat + ShiftTimes(Falses(6) + dat, VERSION_POLY, 12)
  }

  method ComputeFormatWord(ecl: Level, mask: nat) returns (w: Bits)
    requires mask < 8
    ensures w == FormatWord(ecl, mask)
  {
    var dat := FormatData(ecl, mask);
    var rem := Falses(5) + dat;
    for i := 0 to 10
      invariant |rem| == 10 && rem == ShiftTimes(Falses(5) + dat, FORMAT_POLY, i)
    {
      rem := Shift(rem, FORMAT_POLY);
    }
    w := XorBits(dat + rem, FORMAT_MASK);
  }

  method ComputeVersionWord(ver: nat) returns (w: Bits)
    ensures w == VersionWord(ver)
  {
    var dat := ToBits(ver, 6);
    var rem := Falses(6) + dat;
    for i := 0 to 12
      invariant |rem| == 12 && rem == ShiftTimes(Falses(6) + dat, VERSION_POLY, i)
    {
      rem := Shift(rem, VERSION_POLY);
    }
    w := dat + rem;
  }

  // The reader of section 7.9: remove the mask pattern, take level and mask number.
  function ReadFormat(w: Bits): Option<(Level, nat)>
    requires |w| == 15
  {
    var dat := XorBits(w, FORMAT_MASK)[..5];
    var n := FromBits(dat);
    if n < 8 then Some((M, n)) else if n < 16 then Some((L, n - 8)) else None
  }

  lemma FormatRoundTrip(ecl: Level, mask: nat)
    requires mask < 8
    ensures ReadFormat(FormatWord(ecl, mask)) == Some((ecl, mask))
  {
    hide ShiftTimes;
    var dat := FormatData(ecl, mask);
    var word := dat + ShiftTimes(Falses(5) + dat, FORMAT_POLY, 10);
    assert XorBits(XorBits(word, FORMAT_MASK), FORMAT_MASK) == word;
    assert word[..5] == dat;
    assert Pow2(5) == 32;
    BitsRoundTrip(LevelNumber(ecl) * 8 + mask, 5);
  }

  // Both words are protected as the standard prescribes.
  lemma WordsAreProtected(ecl: Level, mask: nat, ver: nat)
    requires mask < 8
    ensures IsCodeword(XorBits(FormatWord(ecl, mask), FORMAT_MASK), FORMAT_POLY)
    ensures IsCodeword(VersionWord(ver), VERSION_POLY)
  {
    hide ShiftTimes, IsCodeword;
    var dat := FormatData(ecl, mask);
    var word := dat + ShiftTimes(Falses(5) + dat, FORMAT_POLY, 10);
    assert XorBits(XorBits(word, FORMAT_MASK), FORMAT_MASK) == word;
    BchCodeword(dat, FORMAT_POLY);
    BchCodeword(ToBits(ver, 6), VERSION_POLY);
  }
}
