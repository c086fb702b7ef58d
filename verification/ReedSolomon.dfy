// Reed-Solomon error correction over GF(256): polynomials as coefficient lists,
// highest order first, as the QR encoder stores them.
module ReedSolomon {
  import opened GaloisField

  type Poly = seq<Byte>

  // ---- specification ----

  function Zeros(n: nat): Poly {
    seq(n, i => ZERO)
  }

  // The value of p at x.
  function Eval(p: Poly, x: Byte): Byte {
    if p == [] then ZERO
    else Xor(Mul(Eval(p[..|p| - 1], x), x), p[|p| - 1])
  }

  function ScalePoly(g: Poly, f: Byte): (r: Poly)
    ensures |r| == |g|
  {
    seq(|g|, i requires 0 <= i < |g| => Mul(g[i], f))
  }

  // p + g, aligned at the constant terms.
  function AddLow(p: Poly, g: Poly): (r: Poly)
    requires |g| <= |p|
    ensures |r| == |p|
  {
    var d := |p| - |g|;
    seq(|p|, i requires 0 <= i < |p| => if i < d then p[i] else Xor(p[i], g[i - d]))
  }

  // The product of two polynomials.
  function MulPoly(q: Poly, g: Poly): (r: Poly)
    requires g != []
    ensures |r| == |q| + |g| - 1
  {
    if q == [] then Zeros(|g| - 1)
    else AddLow(MulPoly(q[..|q| - 1], g) + [ZERO], ScalePoly(g, q[|q| - 1]))
  }

  // (x - a^0)(x - a^1)...(x - a^(n-1)) for a = 0x02
  function Generator(n: nat): (g: Poly)
    ensures |g| == n + 1
  {
    if n == 0 then [ONE] else MulPoly(Generator(n - 1), [ONE, Pow(TWO, n - 1)])
  }

  // A codeword block is valid when the generator polynomial divides it.
  ghost predicate Divides(g: Poly, p: Poly)
    requires g != []
  {
    exists q: Poly :: MulPoly(q, g) == p
  }

  // ---- the encoder's two loops ----

  method ComputeDivisor(degree: nat) returns (divisor: Poly)
    ensures |divisor| == degree
    ensures [ONE] + divisor == Generator(degree)
  {
    hide Xor, Mul;
    var result := new Byte[degree](i => ZERO);
    if degree > 0 {
      result[degree - 1] := ONE;
    }
    GeneratorStart(result[..]);
    var root := ONE;
    for i := 0 to degree
      invariant root == Pow(TWO, i)
      invariant IsPadded(result[..], Generator(i))
    {
      GeneratorStep(result[..], i);
      TimesLinear(result, root);
      root := GfMul(root, TWO);
    }
    divisor := result[..];
    GeneratorMonic(degree);
    DropLeading(divisor, Generator(degree));
  }

  lemma GeneratorStart(s: Poly)
    requires forall j :: 0 <= j < |s| ==> s[j] == if j == |s| - 1 then ONE else ZERO
    ensures IsPadded(s, Generator(0))
  {}

  lemma GeneratorStep(s: Poly, i: nat)
    requires IsPadded(s, Generator(i))
    ensures IsPadded(ShiftAndScale(s, Pow(TWO, i)), Generator(i + 1))
  {
    PaddedProduct(s, Generator(i), Pow(TWO, i));
  }

  lemma DropLeading(s: Poly, g: Poly)
    requires |g| == |s| + 1 && g[0] == ONE
    requires IsPadded(s, g)
    ensures [ONE] + s == g
  {
    forall j | 0 <= j < |s| ensures s[j] == g[j + 1] {
      assert s[j] == Padded(g, |s|, j);
    }
  }

  // The inner loop: multiply by root and add the old right-hand neighbour.
  method TimesLinear(result: array<Byte>, root: Byte)
    modifies result
    ensures result[..] == ShiftAndScale(old(result[..]), root)
  {
    hide Xor, Mul;
    ghost var before := result[..];
    for j := 0 to result.Length
      invariant forall k :: j <= k < result.Length ==> result[k] == before[k]
      invariant forall k :: 0 <= k < j ==> result[k] == ShiftAndScale(before, root)[k]
    {
      var product := GfMul(result[j], root);
      result[j] := product;
      if j + 1 < result.Length {
        result[j] := Xor(result[j], result[j + 1]);
      }
    }
  }

  function ShiftAndScale(s: Poly, root: Byte): (r: Poly)
    ensures |r| == |s|
  {
    seq(|s|, j requires 0 <= j < |s| =>
      if j + 1 < |s| then Xor(Mul(s[j], root), s[j + 1]) else Mul(s[j], root))
  }

  // s holds g in its low-order places (without the terms that do not fit).
  ghost predicate IsPadded(s: Poly, g: Poly) {
    forall j :: 0 <= j < |s| ==> s[j] == Padded(g, |s|, j)
  }

  lemma PaddedProduct(s: Poly, g: Poly, root: Byte)
    requires g != [] && IsPadded(s, g)
    ensures IsPadded(ShiftAndScale(s, root), MulPoly(g, [ONE, root]))
  {
    hide Xor, Mul;
    forall j | 0 <= j < |s|
      ensures ShiftAndScale(s, root)[j] == Padded(MulPoly(g, [ONE, root]), |s|, j)
    {
      PaddedStep(g, root, |s|, j);
    }
  }

  // Coefficient k of g, ZERO outside the list.
  function Coef(g: Poly, k: int): Byte {
    if 0 <= k < |g| then g[k] else ZERO
  }

  // Coefficient j of g once g is written into `width` low-order places.
  function Padded(g: Poly, width: nat, j: nat): Byte {
    Coef(g, j + |g| - width)
  }

  // Multiplying by (x + r): shift by one and add r times the old value.
  lemma {:induction false} LinearFactor(g: Poly, r: Byte, k: nat)
    requires k <= |g|
    ensures MulPoly(g, [ONE, r])[k] == Xor(Coef(g, k), Mul(Coef(g, k - 1), r))
  {
    hide Xor, Mul;
    if g == [] {
      MulUnits(r);
      XorUnits(ZERO);
    } else {
      var n := |g| - 1;
      var p := MulPoly(g[..n], [ONE, r]);
      var e := Mul(Coef(g, k - 1), r);
      assert MulPoly(g, [ONE, r]) == AddLow(p + [ZERO], ScalePoly([ONE, r], g[n]));
      AddShifted(p, g[n], r, k);
      XorUnits(e);
      if k <= n {
        LinearFactor(g[..n], r, k);
        assert Coef(g[..n], k - 1) == Coef(g, k - 1);
        XorCommutes(e, g[n]);
      }
    }
  }

  // p * x + f * (x + r), coefficient by coefficient.
  lemma AddShifted(p: Poly, f: Byte, r: Byte, k: nat)
    requires p != [] && k <= |p|
    ensures AddLow(p + [ZERO], ScalePoly([ONE, r], f))[k]
         == if k < |p| - 1 then p[k] else if k == |p| - 1 then Xor(p[k], f) else Mul(f, r)
  {
    hide Xor, Mul;
    var s := ScalePoly([ONE, r], f);
    var sum := AddLow(p + [ZERO], s);
    if k == |p| - 1 {
      assert sum[k] == Xor(p[k], s[0]);
      MulUnits(f);
    } else if k == |p| {
      assert sum[k] == Xor(ZERO, s[1]);
      XorUnits(s[1]);
      MulCommutes(r, f);
    }
  }

  lemma PaddedStep(g: Poly, r: Byte, width: nat, j: nat)
    requires j < width && g != []
    ensures Padded(MulPoly(g, [ONE, r]), width, j)
         == if j + 1 < width then Xor(Mul(Padded(g, width, j), r), Padded(g, width, j + 1))
            else Mul(Padded(g, width, j), r)
  {
    hide Xor, Mul;
    var k := j + |g| + 1 - width;
    if 0 <= k {
      LinearFactor(g, r, k);
      XorCommutes(Coef(g, k), Mul(Coef(g, k - 1), r));
      XorUnits(Mul(Coef(g, k - 1), r));
    } else {
      MulUnits(r);
      XorUnits(ZERO);
    }
  }

  lemma {:induction false} GeneratorMonic(n: nat)
    ensures Generator(n)[0] == ONE
  {
    hide Xor, Mul, Pow, MulPoly;
    if n > 0 {
      GeneratorMonic(n - 1);
      LinearFactor(Generator(n - 1), Pow(TWO, n - 1), 0);
      MulUnits(Pow(TWO, n - 1));
      XorUnits(ONE);
    }
  }

  method ComputeRemainder(data: Poly, divisor: Poly) returns (result: Poly)
    requires divisor != []
    ensures |result| == |divisor|
    ensures Divides([ONE] + divisor, data + result)
  {
    hide Xor, Mul;
    ghost var g := [ONE] + divisor;
    result := seq(|divisor|, i => ZERO);
    ghost var quotient: Poly := [];
    for n := 0 to |data|
      invariant |result| == |divisor|
      invariant |quotient| == n
      invariant MulPoly(quotient, g) == data[..n] + result
    {
      var b := data[n];
      var factor := Xor(b, result[0]);
      ghost var old' := result;
      result := result[1..];
      result := result + [ZERO];
      ghost var shifted := result;
      for i := 0 to |divisor|
        invariant |result| == |divisor|
        invariant forall k :: 0 <= k < i ==> result[k] == Xor(shifted[k], Mul(divisor[k], factor))
        invariant forall k :: i <= k < |divisor| ==> result[k] == shifted[k]
      {
        var product := GfMul(divisor[i], factor);
        result := result[i := Xor(result[i], product)];
      }
      DivisionStep(data[..n], old', b, divisor, result);
      assert data[..n + 1] == data[..n] + [b];
      assert (quotient + [factor])[..n] == quotient;
      quotient := quotient + [factor];
    }
    assert data[..|data|] == data;
  }

  // One step of long division: bringing down b and cancelling the leading term.
  lemma DivisionStep(done: Poly, rem: Poly, b: Byte, divisor: Poly, next: Poly)
    requires |rem| == |next| == |divisor| > 0
    requires var factor := Xor(b, rem[0]);
      forall k :: 0 <= k < |divisor| ==>
        next[k] == Xor((rem[1..] + [ZERO])[k], Mul(divisor[k], factor))
    ensures AddLow(done + rem + [ZERO], ScalePoly([ONE] + divisor, Xor(b, rem[0]))) == done + [b] + next
  {
    hide Xor, Mul;
    var factor := Xor(b, rem[0]);
    MulUnits(factor);
    XorCommutes(rem[0], factor);
    XorCancels(b, rem[0]);
    var left := AddLow(done + rem + [ZERO], ScalePoly([ONE] + divisor, factor));
    forall k | 0 <= k < |divisor|
      ensures left[|done| + 1 + k] == next[k]
    {
      assert (done + rem + [ZERO])[|done| + 1 + k] == (rem[1..] + [ZERO])[k];
      assert ScalePoly([ONE] + divisor, factor)[k + 1] == Mul(divisor[k], factor);
    }
    assert left[|done|] == b;
    assert left == done + [b] + next;
  }

  // ---- what divisibility gives ----

  lemma {:induction false} EvalScale(g: Poly, f: Byte, x: Byte)
    ensures Eval(ScalePoly(g, f), x) == Mul(f, Eval(g, x))
  {
    hide Xor, Mul;
    if g == [] {
      MulUnits(f);
    } else {
      var n := |g| - 1;
      EvalScale(g[..n], f, x);
      assert ScalePoly(g, f)[..n] == ScalePoly(g[..n], f);
      MulAssociates(f, Eval(g[..n], x), x);
      MulCommutes(f, g[n]);
      MulDistributes(f, Mul(Eval(g[..n], x), x), g[n]);
    }
  }

  lemma HornerAdd(a: Byte, b: Byte, x: Byte, c: Byte, d: Byte)
    ensures Xor(Mul(Xor(a, b), x), Xor(c, d)) == Xor(Xor(Mul(a, x), c), Xor(Mul(b, x), d))
  {
    hide Xor, Mul;
    MulDistributes(x, a, b);
    XorSwap(Mul(a, x), Mul(b, x), c, d);
  }

  lemma EvalAppend(p: Poly, c: Byte, x: Byte)
    ensures Eval(p + [c], x) == Xor(Mul(Eval(p, x), x), c)
  {
    hide Xor, Mul;
    assert (p + [c])[..|p|] == p;
  }

  lemma AddLowAppend(p: Poly, g: Poly, c: Byte, d: Byte)
    requires |g| <= |p|
    ensures AddLow(p + [c], g + [d]) == AddLow(p, g) + [Xor(c, d)]
  {}

  lemma {:induction false} EvalAddLow(p: Poly, g: Poly, x: Byte)
    requires |g| <= |p|
    ensures Eval(AddLow(p, g), x) == Xor(Eval(p, x), Eval(g, x))
  {
    hide Xor, Mul;
    if g == [] {
      assert AddLow(p, g) == p;
      XorUnits(Eval(p, x));
    } else {
      var p0, g0, c, d := p[..|p| - 1], g[..|g| - 1], p[|p| - 1], g[|g| - 1];
      EvalAddLow(p0, g0, x);
      HornerAdd(Eval(p0, x), Eval(g0, x), x, c, d);
      AddLowAppend(p0, g0, c, d);
      EvalAppend(AddLow(p0, g0), Xor(c, d), x);
      assert p == p0 + [c] && g == g0 + [d];
    }
  }

  lemma {:induction false} EvalZeros(n: nat, x: Byte)
    ensures Eval(Zeros(n), x) == ZERO
  {
    hide Xor, Mul;
    if n > 0 {
      EvalZeros(n - 1, x);
      assert Zeros(n)[..n - 1] == Zeros(n - 1);
      MulUnits(x);
      XorUnits(ZERO);
    }
  }

  // Evaluation is multiplicative.
  lemma {:induction false} EvalMulPoly(q: Poly, g: Poly, x: Byte)
    requires g != []
    ensures Eval(MulPoly(q, g), x) == Mul(Eval(q, x), Eval(g, x))
  {
    hide Xor, Mul;
    var v := Eval(g, x);
    if q == [] {
      EvalZeros(|g| - 1, x);
      MulUnits(v);
    } else {
      var n := |q| - 1;
      var f := q[n];
      var p := MulPoly(q[..n], g);
      EvalMulPoly(q[..n], g, x);
      EvalScale(g, f, x);
      EvalAddLow(p + [ZERO], ScalePoly(g, f), x);
      assert (p + [ZERO])[..|p|] == p;
      XorUnits(Mul(Eval(p, x), x));
      var e := Eval(q[..n], x);
      MulAssociates(e, v, x);
      MulCommutes(v, x);
      MulAssociates(e, x, v);
      MulDistributes(v, Mul(e, x), f);
    }
  }

  lemma LinearRoot(r: Byte)
    ensures Eval([ONE, r], r) == ZERO
  {
    hide Xor, Mul;
    assert [ONE, r][..1] == [ONE];
    assert Eval([], r) == ZERO;
    MulUnits(r);
    XorUnits(ONE);
    XorUnits(r);
  }

  lemma {:induction false} GeneratorRoots(n: nat, i: nat)
    requires i < n
    ensures Eval(Generator(n), Pow(TWO, i)) == ZERO
  {
    hide Xor, Mul;
    var x := Pow(TWO, i);
    var last := Eval([ONE, Pow(TWO, n - 1)], x);
    EvalMulPoly(Generator(n - 1), [ONE, Pow(TWO, n - 1)], x);
    if i == n - 1 {
      LinearRoot(x);
      MulUnits(Eval(Generator(n - 1), x));
    } else {
      GeneratorRoots(n - 1, i);
      MulUnits(last);
    }
  }

  // Every syndrome of a divisible block is zero.
  lemma SyndromesVanish(degree: nat, codeword: Poly, i: nat)
    requires Divides(Generator(degree), codeword)
    requires i < degree
    ensures Eval(codeword, Pow(TWO, i)) == ZERO
  {
    hide Xor, Mul;
    var q: Poly :| MulPoly(q, Generator(degree)) == codeword;
    EvalMulPoly(q, Generator(degree), Pow(TWO, i));
    GeneratorRoots(degree, i);
    MulUnits(Eval(q, Pow(TWO, i)));
  }
}
