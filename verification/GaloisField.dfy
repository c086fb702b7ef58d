// GF(256) arithmetic as used by the QR encoder: polynomials over GF(2)
// modulo x^8 + x^4 + x^3 + x^2 + 1 (0x11D).
module GaloisField {

  // A byte by its bits, most significant first: element k is (z >>> (7 - k)) & 1,
  // and the coefficient of x^(7-k) when the byte stands for a field element.
  type Byte = s: seq<bool> | |s| == 8 witness [false, false, false, false, false, false, false, false]

  const ZERO: Byte := [false, false, false, false, false, false, false, false]
  const ONE: Byte := [false, false, false, false, false, false, false, true]
  const TWO: Byte := [false, false, false, false, false, false, true, false]

  // 0x11D without its leading bit: x^8 = x^4 + x^3 + x^2 + 1.
  const REDUCTION: Byte := [false, false, false, true, true, true, false, true]

  // a ^ b, which is also addition in the field
  function Xor(a: Byte, b: Byte): (r: Byte)
    ensures forall k :: 0 <= k < 8 ==> r[k] == (a[k] != b[k])
  {
    seq(8, k requires 0 <= k < 8 => a[k] != b[k])
  }

  // b * x for a single bit b
  function Scale(b: bool, x: Byte): Byte {
    if b then x else ZERO
  }

  // (z << 1) ^ ((z >>> 7) * 0x11d): the product with x, reduced. The bit shifted
  // out is cancelled by the leading bit of 0x11d.
  function Double(z: Byte): Byte {
    Xor(z[1..] + [false], Scale(z[0], REDUCTION))
  }

  // Horner's rule over the n leading bits of y.
  function MulTop(x: Byte, y: Byte, n: nat): Byte
    requires n <= 8
  {
    if n == 0 then ZERO
    else Xor(Double(MulTop(x, y, n - 1)), Scale(y[n - 1], x))
  }

  function Mul(x: Byte, y: Byte): Byte {
    MulTop(x, y, |y|)
  }

  function Pow(x: Byte, n: nat): Byte {
    if n == 0 then ONE else Mul(Pow(x, n - 1), x)
  }

  method GfMul(x: Byte, y: Byte) returns (z: Byte)
    ensures z == Mul(x, y)
  {
    hide Xor, Double;
    z := ZERO;
    for i := 8 downto 0
      invariant z == MulTop(x, y, 8 - i)
    {
      z := Double(z);
      z := Xor(z, Scale(y[7 - i], x));
    }
  }

  // ---- xor ----

  lemma XorCommutes(a: Byte, b: Byte)
    ensures Xor(a, b) == Xor(b, a)
  {}

  lemma XorUnits(a: Byte)
    ensures Xor(a, ZERO) == a == Xor(ZERO, a)
    ensures Xor(a, a) == ZERO
  {}

  lemma XorCancels(a: Byte, b: Byte)
    ensures Xor(Xor(a, b), b) == a
    ensures Xor(a, b) == ZERO ==> a == b
  {}

  lemma XorSwap(a: Byte, b: Byte, c: Byte, d: Byte)
    ensures Xor(Xor(a, b), Xor(c, d)) == Xor(Xor(a, c), Xor(b, d))
  {}

  // ---- multiplication is linear in each argument ----

  lemma ScaleXor(t: bool, a: Byte, b: Byte)
    ensures Scale(t, Xor(a, b)) == Xor(Scale(t, a), Scale(t, b))
  {}

  lemma XorScale(s: bool, t: bool, a: Byte)
    ensures Scale(s != t, a) == Xor(Scale(s, a), Scale(t, a))
  {}

  lemma DoubleXor(a: Byte, b: Byte)
    ensures Double(Xor(a, b)) == Xor(Double(a), Double(b))
  {
    XorScale(a[0], b[0], REDUCTION);
    XorSwap(a[1..] + [false], Scale(a[0], REDUCTION), b[1..] + [false], Scale(b[0], REDUCTION));
    assert Xor(a, b)[1..] + [false] == Xor(a[1..] + [false], b[1..] + [false]);
  }

  lemma DoubleScale(t: bool, a: Byte)
    ensures Double(Scale(t, a)) == Scale(t, Double(a))
  {
    assert ZERO[1..] + [false] == ZERO;
    XorUnits(ZERO);
  }

  lemma {:induction false} MulTopXorLeft(a: Byte, b: Byte, y: Byte, n: nat)
    requires n <= 8
    ensures MulTop(Xor(a, b), y, n) == Xor(MulTop(a, y, n), MulTop(b, y, n))
  {
    hide Xor, Double;
    if n > 0 {
      MulTopXorLeft(a, b, y, n - 1);
      var p, q := MulTop(a, y, n - 1), MulTop(b, y, n - 1);
      DoubleXor(p, q);
      ScaleXor(y[n - 1], a, b);
      XorSwap(Double(p), Double(q), Scale(y[n - 1], a), Scale(y[n - 1], b));
    } else {
      XorUnits(ZERO);
    }
  }

  lemma {:induction false} MulTopXorRight(x: Byte, a: Byte, b: Byte, n: nat)
    requires n <= 8
    ensures MulTop(x, Xor(a, b), n) == Xor(MulTop(x, a, n), MulTop(x, b, n))
  {
    hide Xor, Double;
    if n > 0 {
      MulTopXorRight(x, a, b, n - 1);
      var p, q := MulTop(x, a, n - 1), MulTop(x, b, n - 1);
      DoubleXor(p, q);
      XorScale(a[n - 1], b[n - 1], x);
      XorSwap(Double(p), Double(q), Scale(a[n - 1], x), Scale(b[n - 1], x));
    } else {
      XorUnits(ZERO);
    }
  }

  lemma {:induction false} MulTopDoubleLeft(x: Byte, y: Byte, n: nat)
    requires n <= 8
    ensures MulTop(Double(x), y, n) == Double(MulTop(x, y, n))
  {
    hide Xor, Double;
    if n > 0 {
      MulTopDoubleLeft(x, y, n - 1);
      DoubleScale(y[n - 1], x);
      DoubleXor(Double(MulTop(x, y, n - 1)), Scale(y[n - 1], x));
    } else {
      DoubleScale(false, x);
    }
  }

  // ---- the ring laws ----

  lemma {:induction false} OneTimesTop(y: Byte, n: nat)
    requires n <= 8
    ensures forall k :: 0 <= k < 8 ==> MulTop(ONE, y, n)[k] == (8 - n <= k && y[k - (8 - n)])
  {
    if n > 0 {
      OneTimesTop(y, n - 1);
      var m := MulTop(ONE, y, n - 1);
      assert Scale(m[0], REDUCTION) == ZERO;
      XorUnits(m[1..] + [false]);
      forall k | 0 <= k < 8
        ensures MulTop(ONE, y, n)[k] == (8 - n <= k && y[k - (8 - n)])
      {
        assert Double(m)[k] == if k < 7 then m[k + 1] else false;
      }
    }
  }

  lemma OneTimes(y: Byte)
    ensures Mul(ONE, y) == y
  {
    OneTimesTop(y, 8);
  }

  lemma {:induction false} ZeroTimes(y: Byte, n: nat)
    requires n <= 8
    ensures MulTop(ZERO, y, n) == ZERO
  {
    hide Xor, Double;
    if n > 0 {
      ZeroTimes(y, n - 1);
      DoubleScale(false, y);
      XorUnits(ZERO);
    }
  }

  // Horner's rule may run over either factor.
  lemma {:induction false} SwapTop(x: Byte, y: Byte, n: nat)
    requires n <= 8
    ensures Mul(MulTop(ONE, x, n), y) == MulTop(y, x, n)
  {
    hide Xor, Double;
    ZeroTimes(y, 8);
    if n > 0 {
      SwapTop(x, y, n - 1);
      var m := MulTop(ONE, x, n - 1);
      MulTopXorLeft(Double(m), Scale(x[n - 1], ONE), y, 8);
      MulTopDoubleLeft(m, y, 8);
      OneTimes(y);
    }
  }

  lemma MulCommutes(x: Byte, y: Byte)
    ensures Mul(x, y) == Mul(y, x)
  {
    SwapTop(x, y, 8);
    OneTimes(x);
  }

  lemma MulUnits(x: Byte)
    ensures Mul(x, ONE) == x == Mul(ONE, x)
    ensures Mul(x, ZERO) == ZERO == Mul(ZERO, x)
  {
    OneTimes(x);
    ZeroTimes(x, 8);
    MulCommutes(x, ONE);
    MulCommutes(x, ZERO);
  }

  lemma MulDistributes(x: Byte, a: Byte, b: Byte)
    ensures Mul(x, Xor(a, b)) == Xor(Mul(x, a), Mul(x, b))
    ensures Mul(Xor(a, b), x) == Xor(Mul(a, x), Mul(b, x))
  {
    MulTopXorRight(x, a, b, 8);
    MulTopXorLeft(a, b, x, 8);
  }

  lemma HornerStepRight(a: Byte, m: Byte, t: bool, b: Byte)
    ensures Mul(a, Xor(Double(m), Scale(t, b))) == Xor(Double(Mul(a, m)), Scale(t, Mul(a, b)))
  {
    hide Xor, Double;
    MulDistributes(a, Double(m), Scale(t, b));
    MulCommutes(a, Double(m));
    MulTopDoubleLeft(m, a, 8);
    MulCommutes(a, m);
    MulUnits(a);
  }

  lemma {:induction false} AssociatesTop(a: Byte, b: Byte, c: Byte, n: nat)
    requires n <= 8
    ensures MulTop(Mul(a, b), c, n) == Mul(a, MulTop(b, c, n))
  {
    hide Xor, Double;
    if n > 0 {
      AssociatesTop(a, b, c, n - 1);
      HornerStepRight(a, MulTop(b, c, n - 1), c[n - 1], b);
    } else {
      MulUnits(a);
    }
  }

  lemma MulAssociates(a: Byte, b: Byte, c: Byte)
    ensures Mul(Mul(a, b), c) == Mul(a, Mul(b, c))
  {
    AssociatesTop(a, b, c, 8);
  }

  // The byte 0x02 acts as x. With the ring laws above this fixes Mul as the
  // product of polynomials modulo 0x11D.
  lemma MulByX(z: Byte)
    ensures Mul(TWO, z) == Double(z) == Mul(z, TWO)
  {
    assert Double(ONE) == TWO by {
      XorUnits(TWO);
      assert ONE[1..] + [false] == TWO;
    }
    MulTopDoubleLeft(ONE, z, 8);
    OneTimes(z);
    MulCommutes(TWO, z);
  }
}
