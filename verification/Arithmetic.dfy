// Products and quotients that the solver needs help with, minimum and maximum.
module Arithmetic {
  lemma MulNext(a: int, b: int)
    ensures (a + 1) * b == a * b + b
  {}

  lemma MulSign(a: int, b: nat)
    ensures 0 <= a ==> 0 <= a * b
    ensures 1 <= a ==> b <= a * b
    ensures a <= -1 ==> a * b + b <= 0
  {
    if 1 <= a {
      assert a * b == b + (a - 1) * b;
    } else if a <= -1 {
      assert a * b + b == (a + 1) * b;
    }
  }

  lemma MulBelow(i: nat, n: nat, b: nat)
    requires i < n
    ensures i * b + b <= n * b
  {
    MulSign(n - i - 1, b);
    assert (n - i - 1) * b == n * b - i * b - b;
  }

  lemma DivModUnique(q: int, r: nat, d: nat)
    requires r < d
    ensures (q * d + r) / d == q && (q * d + r) % d == r
  {
    var n := q * d + r;
    assert n == (n / d) * d + n % d;
    var gap: int := q - n / d;
    assert gap * d == n % d - r;
    MulSign(gap, d);
  }

  lemma DivModParts(k: nat, d: nat)
    requires 0 < d
    ensures k == (k / d) * d + k % d && 0 <= k % d < d && 0 <= k / d
  {}

  lemma DivBelow(k: nat, n: nat, d: nat)
    requires 0 < d && k < n * d
    ensures k / d < n
  {
    assert k == (k / d) * d + k % d;
    var gap: int := k / d - n;
    assert gap * d == k - k % d - n * d;
    MulSign(gap, d);
  }

  function Min(a: int, b: int): int {
    if a < b then a else b
  }

  function Max(a: int, b: int): int {
    if a < b then b else a
  }
}
