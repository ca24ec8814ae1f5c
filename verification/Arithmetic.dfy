/** Powers of two, quotients and remainders. */
module Arithmetic {

  function Pow2(n: nat): (p: nat)
    ensures p >= 1
  {
    if n == 0 then 1 else 2 * Pow2(n - 1)
  }

  lemma {:induction false} Pow2Splits(a: nat, b: nat)
    ensures Pow2(a + b) == Pow2(a) * Pow2(b)
  {
    if a == 0 { } else { Pow2Splits(a - 1, b); assert a + b - 1 == a - 1 + b; }
  }

  lemma Pow2Of32()
    ensures Pow2(32) == 0x1_0000_0000
  {
    assert Pow2(8) == 256;
    Pow2Splits(8, 8);
    Pow2Splits(16, 16);
  }

  lemma MultipleIsFar(p: int, k: int)
    requires p > 0 && k != 0
    ensures p * k >= p || p * k <= -p
  {
  }

  lemma ModOfProduct(x: int, p: nat, q: nat)
    requires p > 0 && q > 0
    ensures p * q > 0 && (x % (p * q)) % p == x % p
  {
    var m := p * q;
    var d, r := x / m, x % m;
    assert x == m * d + r;
    assert m * d == p * (q * d);
    var e, f := r / p, r % p;
    assert r == p * e + f;
    assert x == p * (q * d + e) + f by {
      assert p * (q * d) + p * e == p * (q * d + e);
    }
    ModUnique(x, p, q * d + e, f);
  }

  lemma ModUnique(x: int, p: int, d: int, r: int)
    requires p > 0 && x == p * d + r && 0 <= r < p
    ensures x % p == r
  {
    var e, s := x / p, x % p;
    assert p * (d - e) == s - r;
    if d != e { MultipleIsFar(p, d - e); }
  }

  lemma Mult(a: int, b: int, k: int)
    requires a <= b && k >= 0
    ensures a * k <= b * k
    decreases b - a
  {
    if a < b {
      Mult(a, b - 1, k);
      assert b * k == (b - 1) * k + k;
    }
  }

  lemma {:induction false} DivAdd(q: nat, r: nat, k: nat)
    requires r < k
    ensures (q * k + r) / k == q && (q * k + r) % k == r
  {
    var x := q * k + r;
    var q', r' := x / k, x % k;
    assert x == q' * k + r';
    if q < q' { Mult(q + 1, q', k); }
    if q' < q { Mult(q' + 1, q, k); }
  }

  /** The greatest multiple of `m` that is not above `x`. */
  function Floor(x: nat, m: nat): nat
    requires m > 0
  {
    x - x % m
  }
}
