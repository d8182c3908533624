/** Facts about Euclidean division and remainder that the modular models rely on. */
module Arith {

  function Pow2(n: nat): (r: nat)
    ensures r >= 1
  {
    if n == 0 then 1 else 2 * Pow2(n - 1)
  }

  /** Quotient and remainder are the only ones with `x == q * m + r` and `0 <= r < m`. */
  lemma DivModUnique(x: int, m: int, q: int, r: int)
    requires m > 0 && 0 <= r < m && x == q * m + r
    ensures x / m == q && x % m == r
  {
    var q0, r0 := x / m, x % m;
    assert q * m + r == q0 * m + r0;
    if q > q0 {
      MulMonotone(q - q0, m);
      assert false;
    } else if q < q0 {
      MulMonotone(q0 - q, m);
      assert false;
    }
  }

  lemma MulMonotone(k: int, m: int)
    requires k >= 1 && m > 0
    ensures k * m >= m
  {
    if k > 1 {
      MulMonotone(k - 1, m);
      assert k * m == (k - 1) * m + m;
    }
  }

  lemma ModAddMultiple(k: int, z: int, m: int)
    requires m > 0
    ensures (k * m + z) % m == z % m
  {
    assert k * m + z == (k + z / m) * m + z % m;
    DivModUnique(k * m + z, m, k + z / m, z % m);
  }

  /** Reducing by a multiple of `m` first does not change the remainder by `m`. */
  lemma ModOfMod(x: int, m: int, k: int)
    requires m > 0 && k > 0
    ensures (x % (m * k)) % m == x % m
  {
    var n := m * k;
    assert x == (x / n) * k * m + x % n;
    ModAddMultiple((x / n) * k, x % n, m);
  }

  lemma ModMulLeft(a: int, b: int, m: int)
    requires m > 0
    ensures ((a % m) * b) % m == (a * b) % m
  {
    assert a * b == ((a / m) * b) * m + (a % m) * b;
    ModAddMultiple((a / m) * b, (a % m) * b, m);
  }

  /** Reducing an addend first does not change the residue of a sum. */
  lemma ModAddResidue(a: int, b: int, m: int)
    requires m > 0
    ensures (a + b % m) % m == (a + b) % m
  {
    assert a + b == (b / m) * m + (a + b % m);
    ModAddMultiple(b / m, a + b % m, m);
  }

  lemma ModAdd(a: int, b: int, m: int)
    requires m > 0
    ensures (a + b) % m == (a % m + b % m) % m
  {
    assert a + b == (a / m + b / m) * m + (a % m + b % m);
    ModAddMultiple(a / m + b / m, a % m + b % m, m);
  }

  /** Splitting a remainder by `d * p` into the low digit in base `d` and the remainder of the quotient by `p`. */
  lemma ModProduct(n: nat, d: nat, p: nat)
    requires d > 0 && p > 0
    ensures n % (d * p) == d * ((n / d) % p) + n % d
  {
    var q := (n / d) / p;
    var low := (n / d) % p;
    var r := d * low + n % d;
    assert n / d == q * p + low;
    assert n == q * (d * p) + r by {
      assert n == d * (n / d) + n % d;
    }
    assert r < d * p by {
      assert low <= p - 1;
      assert d * low <= d * (p - 1);
    }
    DivModUnique(n, d * p, q, r);
  }

  lemma {:induction false} Pow2Add(a: nat, b: nat)
    ensures Pow2(a + b) == Pow2(a) * Pow2(b)
  {
    if a > 0 {
      Pow2Add(a - 1, b);
    }
  }
}
