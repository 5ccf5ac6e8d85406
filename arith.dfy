/** Integer facts shared by the index computations of every kernel. */
module Arith {

  /** 2^m */
  function Pow2(m: nat): (r: nat)
    ensures r >= 1
  {
    if m == 0 then 1 else 2 * Pow2(m - 1)
  }

  /** n is a power of two (1, 2, 4, ...). */
  predicate IsPow2(n: nat)
    decreases n
  {
    n == 1 || (n > 1 && n % 2 == 0 && IsPow2(n / 2))
  }

  /** The exponent of a power of two. */
  function Log2(n: nat): (m: nat)
    requires IsPow2(n)
    ensures Pow2(m) == n
    decreases n
  {
    if n == 1 then 0 else 1 + Log2(n / 2)
  }

  lemma {:induction false} Pow2IsPow2(m: nat)
    ensures IsPow2(Pow2(m))
  {
    if m > 0 {
      Pow2IsPow2(m - 1);
      assert Pow2(m) / 2 == Pow2(m - 1);
    }
  }

  /** Log2 undoes Pow2. */
  lemma {:induction false} Log2Of(m: nat)
    ensures IsPow2(Pow2(m)) && Log2(Pow2(m)) == m
  {
    Pow2IsPow2(m);
    if m > 0 {
      Log2Of(m - 1);
      assert Pow2(m) / 2 == Pow2(m - 1);
    }
  }

  lemma {:induction false} Pow2Add(a: nat, b: nat)
    ensures Pow2(a + b) == Pow2(a) * Pow2(b)
  {
    if a > 0 {
      Pow2Add(a - 1, b);
      assert Pow2(a + b) == 2 * Pow2(a - 1 + b);
    }
  }

  lemma {:induction false} Pow2Monotone(a: nat, b: nat)
    requires a <= b
    ensures Pow2(a) <= Pow2(b)
  {
    if a < b {
      Pow2Monotone(a, b - 1);
    }
  }

  /** Division of a power of two by a smaller one. */
  lemma Pow2Div(a: nat, b: nat)
    requires a <= b
    ensures Pow2(b) / Pow2(a) == Pow2(b - a)
    ensures Pow2(b) % Pow2(a) == 0
  {
    Pow2Add(a, b - a);
    assert Pow2(b) == Pow2(b - a) * Pow2(a);
    DivModOf(Pow2(b), Pow2(a), Pow2(b - a), 0);
  }

  /** q*m + r determines q and r when the remainders are below m. */
  lemma MulAddUnique(q1: int, r1: int, q2: int, r2: int, m: int)
    requires m > 0 && 0 <= r1 < m && 0 <= r2 < m
    requires q1 * m + r1 == q2 * m + r2
    ensures q1 == q2 && r1 == r2
  {
    var d := q1 - q2;
    assert d * m == q1 * m - q2 * m;
    MulAwayFromZero(d, m);
  }

  /** A nonzero multiple of m is at least m in magnitude. */
  lemma MulAwayFromZero(d: int, m: int)
    requires m > 0
    ensures d == 0 || d * m >= m || d * m <= -m
  {
    if d > 0 {
      MulGe(d, m);
    } else if d < 0 {
      MulGe(-d, m);
      assert (-d) * m == -(d * m);
    }
  }

  lemma MulGe(a: int, m: int)
    requires a >= 1 && m > 0
    ensures a * m >= m
  {
  }

  /** Euclidean division recovered from a decomposition. */
  lemma DivModOf(x: int, m: int, q: int, r: int)
    requires m > 0 && 0 <= r < m && x == q * m + r
    ensures x / m == q && x % m == r
  {
    MulAddUnique(x / m, x % m, q, r, m);
  }

  /** q*m + r < t*m whenever q < t and r < m. */
  lemma MulAddBound(q: int, r: int, t: int, m: int)
    requires m > 0 && 0 <= q < t && 0 <= r < m
    ensures q * m + r < t * m
  {
    assert t * m == q * m + (t - q) * m;
    MulGe(t - q, m);
  }
}
