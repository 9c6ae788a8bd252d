/** Remainders without non-linear terms: `Rem` is `%` by repeated subtraction. */
module Modular {
  lemma MulAtLeast(k: int, m: nat)
    requires 1 <= k
    ensures k * m >= m
  {
  }

  lemma MulMonotone(j: nat, k: nat, m: nat)
    requires j <= k
    ensures j * m <= k * m
  {
  }

  /** A truncated quotient reaches k exactly when the dividend reaches k * n. */
  lemma QuotientAtLeast(x: nat, n: nat, k: nat)
    requires 0 < n
    ensures k <= x / n <==> k * n <= x
  {
    var q := x / n;
    assert x == q * n + x % n;
    if k <= q {
      MulMonotone(k, q, n);
    } else {
      MulMonotone(q + 1, k, n);
      assert (q + 1) * n == q * n + n;
    }
  }

  lemma ModUnique(h: nat, m: nat, q: nat, r: nat)
    requires r < m
    requires h == q * m + r
    ensures h % m == r
  {
    var q', r' := h / m, h % m;
    var k := q - q';
    assert k * m == r' - r by { assert k * m == q * m - q' * m; }
    if k >= 1 {
      MulAtLeast(k, m);
    } else if k <= -1 {
      MulAtLeast(-k, m);
    }
    assert k == 0;
  }

  lemma ModSub(h: nat, m: nat)
    requires 0 < m <= h
    ensures (h - m) % m == h % m
  {
    var q, r := h / m, h % m;
    assert h == q * m + r;
    assert (q - 1) * m == q * m - m;
    assert q >= 1;
    ModUnique(h - m, m, q - 1, r);
  }

  /** The remainder by repeated subtraction. */
  function Rem(h: nat, m: nat): (r: nat)
    requires 0 < m
    ensures r < m
  {
    if h < m then h else Rem(h - m, m)
  }

  lemma {:induction false} RemIsMod(h: nat, m: nat)
    requires 0 < m
    ensures Rem(h, m) == h % m
  {
    if h >= m {
      ModSub(h, m);
      RemIsMod(h - m, m);
    }
  }

  /** Doubling the modulus either keeps the residue or moves it up by the old modulus. */
  lemma {:induction false} RemDouble(h: nat, m: nat, d: nat)
    requires 0 < m && d == 2 * m
    ensures Rem(h, d) == Rem(h, m) || Rem(h, d) == Rem(h, m) + m
    decreases h
  {
    if h >= d {
      RemDouble(h - d, m, d);
    }
  }
}
