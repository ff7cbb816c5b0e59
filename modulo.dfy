/** Facts about `%` with a positive modulus, where Dafny's Euclidean remainder
    agrees with Python's: the wrap-around of `(cpt + 1) % len(keys)`. */
module Modulo {

  lemma MulBound(k: int, n: int)
    requires n > 0 && -n < k * n < n
    ensures k == 0
  {
  }

  /** The remainder is determined by any decomposition `z == q * n + r` with `0 <= r < n`. */
  lemma ModUnique(z: int, q: int, r: int, n: int)
    requires n > 0 && 0 <= r < n && z == q * n + r
    ensures z % n == r
  {
    var d := z / n;
    assert z == d * n + z % n;
    assert (q - d) * n == q * n - d * n;
    MulBound(q - d, n);
  }

  /** Python's `c % n` for `c` within one turn of `[0, n)`: add or subtract `n` once. */
  lemma ModNear(c: int, n: int)
    requires n > 0 && -n <= c < 2 * n
    ensures c % n == if c < 0 then c + n else if c >= n then c - n else c
  {
    if c < 0 {
      ModUnique(c, -1, c + n, n);
    } else if c >= n {
      ModUnique(c, 1, c - n, n);
    } else {
      ModUnique(c, 0, c, n);
    }
  }

  /** A step forward and a step back cancel modulo `n`, in either order. */
  lemma ModBack(x: int, n: int)
    requires 0 <= x < n
    ensures ((x + 1) % n - 1) % n == x && ((x - 1) % n + 1) % n == x
  {
    ModNear(x + 1, n);
    ModNear(x - 1, n);
    ModNear((x + 1) % n - 1, n);
    ModNear((x - 1) % n + 1, n);
  }

  /** One step of one or minus one really moves when there are at least two positions. */
  lemma ModMoves(x: int, step: int, n: int)
    requires 0 <= x < n && n >= 2 && (step == 1 || step == -1)
    ensures (x + step) % n != x
  {
    if x + step == n {
      ModUnique(x + step, 1, 0, n);
    } else if x + step == -1 {
      ModUnique(x + step, -1, n - 1, n);
    } else {
      ModUnique(x + step, 0, x + step, n);
    }
  }

  /** Taking the remainder first does not change the remainder of a later sum. */
  lemma ModAddLeft(a: int, m: int, n: int)
    requires n > 0
    ensures (a % n + m) % n == (a + m) % n
  {
    var q, r := (a % n + m) / n, (a % n + m) % n;
    assert a % n + m == q * n + r;
    assert a == (a / n) * n + a % n;
    assert a + m == (a / n + q) * n + r by {
      assert (a / n + q) * n == (a / n) * n + q * n;
    }
    ModUnique(a + m, a / n + q, r, n);
  }
}
