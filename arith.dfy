/**
 * Integer facts shared by the stripe kernels: the flat buffer index
 * `(stripe - start_idx) * n_samples_r + k` and the wrap-around partner
 * `(k + stripe + 1) % n_samples`.
 */
module Arith {
  lemma MulLe(a: nat, b: nat, c: nat)
    requires b <= c
    ensures a * b <= a * c
  {
  }

  /** Euclidean division leaves a unique remainder. */
  lemma ModUnique(x: int, n: int, q: int, r: int)
    requires 0 <= r < n && x == q * n + r
    ensures x % n == r && x / n == q
  {
    var q', r' := x / n, x % n;
    assert x == q' * n + r';
    if q > q' {
      assert (q - q') * n >= 1 * n by { MulLe(n, 1, q - q'); }
      assert false;
    } else if q < q' {
      assert (q' - q) * n >= 1 * n by { MulLe(n, 1, q' - q); }
      assert false;
    }
  }

  /** Adding to a remainder and reducing again is reducing once. */
  lemma ModAdd(x: nat, d: nat, n: nat)
    requires n > 0
    ensures (x % n + d) % n == (x + d) % n
  {
    var y := x % n + d;
    ModUnique(x + d, n, x / n + y / n, y % n);
  }

  /** A position inside row `q` of a table with rows of length `n`. */
  lemma RowIndex(q: nat, k: nat, n: nat, rows: nat)
    requires q < rows && k < n
    ensures q * n + k < rows * n
  {
    MulLe(n, q + 1, rows);
  }

  /** Positions in different rows, or in one row at different columns, differ. */
  lemma RowIndexOrder(q: nat, k: nat, q': nat, k': nat, n: nat)
    requires k < n && k' < n
    ensures q < q' ==> q * n + k < q' * n + k'
    ensures q * n + k == q' * n + k' <==> q == q' && k == k'
  {
    if q < q' {
      MulLe(n, q + 1, q');
    } else if q' < q {
      MulLe(n, q' + 1, q);
    }
  }
}
