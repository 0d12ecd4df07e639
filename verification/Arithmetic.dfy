/** The few facts about products and quotients that index arithmetic needs. */
module Arithmetic {

  lemma MulLe(a: int, b: int, c: nat)
    requires a <= b
    ensures a * c <= b * c
  {
  }

  lemma DivModUnique(k: int, n: int, q: int, r: int)
    requires n > 0 && 0 <= r < n && k == q * n + r
    ensures k / n == q && k % n == r
  {
    assert k == n * (k / n) + k % n;
    assert n * (k / n - q) == r - k % n;
    if k / n > q {
      MulLe(1, k / n - q, n);
    } else if k / n < q {
      MulLe(k / n - q, -1, n);
    }
  }

  /** Row and column of the k-th cell of a grid `w` wide. */
  lemma RowAndColumn(w: nat, h: nat, k: nat)
    requires k < w * h
    ensures w > 0 && k / w < h && k % w < w && k == k / w * w + k % w
  {
    if k / w >= h {
      MulLe(h, k / w, w);
    }
  }

  lemma RowInRange(w: nat, h: nat, k: nat)
    requires k < w * h
    ensures w > 0 && 0 <= k / w < h && 0 <= k % w < w
  {
    RowAndColumn(w, h, k);
  }
}
