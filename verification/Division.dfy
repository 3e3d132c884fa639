/** Quotients and remainders. */
module Division {
  lemma DivMod(x: int, n: int, q: int, r: int)
    requires n > 0 && x == q * n + r && 0 <= r < n
    ensures x / n == q && x % n == r
  {
    var d := x / n - q;
    assert x == (x / n) * n + x % n;
    assert d * n == r - x % n;
    assert d >= 1 ==> d * n >= n;
    assert d <= -1 ==> d * n <= -n;
  }

  lemma DivShift(n: int, q: int, x: int)
    requires n > 0
    ensures (n * q + x) / n == q + x / n && (n * q + x) % n == x % n
  {
    assert n * q + x == (q + x / n) * n + x % n;
    DivMod(n * q + x, n, q + x / n, x % n);
  }

  /** One more: the remainder grows by one, or starts again. */
  lemma DivNext(x: int, n: int)
    requires n > 1
    ensures (x + 1) % n == (if x % n == n - 1 then 0 else x % n + 1)
    ensures (x + 1) / n == x / n + (if x % n == n - 1 then 1 else 0)
  {
    var q, r := x / n, x % n;
    assert x == q * n + r;
    if r + 1 == n {
      assert x + 1 == (q + 1) * n;
      DivMod(x + 1, n, q + 1, 0);
    } else {
      DivMod(x + 1, n, q, r + 1);
    }
  }
}
