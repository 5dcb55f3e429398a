/** Products and quotients of variables, for block and index arithmetic. */
module Division {

  // Numbers below this fit in 32 bits
  const UINT32 := 0x1_0000_0000

  lemma NonNegative(b: int, bs: int)
    requires b >= 0 && bs >= 0
    ensures b * bs >= 0
  {
  }

  lemma BlocksApart(bs: int, a: int, b: int)
    requires bs > 0 && a < b
    ensures a * bs + bs <= b * bs
  {
    var k := b - a - 1;
    NonNegative(k, bs);
    assert b * bs == (a + 1 + k) * bs == a * bs + bs + k * bs;
  }

  lemma Locate(bs: int, i: int, r: int)
    requires bs > 0 && i >= 0 && 0 <= r < bs
    ensures (i * bs + r) / bs == i && (i * bs + r) % bs == r && i * bs + r >= 0
  {
    NonNegative(i, bs);
    var p := i * bs + r;
    var q, m := p / bs, p % bs;
    assert p == q * bs + m;
    if q < i {
      BlocksApart(bs, q, i);
    } else if i < q {
      BlocksApart(bs, i, q);
    }
  }

  lemma Quotient(x: int, n: int)
    requires n > 0
    ensures x == x / n * n + x % n && 0 <= x % n < n
  {
  }

  /** Whole multiples of n drop out of the remainder. */
  lemma Multiples(q: int, n: int, f: int)
    requires q >= 0 && n > 0 && f >= 0
    ensures (q * n + f) % n == f % n && (q * n + f) / n == q + f / n
  {
    var k := f / n;
    assert f == k * n + f % n;
    Locate(n, q + k, f % n);
    assert (q + k) * n == q * n + k * n;
  }
}
