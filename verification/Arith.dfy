/** Division and remainder facts used by the hash map and the clock arithmetic. */
module Arith {
  lemma MulPositive(a: nat, b: nat)
    ensures a * b >= 0 && (a > 0 && b > 0 ==> a * b > 0)
  {}

  lemma Apart(x: int, y: int, n: nat)
    requires x < y
    ensures x * n + n <= y * n
  {
    var d: nat := y - x - 1;
    MulPositive(d, n);
    assert (x + 1 + d) * n == x * n + n + d * n;
  }

  /** Quotient and remainder are unique. */
  lemma DivOf(a: int, n: nat, q: int, r: int)
    requires n > 0 && a == q * n + r && 0 <= r < n
    ensures a / n == q && a % n == r
  {
    var p := a / n;
    if p < q { Apart(p, q, n); } else if q < p { Apart(q, p, n); }
  }

  lemma DivShift(a: int, n: nat, z: int)
    requires n > 0
    ensures (a + n * z) / n == a / n + z && (a + n * z) % n == a % n
  {
    assert (a / n + z) * n == a / n * n + n * z;
    DivOf(a + n * z, n, a / n + z, a % n);
  }

  /** Division in two stages. */
  lemma DivDiv(a: int, m: nat, n: nat)
    requires m > 0 && n > 0
    ensures m * n > 0 && a / m / n == a / (m * n)
    ensures a / m % n == a % (m * n) / m
  {
    MulPositive(m, n);
    var q, r := a / (m * n), a % (m * n);
    assert a == q * (m * n) + r;
    assert m * n * q == q * (m * n) == m * (n * q);
    DivShift(r, m, n * q);
    assert r / m < n by {
      if r / m >= n { Apart(n - 1, r / m, m); }
    }
    DivOf(a / m, n, q, r / m);
  }

  lemma ModNext(a: nat, n: nat)
    requires n > 0
    ensures (a % n + 1) % n == (a + 1) % n
  {
    var q, r := a / n, a % n;
    if r + 1 == n {
      assert a + 1 == (q + 1) * n + 0;
      DivOf(a + 1, n, q + 1, 0);
      DivOf(n, n, 1, 0);
    } else {
      DivOf(a + 1, n, q, r + 1);
      DivOf(r + 1, n, 0, r + 1);
    }
  }

  lemma WrapNext(i: nat, n: nat)
    requires i < n
    ensures (i + 1) % n == if i + 1 == n then 0 else i + 1
  {
    if i + 1 == n { DivOf(n, n, 1, 0); } else { DivOf(i + 1, n, 0, i + 1); }
  }

  /** Dividing by a in two stages, whole blocks of m * a first. */
  lemma SplitDiv(t: nat, a: nat, m: nat)
    requires a > 0 && m > 0
    ensures m * a > 0 && t % (m * a) / a + m * (t / (m * a)) == t / a
  {
    MulPositive(m, a);
    var q, r := t / (m * a), t % (m * a);
    assert q * (m * a) == (m * q) * a;
    assert t == (m * q + r / a) * a + r % a;
    DivOf(t, a, m * q + r / a, r % a);
  }

  lemma DivLe(t: nat, a: nat)
    requires a > 0
    ensures 0 <= t / a <= t
  {
    MulPositive(t / a, a - 1);
    assert t / a * a == t / a * (a - 1) + t / a;
  }
}
