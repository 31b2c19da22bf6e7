/** Facts about remainders. */
module Arithmetic {

  lemma ModUnique(n: nat, m: nat, q: int, r: nat)
    requires r < m && n == m * q + r
    ensures n % m == r
  {
    var d := n / m - q;
    assert m * d == m * (n / m) - m * q == r - n % m;
    Magnitude(m, d);
  }

  lemma Magnitude(m: nat, d: int)
    requires m > 0
    ensures d >= 1 ==> m * d >= m
    ensures d <= -1 ==> m * d <= 0 - m
  {
  }

  lemma ModBack(k: nat, len: nat)
    requires 0 < len <= k
    ensures (k - len) % len == k % len
  {
    var q, r := (k - len) / len, (k - len) % len;
    assert k == len * (q + 1) + r;
    ModUnique(k, len, q + 1, r);
  }

  lemma ModOfMultiple(m: nat, q: nat)
    requires 0 < m
    ensures (m * q) % m == 0
  {
    ModUnique(m * q, m, q, 0);
  }

  lemma ModAdd(d: nat, m: nat, k: nat)
    requires k < m && d % m == 0
    ensures (d + k) % m == k
  {
    ModUnique(d + k, m, d / m, k);
  }
}
