/** Facts about products, quotients and remainders that the index arithmetic needs. */
module Arith {

  lemma MulMono(a: nat, b: nat, m: nat)
    requires a <= b
    ensures a * m <= b * m
  {}

  lemma OneMore(n: nat, k: nat)
    ensures (n + 1) * k == n * k + k
  {}

  lemma NoMultipleBetween(k: int, m: nat)
    requires m > 0
    ensures !(0 < k * m < m) && !(-1 * m < k * m < 0)
  {
    assert k >= 1 ==> k * m >= m;
    assert k <= -1 ==> k * m <= -1 * m;
  }

  lemma Cancel(w: nat, a: int, b: int)
    requires w > 0 && w * a == w * b
    ensures a == b
  {
    assert w * (a - b) == 0;
  }

  lemma DivModUnique(q: nat, size: nat, b: nat)
    requires b < size
    ensures (q * size + b) / size == q && (q * size + b) % size == b
  {
    var n := q * size + b;
    assert n == (n / size) * size + n % size;
    var d := n / size - q;
    assert d * size == b - n % size;
    NoMultipleBetween(d, size);
    Cancel(size, d, 0);
  }

  lemma ModDistinct(a: nat, b: nat, m: nat)
    requires m > 0 && a < b < a + m
    ensures a % m != b % m
  {
    var qa, qb := a / m, b / m;
    var k := qb - qa;
    assert a == qa * m + a % m && b == qb * m + b % m;
    assert k * m == qb * m - qa * m;
    NoMultipleBetween(k, m);
  }

  lemma AddModulus(a: nat, m: nat)
    requires m > 0
    ensures (a + m) % m == a % m
  {
    assert a + m == (a / m + 1) * m + a % m;
    DivModUnique(a / m + 1, m, a % m);
  }

  /** How quotient and remainder move when the dividend grows by one. */
  lemma DivModStep(n: nat, m: nat)
    requires m > 0
    ensures n % m + 1 < m ==> (n + 1) / m == n / m && (n + 1) % m == n % m + 1
    ensures n % m + 1 == m ==> (n + 1) / m == n / m + 1 && (n + 1) % m == 0
  {
    var q, r := n / m, n % m;
    assert n == q * m + r;
    if r + 1 < m {
      DivModUnique(q, m, r + 1);
    } else {
      assert n + 1 == (q + 1) * m + 0;
      DivModUnique(q + 1, m, 0);
    }
  }

  lemma BlockIndex(blocks: nat, size: nat, i: nat)
    requires i < blocks * size
    ensures size > 0 && 0 <= i / size < blocks
  {
    assert size > 0;
    var q := i / size;
    assert i == q * size + i % size;
    if q >= blocks { MulMono(blocks, q, size); }
  }

  lemma BlockBounds(blocks: nat, size: nat, b: nat)
    requires b < blocks
    ensures 0 <= b * size <= b * size + size <= blocks * size
  {
    MulMono(b + 1, blocks, size);
    assert (b + 1) * size == b * size + size;
  }

  /** The element `k` of block `b`. */
  lemma InBlock(blocks: nat, size: nat, b: nat, k: nat)
    requires b < blocks && k < size
    ensures b * size + k < blocks * size
    ensures (b * size + k) / size == b && (b * size + k) % size == k
  {
    BlockBounds(blocks, size, b);
    DivModUnique(b, size, k);
  }
}
