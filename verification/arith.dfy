/** Small facts of integer arithmetic the solver does not find unaided. */
module Arith {

  /** Multiplication by a natural number is monotone. */
  lemma MulMono(x: nat, y: nat, n: nat)
    requires x <= y
    ensures x * n <= y * n
  {
    var d := y - x;
    assert y * n == x * n + d * n;
  }

  lemma MulAtLeast(k: int, m: int)
    requires k >= 1 && m > 0
    ensures k * m >= m
  {
    assert k * m == m + (k - 1) * m;
  }

  /** Euclidean division is unique: a representation x == d*m + e with 0 <= e < m fixes x % m. */
  lemma ModUnique(x: int, d: int, m: int, e: int)
    requires m > 0 && 0 <= e < m && x == d * m + e
    ensures x % m == e
  {
    var q, r := x / m, x % m;
    assert x == q * m + r;
    var k := d - q;
    assert k * m == r - e;
    if k > 0 {
      MulAtLeast(k, m);
      assert false;
    } else if k < 0 {
      MulAtLeast(-k, m);
      assert false;
    }
  }

  /** Reducing modulo m*n and then modulo m is the same as reducing modulo m. */
  lemma ModOfMod(x: nat, m: nat, n: nat)
    requires m > 0 && n > 0
    ensures (x % (m * n)) % m == x % m
  {
    var mn := m * n;
    var q, r := x / mn, x % mn;
    assert x == q * mn + r;
    var r1, r2 := r / m, r % m;
    assert r == r1 * m + r2;
    assert x == (q * n + r1) * m + r2;
    ModUnique(x, q * n + r1, m, r2);
  }

  /** Adding the modulus does not change the remainder. */
  lemma ModShift(y: nat, m: nat)
    requires m > 0
    ensures (y + m) % m == y % m
  {
    var q, r := y / m, y % m;
    assert y == q * m + r;
    assert y + m == (q + 1) * m + r;
    ModUnique(y + m, q + 1, m, r);
  }

  /** Products of bounded natural numbers are bounded by the product of the bounds. */
  lemma MulBoth(x: nat, y: nat, xMax: nat, yMax: nat)
    requires x <= xMax && y <= yMax
    ensures x * y <= xMax * yMax
  {
    MulMono(x, xMax, y);
    MulMono(y, yMax, xMax);
  }

  /** A product of natural numbers is positive exactly when both factors are. */
  lemma ProductPositive(x: nat, y: nat)
    ensures x * y > 0 <==> x > 0 && y > 0
  {
    if x > 0 && y > 0 {
      MulMono(1, x, y);
    }
  }
}
