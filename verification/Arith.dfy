/** Products, quotients and remainders: the few facts on which all other arithmetic here is built. */
module Arith {

  lemma Commute(a: int, b: int)
    ensures a * b == b * a
  {
  }

  lemma Associate(a: int, b: int, c: int)
    ensures (a * b) * c == a * (b * c) == (a * c) * b
  {
  }

  lemma Distribute(a: int, b: int, m: int)
    ensures (a + b) * m == a * m + b * m
    ensures (a - b) * m == a * m - b * m
  {
  }

  lemma NatProduct(a: nat, b: nat)
    ensures 0 <= a * b
  {
  }

  lemma Scale(a: int, b: int, c: int)
    requires a <= b && 0 <= c
    ensures a * c <= b * c && c * a <= c * b
  {
  }

  lemma ScaleBoth(a: nat, b: nat, c: nat, d: nat)
    requires a <= c && b <= d
    ensures a * b <= c * d
  {
    Scale(a, c, b);
    Scale(b, d, c);
  }

  lemma MulAtLeast(d: int, m: int)
    requires d >= 1 && m >= 1
    ensures d * m >= m
  {
    Scale(1, d, m);
  }

  lemma Cancel(q: int, x: int, y: int)
    requires q >= 1 && q * x == q * y
    ensures x == y
  {
    Commute(q, x);
    Commute(q, y);
    Distribute(x, y, q);
    Distribute(y, x, q);
    if x > y { MulAtLeast(x - y, q); }
    if y > x { MulAtLeast(y - x, q); }
  }

  /** Division with remainder is unique. */
  lemma DivUnique(x: int, q: int, r: int, m: int)
    requires m >= 1 && x == q * m + r && 0 <= r < m
    ensures x / m == q && x % m == r
  {
    var q' := x / m;
    assert x == q' * m + x % m;
    Distribute(q', q, m);
    Distribute(q, q', m);
    if q' > q {
      MulAtLeast(q' - q, m);
    } else if q > q' {
      MulAtLeast(q - q', m);
    }
  }

  lemma QuotientBelow(e: nat, q: nat, d: nat)
    requires 1 <= d && e < q * d
    ensures e / d < q
  {
    var k := e / d;
    assert e == k * d + e % d;
    if q <= k { Scale(q, k, d); }
  }

  lemma Regroup(q: int, b: int, r: int, a: int)
    ensures (q * b + r) * a == q * (a * b) + r * a
  {
    Distribute(q * b, r, a);
    Associate(q, b, a);
    Commute(a, b);
  }

  lemma BelowProduct(r: nat, b: nat, s: nat, a: nat)
    requires r < b && s < a
    ensures 0 <= r * a + s < a * b
  {
    NatProduct(r, a);
    Scale(r + 1, b, a);
    Distribute(r, 1, a);
    Commute(a, b);
  }

  /** Dividing twice is dividing by the product. */
  lemma DivTwice(x: nat, a: nat, b: nat)
    requires 1 <= a && 1 <= b
    ensures 1 <= a * b && (x / a) / b == x / (a * b)
  {
    var q, r := x / a, x % a;
    var q', r' := q / b, q % b;
    MulAtLeast(a, b);
    Regroup(q', b, r', a);
    BelowProduct(r', b, r, a);
    DivUnique(x, q', r' * a + r, a * b);
  }

  lemma ModSmall(x: int, m: int)
    requires 0 <= x < m
    ensures x % m == x
  {
    DivUnique(x, 0, x, m);
  }

  /** Without its remainder a number is a multiple, and so is the opposite of that. */
  lemma RestIsMultiple(x: int, m: int)
    requires m >= 1
    ensures (x - x % m) % m == 0 && (x % m - x) % m == 0
  {
    var q := x / m;
    assert x == q * m + x % m;
    DivUnique(x - x % m, q, 0, m);
    Opposite(q, m);
    DivUnique(x % m - x, -q, 0, m);
  }

  lemma Opposite(q: int, m: int)
    ensures (-q) * m == -(q * m)
  {
  }

  lemma ModAddMultiple(x: int, k: int, m: int)
    requires m >= 1
    ensures (x + k * m) % m == x % m
  {
    Distribute(x / m, k, m);
    DivUnique(x + k * m, x / m + k, x % m, m);
  }

  lemma ModMulLeft(a: nat, b: nat, m: nat)
    requires m >= 1
    ensures ((a % m) * b) % m == (a * b) % m
  {
    var q, r := a / m, a % m;
    assert a * b == r * b + (q * b) * m by {
      assert a == q * m + r;
      Distribute(q * m, r, b);
      Associate(q, m, b);
    }
    ModAddMultiple(r * b, q * b, m);
  }

  /** Reducing the factors does not change the residue of a product. */
  lemma ModMul(a: nat, b: nat, m: nat)
    requires m >= 1
    ensures ((a % m) * (b % m)) % m == (a * b) % m
  {
    ModMulLeft(a, b, m);
    ModMulLeft(b, a % m, m);
    Commute(b % m, a % m);
    Commute(b, a % m);
  }
}
