/** Powers modulo a number, and what follows from the multiplicative order of a root being one less than it. */
module ModPow {
  import opened Arith
  import opened Intervals

  function Pow(b: nat, e: nat): nat {
    if e == 0 then 1 else b * Pow(b, e - 1)
  }

  function PowMod(b: nat, e: nat, m: nat): nat
    requires m >= 1
  {
    Pow(b, e) % m
  }

  /** The order of `root` modulo p is p - 1. */
  ghost predicate IsPrimitive(root: nat, p: nat) {
    && 2 <= p
    && PowMod(root, p - 1, p) == 1
    && forall k :: 0 < k < p - 1 ==> PowMod(root, k, p) != 1
  }

  // ----- sums of exponents

  lemma {:induction false} PowAdd(b: nat, x: nat, y: nat)
    ensures Pow(b, x + y) == Pow(b, x) * Pow(b, y)
    decreases x
  {
    if x > 0 {
      PowAdd(b, x - 1, y);
      Associate(b, Pow(b, x - 1), Pow(b, y));
    }
  }

  lemma PowModAdd(b: nat, x: nat, y: nat, m: nat)
    requires m >= 1
    ensures PowMod(b, x + y, m) == (PowMod(b, x, m) * PowMod(b, y, m)) % m
  {
    PowAdd(b, x, y);
    ModMul(Pow(b, x), Pow(b, y), m);
  }

  // ----- what the order gives

  /** Exponents that are multiples of the order give 1. */
  lemma {:induction false} PowOrder(root: nat, p: nat, k: nat)
    requires IsPrimitive(root, p)
    ensures PowMod(root, k * (p - 1), p) == 1
    decreases k
  {
    if k == 0 {
      ModSmall(1, p);
    } else {
      PowOrder(root, p, k - 1);
      Distribute(k, 1, p - 1);
      PowModAdd(root, (k - 1) * (p - 1), p - 1, p);
      ModSmall(1, p);
    }
  }

  /** root^e has an inverse, namely root^(e * (p - 2)). */
  lemma PowInverse(root: nat, p: nat, e: nat) returns (c: nat)
    requires IsPrimitive(root, p)
    ensures (PowMod(root, e, p) * PowMod(root, c, p)) % p == 1
    ensures PowMod(root, e + c, p) == 1
  {
    NatProduct(e, p - 2);
    c := e * (p - 2);
    Commute(e, p - 2);
    Commute(e, p - 1);
    Distribute(p - 2, 1, e);
    PowOrder(root, p, e);
    PowModAdd(root, e, c, p);
  }

  /** No power of the root is 0. */
  lemma PowInRange(root: nat, p: nat, e: nat)
    requires IsPrimitive(root, p)
    ensures 1 <= PowMod(root, e, p) < p
  {
    var c := PowInverse(root, p, e);
    if PowMod(root, e, p) == 0 {
      ModSmall(0, p);
    }
  }

  /** Below the order, different exponents give different residues. */
  lemma PowInjective(root: nat, p: nat, a: nat, b: nat)
    requires IsPrimitive(root, p) && a < b < p - 1
    ensures PowMod(root, a, p) != PowMod(root, b, p)
  {
    if PowMod(root, a, p) == PowMod(root, b, p) {
      var c := PowInverse(root, p, a);
      PowModAdd(root, b, c, p);
      PowModAdd(root, b - a, a + c, p);
      assert b + c == (b - a) + (a + c);
      ModSmall(PowMod(root, b - a, p), p);
    }
  }

  /** The residues of the powers with exponents below n. */
  ghost function PowersBelow(root: nat, p: nat, n: nat): set<int>
    requires p >= 1
  {
    if n == 0 then {} else PowersBelow(root, p, n - 1) + {PowMod(root, n - 1, p)}
  }

  lemma {:induction false} PowersBelowHas(root: nat, p: nat, n: nat, x: int)
    requires p >= 1
    ensures x in PowersBelow(root, p, n) <==> exists e: nat :: e < n && x == PowMod(root, e, p)
    decreases n
  {
    if n > 0 {
      PowersBelowHas(root, p, n - 1, x);
      if x in PowersBelow(root, p, n) && x !in PowersBelow(root, p, n - 1) {
        assert x == PowMod(root, n - 1, p);
      }
    }
  }

  lemma {:induction false} PowersBelowSize(root: nat, p: nat, n: nat)
    requires IsPrimitive(root, p) && n <= p - 1
    ensures |PowersBelow(root, p, n)| == n
    ensures PowersBelow(root, p, n) <= Interval(1, p)
    decreases n
  {
    if n > 0 {
      PowersBelowSize(root, p, n - 1);
      PowInRange(root, p, n - 1);
      PowersBelowHas(root, p, n - 1, PowMod(root, n - 1, p));
      if PowMod(root, n - 1, p) in PowersBelow(root, p, n - 1) {
        var e: nat :| e < n - 1 && PowMod(root, n - 1, p) == PowMod(root, e, p);
        PowInjective(root, p, e, n - 1);
      }
    }
  }

  /** The first p - 1 powers run through all of 1..p-1. */
  lemma PowersCover(root: nat, p: nat)
    requires IsPrimitive(root, p)
    ensures PowersBelow(root, p, p - 1) == Interval(1, p)
  {
    PowersBelowSize(root, p, p - 1);
    SubsetSize(PowersBelow(root, p, p - 1), Interval(1, p));
  }

  /** A number with an inverse modulo p does not divide p. */
  lemma UnitsDoNotDivide(p: nat, d: nat, inv: nat)
    requires 1 < d < p && (d * inv) % p == 1
    ensures p % d != 0
  {
    if p % d == 0 {
      var q := p / d;
      assert q * d == p;
      assert 0 < q < p by {
        if q >= p { MulAtLeast(q, d - 1); Distribute(d, 1, q); }
      }
      Associate(q, d, inv);
      ModAddMultiple(0, inv, p);
      ModMul(q, d * inv, p);
      ModSmall(q, p);
      ModSmall(0, p);
    }
  }

  /** Such a modulus is a prime number. */
  lemma OrderMeansPrime(root: nat, p: nat, d: nat)
    requires IsPrimitive(root, p) && 1 < d < p
    ensures p % d != 0
  {
    PowersCover(root, p);
    PowersBelowHas(root, p, p - 1, d);
    var e: nat :| e < p - 1 && d == PowMod(root, e, p);
    var c := PowInverse(root, p, e);
    UnitsDoNotDivide(p, d, PowMod(root, c, p));
  }
}
