/** The root that the imptp jobs are configured with has the order that the index generator needs. */
module ImptpRoot {
  import opened Arith
  import opened ModPow
  import opened ImptpIndex
  import opened ImptpJob

  // ----- primes

  predicate IsPrime(q: nat) {
    2 <= q && forall d :: 2 <= d < q ==> q % d != 0
  }

  /** A number below k squared is prime if nothing below k divides it. */
  lemma TrialDivision(q: nat, k: nat)
    requires 2 <= k < q < k * k && forall d :: 2 <= d < k ==> q % d != 0
    ensures IsPrime(q)
  {
    forall d | k <= d < q
      ensures q % d != 0
    {
      if q % d == 0 {
        var c := q / d;
        assert q == c * d;
        if c < k {
          DivUnique(q, d, 0, c);
        } else {
          ScaleBoth(k, k, c, d);
        }
      }
    }
  }

  /** A prime that divides a product divides one of the factors. */
  lemma {:induction false} PrimeDivides(q: nat, a: nat, b: nat)
    requires IsPrime(q) && (a * b) % q == 0 && a % q != 0
    ensures b % q == 0
    decreases a
  {
    if a >= q {
      ModMulLeft(a, b, q);
      ModSmall(a % q, q);
      PrimeDivides(q, a % q, b);
    } else if a > 1 {
      var r := q % a;
      RestDivides(q, a, b, q / a, r);
      ModSmall(r, q);
      PrimeDivides(q, r, b);
    } else if a == 1 {
      assert a * b == b;
    } else {
      ModSmall(a, q);
    }
  }

  /** With a * b its multiple r * b = q * b - k * a * b is a multiple of q. */
  lemma RestDivides(q: nat, a: nat, b: nat, k: nat, r: nat)
    requires 1 <= q && (a * b) % q == 0 && q == k * a + r
    ensures (r * b) % q == 0
  {
    var c := (a * b) / q;
    assert a * b == c * q;
    Distribute(k * a, r, b);
    Associate(k, a, b);
    Associate(k, c, q);
    Distribute(b, k * c, q);
    DivUnique(r * b, b - k * c, 0, q);
  }

  function Product(qs: seq<nat>): nat {
    if qs == [] then 1 else qs[0] * Product(qs[1..])
  }

  /** A divisor above 1 of a product of primes is divided by one of them. */
  lemma {:induction false} SomePrimeDivides(qs: seq<nat>, m: nat, d: nat) returns (q: nat)
    requires (forall x :: x in qs ==> IsPrime(x)) && m * d == Product(qs) && m > 1
    ensures q in qs && IsPrime(q) && m % q == 0
    decreases |qs|
  {
    if qs == [] {
      if d >= 1 { MulAtLeast(d, m); }
      assert false;
    } else {
      q := qs[0];
      assert q in qs;
      if m % q != 0 {
        DivUnique(m * d, Product(qs[1..]), 0, q);
        PrimeDivides(q, m, d);
        var d' := d / q;
        assert d == d' * q;
        assert q * (m * d') == q * Product(qs[1..]) by { Associate(m, d', q); }
        Cancel(q, m * d', Product(qs[1..]));
        q := SomePrimeDivides(qs[1..], m, d');
      }
    }
  }

  // ----- orders

  lemma {:induction false} PowMultiple(b: nat, p: nat, e: nat, k: nat)
    requires 2 <= p && PowMod(b, e, p) == 1
    ensures PowMod(b, k * e, p) == 1
    decreases k
  {
    if k == 0 {
      ModSmall(1, p);
    } else {
      PowMultiple(b, p, e, k - 1);
      Distribute(k, 1, e);
      PowModAdd(b, (k - 1) * e, e, p);
    }
  }

  /** From an exponent that gives 1, one that divides n and is not larger. */
  lemma {:induction false} DivisorOfOrder(b: nat, p: nat, n: nat, k: nat) returns (d: nat)
    requires 2 <= p && PowMod(b, n, p) == 1 && 0 < k && PowMod(b, k, p) == 1
    ensures 0 < d <= k && n % d == 0 && PowMod(b, d, p) == 1
    decreases k
  {
    var r := n % k;
    if r == 0 {
      d := k;
    } else {
      var c := n / k;
      assert n == c * k + r;
      PowMultiple(b, p, k, c);
      PowModAdd(b, c * k, r, p);
      ModSmall(PowMod(b, r, p), p);
      d := DivisorOfOrder(b, p, n, r);
    }
  }

  /** For no prime q of the list b to the (p - 1) / q is 1. */
  ghost predicate NoneIsOne(b: nat, p: nat, qs: seq<nat>)
    requires 1 <= p
  {
    forall q :: q in qs && IsPrime(q) ==> PowMod(b, (p - 1) / q, p) != 1
  }

  lemma SmallerIsNotOne(b: nat, p: nat, qs: seq<nat>, k: nat)
    requires 2 <= p && (forall q :: q in qs ==> IsPrime(q)) && Product(qs) == p - 1
    requires PowMod(b, p - 1, p) == 1 && NoneIsOne(b, p, qs) && 0 < k < p - 1
    ensures PowMod(b, k, p) != 1
  {
    if PowMod(b, k, p) == 1 {
      var d := DivisorOfOrder(b, p, p - 1, k);
      var m := (p - 1) / d;
      assert m * d == p - 1;
      var q := SomePrimeDivides(qs, m, d);
      QuotientOfProduct(p - 1, m, d, q);
      PowMultiple(b, p, d, m / q);
    }
  }

  lemma QuotientOfProduct(n: nat, m: nat, d: nat, q: nat)
    requires n == m * d && 1 <= q && m % q == 0
    ensures n / q == (m / q) * d
  {
    var c := m / q;
    assert m == c * q;
    Associate(c, q, d);
    DivUnique(n, c * d, 0, q);
  }

  /** The order of b is p - 1 if b to the p - 1 is 1, and to none of the (p - 1) / q for the primes q of p - 1. */
  lemma OrderFromPrimes(b: nat, p: nat, qs: seq<nat>)
    requires 2 <= p && (forall q :: q in qs ==> IsPrime(q)) && Product(qs) == p - 1
    requires PowMod(b, p - 1, p) == 1 && NoneIsOne(b, p, qs)
    ensures IsPrimitive(b, p)
  {
    forall k | 0 < k < p - 1
      ensures PowMod(b, k, p) != 1
    {
      SmallerIsNotOne(b, p, qs, k);
    }
  }

  // ----- the configured root and prime

  /** b to the e is x modulo p. */
  ghost predicate Gives(b: nat, p: nat, e: nat, x: nat)
    requires 1 <= p
  {
    PowMod(b, e, p) == x
  }

  /** The exponent doubles, or doubles and grows by one. */
  lemma Even(b: nat, p: nat, e: nat, x: nat, k: nat, y: nat)
    requires p == 50000017 && Gives(b, p, e, x) && x * x == k * 50000017 + y && y < 50000017
    ensures Gives(b, p, 2 * e, y)
  {
    PowModAdd(b, e, e, p);
    DivUnique(x * x, k, y, p);
  }

  lemma Odd(b: nat, p: nat, e: nat, x: nat, k: nat, y: nat)
    requires p == 50000017 && b == 5 && Gives(b, p, e, x) && x * x * 5 == k * 50000017 + y && y < 50000017
    ensures Gives(b, p, 2 * e + 1, y)
  {
    PowModAdd(b, e, e, p);
    PowModAdd(b, 2 * e, 1, p);
    assert Pow(b, 1) == b;
    ModSmall(b, p);
    ModMulLeft(x * x, b, p);
    DivUnique(x * x * 5, k, y, p);
  }

  lemma PowerAll(b: nat, p: nat)
    requires b == 5 && p == 50000017 && Gives(b, p, 1, 5)
    ensures Gives(b, p, 50000016, 1) && Gives(b, p, 25000008, 50000016)
  {
    Even(b, p, 1, 5, 0, 25); Odd(b, p, 2, 25, 0, 3125); Odd(b, p, 5, 3125, 0, 48828125);
    Odd(b, p, 11, 48828125, 238418498, 1963659); Odd(b, p, 23, 1963659, 385595, 26786290);
    Odd(b, p, 47, 26786290, 71750508, 40061864); Even(b, p, 95, 40061864, 32099048, 1470680);
    Odd(b, p, 190, 1470680, 216289, 44635087); Even(b, p, 381, 44635087, 39845806, 14118867);
    Odd(b, p, 762, 14118867, 19934233, 37936484); Odd(b, p, 1525, 37936484, 143917632, 44811536);
    Odd(b, p, 3051, 44811536, 200807307, 29672261); Odd(b, p, 6103, 29672261, 88044277, 17507896);
    Even(b, p, 12207, 17507896, 6130526, 18127874); Even(b, p, 24414, 18127874, 6572394, 4029178);
    Even(b, p, 48828, 4029178, 324685, 19836039); Even(b, p, 97656, 19836039, 7869366, 9430299);
    Odd(b, p, 195312, 9430299, 8893050, 44965155); Even(b, p, 390625, 44965155, 40437289, 26740112);
    Even(b, p, 781250, 26740112, 14300666, 46661222); Odd(b, p, 1562500, 46661222, 217726889, 41309307);
    Even(b, p, 3125001, 41309307, 34129165, 14624444); Even(b, p, 6250002, 14624444, 4277485, 39591891);
    Even(b, p, 12500004, 39591891, 31350345, 50000016); Even(b, p, 25000008, 50000016, 50000015, 1);
  }

  lemma PowerThird(b: nat, p: nat)
    requires b == 5 && p == 50000017 && Gives(b, p, 1, 5)
    ensures Gives(b, p, 16666672, 47189420)
  {
    Odd(b, p, 1, 5, 0, 125); Odd(b, p, 3, 125, 0, 78125); Odd(b, p, 7, 78125, 610, 17567755);
    Odd(b, p, 15, 17567755, 30862591, 4036078); Odd(b, p, 31, 4036078, 1628992, 417556);
    Odd(b, p, 63, 417556, 17435, 14769285); Even(b, p, 127, 14769285, 4362634, 5246447);
    Even(b, p, 254, 5246447, 550503, 46765258); Odd(b, p, 508, 46765258, 218698861, 11152183);
    Even(b, p, 1017, 11152183, 2487422, 43379315); Odd(b, p, 2034, 43379315, 188176433, 346764);
    Even(b, p, 4069, 346764, 2404, 45230828); Even(b, p, 8138, 45230828, 40916542, 5984370);
    Even(b, p, 16276, 5984370, 716253, 22120599); Even(b, p, 32552, 22120599, 9786414, 33749763);
    Even(b, p, 65104, 33749763, 22780922, 15280495); Even(b, p, 130208, 15280495, 4669868, 48057269);
    Odd(b, p, 260416, 48057269, 230950031, 42541278); Odd(b, p, 520833, 42541278, 180975971, 42774913);
    Even(b, p, 1041667, 42774913, 36593851, 10062102); Even(b, p, 2083334, 10062102, 2024917, 12234815);
    Even(b, p, 4166668, 12234815, 2993812, 47189421); Even(b, p, 8333336, 47189421, 44536813, 47189420);
  }

  lemma PowerEleventh(b: nat, p: nat)
    requires b == 5 && p == 50000017 && Gives(b, p, 1, 5)
    ensures Gives(b, p, 4545456, 9297111)
  {
    Even(b, p, 1, 5, 0, 25); Even(b, p, 2, 25, 0, 625); Even(b, p, 4, 625, 0, 390625);
    Odd(b, p, 8, 390625, 15258, 39193739); Even(b, p, 17, 39193739, 30722973, 4509580);
    Odd(b, p, 34, 4509580, 2033630, 24310290); Even(b, p, 69, 24310290, 11819799, 48947517);
    Odd(b, p, 138, 48947517, 239585860, 29366825); Even(b, p, 277, 29366825, 17248202, 17361191);
    Odd(b, p, 554, 17361191, 30141085, 2293960); Odd(b, p, 1109, 2293960, 526225, 3462175);
    Even(b, p, 2219, 3462175, 239733, 1655164); Odd(b, p, 4438, 1655164, 273956, 34677228);
    Odd(b, p, 8877, 34677228, 120250973, 14553379); Odd(b, p, 17755, 14553379, 21180076, 41526913);
    Even(b, p, 35511, 41526913, 34489678, 16985043); Odd(b, p, 71022, 16985043, 28849158, 38123559);
    Odd(b, p, 142045, 38123559, 145340525, 33343480); Even(b, p, 284091, 33343480, 22235745, 30502735);
    Even(b, p, 568182, 30502735, 18608330, 26138615); Even(b, p, 1136364, 26138615, 13664539, 11821062);
    Even(b, p, 2272728, 11821062, 2794749, 9297111);
  }

  lemma Power281st(b: nat, p: nat)
    requires b == 5 && p == 50000017 && Gives(b, p, 1, 5)
    ensures Gives(b, p, 177936, 24178208)
  {
    Even(b, p, 1, 5, 0, 25); Odd(b, p, 2, 25, 0, 3125); Even(b, p, 5, 3125, 0, 9765625);
    Odd(b, p, 10, 9765625, 9536739, 46078562); Odd(b, p, 21, 46078562, 212323315, 20442865);
    Even(b, p, 43, 20442865, 8358211, 37318638); Odd(b, p, 86, 37318638, 139268026, 43318778);
    Odd(b, p, 173, 43318778, 187651588, 46989424); Odd(b, p, 347, 46989424, 220800521, 35650023);
    Even(b, p, 695, 35650023, 25418474, 7786471); Even(b, p, 1390, 7786471, 1212582, 10019947);
    Even(b, p, 2780, 10019947, 2007986, 3747047); Odd(b, p, 5560, 3747047, 1404035, 32232450);
    Even(b, p, 11121, 32232450, 20778609, 29766147); Even(b, p, 22242, 29766147, 17720464, 5977721);
    Even(b, p, 44484, 5977721, 714662, 36204587); Even(b, p, 88968, 36204587, 26215433, 24178208);
  }

  lemma Power337th(b: nat, p: nat)
    requires b == 5 && p == 50000017 && Gives(b, p, 1, 5)
    ensures Gives(b, p, 148368, 4983028)
  {
    Even(b, p, 1, 5, 0, 25); Even(b, p, 2, 25, 0, 625); Odd(b, p, 4, 625, 0, 1953125);
    Even(b, p, 9, 1953125, 76293, 45968644); Even(b, p, 18, 45968644, 42262310, 12739466);
    Even(b, p, 36, 12739466, 3245878, 38785230); Even(b, p, 72, 38785230, 30085871, 4693093);
    Odd(b, p, 144, 4693093, 2202511, 22090558); Odd(b, p, 289, 22090558, 48799258, 34169434);
    Odd(b, p, 579, 34169434, 116754982, 14567086); Even(b, p, 1159, 14567086, 4243998, 22383430);
    Even(b, p, 2318, 22383430, 10020355, 18218865); Odd(b, p, 4636, 18218865, 33192692, 45165361);
    Even(b, p, 9273, 45165361, 40798182, 40691227); Even(b, p, 18546, 40691227, 33115507, 41801910);
    Even(b, p, 37092, 41801910, 34947981, 35532423); Even(b, p, 74184, 35532423, 25251053, 4983028);
  }

  /** The root 5 has order 50000016 modulo 50000017. */
  lemma RootIsPrimitive()
    ensures IsPrimitive(ROOT, PRIME)
  {
    Configured(ROOT, PRIME);
  }

  lemma Configured(b: nat, p: nat)
    requires b == 5 && p == 50000017
    ensures IsPrimitive(b, p)
  {
    var qs := [2, 2, 2, 2, 3, 11, 281, 337];
    SmallPrimes();
    ProductOfPrimes(qs);
    PowersOfRoot(b, p, qs);
    OrderFromPrimes(b, p, qs);
  }

  lemma PowersOfRoot(b: nat, p: nat, qs: seq<nat>)
    requires b == 5 && p == 50000017 && forall q :: q in qs ==> q in {2, 3, 11, 281, 337}
    ensures PowMod(b, p - 1, p) == 1 && NoneIsOne(b, p, qs)
  {
    assert Pow(b, 1) == b;
    ModSmall(b, p);
    PowerAll(b, p);
    PowerThird(b, p);
    PowerEleventh(b, p);
    Power281st(b, p);
    Power337th(b, p);
    forall q | q in qs
      ensures PowMod(b, (p - 1) / q, p) != 1
    {
      var e := (p - 1) / q;
      assert e == if q == 2 then 25000008 else if q == 3 then 16666672 else if q == 11 then 4545456
                  else if q == 281 then 177936 else 148368;
      assert PowMod(b, e, p) == if q == 2 then 50000016 else if q == 3 then 47189420 else if q == 11 then 9297111
                                else if q == 281 then 24178208 else 4983028;
    }
  }

  lemma SmallPrimes()
    ensures IsPrime(2) && IsPrime(3) && IsPrime(11) && IsPrime(281) && IsPrime(337)
  {
    forall d | 2 <= d < 19
      ensures 281 % d != 0 && 337 % d != 0 && (d < 4 ==> 11 % d != 0)
    {
      assert d in {2, 3, 4, 5, 6, 7, 8, 9, 10, 11, 12, 13, 14, 15, 16, 17, 18};
    }
    TrialDivision(11, 4);
    TrialDivision(281, 19);
    TrialDivision(337, 19);
  }

  lemma ProductOfPrimes(qs: seq<nat>)
    requires qs == [2, 2, 2, 2, 3, 11, 281, 337]
    ensures Product(qs) == 50000016
  {
    assert Product(qs[7..]) == 337;
    assert Product(qs[6..]) == 281 * 337;
    assert Product(qs[5..]) == 11 * 281 * 337;
    assert Product(qs[4..]) == 33 * 281 * 337;
    assert Product(qs[3..]) == 66 * 281 * 337;
    assert Product(qs[2..]) == 132 * 281 * 337;
    assert Product(qs[1..]) == 264 * 281 * 337;
  }

  /** As configured, no index is used twice if and only if there are fewer turns than the prime. */
  lemma ConfiguredNoIndexTwiceIff(jobcnt: nat, top: nat)
    requires 1 <= jobcnt
    ensures NoIndexTwice(Setup(ROOT, PRIME, jobcnt), top) <==> top * jobcnt < PRIME
  {
    RootIsPrimitive();
    NoIndexTwiceIff(Setup(ROOT, PRIME, jobcnt), top);
  }

  /** As configured, the default number of loops never makes jobs overwrite each other's data, whatever crashes there are. */
  lemma ConfiguredJobsAreSafe(jobcnt: nat, events: seq<Event>)
    requires 2 <= jobcnt < PRIME
    ensures var u := Setup(ROOT, PRIME, jobcnt);
      NoIndexTwice(u, DefaultTop(u)) && DataOk(u, Run(u, DefaultTop(u), events))
  {
    var u := Setup(ROOT, PRIME, jobcnt);
    RootIsPrimitive();
    DefaultNoIndexTwiceIff(u);
    NoIndexTwiceIff(u, DefaultTop(u));
    NothingOverwritten(u, DefaultTop(u), events);
  }
}
