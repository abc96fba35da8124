/**
 The indices under which the imptp jobs store their data. Job j uses in its loop l the index
 root^((j-1) + (l-1)*jobcnt) modulo prime, where the order of root is prime-1.
 */
module ImptpIndex {
  import opened Intervals
  import opened Arith
  import opened ModPow

  /** The values that the parent process sets up. */
  const PRIME: nat := 50_000_017
  const ROOT: nat := 5

  datatype Setup = Setup(root: nat, prime: nat, jobcnt: nat)

  ghost predicate Proper(u: Setup) {
    IsPrimitive(u.root, u.prime) && 1 <= u.jobcnt
  }

  function Exponent(u: Setup, job: nat, loop: nat): nat
    requires 1 <= job && 1 <= loop
  {
    (job - 1) + (loop - 1) * u.jobcnt
  }

  /** The index of job `job` in loop `loop`. */
  function Index(u: Setup, job: nat, loop: nat): nat
    requires 1 <= job && 1 <= loop && 1 <= u.prime
  {
    PowMod(u.root, Exponent(u, job, loop), u.prime)
  }

  predicate InTurn(u: Setup, top: nat, job: nat, loop: nat) {
    1 <= job <= u.jobcnt && 1 <= loop <= top
  }

  /** No two turns, of whatever jobs in whatever loops, use the same index. */
  ghost predicate NoIndexTwice(u: Setup, top: nat)
    requires 1 <= u.prime
  {
    forall j, l, j', l' :: InTurn(u, top, j, l) && InTurn(u, top, j', l') && Index(u, j, l) == Index(u, j', l')
      ==> j == j' && l == l'
  }

  lemma ExponentBelow(u: Setup, top: nat, job: nat, loop: nat)
    requires InTurn(u, top, job, loop)
    ensures Exponent(u, job, loop) < top * u.jobcnt
  {
    assert (loop - 1) * u.jobcnt + u.jobcnt == loop * u.jobcnt;
    assert loop * u.jobcnt <= top * u.jobcnt;
  }

  lemma ExponentInjective(u: Setup, j: nat, l: nat, j': nat, l': nat)
    requires 1 <= j <= u.jobcnt && 1 <= j' <= u.jobcnt && 1 <= l && 1 <= l'
    requires Exponent(u, j, l) == Exponent(u, j', l')
    ensures j == j' && l == l'
  {
    DivUnique(Exponent(u, j, l), l - 1, j - 1, u.jobcnt);
    DivUnique(Exponent(u, j', l'), l' - 1, j' - 1, u.jobcnt);
    Distribute(l - 1, l' - 1, u.jobcnt);
    Distribute(l' - 1, l - 1, u.jobcnt);
    if l > l' { MulAtLeast(l - l', u.jobcnt); }
    if l' > l { MulAtLeast(l' - l, u.jobcnt); }
  }

  /** Every exponent below top * jobcnt belongs to a turn. */
  lemma TurnOfExponent(u: Setup, top: nat, e: nat) returns (job: nat, loop: nat)
    requires 1 <= u.jobcnt && e < top * u.jobcnt
    ensures InTurn(u, top, job, loop) && Exponent(u, job, loop) == e
  {
    job, loop := e % u.jobcnt + 1, e / u.jobcnt + 1;
    assert e == (e / u.jobcnt) * u.jobcnt + e % u.jobcnt;
    QuotientBelow(e, top, u.jobcnt);
  }

  /** No index is repeated if, and only if, there are fewer turns than the prime. */
  lemma NoIndexTwiceIff(u: Setup, top: nat)
    requires Proper(u)
    ensures NoIndexTwice(u, top) <==> top * u.jobcnt < u.prime
  {
    if top * u.jobcnt < u.prime {
      forall j, l, j', l' | InTurn(u, top, j, l) && InTurn(u, top, j', l') && Index(u, j, l) == Index(u, j', l')
        ensures j == j' && l == l'
      {
        ExponentBelow(u, top, j, l);
        ExponentBelow(u, top, j', l');
        var a, b := Exponent(u, j, l), Exponent(u, j', l');
        if a < b { PowInjective(u.root, u.prime, a, b); }
        if b < a { PowInjective(u.root, u.prime, b, a); }
        ExponentInjective(u, j, l, j', l');
      }
    } else {
      var j, l := TurnOfExponent(u, top, u.prime - 1);
      var j', l' := TurnOfExponent(u, top, 0);
      PowOrder(u.root, u.prime, 0);
      assert Index(u, j, l) == Index(u, j', l') == 1;
      assert InTurn(u, top, j, l) && InTurn(u, top, j', l');
    }
  }

  /** The number of loops of each job when none is requested. */
  function DefaultTop(u: Setup): nat
    requires 1 <= u.jobcnt
  {
    u.prime / u.jobcnt
  }

  lemma DefaultTurns(u: Setup)
    requires Proper(u)
    ensures DefaultTop(u) * u.jobcnt == u.prime - u.prime % u.jobcnt
    ensures u.prime % u.jobcnt == 0 <==> u.jobcnt == 1 || u.jobcnt == u.prime
  {
    assert u.prime == (u.prime / u.jobcnt) * u.jobcnt + u.prime % u.jobcnt;
    if 1 < u.jobcnt < u.prime {
      OrderMeansPrime(u.root, u.prime, u.jobcnt);
    } else if u.jobcnt > u.prime {
      ModSmall(u.prime, u.jobcnt);
    } else if u.jobcnt == 1 {
      DivUnique(u.prime, u.prime, 0, 1);
    } else {
      DivUnique(u.prime, 1, 0, u.prime);
    }
  }

  /** With the default number of loops an index is repeated for exactly two numbers of jobs: 1 and prime. */
  lemma DefaultNoIndexTwiceIff(u: Setup)
    requires Proper(u)
    ensures NoIndexTwice(u, DefaultTop(u)) <==> u.jobcnt != 1 && u.jobcnt != u.prime
  {
    NoIndexTwiceIff(u, DefaultTop(u));
    DefaultTurns(u);
  }

  /** The repetition with one job: its last loop uses the index of its first. */
  lemma OneJobRepeats(u: Setup)
    requires Proper(u) && u.jobcnt == 1
    ensures InTurn(u, DefaultTop(u), 1, u.prime) && Index(u, 1, u.prime) == Index(u, 1, 1) == 1
  {
    DefaultTurns(u);
    PowOrder(u.root, u.prime, 0);
  }

  /** The indices used by all jobs together. */
  ghost function Used(u: Setup, top: nat): set<int>
    requires 1 <= u.prime
  {
    PowersBelow(u.root, u.prime, top * u.jobcnt)
  }

  lemma UsedIsUsed(u: Setup, top: nat, x: int)
    requires Proper(u)
    ensures x in Used(u, top) <==> exists j, l :: InTurn(u, top, j, l) && Index(u, j, l) == x
  {
    PowersBelowHas(u.root, u.prime, top * u.jobcnt, x);
    if x in Used(u, top) {
      var e: nat :| e < top * u.jobcnt && x == PowMod(u.root, e, u.prime);
      var j, l := TurnOfExponent(u, top, e);
      assert InTurn(u, top, j, l) && Index(u, j, l) == x;
    }
    if j, l :| InTurn(u, top, j, l) && Index(u, j, l) == x {
      ExponentBelow(u, top, j, l);
      assert x == PowMod(u.root, Exponent(u, j, l), u.prime);
    }
  }

  /** With the default number of loops the jobs use all of 1..prime-1 but fewer numbers than there are jobs. */
  lemma FewUnused(u: Setup)
    requires Proper(u) && 2 <= u.jobcnt < u.prime
    ensures Used(u, DefaultTop(u)) <= Interval(1, u.prime)
    ensures |Interval(1, u.prime) - Used(u, DefaultTop(u))| == u.prime % u.jobcnt - 1 < u.jobcnt
  {
    DefaultTurns(u);
    PowersBelowSize(u.root, u.prime, DefaultTop(u) * u.jobcnt);
    SubsetSize(Used(u, DefaultTop(u)), Interval(1, u.prime));
  }

  /** One job alone runs in its first prime-1 loops through every number of 1..prime-1, each once. */
  lemma OneJobPermutes(u: Setup)
    requires Proper(u) && u.jobcnt == 1
    ensures Used(u, u.prime - 1) == Interval(1, u.prime)
    ensures NoIndexTwice(u, u.prime - 1)
  {
    PowersCover(u.root, u.prime);
    NoIndexTwiceIff(u, u.prime - 1);
  }

  lemma IndexInRange(u: Setup, job: nat, loop: nat)
    requires Proper(u) && 1 <= job && 1 <= loop
    ensures 1 <= Index(u, job, loop) < u.prime
  {
    PowInRange(u.root, u.prime, Exponent(u, job, loop));
  }

  /** The documented example: 3 has order 6 modulo 7, and one job uses the indices 1, 3, 2, 6, 4, 5. */
  lemma SmallExample()
    ensures IsPrimitive(3, 7)
    ensures forall l :: 1 <= l <= 6 ==> Index(Setup(3, 7, 1), 1, l) == [1, 3, 2, 6, 4, 5][l - 1]
  {
    assert Pow(3, 1) == 3 && Pow(3, 2) == 9 && Pow(3, 3) == 27;
    assert Pow(3, 4) == 81 && Pow(3, 5) == 243 && Pow(3, 6) == 729;
    assert forall l :: 1 <= l <= 6 ==> Exponent(Setup(3, 7, 1), 1, l) == l - 1;
  }
}
