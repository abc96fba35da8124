/** How the solver cuts 1..endnum into the blocks that its workers claim. */
module Blocks {
  import opened Arith

  /** The contents of ^limits: block b, for b in 1..count, ends at limits[b]; the last ends at endnum. */
  datatype Plan = Plan(limits: map<int, int>, count: int, endnum: int) {

    /** The blocks are non-empty, contiguous, and cover exactly 1..endnum. */
    ghost predicate Valid() {
      && 1 <= count
      && (forall b :: b in limits <==> 1 <= b <= count)
      && (forall b {:trigger Lo(b)} :: b in limits ==> Lo(b) <= limits[b])
      && limits[count] == endnum
    }

    /** The first number of block b. */
    function Lo(b: int): int {
      if b - 1 in limits then limits[b - 1] + 1 else 1
    }

    predicate InBlock(b: int, m: int) {
      b in limits && Lo(b) <= m <= limits[b]
    }
  }

  lemma {:induction false} LimitsIncrease(p: Plan, a: int, b: int)
    requires p.Valid() && 1 <= a < b <= p.count
    ensures p.limits[a] < p.limits[b]
    decreases b - a
  {
    assert p.Lo(b) == p.limits[b - 1] + 1;
    if a < b - 1 {
      LimitsIncrease(p, a, b - 1);
    }
  }

  /** Every number of a block lies in 1..endnum. */
  lemma BlockInRange(p: Plan, b: int, m: int)
    requires p.Valid() && p.InBlock(b, m)
    ensures 1 <= m <= p.endnum
  {
    if b < p.count {
      LimitsIncrease(p, b, p.count);
    }
    LoPositive(p, b);
  }

  lemma {:induction false} LoPositive(p: Plan, b: int)
    requires p.Valid() && 1 <= b <= p.count
    ensures 1 <= p.Lo(b)
  {
    if b > 1 {
      LoPositive(p, b - 1);
      assert p.Lo(b - 1) <= p.limits[b - 1];
    }
  }

  /** The blocks partition 1..endnum: every number is in one and only one of them. */
  lemma BlocksPartition(p: Plan, m: int)
    requires p.Valid() && 1 <= m <= p.endnum
    ensures exists b :: p.InBlock(b, m) && forall b' :: p.InBlock(b', m) ==> b' == b
  {
    var b := FindBlock(p, m, p.count);
    forall b' | p.InBlock(b', m)
      ensures b' == b
    {
      if b' < b {
        assert p.Lo(b) == p.limits[b - 1] + 1;
        if b' < b - 1 { LimitsIncrease(p, b', b - 1); }
      } else if b < b' {
        assert p.Lo(b') == p.limits[b' - 1] + 1;
        if b < b' - 1 { LimitsIncrease(p, b, b' - 1); }
      }
    }
  }

  lemma {:induction false} FindBlock(p: Plan, m: int, b: int) returns (r: int)
    requires p.Valid() && 1 <= b <= p.count && 1 <= m <= p.limits[b]
    ensures p.InBlock(r, m)
    decreases b
  {
    if p.Lo(b) <= m {
      r := b;
    } else {
      r := FindBlock(p, m, b - 1);
    }
  }

  /** The block size of a run: the requested one, or an even split when that is smaller or none was requested. */
  method BlockSize(endnum: int, streams: int, requested: int) returns (blk: int)
    requires 1 <= endnum && 1 <= streams && 0 <= requested
    ensures 1 <= blk <= endnum && (blk - 1) * streams < endnum
    ensures requested != 0 && (requested - 1) * streams < endnum ==> blk == requested
    ensures requested == 0 || (requested - 1) * streams >= endnum ==> endnum <= blk * streams
  {
    var maxblk := (endnum + (streams - 1)) / streams;
    CeilingBounds(endnum, streams, maxblk);
    if 0 != requested && requested <= maxblk {
      blk := requested;
      Scale(blk - 1, maxblk - 1, streams);
    } else {
      blk := maxblk;
      if requested != 0 { Scale(maxblk, requested - 1, streams); }
    }
  }

  /** Block b of a plan with blocks of size blk ends at b * blk, except that the last one ends at endnum. */
  ghost predicate Even(p: Plan, blk: int) {
    && (forall b :: b in p.limits <==> 1 <= b <= p.count)
    && (forall b :: 1 <= b < p.count ==> p.limits[b] == b * blk)
    && p.count in p.limits && p.limits[p.count] == p.endnum
  }

  /**
   The loop that fills ^limits. When the running total passes endnum, endnum is stored under the
   subscript left in the key by the previous turn, so that the last block absorbs the remainder.
   */
  method SplitBlocks(endnum: int, blk: int) returns (p: Plan)
    requires 1 <= blk <= endnum
    ensures p.Valid() && p.endnum == endnum
    ensures p.count == endnum / blk
    ensures forall b :: 1 <= b < p.count ==> p.limits[b] - p.Lo(b) + 1 == blk
    ensures blk <= p.limits[p.count] - p.Lo(p.count) + 1 < 2 * blk
  {
    var limits: map<int, int> := map[];
    var tmp, i, sub := 0, 1, 0;
    while tmp != endnum
      invariant 0 <= sub == i - 1 && tmp == sub * blk <= endnum
      invariant forall b :: b in limits <==> 1 <= b <= sub
      invariant forall b :: 1 <= b <= sub ==> limits[b] == b * blk
      decreases endnum - tmp
    {
      assert (sub + 1) * blk == sub * blk + blk;
      tmp := tmp + blk;
      if tmp > endnum {
        tmp := endnum;
        limits := limits[sub := tmp];
        break;
      }
      sub := i;
      limits := limits[sub := tmp];
      i := i + 1;
    }
    p := Plan(limits, sub, endnum);
    EvenPlan(p, blk);
  }

  lemma EvenLo(p: Plan, blk: int, b: int)
    requires Even(p, blk) && 1 <= b <= p.count
    ensures p.Lo(b) == (b - 1) * blk + 1 == b * blk - blk + 1
  {
    assert b > 1 ==> b - 1 in p.limits;
    assert (b - 1) * blk == b * blk - blk;
  }

  lemma EvenPlan(p: Plan, blk: int)
    requires 1 <= blk && 1 <= p.count && Even(p, blk)
    requires p.count * blk <= p.endnum < (p.count + 1) * blk
    ensures p.Valid() && p.count == p.endnum / blk
    ensures forall b :: 1 <= b < p.count ==> p.limits[b] - p.Lo(b) + 1 == blk
    ensures blk <= p.limits[p.count] - p.Lo(p.count) + 1 < 2 * blk
  {
    Distribute(p.count, 1, blk);
    DivUnique(p.endnum, p.count, p.endnum - p.count * blk, blk);
    forall b | 1 <= b <= p.count
      ensures b < p.count ==> p.limits[b] - p.Lo(b) + 1 == blk
      ensures b == p.count ==> blk <= p.limits[b] - p.Lo(b) + 1 < 2 * blk
    {
      EvenLo(p, blk, b);
      assert (p.count + 1) * blk == p.count * blk + blk;
    }
  }

  lemma CeilingBounds(n: int, d: int, q: int)
    requires 1 <= n && 1 <= d && q == (n + (d - 1)) / d
    ensures 1 <= q <= n && (q - 1) * d < n <= q * d
  {
    assert n + (d - 1) == q * d + (n + (d - 1)) % d;
    if q > n { Scale(n + 1, q, d); Scale(1, d, n); }
  }
}
