/**
 When the solver ends. Only here is it assumed that the starts reach 1. Every turn that is not
 an aborted transaction, and not given to a worker that is done, brings the end nearer by a
 bounded amount, so that no scheduling can go on for ever; and the solver can complete exactly
 when every trajectory reaches 1 through numbers that fit a subscript.
 */
module SolverTermination {
  import opened Arith
  import opened Intervals
  import opened Options
  import opened Collatz
  import opened Blocks
  import opened Solver
  import opened SolverInvariant
  import opened SolverRuns
  import opened SolverTheorems
  import opened SolverCounts

  /** Every start in 2..endnum reaches 1 within k steps. */
  ghost predicate ReachWithin(endnum: int, k: nat) {
    forall a :: 2 <= a <= endnum ==> StepsAtMost(a, k)
  }

  /** A turn that does something: not one given to a finished worker, and not an aborted transaction. */
  predicate Effective(s: State, t: Tick) {
    && !s.crashed && t.worker < |s.workers|
    && !s.workers[t.worker].pc.Done?
    && !(t.abort && (s.workers[t.worker].pc.Raise? || s.workers[t.worker].pc.Merge?))
  }

  /** Turns that one number can still take. */
  function NumberCost(k: nat): nat {
    2 * k + 8
  }

  /** Turns that one block can still take. */
  function BlockCost(endnum: nat, k: nat): nat {
    endnum * NumberCost(k) + 10
  }

  function BlocksLeft(count: int, l: Worker): nat {
    if l.index < count then count - l.index else 0
  }

  /** A bound on the turns the worker needs to leave the block it is in. */
  function InnerCost(endnum: nat, k: nat, l: Worker): int {
    match l.pc
    case Probe => 3
    case Claim => endnum * NumberCost(k) + 7
    case FetchEnd => endnum * NumberCost(k) + 6
    case FetchStart => endnum * NumberCost(k) + 5
    case Check => (l.blkend - l.current) * NumberCost(k) + 2 * k + 7 - l.i
    case Fetch => (l.blkend - l.current) * NumberCost(k) + k + 5
    case Raise => (l.blkend - l.current) * NumberCost(k) + k + 4
    case Publish => (l.blkend - l.current) * NumberCost(k) + k + 3 - l.pos
    case Merge => 2
    case Done => 0
  }

  /** A bound on the effective turns the worker still needs. */
  function Cost(p: Plan, k: nat, l: Worker): int
    requires 0 <= p.endnum
  {
    BlocksLeft(p.count, l) * BlockCost(p.endnum, k) + InnerCost(p.endnum, k, l)
  }

  /** Within the assumed bound no walk is longer than k. */
  lemma WalkWithin(p: Plan, db: Db, l: Worker, k: nat)
    requires LocalOk(p, db, l) && Walking(l.pc) && ReachWithin(p.endnum, k)
    ensures |l.path| <= k
    ensures l.pc.Check? && !Known(db, l.n) ==> l.i < k
  {
    forall j: nat | j < |l.path|
      ensures Iter(l.current, j) != 1
    {
      assert l.path[j] == Iter(l.current, j);
    }
    if l.current == 1 {
      assert |l.path| > 0 ==> l.path[0] == Iter(l.current, 0);
      assert l.pc.Check? ==> l.n == Iter(l.current, 0);
    } else {
      assert StepsAtMost(l.current, k);
      var v: nat :| v <= k && Steps(l.current, v);
      StepsIsFirstHit(l.current, v);
      assert Unfinished(l.current, |l.path|);
    }
  }

  lemma StartCost(endnum: nat, k: nat, l: Worker)
    requires 1 <= l.current && l.blkend <= endnum
    ensures InnerCost(endnum, k, StartNumber(l)) < endnum * NumberCost(k) + 5
    ensures InnerCost(endnum, k, StartNumber(l)) <= Max(3, (l.blkend - l.current + 1) * NumberCost(k) - 1)
    ensures 3 <= InnerCost(endnum, k, StartNumber(l))
  {
    Distribute(l.blkend - l.current, 1, NumberCost(k));
    if l.current <= l.blkend {
      Scale(l.blkend - l.current + 1, endnum, NumberCost(k));
      Scale(0, l.blkend - l.current, NumberCost(k));
    }
  }

  lemma WalkInner(p: Plan, db: Db, l: Worker, abort: bool, k: nat)
    requires DbOk(p, db) && LocalOk(p, db, l) && Walking(l.pc) && ReachWithin(p.endnum, k)
    requires !(l.pc.Raise? && abort) && !Do(db, l, abort).crashed
    ensures Do(db, l, abort).worker.index == l.index
    ensures 3 <= InnerCost(p.endnum, k, Do(db, l, abort).worker) < InnerCost(p.endnum, k, l)
  {
    WalkWithin(p, db, l, k);
    BlockEnds(p, l.index);
    InnerFalls(p.endnum, k, db, l, abort);
  }

  lemma InnerFalls(endnum: nat, k: nat, db: Db, l: Worker, abort: bool)
    requires Walking(l.pc) && 1 <= l.current <= l.blkend <= endnum && |l.path| <= k
    requires l.pc.Check? ==> l.i == |l.path|
    requires l.pc.Check? && !Known(db, l.n) ==> l.i < k
    requires l.pc.Fetch? ==> l.n in db.step
    requires l.pc.Publish? ==> 0 <= l.pos < |l.path|
    requires !(l.pc.Raise? && abort) && !Do(db, l, abort).crashed
    ensures Do(db, l, abort).worker.index == l.index
    ensures 3 <= InnerCost(endnum, k, Do(db, l, abort).worker) < InnerCost(endnum, k, l)
  {
    Scale(0, l.blkend - l.current, NumberCost(k));
    var next := l.(current := l.current + 1);
    if (l.pc.Check? && l.i == 0) || l.pc.Publish? {
      StartCost(endnum, k, next.(readCount := l.readCount + 1));
      StartCost(endnum, k, next.(pos := l.pos + 1, updateCount := l.updateCount + 1));
    }
  }

  lemma ClaimInner(p: Plan, db: Db, l: Worker, abort: bool, k: nat)
    requires DbOk(p, db) && LocalOk(p, db, l)
    requires l.pc.Claim? || l.pc.FetchEnd? || l.pc.FetchStart?
    ensures Do(db, l, abort).worker.index == l.index
    ensures 3 <= InnerCost(p.endnum, k, Do(db, l, abort).worker) < InnerCost(p.endnum, k, l)
  {
    Scale(0, p.endnum, NumberCost(k));
    if !l.pc.Claim? {
      BlockEnds(p, l.index);
      if l.pc.FetchEnd? {
        StartCost(p.endnum, k, l.(blkend := p.limits[l.index], current := 1));
      } else {
        StartCost(p.endnum, k, l.(current := p.Lo(l.index)));
      }
    }
  }

  lemma BlockEnds(p: Plan, b: int)
    requires p.Valid() && b in p.limits
    ensures 1 <= p.Lo(b) <= p.limits[b] <= p.endnum
  {
    assert p.InBlock(b, p.Lo(b));
    BlockInRange(p, b, p.Lo(b));
    BlockInRange(p, b, p.limits[b]);
  }

  /** Every effective step of a worker lowers its cost. */
  lemma CostFalls(p: Plan, db: Db, l: Worker, abort: bool, k: nat)
    requires DbOk(p, db) && LocalOk(p, db, l) && ReachWithin(p.endnum, k)
    requires !l.pc.Done? && !(abort && (l.pc.Raise? || l.pc.Merge?)) && !Do(db, l, abort).crashed
    ensures Cost(p, k, Do(db, l, abort).worker) < Cost(p, k, l)
  {
    if Walking(l.pc) {
      WalkInner(p, db, l, abort, k);
    } else if l.pc.Probe? {
      Distribute(BlocksLeft(p.count, l), 1, BlockCost(p.endnum, k));
    } else if !l.pc.Merge? {
      ClaimInner(p, db, l, abort, k);
    }
  }

  lemma CostPositive(p: Plan, db: Db, l: Worker, k: nat)
    requires DbOk(p, db) && LocalOk(p, db, l) && ReachWithin(p.endnum, k)
    ensures 0 <= Cost(p, k, l)
  {
    Scale(0, BlocksLeft(p.count, l), BlockCost(p.endnum, k));
    Scale(0, p.endnum, NumberCost(k));
    if Walking(l.pc) {
      WalkWithin(p, db, l, k);
      Scale(0, l.blkend - l.current, NumberCost(k));
    }
  }

  // ----- runs

  ghost function TotalCost(p: Plan, k: nat, ws: seq<Worker>): int
    requires 0 <= p.endnum
  {
    Sum(ws, l => Cost(p, k, l))
  }

  lemma {:induction false} TotalPositive(p: Plan, db: Db, ws: seq<Worker>, k: nat)
    requires DbOk(p, db) && ReachWithin(p.endnum, k)
    requires forall w :: 0 <= w < |ws| ==> LocalOk(p, db, ws[w])
    ensures 0 <= TotalCost(p, k, ws)
  {
    if ws != [] {
      TotalPositive(p, db, ws[..|ws| - 1], k);
      CostPositive(p, db, ws[|ws| - 1], k);
    }
  }

  lemma ActLowersCost(p: Plan, s: State, t: Tick, k: nat)
    requires Inv(p, s) && Effective(s, t) && ReachWithin(p.endnum, k) && !Act(s, t).crashed
    ensures TotalCost(p, k, Act(s, t).workers) < TotalCost(p, k, s.workers)
  {
    var l := s.workers[t.worker];
    assert LocalOk(p, s.db, l);
    CostFalls(p, s.db, l, t.abort, k);
    SumUpdate(s.workers, t.worker, Do(s.db, l, t.abort).worker, x => Cost(p, k, x));
  }

  lemma IdleTurn(s: State, t: Tick)
    requires !Effective(s, t)
    ensures Act(s, t) == s
  {
    if Enabled(s, t) {
      assert Do(s.db, s.workers[t.worker], t.abort) == Outcome(s.db, s.workers[t.worker], false);
    }
  }

  /**
   No run goes on for ever: whatever the scheduler does, the effective turns of a run that has not
   panicked are at most the cost of the state it started from.
   */
  lemma {:induction false} EffectiveTurnsBounded(p: Plan, s0: State, ticks: seq<Tick>, k: nat)
    requires Inv(p, s0) && ReachWithin(p.endnum, k) && !Run(s0, ticks).crashed
    ensures 0 <= TotalCost(p, k, Run(s0, ticks).workers)
    ensures Count(s0, ticks, Effective) + TotalCost(p, k, Run(s0, ticks).workers) <= TotalCost(p, k, s0.workers)
    decreases |ticks|
  {
    RunInv(p, s0, ticks);
    TotalPositive(p, Run(s0, ticks).db, Run(s0, ticks).workers, k);
    if ticks != [] {
      var before, t := ticks[..|ticks| - 1], ticks[|ticks| - 1];
      RunInv(p, s0, before);
      EffectiveTurnsBounded(p, s0, before, k);
      if Effective(Run(s0, before), t) {
        ActLowersCost(p, Run(s0, before), t, k);
      } else {
        IdleTurn(Run(s0, before), t);
      }
    }
  }

  /** The solver is never stuck: until all workers are done, some turn is effective. */
  lemma NeverStuck(s: State)
    requires !s.crashed && !AllDone(s)
    ensures exists t :: Effective(s, t)
  {
    var w :| 0 <= w < |s.workers| && s.workers[w].pc != Done;
    assert Effective(s, Tick(w, false));
  }

  /** Every number on a trajectory fits a subscript. */
  ghost predicate AllFit(endnum: int) {
    forall v :: OnTrajectory(endnum, v) ==> FitsSubscript(v)
  }

  lemma AllFitBelow(endnum: int)
    ensures AllFit(endnum) <==> forall v :: OnTrajectory(endnum, v) ==> v < SUBSCRIPT_LIMIT
  {
    forall v | OnTrajectory(endnum, v)
      ensures FitsSubscript(v) <==> v < SUBSCRIPT_LIMIT
    {
      var a: int, k: nat :| Meets(endnum, a, k, v);
      IterPositive(a, k);
      FitsSubscriptIff(v);
    }
  }

  ghost predicate ReachesOne(a: int) {
    exists k: nat :: Steps(a, k)
  }

  ghost predicate AllReachOne(endnum: int) {
    forall a :: 2 <= a <= endnum ==> ReachesOne(a)
  }

  /** The first k numbers on the trajectory of a. */
  ghost function Iterates(a: int, k: nat): set<int> {
    if k == 0 then {} else Iterates(a, k - 1) + {Iter(a, k - 1)}
  }

  lemma {:induction false} IteratesFit(endnum: int, hi: int, a: int, k: nat)
    requires forall v :: OnTrajectory(endnum, v) ==> v < hi
    requires 2 <= a <= endnum && Unfinished(a, k)
    ensures Iterates(a, k) <= Interval(2, hi)
    decreases k
  {
    if k > 0 {
      IteratesFit(endnum, hi, a, k - 1);
      IterPositive(a, k - 1);
      assert Meets(endnum, a, k - 1, Iter(a, k - 1));
      assert OnTrajectory(endnum, Iter(a, k - 1));
      assert Iter(a, k - 1) != 1;
    }
  }

  /** A trajectory of numbers that fit cannot be longer than there are such numbers. */
  lemma FittingWalkIsShort(endnum: int, a: int, k: nat, v: nat)
    requires 2 <= a <= endnum && AllFit(endnum) && Unfinished(a, k) && Steps(a, v)
    ensures FitsSubscript(k)
  {
    AllFitBelow(endnum);
    FitsSubscriptIff(k);
    var hi := SUBSCRIPT_LIMIT;
    DistinctIterates(a, k, k, v);
    IteratesFit(endnum, hi, a, k);
    SubsetSize(Iterates(a, k), Interval(2, hi));
  }

  lemma {:induction false} StepsAlong(a: int, j: nat, k: nat, v: nat)
    requires j <= k && Unfinished(a, k) && Steps(a, v)
    ensures j <= v && Steps(Iter(a, j), v - j)
    decreases j
  {
    if j > 0 {
      StepsAlong(a, j - 1, k, v);
      assert Iter(a, j - 1) != 1;
    }
  }

  lemma {:induction false} IteratesHasIndex(a: int, k: nat, x: int) returns (j: nat)
    requires x in Iterates(a, k)
    ensures j < k && x == Iter(a, j)
    decreases k
  {
    if x == Iter(a, k - 1) {
      j := k - 1;
    } else {
      j := IteratesHasIndex(a, k - 1, x);
    }
  }

  lemma {:induction false} DistinctIterates(a: int, i: nat, k: nat, v: nat)
    requires i <= k && Unfinished(a, k) && Steps(a, v)
    ensures |Iterates(a, i)| == i
    decreases i
  {
    if i > 0 {
      DistinctIterates(a, i - 1, k, v);
      if Iter(a, i - 1) in Iterates(a, i - 1) {
        var j := IteratesHasIndex(a, i - 1, Iter(a, i - 1));
        StepsAlong(a, j, k, v);
        StepsAlong(a, i - 1, k, v);
        StepsUnique(Iter(a, j), v - j, v - (i - 1));
      }
    }
  }

  /** When all numbers fit, no run panics. */
  lemma FittingRunsDoNotPanic(p: Plan, streams: nat, s: State)
    requires Reachable(p, streams, s) && AllFit(p.endnum) && AllReachOne(p.endnum)
    ensures !s.crashed
  {
    if s.crashed {
      PanicOnlyWhenTooLong(p, streams, s);
      var a, k: nat :| 2 <= a <= p.endnum && !FitsSubscript(k) && Unfinished(a, k);
      assert ReachesOne(a);
      var v: nat :| Steps(a, v);
      FittingWalkIsShort(p.endnum, a, k, v);
    }
  }

  lemma {:induction false} CommonBound(endnum: int) returns (k: nat)
    requires AllReachOne(endnum)
    ensures ReachWithin(endnum, k)
    decreases endnum
  {
    if endnum < 2 {
      k := 0;
    } else {
      var j := CommonBound(endnum - 1);
      assert ReachesOne(endnum);
      var v: nat :| Steps(endnum, v);
      k := Max(j, v);
      forall a | 2 <= a <= endnum
        ensures StepsAtMost(a, k)
      {
        assert a < endnum ==> StepsAtMost(a, j);
      }
    }
  }

  ghost predicate Completes(p: Plan, streams: nat) {
    exists s :: Reachable(p, streams, s) && AllDone(s)
  }

  lemma ReachableStep(p: Plan, streams: nat, s: State, t: Tick)
    requires Reachable(p, streams, s)
    ensures Reachable(p, streams, Act(s, t))
  {
    var zero, ticks :| Released(p, zero) && s == Run(Init(p.limits, streams, zero), ticks);
    RunSnoc(Init(p.limits, streams, zero), ticks, t);
  }

  lemma {:induction false} RunOn(p: Plan, streams: nat, s: State, k: nat, budget: nat)
    requires Reachable(p, streams, s) && AllFit(p.endnum) && AllReachOne(p.endnum) && ReachWithin(p.endnum, k)
    requires 0 <= p.endnum && TotalCost(p, k, s.workers) <= budget
    ensures Completes(p, streams)
    decreases budget
  {
    ReachableInv(p, streams, s);
    FittingRunsDoNotPanic(p, streams, s);
    if !AllDone(s) {
      NeverStuck(s);
      var t :| Effective(s, t);
      ReachableStep(p, streams, s, t);
      FittingRunsDoNotPanic(p, streams, Act(s, t));
      ActLowersCost(p, s, t, k);
      ReachableInv(p, streams, Act(s, t));
      TotalPositive(p, Act(s, t).db, Act(s, t).workers, k);
      RunOn(p, streams, Act(s, t), k, budget - 1);
    }
  }

  /** The solver can complete if and only if every trajectory reaches 1 through numbers of at most 18 digits. */
  lemma CompletesIff(p: Plan, streams: nat)
    requires Released(p, None) && 1 <= streams
    ensures Completes(p, streams) <==> AllReachOne(p.endnum) && AllFit(p.endnum)
  {
    if AllReachOne(p.endnum) && AllFit(p.endnum) {
      var k := CommonBound(p.endnum);
      assert Run(Init(p.limits, streams, None), []) == Init(p.limits, streams, None);
      var s0 := Init(p.limits, streams, None);
      InitInv(p, streams, None);
      TotalPositive(p, s0.db, s0.workers, k);
      RunOn(p, streams, s0, k, TotalCost(p, k, s0.workers));
    }
    if Completes(p, streams) {
      var s :| Reachable(p, streams, s) && AllDone(s);
      ReachableInv(p, streams, s);
      forall a | 2 <= a <= p.endnum
        ensures ReachesOne(a)
      {
        AllStartsDone(p, streams, s, a);
        EntryIsCount(p, s.db, a);
      }
      forall v | OnTrajectory(p.endnum, v)
        ensures v < SUBSCRIPT_LIMIT
      {
        FinalDomain(p, streams, s, v);
        assert EntryOk(p, s.db, v);
      }
      AllFitBelow(p.endnum);
    }
  }
}
