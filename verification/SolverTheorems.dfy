/** What the solver has computed when it is done, and what holds of it at every moment before. */
module SolverTheorems {
  import opened Intervals
  import opened Options
  import Text
  import opened Collatz
  import opened Blocks
  import opened Solver
  import opened SolverInvariant
  import opened SolverRuns

  ghost predicate StepsAtMost(a: int, r: int) {
    exists k: nat :: k <= r && Steps(a, k)
  }

  /** r is the largest step count of the starts 2..endnum, all of which reach 1. */
  ghost predicate IsLongest(endnum: int, r: int) {
    && (exists a :: 2 <= a <= endnum && r >= 0 && Steps(a, r))
    && (forall a :: 2 <= a <= endnum ==> StepsAtMost(a, r))
  }

  /** The trajectory of some start in 2..endnum has h after k steps, k positive, and not passed 1 before. */
  ghost predicate Visits(endnum: int, a: int, k: nat, h: int) {
    2 <= a <= endnum && 1 <= k && Unfinished(a, k) && Iter(a, k) == h
  }

  /** h is the largest number reached, after at least one step, from the starts 2..endnum. */
  ghost predicate IsHighest(endnum: int, h: int) {
    && (exists a, k :: Visits(endnum, a, k, h))
    && (forall a, k, v :: Visits(endnum, a, k, v) ==> v <= h)
  }

  /** The text of n fits the 18 characters of a subscript. */
  predicate FitsSubscript(n: int) {
    |Text.Itoa(n)| <= 18
  }

  /** The limit at which the solver panics is that of the text. */
  lemma FitsSubscriptIff(n: nat)
    ensures FitsSubscript(n) <==> n < SUBSCRIPT_LIMIT
  {
    assert Text.Tens(6) == 1_000_000;
    assert Text.Tens(12) == 1_000_000_000_000;
    assert Text.Tens(18) == SUBSCRIPT_LIMIT;
    Text.DigitCount(n, 18);
  }

  // ----- at every moment

  /** Under any interleaving every entry of ^step is the exact step count, and is there for good. */
  lemma EntriesExact(p: Plan, streams: nat, s: State, more: seq<Tick>, n: int)
    requires Reachable(p, streams, s) && n in s.db.step
    ensures 0 <= s.db.step[n] && Iter(n, s.db.step[n]) == 1 && Unfinished(n, s.db.step[n])
    ensures n in Run(s, more).db.step && Run(s, more).db.step[n] == s.db.step[n]
  {
    ReachableInv(p, streams, s);
    assert EntryOk(p, s.db, n);
    StepsIsFirstHit(n, s.db.step[n]);
    RunInv(p, s, more);
  }

  /** The number a worker is looking at lies on a trajectory, unless it is 1. */
  lemma WalkOnTrajectory(p: Plan, db: Db, l: Worker)
    requires LocalOk(p, db, l) && l.pc.Check?
    ensures Unfinished(l.current, l.i) && 1 <= l.current <= p.endnum
    ensures l.n != 1 ==> OnTrajectory(p.endnum, l.n)
    ensures 0 < l.i ==> 2 <= l.current
  {
    forall j: nat | j < l.i
      ensures Iter(l.current, j) != 1
    {
      assert l.path[j] == Iter(l.current, j);
    }
    if 0 < l.i {
      assert l.path[0] == Iter(l.current, 0);
    }
    if l.n != 1 {
      assert Meets(p.endnum, l.current, l.i, l.n);
    }
  }

  /** No worker ever fetches a node that is undefined; the only panic is for a subscript of more than 18 characters. */
  lemma PanicOnlyWhenTooLong(p: Plan, streams: nat, s: State)
    requires Reachable(p, streams, s) && s.crashed
    ensures (exists v :: OnTrajectory(p.endnum, v) && !FitsSubscript(v))
         || (exists a, k: nat :: 2 <= a <= p.endnum && !FitsSubscript(k) && Unfinished(a, k))
  {
    ReachableInv(p, streams, s);
    var w :| 0 <= w < |s.workers| && s.workers[w].pc.Check?
      && (s.workers[w].n >= SUBSCRIPT_LIMIT || s.workers[w].i >= SUBSCRIPT_LIMIT);
    var l := s.workers[w];
    WalkOnTrajectory(p, s.db, l);
    FitsSubscriptIff(if l.n >= SUBSCRIPT_LIMIT then l.n else l.i);
  }

  /**
   A turn is a panic exactly when the worker looks up a number that does not fit a subscript, or is to go
   on from an unknown one and its place in the path does not.
   */
  lemma PanicsIff(p: Plan, streams: nat, s: State, t: Tick)
    requires Reachable(p, streams, s) && Enabled(s, t)
    ensures var l := s.workers[t.worker];
      Act(s, t).crashed <==>
        l.pc.Check? && (!FitsSubscript(l.n) || (!Known(s.db, l.n) && !FitsSubscript(l.i)))
  {
    ReachableInv(p, streams, s);
    var l := s.workers[t.worker];
    assert LocalOk(p, s.db, l);
    DoOk(p, s.db, l, t.abort);
    if l.pc.Check? {
      IterPositive(l.current, l.i);
      FitsSubscriptIff(l.n);
      FitsSubscriptIff(l.i);
    }
  }

  /** Every step of a walk is taken on a number for which 64-bit arithmetic is exact. */
  lemma WalkNeverOverflows(p: Plan, streams: nat, s: State, t: Tick)
    requires Reachable(p, streams, s) && Enabled(s, t)
    ensures var l, l' := s.workers[t.worker], Act(s, t).workers[t.worker];
      l.pc.Check? && |l'.path| > |l.path| ==> l'.n == Next(l.n) && 3 * l.n + 1 < 0x8000_0000_0000_0000
  {
    ReachableInv(p, streams, s);
    var l := s.workers[t.worker];
    assert LocalOk(p, s.db, l);
    if l.pc.Check? && l.n < SUBSCRIPT_LIMIT {
      Next64Exact(l.n);
    }
  }

  /** In between, a missing successor is always in the unwritten rest of some worker's path. */
  lemma MissingSuccessorsArePending(p: Plan, streams: nat, s: State, n: int)
    requires Reachable(p, streams, s) && n in s.db.step && Next(n) != 1 && Next(n) !in s.db.step
    ensures exists w, j :: PendingAt(s.workers, w, j, Next(n))
  {
    ReachableInv(p, streams, s);
  }

  // ----- at the end

  lemma AllStartsDone(p: Plan, streams: nat, s: State, m: int)
    requires Inv(p, s) && |s.workers| == streams && 1 <= streams && AllDone(s)
    requires 2 <= m <= p.endnum
    ensures m in s.db.step
  {
    BlocksPartition(p, m);
    var b :| p.InBlock(b, m);
    assert LocalOk(p, s.db, s.workers[0]);
    assert 0 in Visitors(s.workers, b);
    assert b in s.db.claims;
    assert !WorkedOn(s.workers, b);
    assert Filled(p, s.db, b, p.limits[b] + 1);
  }

  /** All starts have their entries, and so has the successor of every entry. */
  ghost predicate Complete(endnum: int, db: Db) {
    && (forall m :: 2 <= m <= endnum ==> m in db.step)
    && (forall n :: n in db.step ==> Known(db, Next(n)))
  }

  lemma DoneIsComplete(p: Plan, streams: nat, s: State)
    requires Inv(p, s) && |s.workers| == streams && 1 <= streams && AllDone(s)
    ensures Complete(p.endnum, s.db)
  {
    forall m | 2 <= m <= p.endnum
      ensures m in s.db.step
    {
      AllStartsDone(p, streams, s, m);
    }
    forall n | n in s.db.step
      ensures Known(s.db, Next(n))
    {
      assert !Pending(s.workers, Next(n));
    }
  }

  lemma {:induction false} TrajectoryInDomain(endnum: int, db: Db, a: int, k: nat)
    requires Complete(endnum, db) && 2 <= a <= endnum && Unfinished(a, k + 1)
    ensures Iter(a, k) in db.step
    decreases k
  {
    if k > 0 {
      TrajectoryInDomain(endnum, db, a, k - 1);
      assert Iter(a, k) != 1;
    }
  }

  /** At the end ^step is defined for exactly the numbers above 1 on the trajectories from 2..endnum. */
  lemma FinalDomain(p: Plan, streams: nat, s: State, n: int)
    requires Reachable(p, streams, s) && 1 <= streams && AllDone(s)
    ensures n in s.db.step <==> OnTrajectory(p.endnum, n)
    ensures n in s.db.step ==> Next(n) == 1 || Next(n) in s.db.step
  {
    ReachableInv(p, streams, s);
    DoneIsComplete(p, streams, s);
    if OnTrajectory(p.endnum, n) {
      var a: int, k: nat :| Meets(p.endnum, a, k, n);
      TrajectoryInDomain(p.endnum, s.db, a, k);
    }
    if n in s.db.step {
      assert EntryOk(p, s.db, n);
    }
  }

  lemma EntryIsCount(p: Plan, db: Db, a: int)
    requires DbOk(p, db) && a in db.step
    ensures 1 <= db.step[a] <= OrZero(db.result) && Steps(a, db.step[a]) && StepsAtMost(a, OrZero(db.result))
  {
    assert EntryOk(p, db, a);
  }

  /** At the end ^result is defined and is the largest step count, also of numbers no worker walked to the end. */
  lemma FinalResult(p: Plan, streams: nat, s: State)
    requires Reachable(p, streams, s) && 1 <= streams && AllDone(s)
    ensures s.db.result.Some? && IsLongest(p.endnum, s.db.result.value)
  {
    ReachableInv(p, streams, s);
    forall a | 2 <= a <= p.endnum
      ensures StepsAtMost(a, OrZero(s.db.result)) && 1 <= OrZero(s.db.result)
    {
      AllStartsDone(p, streams, s, a);
      EntryIsCount(p, s.db, a);
    }
    assert StepsAtMost(2, OrZero(s.db.result));
  }

  lemma StepReachedIsVisited(p: Plan, v: int)
    requires OnTrajectory(p.endnum, v)
    ensures exists a, k :: Visits(p.endnum, a, k, Next(v))
  {
    var a: int, k: nat :| Meets(p.endnum, a, k, v);
    assert Visits(p.endnum, a, k + 1, Next(v));
  }

  lemma SuccessorsMerged(p: Plan, s: State, n: int)
    requires LocalsOk(p, s) && HighestCovers(s) && AllDone(s) && n in s.db.step
    ensures Next(n) <= OrZero(s.db.highest)
  {
    assert Seen(s.workers, Next(n));
    var w :| 0 <= w < |s.workers| && Next(n) <= s.workers[w].highest;
    assert LocalOk(p, s.db, s.workers[w]);
  }

  lemma HighestBound(endnum: int, db: Db, h: int, a: int, k: nat, v: int)
    requires Complete(endnum, db) && Visits(endnum, a, k, v)
    requires forall n :: n in db.step ==> Next(n) <= h
    ensures v <= h
  {
    var u := Iter(a, k - 1);
    TrajectoryInDomain(endnum, db, a, k - 1);
    assert v == Next(u);
  }

  /** At the end ^highest is defined and is the largest number reached, although every walk stops at known numbers. */
  lemma FinalHighest(p: Plan, streams: nat, s: State)
    requires Reachable(p, streams, s) && 1 <= streams && AllDone(s)
    ensures s.db.highest.Some? && IsHighest(p.endnum, s.db.highest.value)
  {
    ReachableInv(p, streams, s);
    DoneIsComplete(p, streams, s);
    var h := OrZero(s.db.highest);
    forall n | n in s.db.step
      ensures Next(n) <= h
    {
      SuccessorsMerged(p, s, n);
    }
    forall a, k: nat, v | Visits(p.endnum, a, k, v)
      ensures v <= h
    {
      HighestBound(p.endnum, s.db, h, a, k, v);
    }
    HalfOfTwo(p.endnum);
    assert 1 <= h;
    var v :| OnTrajectory(p.endnum, v) && h == Next(v);
    StepReachedIsVisited(p, v);
  }

  lemma HalfOfTwo(endnum: int)
    requires 2 <= endnum
    ensures Visits(endnum, 2, 1, 1)
  {
    assert Iter(2, 0) == 2;
  }

  /** At the end the claim counter of block b is the number of workers that pass it: min(streams, b). */
  lemma FinalClaims(p: Plan, streams: nat, s: State, b: int)
    requires Reachable(p, streams, s) && 1 <= streams && AllDone(s)
    ensures b in s.db.claims <==> 1 <= b <= p.count
    ensures 1 <= b <= p.count ==> s.db.claims[b] == if streams < b then streams else b
  {
    ReachableInv(p, streams, s);
    if 1 <= b <= p.count {
      forall w | 0 <= w < |s.workers|
        ensures p.count < s.workers[w].index
      {
        assert LocalOk(p, s.db, s.workers[w]);
      }
      var m := if streams < b then streams else b;
      assert Visitors(s.workers, b) == Interval(0, m);
    }
  }
}
