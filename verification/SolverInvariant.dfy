/**
 What every step of the solver keeps.

 `DbOk` speaks of the database alone and `LocalOk` of one worker against the database.
 `LocalOk` survives any growth of the database, and every step only grows it, so a worker's
 knowledge outlives the steps of the others: that is why the workers need no locks.
 */
module SolverInvariant {
  import opened Options
  import opened Words
  import opened Collatz
  import opened Blocks
  import opened Solver

  /** v is met on the trajectory of some start in 2..endnum before that trajectory reaches 1. */
  ghost predicate OnTrajectory(endnum: int, v: int) {
    exists a: int, k: nat :: Meets(endnum, a, k, v)
  }

  ghost predicate Meets(endnum: int, a: int, k: nat, v: int) {
    2 <= a <= endnum && Unfinished(a, k + 1) && Iter(a, k) == v
  }

  /** h is 0, or is reached by one step from a number on a trajectory. */
  ghost predicate Attained(endnum: int, h: int) {
    h == 0 || exists v :: OnTrajectory(endnum, v) && h == Next(v)
  }

  /** r is 0, or is the step count of some start in 2..endnum. */
  ghost predicate ResultAttained(endnum: int, r: int) {
    r <= 0 || exists a :: 2 <= a <= endnum && Steps(a, r)
  }

  /** An entry of ^step is right, is not above ^result, and belongs to a number of the problem. */
  ghost predicate EntryOk(p: Plan, db: Db, n: int)
    requires n in db.step
  {
    && 1 < n < SUBSCRIPT_LIMIT
    && 0 <= db.step[n] <= OrZero(db.result)
    && Steps(n, db.step[n])
    && OnTrajectory(p.endnum, n)
  }

  ghost predicate DbOk(p: Plan, db: Db) {
    && p.Valid()
    && 2 <= p.endnum < INT64_LIMIT
    && db.limits == p.limits
    && (forall n :: n in db.step ==> EntryOk(p, db, n))
    && 0 <= OrZero(db.result)
    && ResultAttained(p.endnum, OrZero(db.result))
    && 0 <= OrZero(db.highest)
    && Attained(p.endnum, OrZero(db.highest))
  }

  /** The database only grows: no entry of ^step is ever changed or removed. */
  ghost predicate Grows(db: Db, db': Db) {
    && db'.limits == db.limits
    && (forall n :: n in db.step ==> n in db'.step && db'.step[n] == db.step[n])
    && OrZero(db.result) <= OrZero(db'.result)
    && OrZero(db.highest) <= OrZero(db'.highest)
  }

  predicate InBlock(pc: Pc) {
    pc.FetchEnd? || pc.FetchStart? || Walking(pc)
  }

  predicate Walking(pc: Pc) {
    pc.Check? || pc.Fetch? || pc.Raise? || pc.Publish?
  }

  /** Every number of the block before `upto` has its entry, 1 excepted. */
  ghost predicate Filled(p: Plan, db: Db, b: int, upto: int) {
    forall m :: p.Lo(b) <= m < upto && m > 1 ==> m in db.step
  }

  /** The path holds the trajectory of `current` so far. */
  ghost predicate PathOk(l: Worker) {
    && (forall j :: 0 <= j < |l.path| ==> l.path[j] == Iter(l.current, j) && 1 < l.path[j] < SUBSCRIPT_LIMIT)
    && (forall j :: 0 <= j < |l.path| ==> Next(l.path[j]) <= l.highest)
  }

  /** Once `i` is final it gives the step count of every number on the path. */
  ghost predicate CountsOk(l: Worker) {
    && 0 < |l.path| <= l.i
    && forall j :: 0 <= j < |l.path| ==> Steps(l.path[j], l.i - j)
  }

  /** Where the path stopped, the rest of the trajectory is known. */
  ghost predicate EndKnown(db: Db, l: Worker) {
    0 < |l.path| && Known(db, Next(l.path[|l.path| - 1]))
  }

  ghost predicate WalkOk(p: Plan, db: Db, l: Worker) {
    && l.index in p.limits
    && l.blkend == p.limits[l.index]
    && p.Lo(l.index) <= l.current <= l.blkend
    && 1 <= l.current <= p.endnum
    && Filled(p, db, l.index, l.current)
    && PathOk(l)
    && (l.pc.Check? || l.pc.Fetch? ==> l.i == |l.path| && l.n == Iter(l.current, l.i) && 1 <= l.n < INT64_LIMIT)
    && (l.pc.Fetch? ==> 0 < l.i && 1 < l.n && l.n in db.step)
    && (l.pc.Raise? || l.pc.Publish? ==> CountsOk(l) && EndKnown(db, l))
    && (l.pc.Publish? ==>
          && l.pos < |l.path| && l.i <= OrZero(db.result)
          && forall j :: 0 <= j < l.pos ==> l.path[j] in db.step)
  }

  ghost predicate LocalOk(p: Plan, db: Db, l: Worker) {
    && 0 <= l.index
    && (l.pc.Claim? || InBlock(l.pc) ==> l.index in p.limits)
    && (l.pc.FetchStart? ==> l.index != 1 && l.blkend == p.limits[l.index])
    && (Walking(l.pc) ==> WalkOk(p, db, l))
    && (l.pc.Merge? || l.pc.Done? ==> p.count < l.index)
    && (l.pc.Done? ==> l.highest <= OrZero(db.highest))
    && 0 <= l.highest
    && Attained(p.endnum, l.highest)
  }

  /** What one worker knows is not disturbed by what the others do. */
  lemma LocalStable(p: Plan, db: Db, db': Db, l: Worker)
    requires LocalOk(p, db, l) && Grows(db, db')
    ensures LocalOk(p, db', l)
  {
  }

  lemma OnTrajectoryPath(p: Plan, l: Worker, j: nat)
    requires PathOk(l) && j < |l.path| && 1 <= l.current <= p.endnum
    ensures OnTrajectory(p.endnum, l.path[j])
  {
    assert l.path[0] == Iter(l.current, 0);
    forall i: nat | i < j + 1
      ensures Iter(l.current, i) != 1
    {
      assert l.path[i] == Iter(l.current, i);
    }
    assert Meets(p.endnum, l.current, j, l.path[j]);
  }

  /** From the step count where the path stopped, the step counts along the path. */
  lemma CountsFromEnd(l: Worker, v: nat)
    requires PathOk(l) && Steps(Iter(l.current, |l.path|), v) && 0 < |l.path|
    ensures CountsOk(l.(i := |l.path| + v))
  {
    forall j | 0 <= j < |l.path|
      ensures Steps(l.path[j], |l.path| + v - j)
    {
      var k := |l.path| - j;
      forall i: nat | i < k
        ensures Iter(l.path[j], i) != 1
      {
        IterAdd(l.current, j, i);
        assert l.path[j + i] == Iter(l.current, j + i);
      }
      IterAdd(l.current, j, k);
      StepsExtend(l.path[j], k, v);
    }
  }

  lemma StartOk(p: Plan, db: Db, l: Worker)
    requires DbOk(p, db) && 0 <= l.highest && Attained(p.endnum, l.highest)
    requires l.index in p.limits && l.blkend == p.limits[l.index]
    requires p.Lo(l.index) <= l.current <= l.blkend + 1
    requires Filled(p, db, l.index, l.current)
    ensures LocalOk(p, db, StartNumber(l))
    ensures StartNumber(l).pc.Probe? ==> Filled(p, db, l.index, p.limits[l.index] + 1)
  {
    if l.current <= l.blkend {
      BlockInRange(p, l.index, l.current);
    }
  }

  /** The number `current` has got its entry, so the worker turns to the next one. */
  lemma NextOk(p: Plan, db: Db, l: Worker)
    requires DbOk(p, db) && 0 <= l.highest && Attained(p.endnum, l.highest)
    requires l.index in p.limits && l.blkend == p.limits[l.index]
    requires p.Lo(l.index) <= l.current <= l.blkend
    requires Filled(p, db, l.index, l.current) && Known(db, l.current)
    ensures LocalOk(p, db, NextNumber(l))
    ensures NextNumber(l).pc.Probe? ==> Filled(p, db, l.index, p.limits[l.index] + 1)
  {
    StartOk(p, db, l.(current := l.current + 1));
  }

  /** The worker's step is guaranteed to keep both invariants and to grow the database. */
  ghost predicate Guarantee(p: Plan, db: Db, l: Worker, o: Outcome) {
    && DbOk(p, o.db)
    && Grows(db, o.db)
    && LocalOk(p, o.db, o.worker)
    && (InBlock(l.pc) && o.worker.pc.Probe? ==>
          l.index in p.limits && Filled(p, o.db, l.index, p.limits[l.index] + 1))
    && (o.crashed ==> l.pc.Check? && (l.n >= SUBSCRIPT_LIMIT || l.i >= SUBSCRIPT_LIMIT))
  }

  lemma CheckOk(p: Plan, db: Db, l: Worker)
    requires DbOk(p, db) && LocalOk(p, db, l) && l.pc.Check?
    ensures Guarantee(p, db, l, DoCheck(db, l))
  {
    var o := DoCheck(db, l);
    if o.crashed {
    } else if Known(db, l.n) {
      if l.i == 0 {
        NextOk(p, db, l.(readCount := l.readCount + 1));
      } else if l.n == 1 {
        CountsFromEnd(l, 0);
        assert Next(l.path[|l.path| - 1]) == l.n;
      }
    } else {
      StepTakenOk(p, db, l);
    }
  }

  lemma StepTakenOk(p: Plan, db: Db, l: Worker)
    requires DbOk(p, db) && LocalOk(p, db, l) && l.pc.Check?
    requires l.n < SUBSCRIPT_LIMIT && l.i < SUBSCRIPT_LIMIT && !Known(db, l.n)
    ensures LocalOk(p, db, DoCheck(db, l).worker)
  {
    var l' := DoCheck(db, l).worker;
    Next64Exact(l.n);
    assert PathOk(l');
    OnTrajectoryPath(p, l', l.i);
    assert l'.path[l.i] == l.n;
  }

  lemma FetchOk(p: Plan, db: Db, l: Worker)
    requires DbOk(p, db) && LocalOk(p, db, l) && l.pc.Fetch?
    ensures Guarantee(p, db, l, Do(db, l, false))
  {
    CountsFromEnd(l, db.step[l.n]);
    assert Next(l.path[|l.path| - 1]) == l.n;
  }

  lemma RaiseOk(p: Plan, db: Db, l: Worker)
    requires DbOk(p, db) && LocalOk(p, db, l) && l.pc.Raise?
    ensures Guarantee(p, db, l, Do(db, l, false))
  {
    assert l.path[0] == Iter(l.current, 0) == l.current;
    assert Steps(l.path[0], l.i - 0);
    assert ResultAttained(p.endnum, l.i);
    var db' := Do(db, l, false).db;
    assert forall n :: n in db'.step ==> EntryOk(p, db, n);
  }

  /** A second write to the same entry writes the value that is there. */
  lemma PublishAgrees(p: Plan, db: Db, l: Worker)
    requires DbOk(p, db) && LocalOk(p, db, l) && l.pc.Publish?
    ensures l.path[l.pos] in db.step ==> db.step[l.path[l.pos]] == l.i - l.pos
  {
    var v := l.path[l.pos];
    if v in db.step {
      assert EntryOk(p, db, v);
      StepsUnique(v, db.step[v], l.i - l.pos);
    }
  }

  lemma PublishDb(p: Plan, db: Db, l: Worker)
    requires DbOk(p, db) && LocalOk(p, db, l) && l.pc.Publish?
    ensures DbOk(p, DoPublish(db, l).db) && Grows(db, DoPublish(db, l).db)
  {
    PublishAgrees(p, db, l);
    OnTrajectoryPath(p, l, l.pos);
    var db' := DoPublish(db, l).db;
    forall n | n in db'.step
      ensures EntryOk(p, db', n)
    {
      assert n != l.path[l.pos] ==> EntryOk(p, db, n);
    }
  }

  lemma PublishOk(p: Plan, db: Db, l: Worker)
    requires DbOk(p, db) && LocalOk(p, db, l) && l.pc.Publish?
    ensures Guarantee(p, db, l, DoPublish(db, l))
  {
    PublishDb(p, db, l);
    var o := DoPublish(db, l);
    LocalStable(p, db, o.db, l);
    if l.pos + 1 == |l.path| {
      assert l.path[0] == Iter(l.current, 0);
      assert l.current in o.db.step;
      NextOk(p, o.db, l.(pos := l.pos + 1, updateCount := l.updateCount + 1));
    } else {
      assert WalkOk(p, o.db, l);
      assert WalkOk(p, o.db, o.worker);
    }
  }

  lemma MergeOk(p: Plan, db: Db, l: Worker)
    requires DbOk(p, db) && LocalOk(p, db, l) && l.pc.Merge?
    ensures Guarantee(p, db, l, DoMerge(db, l))
  {
    var db' := DoMerge(db, l).db;
    assert forall n :: n in db'.step ==> EntryOk(p, db, n);
  }

  lemma ClaimingOk(p: Plan, db: Db, l: Worker, abort: bool)
    requires DbOk(p, db) && LocalOk(p, db, l)
    requires l.pc.Probe? || l.pc.Claim? || l.pc.FetchEnd? || l.pc.FetchStart?
    ensures Guarantee(p, db, l, Do(db, l, abort))
  {
    var o := Do(db, l, abort);
    assert forall n :: n in o.db.step ==> EntryOk(p, db, n);
    match l.pc
    case FetchEnd =>
      if l.index == 1 {
        assert p.Lo(1) <= p.limits[1];
        StartOk(p, db, l.(blkend := db.limits[l.index], current := 1));
      }
    case FetchStart =>
      assert p.Lo(l.index) <= p.limits[l.index];
      StartOk(p, db, l.(current := db.limits[l.index - 1] + 1));
    case _ =>
  }

  /** Whatever a worker does next, it keeps the invariants; it panics only on a number too long for a subscript. */
  lemma DoOk(p: Plan, db: Db, l: Worker, abort: bool)
    requires DbOk(p, db) && LocalOk(p, db, l)
    ensures Guarantee(p, db, l, Do(db, l, abort))
  {
    match l.pc
    case Check => CheckOk(p, db, l);
    case Fetch => FetchOk(p, db, l);
    case Raise => if !abort { RaiseOk(p, db, l); }
    case Publish => PublishOk(p, db, l);
    case Merge => if !abort { MergeOk(p, db, l); }
    case Done =>
    case _ => ClaimingOk(p, db, l, abort);
  }
}
