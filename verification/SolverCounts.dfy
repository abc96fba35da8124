/**
 How often things happen in a run of the solver: claims, entries into blocks, looks at ^step and
 writes to it. The counts are taken over the run itself, independently of the program's counters.
 */
module SolverCounts {
  import opened Options
  import opened Collatz
  import opened Blocks
  import opened Solver
  import opened SolverInvariant
  import opened SolverRuns

  /** The number of turns of the run from s0 at which `event` happens. */
  ghost function Count(s0: State, ticks: seq<Tick>, event: (State, Tick) -> bool): nat {
    if ticks == [] then 0
    else
      var before := ticks[..|ticks| - 1];
      Count(s0, before, event) + if event(Run(s0, before), ticks[|ticks| - 1]) then 1 else 0
  }

  predicate ActorAt(s: State, t: Tick, pc: Pc) {
    !s.crashed && t.worker < |s.workers| && s.workers[t.worker].pc == pc
  }

  /** Worker w increments the claim counter of block b. */
  predicate Claiming(s: State, t: Tick, w: nat, b: int) {
    t.worker == w && ActorAt(s, t, Claim) && s.workers[w].index == b
  }

  /** Some worker wins block b and goes on to process it. */
  predicate Entering(s: State, t: Tick, b: int) {
    ActorAt(s, t, Claim) && s.workers[t.worker].index == b && InBlock(Act(s, t).workers[t.worker].pc)
  }

  ghost function Looks(s0: State, ticks: seq<Tick>): nat {
    Count(s0, ticks, (s, t) => ActorAt(s, t, Check))
  }

  ghost function Writes(s0: State, ticks: seq<Tick>): nat {
    Count(s0, ticks, (s, t) => ActorAt(s, t, Publish))
  }

  // ----- claims

  lemma {:induction false} ClaimedOnceIfPast(p: Plan, s0: State, ticks: seq<Tick>, w: nat, b: int)
    requires Inv(p, s0) && w < |s0.workers| && b in p.limits && !Past(w, s0.workers[w], b)
    ensures |Run(s0, ticks).workers| == |s0.workers|
    ensures Count(s0, ticks, (s, t) => Claiming(s, t, w, b))
         == if Past(w, Run(s0, ticks).workers[w], b) then 1 else 0
    decreases |ticks|
  {
    RunInv(p, s0, ticks);
    if ticks != [] {
      var before, t := ticks[..|ticks| - 1], ticks[|ticks| - 1];
      ClaimedOnceIfPast(p, s0, before, w, b);
      RunInv(p, s0, before);
      var s := Run(s0, before);
      if Enabled(s, t) && t.worker == w {
        assert IndexOk(w, s.workers[w]);
        DoPast(s.db, w, s.workers[w], t.abort, b);
      }
    }
  }

  lemma {:induction false} EnteredOnceIfClaimed(p: Plan, s0: State, ticks: seq<Tick>, b: int)
    requires Inv(p, s0) && b !in s0.db.claims
    ensures Count(s0, ticks, (s, t) => Entering(s, t, b)) == if b in Run(s0, ticks).db.claims then 1 else 0
    decreases |ticks|
  {
    if ticks != [] {
      var before, t := ticks[..|ticks| - 1], ticks[|ticks| - 1];
      EnteredOnceIfClaimed(p, s0, before, b);
      RunInv(p, s0, before);
      EnterStep(p, Run(s0, before), t, b);
    }
  }

  lemma EnterStep(p: Plan, s: State, t: Tick, b: int)
    requires Inv(p, s)
    ensures Entering(s, t, b) ==> b !in s.db.claims
    ensures b in Act(s, t).db.claims <==> b in s.db.claims || Entering(s, t, b)
  {
    if Enabled(s, t) {
      var l := s.workers[t.worker];
      DoClaims(s.db, l, t.abort);
      assert b in s.db.claims <==> b in s.db.claims.Keys;
      assert b in Act(s, t).db.claims <==> b in Act(s, t).db.claims.Keys;
      if l.pc.Claim? && l.index == b {
        assert LocalOk(p, s.db, l) && b in p.limits && IndexOk(t.worker, l);
      }
    }
  }

  // ----- statistics

  ghost function Sum(ws: seq<Worker>, f: Worker -> int): int {
    if ws == [] then 0 else Sum(ws[..|ws| - 1], f) + f(ws[|ws| - 1])
  }

  lemma {:induction false} SumUpdate(ws: seq<Worker>, w: nat, l: Worker, f: Worker -> int)
    requires w < |ws|
    ensures Sum(ws[w := l], f) == Sum(ws, f) - f(ws[w]) + f(l)
  {
    var n := |ws| - 1;
    if w < n {
      SumUpdate(ws[..n], w, l, f);
      assert ws[w := l][..n] == ws[..n][w := l];
    } else {
      assert ws[w := l][..n] == ws[..n];
    }
  }

  lemma {:induction false} SumZero(ws: seq<Worker>, f: Worker -> int)
    requires forall w :: 0 <= w < |ws| ==> f(ws[w]) == 0
    ensures Sum(ws, f) == 0
  {
    if ws != [] {
      SumZero(ws[..|ws| - 1], f);
    }
  }

  /** Local statistics that have not been added to the shared ones yet. */
  function UnmergedReads(l: Worker): int {
    if l.pc.Done? then 0 else l.readCount
  }

  function UnmergedUpdates(l: Worker): int {
    if l.pc.Done? then 0 else l.updateCount
  }

  lemma DoCounts(db: Db, l: Worker, abort: bool)
    requires l.pc.Publish? ==> l.pos < |l.path|
    ensures var o := Do(db, l, abort);
      && o.db.readCount + UnmergedReads(o.worker)
         == db.readCount + UnmergedReads(l) + (if l.pc.Check? then 1 else 0)
      && o.db.updateCount + UnmergedUpdates(o.worker)
         == db.updateCount + UnmergedUpdates(l) + (if l.pc.Publish? then 1 else 0)
  {
    match l.pc
    case Check =>
    case Publish =>
    case _ =>
  }

  /** Counted once and only once, whatever transactions are repeated. */
  lemma {:induction false} StatisticsBalance(p: Plan, s0: State, ticks: seq<Tick>)
    requires Inv(p, s0)
    requires s0.db.readCount + Sum(s0.workers, UnmergedReads) == 0
    requires s0.db.updateCount + Sum(s0.workers, UnmergedUpdates) == 0
    ensures var s := Run(s0, ticks);
      && s.db.readCount + Sum(s.workers, UnmergedReads) == Looks(s0, ticks)
      && s.db.updateCount + Sum(s.workers, UnmergedUpdates) == Writes(s0, ticks)
    decreases |ticks|
  {
    if ticks != [] {
      var before, t := ticks[..|ticks| - 1], ticks[|ticks| - 1];
      StatisticsBalance(p, s0, before);
      RunInv(p, s0, before);
      var s := Run(s0, before);
      if Enabled(s, t) {
        var l := s.workers[t.worker];
        assert LocalOk(p, s.db, l);
        DoCounts(s.db, l, t.abort);
        SumUpdate(s.workers, t.worker, Do(s.db, l, t.abort).worker, UnmergedReads);
        SumUpdate(s.workers, t.worker, Do(s.db, l, t.abort).worker, UnmergedUpdates);
      }
    }
  }

  // ----- the size of ^step

  lemma {:induction false} SizeAtMostWrites(p: Plan, s0: State, ticks: seq<Tick>)
    requires Inv(p, s0) && s0.db.step == map[]
    ensures |Run(s0, ticks).db.step| <= Writes(s0, ticks)
    decreases |ticks|
  {
    if ticks != [] {
      var before, t := ticks[..|ticks| - 1], ticks[|ticks| - 1];
      SizeAtMostWrites(p, s0, before);
      RunInv(p, s0, before);
      var s := Run(s0, before);
      if Enabled(s, t) {
        assert LocalOk(p, s.db, s.workers[t.worker]);
        DoStep(s.db, s.workers[t.worker], t.abort);
        if ActorAt(s, t, Publish) {
          InsertSize(s.db.step, s.workers[t.worker].path[s.workers[t.worker].pos],
                     s.workers[t.worker].i - s.workers[t.worker].pos);
        }
      }
    }
  }

  lemma InsertSize(m: map<int, int>, k: int, v: int)
    ensures |m[k := v]| == |m| + if k in m then 0 else 1
  {
    assert m[k := v].Keys == m.Keys + {k};
    assert |m[k := v]| == |m[k := v].Keys| && |m| == |m.Keys|;
  }

  /** What is left to write of the path is not in ^step: true as long as nobody else writes. */
  ghost predicate RestIsNew(db: Db, l: Worker) {
    Walking(l.pc) ==> forall j :: 0 <= j < |l.path| && (l.pc.Publish? ==> l.pos <= j) ==> l.path[j] !in db.step
  }

  /** The numbers on a path are all different, because their step counts are. */
  lemma PathDistinct(l: Worker, i: nat, j: nat)
    requires CountsOk(l) && i < j < |l.path|
    ensures l.path[i] != l.path[j]
  {
    if l.path[i] == l.path[j] {
      StepsUnique(l.path[i], l.i - i, l.i - j);
    }
  }

  lemma DoRestIsNew(p: Plan, db: Db, l: Worker, abort: bool)
    requires LocalOk(p, db, l) && RestIsNew(db, l)
    ensures RestIsNew(Do(db, l, abort).db, Do(db, l, abort).worker)
  {
    if l.pc.Publish? {
      DoStep(db, l, abort);
      forall j | l.pos < j < |l.path|
        ensures l.path[j] !in Do(db, l, abort).db.step
      {
        PathDistinct(l, l.pos, j);
      }
    }
  }

  lemma {:induction false} SizeIsWritesForOneWorker(p: Plan, s0: State, ticks: seq<Tick>)
    requires Inv(p, s0) && s0.db.step == map[] && |s0.workers| == 1 && RestIsNew(s0.db, s0.workers[0])
    ensures |Run(s0, ticks).workers| == 1 && RestIsNew(Run(s0, ticks).db, Run(s0, ticks).workers[0])
    ensures |Run(s0, ticks).db.step| == Writes(s0, ticks)
    decreases |ticks|
  {
    if ticks != [] {
      var before, t := ticks[..|ticks| - 1], ticks[|ticks| - 1];
      SizeIsWritesForOneWorker(p, s0, before);
      RunInv(p, s0, before);
      var s := Run(s0, before);
      if Enabled(s, t) {
        var l := s.workers[0];
        assert LocalOk(p, s.db, l);
        DoRestIsNew(p, s.db, l, t.abort);
        DoStep(s.db, l, t.abort);
        if l.pc.Publish? {
          InsertSize(s.db.step, l.path[l.pos], l.i - l.pos);
        }
      }
    }
  }

  // ----- complete runs

  /** In a complete run every worker claims every block above its own start once, and each block is processed once. */
  lemma EachBlockOnce(p: Plan, streams: nat, zero: Option<int>, ticks: seq<Tick>, w: nat, b: int)
    requires Released(p, zero) && w < streams && 1 <= b <= p.count
    requires AllDone(Run(Init(p.limits, streams, zero), ticks))
    ensures Count(Init(p.limits, streams, zero), ticks, (s, t) => Claiming(s, t, w, b)) == if w < b then 1 else 0
    ensures Count(Init(p.limits, streams, zero), ticks, (s, t) => Entering(s, t, b)) == 1
  {
    var s0 := Init(p.limits, streams, zero);
    InitInv(p, streams, zero);
    RunInv(p, s0, ticks);
    ClaimedOnceIfPast(p, s0, ticks, w, b);
    EnteredOnceIfClaimed(p, s0, ticks, b);
    var s := Run(s0, ticks);
    assert LocalOk(p, s.db, s.workers[w]) && LocalOk(p, s.db, s.workers[0]);
    assert 0 in Visitors(s.workers, b);
  }

  /** At the end the shared statistics are what was done, and bound the size of ^step. */
  lemma FinalStatistics(p: Plan, streams: nat, zero: Option<int>, ticks: seq<Tick>)
    requires Released(p, zero) && AllDone(Run(Init(p.limits, streams, zero), ticks))
    ensures var s0 := Init(p.limits, streams, zero); var s := Run(s0, ticks);
      && s.db.readCount == Looks(s0, ticks)
      && s.db.updateCount == Writes(s0, ticks)
      && |s.db.step| <= s.db.updateCount
      && (streams == 1 ==> |s.db.step| == s.db.updateCount)
  {
    var s0 := Init(p.limits, streams, zero);
    InitInv(p, streams, zero);
    SumZero(s0.workers, UnmergedReads);
    SumZero(s0.workers, UnmergedUpdates);
    StatisticsBalance(p, s0, ticks);
    SumZero(Run(s0, ticks).workers, UnmergedReads);
    SumZero(Run(s0, ticks).workers, UnmergedUpdates);
    SizeAtMostWrites(p, s0, ticks);
    if streams == 1 {
      SizeIsWritesForOneWorker(p, s0, ticks);
    }
  }
}
