/**
 The invariant of the whole solver, over every interleaving of any number of workers with any
 number of aborted transactions.
 */
module SolverRuns {
  import opened Options
  import opened Words
  import opened Collatz
  import opened Blocks
  import opened Solver
  import opened SolverInvariant

  /** Worker w, whose first index is w + 1, has made its claim on block b. */
  predicate Past(w: int, l: Worker, b: int) {
    w < b && (b < l.index || (b == l.index && !l.pc.Claim?))
  }

  ghost function Visitors(ws: seq<Worker>, b: int): set<int> {
    set w | 0 <= w < |ws| && Past(w, ws[w], b)
  }

  function ClaimCount(db: Db, b: int): int {
    if b in db.claims then db.claims[b] else 0
  }

  ghost predicate ClaimsOk(p: Plan, s: State) {
    && (forall b :: b in s.db.claims ==> b in p.limits && 1 <= s.db.claims[b])
    && (forall b :: b in p.limits ==> ClaimCount(s.db, b) == |Visitors(s.workers, b)|)
    && (forall w :: 0 <= w < |s.workers| ==> IndexOk(w, s.workers[w]))
  }

  /** Indices are visited in order, from w + 1 on. */
  predicate IndexOk(w: int, l: Worker) {
    if l.pc.Probe? then w <= l.index else w < l.index
  }

  ghost predicate WorkedOn(ws: seq<Worker>, b: int) {
    exists w :: 0 <= w < |ws| && InBlock(ws[w].pc) && ws[w].index == b
  }

  /** A claimed block is finished, or some worker is inside it. */
  ghost predicate BlocksOk(p: Plan, s: State) {
    forall b :: b in s.db.claims ==>
      b in p.limits && (Filled(p, s.db, b, p.limits[b] + 1) || WorkedOn(s.workers, b))
  }

  /** x waits in the part of a path that a worker has not written yet. */
  ghost predicate Pending(ws: seq<Worker>, x: int) {
    exists w, j :: PendingAt(ws, w, j, x)
  }

  predicate PendingAt(ws: seq<Worker>, w: int, j: int, x: int) {
    0 <= w < |ws| && ws[w].pc.Publish? && ws[w].pos <= j < |ws[w].path| && ws[w].path[j] == x
  }

  /** The entries are closed under the 3n+1 map, except for successors still waiting to be written. */
  ghost predicate Closed(s: State) {
    forall n :: n in s.db.step ==> Known(s.db, Next(n)) || Pending(s.workers, Next(n))
  }

  ghost predicate Seen(ws: seq<Worker>, x: int) {
    exists w :: 0 <= w < |ws| && x <= ws[w].highest
  }

  ghost predicate HighestCovers(s: State) {
    forall n :: n in s.db.step ==> Seen(s.workers, Next(n))
  }

  /** A worker met a number, or made a path, too long for an 18 digit subscript. */
  ghost predicate TooLong(ws: seq<Worker>) {
    exists w :: 0 <= w < |ws| && ws[w].pc.Check? && (ws[w].n >= SUBSCRIPT_LIMIT || ws[w].i >= SUBSCRIPT_LIMIT)
  }

  ghost predicate LocalsOk(p: Plan, s: State) {
    forall w :: 0 <= w < |s.workers| ==> LocalOk(p, s.db, s.workers[w])
  }

  ghost predicate Inv(p: Plan, s: State) {
    && DbOk(p, s.db)
    && LocalsOk(p, s)
    && ClaimsOk(p, s)
    && BlocksOk(p, s)
    && Closed(s)
    && HighestCovers(s)
    && (s.crashed ==> TooLong(s.workers))
  }

  ghost predicate Enabled(s: State, t: Tick) {
    !s.crashed && t.worker < |s.workers|
  }

  // ----- every step keeps each part

  lemma ActLocals(p: Plan, s: State, t: Tick)
    requires DbOk(p, s.db) && LocalsOk(p, s) && Enabled(s, t)
    ensures Guarantee(p, s.db, s.workers[t.worker], Do(s.db, s.workers[t.worker], t.abort))
    ensures DbOk(p, Act(s, t).db) && Grows(s.db, Act(s, t).db) && LocalsOk(p, Act(s, t))
  {
    DoOk(p, s.db, s.workers[t.worker], t.abort);
    var s' := Act(s, t);
    forall w | 0 <= w < |s'.workers|
      ensures LocalOk(p, s'.db, s'.workers[w])
    {
      if w != t.worker { LocalStable(p, s.db, s'.db, s.workers[w]); }
    }
  }

  /** A worker's step moves its claims on by exactly the block it increments the counter of. */
  lemma DoPast(db: Db, w: int, l: Worker, abort: bool, b: int)
    requires IndexOk(w, l) && b in db.limits
    ensures IndexOk(w, Do(db, l, abort).worker)
    ensures Past(w, Do(db, l, abort).worker, b) <==> Past(w, l, b) || (l.pc.Claim? && l.index == b)
    ensures l.pc.Claim? && l.index == b ==> !Past(w, l, b)
    ensures ClaimCount(Do(db, l, abort).db, b)
         == ClaimCount(db, b) + if l.pc.Claim? && l.index == b then 1 else 0
  {
  }

  lemma DoClaims(db: Db, l: Worker, abort: bool)
    ensures var o := Do(db, l, abort);
      o.db.claims.Keys == db.claims.Keys + if l.pc.Claim? then {l.index} else {}
    ensures (forall b :: b in db.claims ==> 1 <= db.claims[b])
        ==> forall b :: b in Do(db, l, abort).db.claims ==> 1 <= Do(db, l, abort).db.claims[b]
  {
  }

  /** Replacing worker w by one that has also passed block b, if `hit`, adds it to the visitors of b. */
  lemma VisitorsUpdate(ws: seq<Worker>, w: nat, l: Worker, b: int, hit: bool)
    requires w < |ws|
    requires Past(w, l, b) <==> Past(w, ws[w], b) || hit
    requires hit ==> !Past(w, ws[w], b)
    ensures |Visitors(ws[w := l], b)| == |Visitors(ws, b)| + if hit then 1 else 0
  {
    var before, after := Visitors(ws, b), Visitors(ws[w := l], b);
    forall v | v != w
      ensures v in after <==> v in before
    {
    }
    assert w in after <==> w in before || hit;
    if hit {
      assert after == before + {w};
    } else {
      assert after == before;
    }
  }

  lemma ActCount(s: State, t: Tick, b: int)
    requires Enabled(s, t) && b in s.db.limits && IndexOk(t.worker, s.workers[t.worker])
    requires ClaimCount(s.db, b) == |Visitors(s.workers, b)|
    ensures ClaimCount(Act(s, t).db, b) == |Visitors(Act(s, t).workers, b)|
  {
    var w, l := t.worker, s.workers[t.worker];
    DoPast(s.db, w, l, t.abort, b);
    VisitorsUpdate(s.workers, w, Do(s.db, l, t.abort).worker, b, l.pc.Claim? && l.index == b);
  }

  lemma ActIndices(s: State, t: Tick)
    requires Enabled(s, t) && forall w :: 0 <= w < |s.workers| ==> IndexOk(w, s.workers[w])
    ensures forall w :: 0 <= w < |s.workers| ==> IndexOk(w, Act(s, t).workers[w])
  {
    assert IndexOk(t.worker, s.workers[t.worker]);
    assert IndexOk(t.worker, Do(s.db, s.workers[t.worker], t.abort).worker);
  }

  lemma ActClaims(p: Plan, s: State, t: Tick)
    requires ClaimsOk(p, s) && Enabled(s, t) && s.db.limits == p.limits
    requires s.workers[t.worker].pc.Claim? ==> s.workers[t.worker].index in p.limits
    ensures ClaimsOk(p, Act(s, t))
  {
    ActIndices(s, t);
    DoClaims(s.db, s.workers[t.worker], t.abort);
    var db' := Act(s, t).db;
    assert forall b :: b in db'.claims ==> b in db'.claims.Keys;
    forall b | b in p.limits
      ensures ClaimCount(db', b) == |Visitors(Act(s, t).workers, b)|
    {
      assert IndexOk(t.worker, s.workers[t.worker]);
      ActCount(s, t, b);
    }
  }

  /** A worker enters the block it has claimed, and leaves it by way of Probe. */
  lemma DoInBlock(db: Db, l: Worker, abort: bool)
    ensures var o := Do(db, l, abort);
      && (InBlock(l.pc) && !o.crashed ==> o.worker.index == l.index && (InBlock(o.worker.pc) || o.worker.pc.Probe?))
      && (o.crashed ==> o.worker.pc == l.pc && o.worker.index == l.index)
      && (l.pc.Claim? && l.index !in db.claims ==> InBlock(o.worker.pc) && o.worker.index == l.index)
  {
  }

  lemma ActBlocks(p: Plan, s: State, t: Tick)
    requires Enabled(s, t) && BlocksOk(p, s) && Grows(s.db, Act(s, t).db)
    requires s.workers[t.worker].pc.Claim? ==> s.workers[t.worker].index in p.limits
    requires Guarantee(p, s.db, s.workers[t.worker], Do(s.db, s.workers[t.worker], t.abort))
    ensures BlocksOk(p, Act(s, t))
  {
    var w, l := t.worker, s.workers[t.worker];
    var o := Do(s.db, l, t.abort);
    var ws := s.workers[w := o.worker];
    DoClaims(s.db, l, t.abort);
    DoInBlock(s.db, l, t.abort);
    assert ws[w] == o.worker;
    forall b | b in o.db.claims
      ensures b in p.limits && (Filled(p, o.db, b, p.limits[b] + 1) || WorkedOn(ws, b))
    {
      assert b in o.db.claims.Keys;
      if b !in s.db.claims {
        assert InBlock(ws[w].pc) && ws[w].index == b;
      } else if !Filled(p, s.db, b, p.limits[b] + 1) {
        var v :| 0 <= v < |s.workers| && InBlock(s.workers[v].pc) && s.workers[v].index == b;
        assert v != w ==> ws[v] == s.workers[v];
        assert v == w && InBlock(o.worker.pc) ==> InBlock(ws[w].pc) && ws[w].index == b;
      }
    }
  }

  /** ^step changes only when a worker publishes, and then by the entry at its place on the path. */
  lemma DoStep(db: Db, l: Worker, abort: bool)
    requires l.pc.Publish? ==> l.pos < |l.path|
    ensures var o := Do(db, l, abort);
      if l.pc.Publish? then
        && o.db.step == db.step[l.path[l.pos] := l.i - l.pos]
        && (l.pos + 1 < |l.path| ==> o.worker == l.(pos := l.pos + 1, updateCount := l.updateCount + 1))
      else o.db.step == db.step
    ensures l.highest <= Do(db, l, abort).worker.highest
  {
  }

  lemma PathNext(l: Worker, j: int)
    requires PathOk(l) && 0 <= j && j + 1 < |l.path|
    ensures l.path[j + 1] == Next(l.path[j])
  {
    assert l.path[j + 1] == Iter(l.current, j + 1);
  }

  lemma ActClosed(p: Plan, s: State, t: Tick)
    requires Enabled(s, t) && Closed(s) && LocalOk(p, s.db, s.workers[t.worker])
    ensures Closed(Act(s, t))
  {
    var w, l := t.worker, s.workers[t.worker];
    var o := Do(s.db, l, t.abort);
    var ws := s.workers[w := o.worker];
    DoStep(s.db, l, t.abort);
    assert ws[w] == o.worker;
    forall n | n in o.db.step
      ensures Known(o.db, Next(n)) || Pending(ws, Next(n))
    {
      if n in s.db.step {
        if Pending(s.workers, Next(n)) {
          var v, j :| PendingAt(s.workers, v, j, Next(n));
          assert v != w || j != l.pos ==> PendingAt(ws, v, j, Next(n));
        }
      } else if l.pos + 1 < |l.path| {
        PathNext(l, l.pos);
        assert PendingAt(ws, w, l.pos + 1, Next(n));
      }
    }
  }

  lemma ActHighest(p: Plan, s: State, t: Tick)
    requires Enabled(s, t) && HighestCovers(s) && LocalOk(p, s.db, s.workers[t.worker])
    ensures HighestCovers(Act(s, t))
  {
    var w, l := t.worker, s.workers[t.worker];
    var o := Do(s.db, l, t.abort);
    var ws := s.workers[w := o.worker];
    DoStep(s.db, l, t.abort);
    assert ws[w] == o.worker;
    forall n | n in o.db.step
      ensures Seen(ws, Next(n))
    {
      if n in s.db.step {
        var v :| 0 <= v < |s.workers| && Next(n) <= s.workers[v].highest;
        assert Next(n) <= ws[v].highest;
      } else {
        assert Next(n) <= ws[w].highest;
      }
    }
  }

  lemma ActCrash(p: Plan, s: State, t: Tick)
    requires Enabled(s, t)
    requires Guarantee(p, s.db, s.workers[t.worker], Do(s.db, s.workers[t.worker], t.abort))
    ensures Act(s, t).crashed ==> TooLong(Act(s, t).workers)
  {
    var o := Do(s.db, s.workers[t.worker], t.abort);
    if o.crashed {
      assert Act(s, t).workers[t.worker] == o.worker;
    }
  }

  lemma ActInv(p: Plan, s: State, t: Tick)
    requires Inv(p, s)
    ensures Inv(p, Act(s, t)) && Grows(s.db, Act(s, t).db)
  {
    if Enabled(s, t) {
      ActLocals(p, s, t);
      ActClaims(p, s, t);
      ActBlocks(p, s, t);
      ActClosed(p, s, t);
      ActHighest(p, s, t);
      ActCrash(p, s, t);
    }
  }

  ghost predicate Released(p: Plan, zero: Option<int>) {
    p.Valid() && 2 <= p.endnum < INT64_LIMIT && OrZero(zero) == 0
  }

  lemma InitInv(p: Plan, streams: nat, zero: Option<int>)
    requires Released(p, zero)
    ensures Inv(p, Init(p.limits, streams, zero))
  {
    var s := Init(p.limits, streams, zero);
    forall b | b in p.limits
      ensures Visitors(s.workers, b) == {}
    {
    }
  }

  /** The invariant holds in every reachable state. */
  lemma {:induction false} RunInv(p: Plan, s: State, ticks: seq<Tick>)
    requires Inv(p, s)
    ensures Inv(p, Run(s, ticks)) && Grows(s.db, Run(s, ticks).db)
    ensures |Run(s, ticks).workers| == |s.workers|
    decreases |ticks|
  {
    if ticks != [] {
      var before := ticks[..|ticks| - 1];
      RunInv(p, s, before);
      ActInv(p, Run(s, before), ticks[|ticks| - 1]);
    }
  }

  ghost predicate Reachable(p: Plan, streams: nat, s: State) {
    exists zero, ticks :: Released(p, zero) && s == Run(Init(p.limits, streams, zero), ticks)
  }

  lemma ReachableInv(p: Plan, streams: nat, s: State)
    requires Reachable(p, streams, s)
    ensures Inv(p, s) && |s.workers| == streams
  {
    var zero, ticks :| Released(p, zero) && s == Run(Init(p.limits, streams, zero), ticks);
    InitInv(p, streams, zero);
    RunInv(p, Init(p.limits, streams, zero), ticks);
  }
}
