/**
 The concurrent memoised 3n+1 solver as a step machine.

 The database holds the globals the workers share. Each worker is a goroutine with its own
 program counter and local variables. One step is one database access together with the
 local computation that follows it; a transaction is one step that commits, or one that
 aborts and leaves the database as it was. Any interleaving of steps is a run.
 */
module Solver {
  import opened Options
  import opened Traces
  import opened Collatz

  /** Subscripts of ^step and currpath hold at most 18 digits. */
  const SUBSCRIPT_LIMIT := 1_000_000_000_000_000_000

  /** What a worker does next. */
  datatype Pc =
    | Probe       // is there a block at the next index?
    | Claim       // increment the claim counter of the block
    | FetchEnd    // read where the block ends
    | FetchStart  // read where the previous block ends
    | Check       // is the number of steps of n known?
    | Fetch       // read that number of steps
    | Raise       // transaction: raise ^result to i
    | Publish     // write ^step for the next number on the current path
    | Merge       // transaction: add the local statistics to the shared ones
    | Done

  datatype Db = Db(
    limits: map<int, int>,
    claims: map<int, int>,
    step: map<int, int>,
    result: Option<int>,
    highest: Option<int>,
    readCount: int,
    updateCount: int)

  datatype Worker = Worker(
    pc: Pc,
    index: int,
    blkend: int,
    current: int,
    n: int,
    i: int,
    path: seq<int>,
    pos: nat,
    readCount: int,
    updateCount: int,
    highest: int)

  /** The effect of one step of one worker; `crashed` is a panic, which ends the process. */
  datatype Outcome = Outcome(db: Db, worker: Worker, crashed: bool)

  datatype State = State(db: Db, workers: seq<Worker>, crashed: bool)

  /** One turn given by the scheduler: which worker steps, and whether its transaction aborts. */
  datatype Tick = Tick(worker: nat, abort: bool)

  function Max(a: int, b: int): int {
    if a < b then b else a
  }

  /** The value a claim counter takes when it is incremented. */
  function Incremented(claims: map<int, int>, b: int): int {
    (if b in claims then claims[b] else 0) + 1
  }

  /** Turns to the number `current`, or leaves the block when it has passed its end. */
  function StartNumber(l: Worker): Worker {
    if l.current <= l.blkend then l.(pc := Check, n := l.current, i := 0, path := [], pos := 0)
    else l.(pc := Probe)
  }

  function NextNumber(l: Worker): Worker {
    StartNumber(l.(current := l.current + 1))
  }

  /** Is the walk over at n: is its step count known, or is it 1? */
  predicate Known(db: Db, n: int) {
    n in db.step || n == 1
  }

  /** The walk stays at n only to look it up. */
  function DoCheck(db: Db, l0: Worker): Outcome {
    var l := l0.(readCount := l0.readCount + 1);
    if l.n >= SUBSCRIPT_LIMIT then Outcome(db, l, true)
    else if Known(db, l.n) then
      if l.i == 0 then Outcome(db, NextNumber(l), false)
      else if 1 < l.n then Outcome(db, l.(pc := Fetch), false)
      else Outcome(db, l.(pc := Raise), false)
    else if l.i >= SUBSCRIPT_LIMIT then Outcome(db, l, true)
    else
      var next := Next64(l.n);
      Outcome(db, l.(path := l.path + [l.n], n := next, i := l.i + 1, highest := Max(l.highest, next)), false)
  }

  function DoPublish(db: Db, l: Worker): Outcome
    requires l.pos < |l.path|
  {
    var l' := l.(pos := l.pos + 1, updateCount := l.updateCount + 1);
    Outcome(db.(step := db.step[l.path[l.pos] := l.i - l.pos]),
            if l'.pos < |l'.path| then l' else NextNumber(l'),
            false)
  }

  function DoMerge(db: Db, l: Worker): Outcome {
    Outcome(db.(readCount := db.readCount + l.readCount,
                updateCount := db.updateCount + l.updateCount,
                highest := if OrZero(db.highest) < l.highest then Some(l.highest) else db.highest),
            l.(pc := Done),
            false)
  }

  /** The effect of a step of worker `l`. */
  function Do(db: Db, l: Worker, abort: bool): Outcome {
    match l.pc
    case Probe =>
      var l' := l.(index := l.index + 1);
      Outcome(db, l'.(pc := if l'.index in db.limits then Claim else Merge), false)
    case Claim =>
      var v := Incremented(db.claims, l.index);
      Outcome(db.(claims := db.claims[l.index := v]), l.(pc := if v == 1 then FetchEnd else Probe), false)
    case FetchEnd =>
      if l.index !in db.limits then Outcome(db, l, true)
      else
        var l' := l.(blkend := db.limits[l.index]);
        Outcome(db, if l.index == 1 then StartNumber(l'.(current := 1)) else l'.(pc := FetchStart), false)
    case FetchStart =>
      if l.index - 1 !in db.limits then Outcome(db, l, true)
      else Outcome(db, StartNumber(l.(current := db.limits[l.index - 1] + 1)), false)
    case Check => DoCheck(db, l)
    case Fetch =>
      if l.n !in db.step then Outcome(db, l, true)
      else Outcome(db, l.(i := l.i + db.step[l.n], pc := Raise), false)
    case Raise =>
      if abort then Outcome(db, l, false)
      else
        Outcome(if l.i > OrZero(db.result) then db.(result := Some(l.i)) else db,
                l.(pc := Publish, pos := 0), false)
    case Publish =>
      if l.pos < |l.path| then DoPublish(db, l) else Outcome(db, NextNumber(l), false)
    case Merge => if abort then Outcome(db, l, false) else DoMerge(db, l)
    case Done => Outcome(db, l, false)
  }

  /** The whole system takes one turn; after a panic nothing happens any more. */
  function Act(s: State, t: Tick): State {
    if s.crashed || t.worker >= |s.workers| then s
    else
      var o := Do(s.db, s.workers[t.worker], t.abort);
      State(o.db, s.workers[t.worker := o.worker], o.crashed)
  }

  function Run(s: State, ticks: seq<Tick>): State {
    if ticks == [] then s
    else Act(Run(s, ticks[..|ticks| - 1]), ticks[|ticks| - 1])
  }

  lemma {:induction false} TraceIsRun(ticks: seq<Tick>, states: seq<State>)
    requires IsTrace(Act, ticks, states)
    ensures Run(states[0], ticks) == states[|ticks|]
    decreases |ticks|
  {
    if ticks != [] {
      ShortenTrace(Act, ticks, states);
      TraceIsRun(ticks[..|ticks| - 1], states[..|ticks|]);
    }
  }

  /** Worker w starts just below the first index it will look at. */
  function Fresh(w: int): Worker {
    Worker(Probe, w, 0, 0, 0, 0, [], 0, 0, 0, 0)
  }

  /** The state in which the workers are released: ^limits is set up and the rest is empty or zero. */
  function Init(limits: map<int, int>, streams: nat, zero: Option<int>): State {
    State(Db(limits, map[], map[], zero, zero, 0, 0), seq(streams, w => Fresh(w)), false)
  }

  ghost predicate AllDone(s: State) {
    forall w | 0 <= w < |s.workers| :: s.workers[w].pc == Done
  }

  lemma RunSnoc(s: State, ticks: seq<Tick>, t: Tick)
    ensures Run(s, ticks + [t]) == Act(Run(s, ticks), t)
  {
    assert (ticks + [t])[..|ticks|] == ticks;
  }
}
