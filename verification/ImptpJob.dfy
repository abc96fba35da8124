/**
 The imptp jobs as a step machine that may lose any process at any moment.

 In TP mode the stage 1 transaction of a loop stores its data under the index of the loop and
 sets ^lasti in the same commit. A process that starts, for the first time or again, computes
 its index from ^lasti. Everything else a loop does is one opaque step.
 */
module ImptpJob {
  import opened Arith
  import opened ModPow
  import opened Traces
  import opened ImptpIndex

  /** x multiplied `times` times by m modulo p, as the loops of the program do it. */
  function Scaled(x: nat, m: nat, p: nat, times: nat): nat
    requires 1 <= p
  {
    if times == 0 then x else (Scaled(x, m, p, times - 1) * m) % p
  }

  datatype Pc =
    | Down   // the process does not run
    | Top    // at the head of the main loop
    | Store  // in the stage 1 transaction
    | Rest   // the remaining stages of the loop

  datatype Process = Process(pc: Pc, nroot: nat, index: nat, loop: nat)

  /** A committed stage 1: which loop it was and under which index it stored. */
  datatype Commit = Commit(loop: nat, index: nat)

  /** `lasti` and `data` are in the database; `logs` is the history of commits of each job. */
  datatype System = System(
    lasti: map<nat, nat>,
    data: map<nat, nat>,
    logs: seq<seq<Commit>>,
    processes: seq<Process>)

  /** A turn of job number `job`: its process goes on, its transaction aborts, it is told to stop, or it is lost. */
  datatype Kind = Go | Abort | Stop | Crash
  datatype Event = Event(job: nat, kind: Kind)

  function Lasti(s: System, job: nat): nat {
    if job in s.lasti then s.lasti[job] else 0
  }

  /** What a process computes when it starts. */
  function Start(u: Setup, job: nat, lasti: nat): Process
    requires 1 <= u.prime && 1 <= job
  {
    var nroot := Scaled(1, u.root, u.prime, u.jobcnt);
    var first := Scaled(1, u.root, u.prime, job - 1);
    Process(Top, nroot, Scaled(first, nroot, u.prime, lasti), lasti + 1)
  }

  /** The process of `job` makes its next step. */
  function Advance(u: Setup, top: nat, s: System, job: nat, stop: bool): System
    requires 1 <= u.prime && 1 <= job <= |s.processes| == |s.logs|
  {
    var q := s.processes[job - 1];
    match q.pc
    case Down => s.(processes := s.processes[job - 1 := Start(u, job, Lasti(s, job))])
    case Top => s.(processes := s.processes[job - 1 := q.(pc := if q.loop <= top then Store else Down)])
    case Store =>
      System(s.lasti[job := q.loop],
             s.data[q.index := q.loop],
             s.logs[job - 1 := s.logs[job - 1] + [Commit(q.loop, q.index)]],
             s.processes[job - 1 := q.(pc := Rest)])
    case Rest =>
      var q' := q.(index := (q.index * q.nroot) % u.prime, loop := q.loop + 1);
      s.(processes := s.processes[job - 1 := q'.(pc := if stop then Down else Top)])
  }

  function Act(u: Setup, top: nat, s: System, e: Event): System {
    if !(1 <= u.prime && 1 <= e.job <= |s.processes| == |s.logs|) then s
    else if e.kind == Crash then s.(processes := s.processes[e.job - 1 := Process(Down, 0, 0, 0)])
    else if e.kind == Abort && s.processes[e.job - 1].pc == Store then s
    else Advance(u, top, s, e.job, e.kind == Stop)
  }

  function Init(u: Setup): System {
    System(map[], map[], seq(u.jobcnt, _ => []), seq(u.jobcnt, _ => Process(Down, 0, 0, 0)))
  }

  function Run(u: Setup, top: nat, events: seq<Event>): (s: System)
    ensures |s.processes| == |s.logs| == u.jobcnt
  {
    if events == [] then Init(u)
    else Act(u, top, Run(u, top, events[..|events| - 1]), events[|events| - 1])
  }

  function Acting(u: Setup, top: nat): (System, Event) -> System {
    (s, e) => Act(u, top, s, e)
  }

  lemma {:induction false} TraceIsRun(u: Setup, top: nat, events: seq<Event>, states: seq<System>)
    requires IsTrace(Acting(u, top), events, states) && states[0] == Init(u)
    ensures Run(u, top, events) == states[|events|]
    decreases |events|
  {
    if events != [] {
      ShortenTrace(Acting(u, top), events, states);
      TraceIsRun(u, top, events[..|events| - 1], states[..|events|]);
    }
  }

  // ----- the index computation

  lemma {:induction false} ScaledPow(b: nat, e: nat, c: nat, p: nat, times: nat)
    requires 2 <= p
    ensures Scaled(PowMod(b, e, p), PowMod(b, c, p), p, times) == PowMod(b, e + times * c, p)
    decreases times
  {
    if times > 0 {
      ScaledPow(b, e, c, p, times - 1);
      assert e + times * c == (e + (times - 1) * c) + c by { Distribute(times, 1, c); }
      PowModAdd(b, e + (times - 1) * c, c, p);
    }
  }

  lemma {:induction false} ScaledRoot(b: nat, p: nat, times: nat)
    requires 2 <= p
    ensures Scaled(1, b, p, times) == PowMod(b, times, p)
    decreases times
  {
    if times == 0 {
      ModSmall(1, p);
    } else {
      ScaledRoot(b, p, times - 1);
      ModMulLeft(Pow(b, times - 1), b, p);
    }
  }

  /** A start after any number of committed loops computes the index of the next loop. */
  lemma StartIndex(u: Setup, job: nat, lasti: nat)
    requires 2 <= u.prime && 1 <= job
    ensures Start(u, job, lasti).nroot == PowMod(u.root, u.jobcnt, u.prime)
    ensures Start(u, job, lasti).index == Index(u, job, lasti + 1)
  {
    ScaledRoot(u.root, u.prime, u.jobcnt);
    ScaledRoot(u.root, u.prime, job - 1);
    ScaledPow(u.root, job - 1, u.jobcnt, u.prime, lasti);
  }

  /** The incremental update at the end of a loop leads to the index of the next one. */
  lemma NextIndex(u: Setup, job: nat, loop: nat)
    requires 2 <= u.prime && 1 <= job && 1 <= loop
    ensures (Index(u, job, loop) * PowMod(u.root, u.jobcnt, u.prime)) % u.prime == Index(u, job, loop + 1)
  {
    Distribute(loop - 1, 1, u.jobcnt);
    PowModAdd(u.root, Exponent(u, job, loop), u.jobcnt, u.prime);
  }

  // ----- every run

  /** The commits of loops 1..n of a job, each once and in order, under the indices laid down for them. */
  function FirstLoops(u: Setup, job: nat, n: nat): seq<Commit>
    requires 1 <= u.prime && 1 <= job
  {
    seq(n, i requires 0 <= i => Commit(i + 1, Index(u, job, i + 1)))
  }

  ghost predicate JobOk(u: Setup, top: nat, s: System, job: nat)
    requires 1 <= u.prime && 1 <= job <= |s.processes| == |s.logs|
  {
    var q := s.processes[job - 1];
    && s.logs[job - 1] == FirstLoops(u, job, Lasti(s, job))
    && Lasti(s, job) <= top
    && (q.pc != Down ==>
          && 1 <= q.loop
          && q.nroot == PowMod(u.root, u.jobcnt, u.prime)
          && q.index == Index(u, job, q.loop)
          && q.loop == Lasti(s, job) + if q.pc == Rest then 0 else 1)
    && (q.pc == Store ==> q.loop <= top)
  }

  ghost predicate Inv(u: Setup, top: nat, s: System) {
    && 2 <= u.prime
    && |s.processes| == |s.logs| == u.jobcnt
    && (forall job :: 1 <= job <= u.jobcnt ==> JobOk(u, top, s, job))
  }

  lemma ActJob(u: Setup, top: nat, s: System, e: Event)
    requires Inv(u, top, s) && 1 <= e.job <= u.jobcnt
    ensures JobOk(u, top, Act(u, top, s, e), e.job)
  {
    assert JobOk(u, top, s, e.job);
    var q := s.processes[e.job - 1];
    if q.pc == Down {
      StartIndex(u, e.job, Lasti(s, e.job));
    } else if q.pc == Store {
      assert FirstLoops(u, e.job, q.loop) == FirstLoops(u, e.job, q.loop - 1) + [Commit(q.loop, q.index)];
    } else if q.pc == Rest {
      NextIndex(u, e.job, q.loop);
    }
  }

  lemma ActInv(u: Setup, top: nat, s: System, e: Event)
    requires Inv(u, top, s)
    ensures Inv(u, top, Act(u, top, s, e))
  {
    if 1 <= e.job <= u.jobcnt {
      ActJob(u, top, s, e);
      forall job | 1 <= job <= u.jobcnt && job != e.job
        ensures JobOk(u, top, Act(u, top, s, e), job)
      {
        assert JobOk(u, top, s, job);
      }
    }
  }

  lemma {:induction false} RunInv(u: Setup, top: nat, events: seq<Event>)
    requires 2 <= u.prime
    ensures Inv(u, top, Run(u, top, events))
    decreases |events|
  {
    if events != [] {
      RunInv(u, top, events[..|events| - 1]);
      ActInv(u, top, Run(u, top, events[..|events| - 1]), events[|events| - 1]);
    }
  }

  /**
   Whatever crashes and restarts there were, the committed stage 1 transactions of a job are those
   of loops 1..lasti, each exactly once and in order, under the indices laid down for them.
   */
  lemma ExactlyOnce(u: Setup, top: nat, events: seq<Event>, job: nat)
    requires 2 <= u.prime && 1 <= job <= u.jobcnt
    ensures var s := Run(u, top, events);
      && s.logs[job - 1] == FirstLoops(u, job, Lasti(s, job))
      && Lasti(s, job) <= top
  {
    RunInv(u, top, events);
    assert JobOk(u, top, Run(u, top, events), job);
  }

  // ----- how far a job comes

  /**
   A running process goes down only when it is lost, when it is told to stop at the end of a loop, or at
   the head of the main loop when its last loop is committed.
   */
  lemma GoesDownIff(u: Setup, top: nat, s: System, e: Event)
    requires Inv(u, top, s) && 1 <= e.job <= u.jobcnt && s.processes[e.job - 1].pc != Down
    ensures var pc := s.processes[e.job - 1].pc;
      Act(u, top, s, e).processes[e.job - 1].pc == Down <==>
        e.kind == Crash || (pc == Rest && e.kind == Stop) || (pc == Top && Lasti(s, e.job) == top)
  {
    assert JobOk(u, top, s, e.job);
  }

  /** The steps that the job still needs until its loop `top` is committed. */
  function Left(top: nat, s: System, job: nat): int
    requires 1 <= job <= |s.processes|
  {
    var loops := top - Lasti(s, job);
    if loops <= 0 then 0
    else
      match s.processes[job - 1].pc
      case Down => 3 * loops
      case Top => 3 * loops - 1
      case Store => 3 * loops - 2
      case Rest => 3 * loops
  }

  /** How many of the events are of this kind for the job. */
  function Count(events: seq<Event>, job: nat, kind: Kind): nat {
    if events == [] then 0
    else Count(events[..|events| - 1], job, kind) + if events[|events| - 1] == Event(job, kind) then 1 else 0
  }

  lemma LeftFalls(u: Setup, top: nat, s: System, e: Event, job: nat)
    requires Inv(u, top, s) && 1 <= job <= u.jobcnt
    ensures var s' := Act(u, top, s, e);
      && 0 <= Left(top, s', job)
      && (Left(top, s, job) == 0 ==> Left(top, s', job) == 0)
      && (Left(top, s', job) == 0 || Left(top, s', job) <= Left(top, s, job)
            - (if e == Event(job, Go) then 1 else 0) + (if e == Event(job, Crash) then 2 else 0))
  {
    assert JobOk(u, top, s, job);
  }

  lemma {:induction false} LeftBound(u: Setup, top: nat, events: seq<Event>, job: nat)
    requires 2 <= u.prime && 1 <= job <= u.jobcnt
    ensures var left := Left(top, Run(u, top, events), job);
      left == 0 || left + Count(events, job, Go) <= 3 * top + 2 * Count(events, job, Crash)
    decreases |events|
  {
    if events != [] {
      var before := events[..|events| - 1];
      LeftBound(u, top, before, job);
      RunInv(u, top, before);
      LeftFalls(u, top, Run(u, top, before), events[|events| - 1], job);
    }
  }

  /**
   A job that is given three steps for each loop, and two more for each time it is lost, has committed all
   its loops, whatever the others do, and however often it is told to stop or its transactions abort.
   */
  lemma EnoughStepsComplete(u: Setup, top: nat, events: seq<Event>, job: nat)
    requires 2 <= u.prime && 1 <= job <= u.jobcnt
    requires Count(events, job, Go) >= 3 * top + 2 * Count(events, job, Crash)
    ensures var s := Run(u, top, events);
      Lasti(s, job) == top && s.logs[job - 1] == FirstLoops(u, job, top)
  {
    LeftBound(u, top, events, job);
    ExactlyOnce(u, top, events, job);
  }

  // ----- what is in the database

  /** The data of all jobs: every committed loop has its own node, which holds that loop, and there are no others. */
  ghost predicate DataOk(u: Setup, s: System)
    requires 1 <= u.prime
  {
    && (forall j, l :: Committed(u, s, j, l) ==> Index(u, j, l) in s.data && s.data[Index(u, j, l)] == l)
    && (forall x :: x in s.data ==> exists j, l :: Committed(u, s, j, l) && x == Index(u, j, l))
  }

  predicate Committed(u: Setup, s: System, job: nat, loop: nat) {
    1 <= job <= u.jobcnt && 1 <= loop <= Lasti(s, job)
  }

  /** The commit of the next loop of `job` adds one node and leaves the others alone. */
  lemma CommitData(u: Setup, s: System, s': System, job: nat, loop: nat)
    requires 1 <= u.prime && DataOk(u, s) && 1 <= job <= u.jobcnt && loop == Lasti(s, job) + 1
    requires s'.lasti == s.lasti[job := loop] && s'.data == s.data[Index(u, job, loop) := loop]
    requires forall j, l :: Committed(u, s, j, l) ==> Index(u, j, l) != Index(u, job, loop)
    ensures DataOk(u, s')
  {
    forall j, l
      ensures Committed(u, s', j, l) <==> Committed(u, s, j, l) || (j == job && l == loop)
    {
    }
    forall x | x in s'.data
      ensures exists j, l :: Committed(u, s', j, l) && x == Index(u, j, l)
    {
      if x == Index(u, job, loop) {
        assert Committed(u, s', job, loop);
      } else {
        var j, l :| Committed(u, s, j, l) && x == Index(u, j, l);
        assert Committed(u, s', j, l);
      }
    }
  }

  lemma SameData(u: Setup, s: System, s': System)
    requires 1 <= u.prime && DataOk(u, s) && s'.data == s.data && s'.lasti == s.lasti
    ensures DataOk(u, s')
  {
    forall j, l
      ensures Committed(u, s', j, l) <==> Committed(u, s, j, l)
    {
    }
  }

  lemma ActData(u: Setup, top: nat, s: System, e: Event)
    requires Inv(u, top, s) && DataOk(u, s) && NoIndexTwice(u, top)
    ensures DataOk(u, Act(u, top, s, e))
  {
    if 1 <= e.job <= u.jobcnt && s.processes[e.job - 1].pc == Store && (e.kind == Go || e.kind == Stop) {
      var q := s.processes[e.job - 1];
      assert JobOk(u, top, s, e.job);
      forall j, l | Committed(u, s, j, l)
        ensures Index(u, j, l) != Index(u, e.job, q.loop)
      {
        assert JobOk(u, top, s, j);
        assert InTurn(u, top, j, l) && InTurn(u, top, e.job, q.loop);
      }
      CommitData(u, s, Act(u, top, s, e), e.job, q.loop);
    } else {
      SameData(u, s, Act(u, top, s, e));
    }
  }

  lemma {:induction false} RunData(u: Setup, top: nat, events: seq<Event>)
    requires 2 <= u.prime && NoIndexTwice(u, top)
    ensures DataOk(u, Run(u, top, events))
    decreases |events|
  {
    if events != [] {
      var before := events[..|events| - 1];
      RunInv(u, top, before);
      RunData(u, top, before);
      ActData(u, top, Run(u, top, before), events[|events| - 1]);
    }
  }

  /**
   With fewer turns than the prime, no commit of any job ever overwrites data of another: over all
   jobs, crashes and restarts each committed loop finds its own data at its own index.
   */
  lemma NothingOverwritten(u: Setup, top: nat, events: seq<Event>)
    requires Proper(u) && top * u.jobcnt < u.prime
    ensures DataOk(u, Run(u, top, events))
  {
    NoIndexTwiceIff(u, top);
    RunData(u, top, events);
  }
}
