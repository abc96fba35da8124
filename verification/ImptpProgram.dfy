/**
 The imptp worker process as it is programmed, with its loops and 32-bit variables, while the other
 jobs use the database and any process may be lost. Each of its accesses is a step of the machine.
 */
module ImptpProgram {
  import opened Arith
  import opened ModPow
  import opened Traces
  import opened Words
  import opened ImptpIndex
  import opened ImptpJob

  lemma Int32Exact(x: int)
    requires 0 <= x < INT32_LIMIT
    ensures Int32(x) == x
  {
    ModSmall(x + INT32_LIMIT, 2 * INT32_LIMIT);
  }

  lemma Int64Exact(x: int)
    requires 0 <= x < INT64_LIMIT
    ensures Int64(x) == x
  {
    ModSmall(x + INT64_LIMIT, 2 * INT64_LIMIT);
  }

  lemma NarrowProduct(x: nat, root: nat, prime: nat)
    requires 2 <= prime && x < prime && (prime - 1) * root < INT32_LIMIT
    ensures Rem(Int32(x * root), prime) == (x * root) % prime
    ensures 0 <= (x * root) % prime < prime
  {
    ScaleBoth(x, root, prime - 1, root);
    Int32Exact(x * root);
  }

  /** nroot = root^jobcnt modulo prime, with products formed in 32 bits. */
  method ComputeNroot(root: nat, prime: nat, jobcnt: nat) returns (nroot: int)
    requires 2 <= prime < INT32_LIMIT
    ensures (prime - 1) * root < INT32_LIMIT ==> nroot == Scaled(1, root, prime, jobcnt) < prime
  {
    nroot := 1;
    var i := 1;
    while i <= jobcnt
      invariant 1 <= i <= jobcnt + 1
      invariant (prime - 1) * root < INT32_LIMIT ==> 0 <= nroot < prime && nroot == Scaled(1, root, prime, i - 1)
    {
      if (prime - 1) * root < INT32_LIMIT {
        NarrowProduct(nroot, root, prime);
      }
      nroot := Rem(Int32(nroot * root), prime);
      i := i + 1;
    }
  }

  /** With the values the parent sets up no 32-bit product overflows, and no 64-bit one can. */
  lemma ConfiguredProductsFit(x: nat)
    requires x < PRIME
    ensures x * ROOT < INT32_LIMIT && PRIME < INT32_LIMIT
    ensures (PRIME - 1) * ROOT < INT32_LIMIT
  {
  }

  lemma FiveToTheTenth(b: nat)
    requires b == 5
    ensures Pow(b, 10) == 9765625
  {
    assert Pow(b, 3) == 125;
    PowAdd(b, 3, 3);
    PowAdd(b, 6, 3);
    PowAdd(b, 9, 1);
  }

  /** The product with nroot needs more than 32 bits: ten jobs form one in their second loop that does not fit. */
  lemma WideProductNeeded(u: Setup)
    requires u == Setup(ROOT, PRIME, 10)
    ensures var product := Index(u, 1, 2) * Start(u, 1, 1).nroot;
      product >= INT32_LIMIT && Rem(Int32(product), u.prime) != product % u.prime
  {
    StartIndex(u, 1, 1);
    FiveToTheTenth(u.root);
    ModSmall(9765625, u.prime);
    WideRemainders(9765625 * 9765625, u.prime);
  }

  lemma WideRemainders(x: nat, prime: nat)
    requires x == 95367431640625 && prime == 50_000_017
    ensures Int32(x) == 1977800241
    ensures Rem(Int32(x), prime) == 27799578 && x % prime == 49215726
  {
    DivUnique(x + INT32_LIMIT, 22204, 1977800241 + INT32_LIMIT, 2 * INT32_LIMIT);
    DivUnique(1977800241, 39, 27799578, 50_000_017);
    DivUnique(x, 1907347, 49215726, 50_000_017);
  }

  /** I * factor modulo prime, with the product widened to 64 bits. */
  method MulMod(index: int, factor: int, prime: nat) returns (r: int)
    requires 2 <= prime < INT32_LIMIT && 0 <= index < prime && 0 <= factor < INT32_LIMIT
    ensures r == (index * factor) % prime && 0 <= r < prime
  {
    ScaleBoth(index, factor, INT32_LIMIT, INT32_LIMIT);
    NatProduct(index, factor);
    Int64Exact(index * factor);
    Int32Exact((index * factor) % prime);
    r := Int32(Rem(Int64(index * factor), prime));
  }

  /** The index at which job `jobno` resumes after `lasti` committed loops. */
  method ResumeIndex(root: nat, nroot: nat, prime: nat, jobno: nat, lasti: nat) returns (index: int)
    requires 2 <= prime < INT32_LIMIT && root < INT32_LIMIT && nroot < INT32_LIMIT && 1 <= jobno
    ensures index == Scaled(Scaled(1, root, prime, jobno - 1), nroot, prime, lasti) && 0 <= index < prime
  {
    index := 1;
    var j := 2;
    while j <= jobno
      invariant 2 <= j <= jobno + 1
      invariant 0 <= index < prime && index == Scaled(1, root, prime, j - 2)
    {
      index := MulMod(index, root, prime);
      j := j + 1;
    }
    j := 1;
    while j <= lasti
      invariant 1 <= j <= lasti + 1
      invariant 0 <= index < prime && index == Scaled(Scaled(1, root, prime, jobno - 1), nroot, prime, j - 1)
    {
      index := MulMod(index, nroot, prime);
      j := j + 1;
    }
  }

  /**
   The database. `events` is the history, `states` are the states of the machine it has led
   through and `world` is the last of them; the nodes have the values that they have there.
   */
  class Database {
    var lasti: map<nat, nat>
    var data: map<nat, nat>

    ghost const u: Setup
    ghost const top: nat
    ghost var events: seq<Event>
    ghost var states: seq<System>
    ghost var world: System

    ghost predicate Valid()
      reads this
    {
      && 2 <= u.prime
      && IsTrace(Acting(u, top), events, states)
      && states[0] == Init(u)
      && world == states[|events|]
      && |world.processes| == |world.logs| == u.jobcnt
      && world.lasti == lasti && world.data == data
    }

    constructor (u: Setup, top: nat)
      requires 2 <= u.prime
      ensures Valid() && this.u == u && this.top == top && events == []
    {
      lasti, data := map[], map[];
      this.u, this.top := u, top;
      events, states, world := [], [Init(u)], Init(u);
    }

    ghost method Turn(job: nat, kind: Kind)
      requires Valid()
      modifies `events, `states, `world
      ensures IsTrace(Acting(u, top), events, states) && states[0] == old(states[0]) && world == states[|events|]
      ensures |world.processes| == |world.logs| == u.jobcnt
      ensures events == old(events) + [Event(job, kind)]
      ensures world == Act(u, top, old(world), Event(job, kind))
    {
      ExtendTrace(Acting(u, top), events, states, Event(job, kind));
      world := Act(u, top, world, Event(job, kind));
      events, states := events + [Event(job, kind)], states + [world];
    }

    /** What the other jobs do to the database meanwhile. */
    method Others(ghost job: nat) returns (ghost between: seq<Event>)
      requires Valid() && 1 <= job <= u.jobcnt
      modifies this
      ensures Valid() && events == old(events) + between
      ensures forall e :: e in between ==> e.job != job
      ensures world.processes[job - 1] == old(world.processes[job - 1])
    {
      between := [];
      assert events == events + between;
    }

    /** A process at the head of the main loop is at the loop after the last that is committed. */
    lemma AtTop(job: nat)
      requires Valid() && 1 <= job <= u.jobcnt && world.processes[job - 1].pc == Top
      ensures world.processes[job - 1].loop == Lasti(world, job) + 1
    {
      TraceIsRun(u, top, events, states);
      RunInv(u, top, events);
      assert JobOk(u, top, world, job);
    }

    /** Of every job exactly the loops 1..lasti are committed, each once and under its own index. */
    lemma Committed(job: nat)
      requires Valid() && 1 <= job <= u.jobcnt
      ensures world.logs[job - 1] == FirstLoops(u, job, Lasti(world, job)) && Lasti(world, job) <= top
    {
      TraceIsRun(u, top, events, states);
      ExactlyOnce(u, top, events, job);
    }
  }

  /** What becomes of a process: it goes on, has done all its loops, is told to stop, or is lost. */
  datatype Fate = Running | Finished | Told | Gone

  class ImpJob {
    const jobno: nat
    var nroot: int
    var index: int
    var loop: int

    constructor (jobno: nat)
      ensures this.jobno == jobno
    {
      this.jobno, nroot, index, loop := jobno, 0, 0, 0;
    }

    /** The parameters fit 32-bit words, and so do the products that are formed in 32 bits. */
    ghost predicate Fits(db: Database)
      reads this, db
    {
      && db.Valid() && 1 <= jobno <= db.u.jobcnt
      && db.u.prime < INT32_LIMIT && db.u.root < INT32_LIMIT
      && (db.u.prime - 1) * db.u.root < INT32_LIMIT
    }

    ghost predicate IsDown(db: Database)
      reads this, db
    {
      Fits(db) && db.world.processes[jobno - 1].pc == Down
    }

    ghost predicate Synced(db: Database, pc: Pc)
      reads this, db
    {
      && Fits(db) && 0 <= index < db.u.prime && 0 <= nroot < db.u.prime && 0 <= loop
      && db.world.processes[jobno - 1] == Process(pc, nroot, index, loop)
    }

    /** The process starts, or starts again after a crash. */
    method Boot(db: Database, root: nat, prime: nat, jobcnt: nat)
      requires IsDown(db) && db.u == Setup(root, prime, jobcnt)
      modifies this, db
      ensures Synced(db, Top)
    {
      nroot := ComputeNroot(root, prime, jobcnt);
      var _ := db.Others(jobno);
      var lasti := if jobno in db.lasti then db.lasti[jobno] else 0;
      index := ResumeIndex(root, nroot, prime, jobno, lasti);
      db.Turn(jobno, Go);
      loop := lasti + 1;
    }

    /** Stage 1: the transaction is repeated until it commits. */
    method Stage1(db: Database)
      requires Synced(db, Store)
      modifies db
      ensures Synced(db, Rest)
    {
      var aborts :| 0 <= aborts;
      for a := 0 to aborts
        invariant Synced(db, Store)
      {
        var _ := db.Others(jobno);
        db.Turn(jobno, Abort);
      }
      var _ := db.Others(jobno);
      db.Turn(jobno, Go);
      db.data := db.data[index := loop];
      db.lasti := db.lasti[jobno := loop];
    }

    /** The process is lost, and with it all its variables. */
    method Lost(db: Database)
      requires Fits(db)
      modifies db
      ensures IsDown(db)
    {
      var _ := db.Others(jobno);
      db.Turn(jobno, Crash);
    }

    /** The process has come to its end in the way told by `fate`, or is about to begin the next loop. */
    ghost predicate Ended(db: Database, fate: Fate)
      reads this, db
    {
      match fate
      case Running => Synced(db, Top)
      case Finished => IsDown(db) && Lasti(db.world, jobno) == db.top
      case _ => IsDown(db)
    }

    /** One loop of the process; it may be lost before, in, or after stage 1, or be told to stop. */
    method OneLoop(db: Database, prime: nat, top: nat) returns (fate: Fate)
      requires Synced(db, Top) && db.u.prime == prime && db.top == top
      modifies this, db
      ensures Ended(db, fate) && (fate == Running ==> loop == old(loop) + 1 && old(loop) <= top)
    {
      var lostAtTop: bool := *;
      if lostAtTop { Lost(db); return Gone; }
      db.AtTop(jobno);
      db.Turn(jobno, Go);
      if loop > top {
        db.Committed(jobno);
        return Finished;
      }
      var lostInStage1: bool := *;
      if lostInStage1 { Lost(db); return Gone; }
      Stage1(db);
      var lostLater: bool := *;
      if lostLater { Lost(db); return Gone; }
      var endloop := FinishLoop(db, prime);
      fate := if endloop then Told else Running;
    }

    /** The end of a loop: the next index, and a look at ^endloop. */
    method FinishLoop(db: Database, prime: nat) returns (endloop: bool)
      requires Synced(db, Rest) && db.u.prime == prime
      modifies this, db
      ensures loop == old(loop) + 1 && if endloop then IsDown(db) else Synced(db, Top)
    {
      index := MulMod(index, nroot, prime);
      loop := loop + 1;
      var _ := db.Others(jobno);
      endloop := *;
      db.Turn(jobno, if endloop then Stop else Go);
    }

    /**
     One life of the process: until it is lost, is told to stop, or has done all its loops. Unless it is
     lost or told to stop all loops up to `top` are committed.
     */
    method Live(db: Database, root: nat, prime: nat, jobcnt: nat, top: nat) returns (fate: Fate)
      requires IsDown(db) && db.u == Setup(root, prime, jobcnt) && db.top == top
      modifies this, db
      ensures IsDown(db) && fate != Running
      ensures db.world.logs[jobno - 1] == FirstLoops(db.u, jobno, Lasti(db.world, jobno))
      ensures fate == Finished ==>
        Lasti(db.world, jobno) == top && db.world.logs[jobno - 1] == FirstLoops(db.u, jobno, top)
    {
      Boot(db, root, prime, jobcnt);
      fate := Running;
      while fate == Running
        invariant Ended(db, fate)
        decreases fate == Running, top + 1 - loop
      {
        fate := OneLoop(db, prime, top);
      }
      db.Committed(jobno);
    }

    /** Any number of lives, one after the other, of which the last ends as told. */
    method Lives(db: Database, root: nat, prime: nat, jobcnt: nat, top: nat, restarts: nat) returns (fate: Fate)
      requires IsDown(db) && db.u == Setup(root, prime, jobcnt) && db.top == top
      modifies this, db
      ensures IsDown(db) && fate != Running
      ensures db.world.logs[jobno - 1] == FirstLoops(db.u, jobno, Lasti(db.world, jobno))
      ensures fate == Finished ==>
        Lasti(db.world, jobno) == top && db.world.logs[jobno - 1] == FirstLoops(db.u, jobno, top)
    {
      fate := Live(db, root, prime, jobcnt, top);
      for r := 0 to restarts
        invariant IsDown(db) && fate != Running
        invariant db.world.logs[jobno - 1] == FirstLoops(db.u, jobno, Lasti(db.world, jobno))
        invariant fate == Finished ==>
          Lasti(db.world, jobno) == top && db.world.logs[jobno - 1] == FirstLoops(db.u, jobno, top)
      {
        fate := Live(db, root, prime, jobcnt, top);
      }
    }
  }
}
