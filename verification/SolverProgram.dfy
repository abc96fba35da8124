/**
 The program that the goroutines execute, with its loops and its fields updated in place, while
 the other goroutines change the database between any two of its accesses. Every access is shown
 to be a turn of the step machine, so that what is proved of the machine holds of the program.
 */
module SolverProgram {
  import opened Options
  import opened Traces
  import opened Words
  import opened Collatz
  import opened Blocks
  import opened Solver
  import opened SolverInvariant
  import opened SolverRuns
  import opened SolverTheorems
  import opened SolverCounts
  import opened SolverTermination

  /**
   The globals. `ticks` is the history of the turns taken, `states` are the states of the step
   machine it has led through, and `world` is the last of them; the globals have the values that
   they have there.
   */
  class Database {
    var limits: map<int, int>
    var claims: map<int, int>
    var step: map<int, int>
    var result: Option<int>
    var highest: Option<int>
    var readCount: int
    var updateCount: int

    ghost const plan: Plan
    ghost const streams: nat
    ghost const zero: Option<int>
    ghost var ticks: seq<Tick>
    ghost var states: seq<State>
    ghost var world: State

    ghost function Snapshot(): Db
      reads this
    {
      Db(limits, claims, step, result, highest, readCount, updateCount)
    }

    /** The history is one of the step machine from its initial state. */
    ghost predicate Traced()
      reads this
    {
      && Released(plan, zero)
      && IsTrace(Act, ticks, states)
      && states[0] == Init(plan.limits, streams, zero)
      && world == states[|ticks|]
      && |world.workers| == streams
    }

    ghost predicate Valid()
      reads this
    {
      Traced() && world.db == Snapshot()
    }

    /** The state in which main releases the goroutines. */
    constructor (p: Plan, ghost streams: nat, zero: Option<int>)
      requires Released(p, zero)
      ensures Valid() && ticks == []
      ensures plan == p && this.streams == streams && this.zero == zero
    {
      limits, claims, step := p.limits, map[], map[];
      result, highest, readCount, updateCount := zero, zero, 0, 0;
      plan, this.streams, this.zero, ticks := p, streams, zero, [];
      world := Init(p.limits, streams, zero);
      states := [Init(p.limits, streams, zero)];
    }

    /** Records that worker w takes a turn. */
    ghost method Turn(w: nat, abort: bool)
      requires Valid() && !world.crashed && w < streams
      modifies `ticks, `states, `world
      ensures Traced()
      ensures var o := Do(old(world.db), old(world.workers)[w], abort);
        world.db == o.db && world.workers[w] == o.worker && world.crashed == o.crashed
    {
      ExtendTrace(Act, ticks, states, Tick(w, abort));
      world := Act(world, Tick(w, abort));
      ticks, states := ticks + [Tick(w, abort)], states + [world];
    }

    /**
     What the other goroutines do before worker w gets its next turn. The caller learns only that
     they took turns, and that the process has not been ended by a panic of one of them.
     */
    method Others(ghost w: nat) returns (ghost turns: seq<Tick>)
      requires Valid() && !world.crashed && w < streams
      modifies this
      ensures Valid() && !world.crashed
      ensures ticks == old(ticks) + turns && forall t :: t in turns ==> t.worker != w
      ensures world.workers[w] == old(world.workers)[w]
    {
      turns := [];
      assert ticks == ticks + turns;
    }

    lemma Consistent()
      requires Valid()
      ensures Reachable(plan, streams, world) && Inv(plan, world)
      ensures world == Run(Init(plan.limits, streams, zero), ticks)
    {
      TraceIsRun(ticks, states);
      ReachableInv(plan, streams, world);
    }

    /**
     What main does after the join: it fetches the results, which are the right ones, and
     resets the database for the next line of input.
     */
    method Finish() returns (longest: int, top: int, updates: int, looks: int)
      requires Valid() && 1 <= streams && AllDone(world)
      modifies this
      ensures IsLongest(plan.endnum, longest) && IsHighest(plan.endnum, top)
      ensures updates == Writes(Init(plan.limits, streams, zero), old(ticks))
      ensures looks == Looks(Init(plan.limits, streams, zero), old(ticks))
      ensures step == map[] && result == highest == Some(0) && readCount == updateCount == 0
      ensures limits == old(limits) && claims == old(claims)
    {
      Consistent();
      FinalResult(plan, streams, world);
      FinalHighest(plan, streams, world);
      FinalStatistics(plan, streams, zero, ticks);
      longest, top := result.value, highest.value;
      updates, looks := updateCount, readCount;
      highest, readCount, result, updateCount := Some(0), 0, Some(0), 0;
      step := map[];
    }
  }

  /** A goroutine does its work, or panics, or is left in the middle of a walk. */
  datatype End = Finished | Panicked | Unfinished

  /** A goroutine, with the local variables that it keeps in its own record. */
  class Goroutine {
    const id: nat
    var index: int
    var readsLcl: int
    var updatesLcl: int
    var highestLcl: int
    var currpath: seq<int>
    var maxpath: int

    constructor (id: nat)
      ensures this.id == id && index == id && readsLcl == updatesLcl == highestLcl == 0
    {
      this.id, index := id, id;
      readsLcl, updatesLcl, highestLcl, maxpath := 0, 0, 0, 0;
      currpath := [];
    }

    ghost function Me(db: Database): Worker
      requires id < |db.world.workers|
      reads this, db
    {
      db.world.workers[id]
    }

    /** The goroutine's variables are those of its worker in the machine, which stands at pc. */
    ghost predicate Synced(db: Database, pc: Pc)
      reads this, db
    {
      && db.Valid() && !db.world.crashed && id < db.streams
      && Me(db).pc == pc && Me(db).index == index
      && Me(db).readCount == readsLcl && Me(db).updateCount == updatesLcl && Me(db).highest == highestLcl
    }

    /** In addition it is at work on the number `current`. */
    ghost predicate Walks(db: Database, pc: Pc, blkend: int, current: int, i: int)
      reads this, db
    {
      && Synced(db, pc)
      && Me(db).blkend == blkend && Me(db).current == current && Me(db).i == i && Me(db).path == currpath
    }

    /** It is about to begin with the number `current`, or has finished its block. */
    ghost predicate Begins(db: Database, blkend: int, current: int)
      reads this, db
    {
      if current <= blkend then
        Synced(db, Check) && var l := Me(db);
        l.blkend == blkend && l.current == current && l.n == current && l.i == 0 && l.path == []
      else Synced(db, Probe)
    }

    /** How the goroutine has ended, and where its worker of the machine then stands. */
    ghost predicate Ends(db: Database, end: End, pc: Pc, allowance: nat)
      reads this, db
    {
      match end
      case Finished => Synced(db, pc)
      case Panicked => db.Valid() && db.world.crashed
      case Unfinished => Synced(db, Check) && !ReachWithin(db.plan.endnum, allowance)
    }

    /** How a walk has ended: at a number that is known, i steps away, or at 1. */
    ghost predicate Walked(db: Database, end: End, blkend: int, current: int, n: int, i: int, allowance: nat)
      reads this, db
    {
      match end
      case Finished =>
        if i == 0 then Begins(db, blkend, current + 1)
        else 0 < i == |currpath| && Walks(db, if 1 < n then Fetch else Raise, blkend, current, i) && Me(db).n == n
      case Panicked => db.Valid() && db.world.crashed
      case Unfinished => Synced(db, Check) && !ReachWithin(db.plan.endnum, allowance)
    }

    /** The turns of a walk, of the writing of a path, and of the merge of statistics. */
    ghost method CheckTurn(db: Database)
      requires db.Valid() && !db.world.crashed && id < db.streams && Me(db).pc == Check
      modifies db`ticks, db`states, db`world
      ensures db.Traced()
      ensures var o := DoCheck(old(db.world.db), old(Me(db)));
        db.world.db == o.db && Me(db) == o.worker && db.world.crashed == o.crashed
    {
      db.Turn(id, false);
    }

    ghost method PublishTurn(db: Database)
      requires db.Valid() && !db.world.crashed && id < db.streams
      requires Me(db).pc == Publish && Me(db).pos < |Me(db).path|
      modifies db`ticks, db`states, db`world
      ensures db.Traced()
      ensures var o := DoPublish(old(db.world.db), old(Me(db)));
        db.world.db == o.db && Me(db) == o.worker && db.world.crashed == o.crashed
    {
      db.Turn(id, false);
    }

    ghost method MergeTurn(db: Database)
      requires db.Valid() && !db.world.crashed && id < db.streams && Me(db).pc == Merge
      modifies db`ticks, db`states, db`world
      ensures db.Traced()
      ensures var o := DoMerge(old(db.world.db), old(Me(db)));
        db.world.db == o.db && Me(db) == o.worker && db.world.crashed == o.crashed
    {
      db.Turn(id, false);
    }

    /** What the goroutine knows of its worker and of the database. */
    lemma Informed(db: Database)
      requires db.Valid() && id < db.streams
      ensures DbOk(db.plan, db.world.db) && LocalOk(db.plan, db.world.db, Me(db))
    {
      db.Consistent();
    }

    /** A walk is not longer than the longest trajectory. */
    lemma WalkFits(db: Database, k: nat)
      requires Synced(db, Check) && ReachWithin(db.plan.endnum, k)
      ensures |Me(db).path| <= k
    {
      Informed(db);
      WalkWithin(db.plan, db.world.db, Me(db), k);
    }

    /**
     Walks from n = current until a number is known, and leaves the numbers passed in currpath. The
     goroutine is given a number of steps for that. When they do not suffice it is left in the middle of
     the walk, which happens only if not all starts reach 1 within so many steps.
     */
    method Walk(db: Database, blkend: int, current: int, allowance: nat) returns (n: int, i: int, end: End)
      requires Begins(db, blkend, current) && current <= blkend
      modifies this, db
      ensures index == old(index) && Walked(db, end, blkend, current, n, i, allowance)
    {
      n, i, end := current, 0, Finished;
      currpath := [];
      while true
        invariant Walks(db, Check, blkend, current, i) && Me(db).n == n
        invariant 0 <= i == |currpath| <= allowance + 1 && index == old(index)
        decreases allowance + 1 - i
      {
        if i > allowance {
          if ReachWithin(db.plan.endnum, allowance) { WalkFits(db, allowance); }
          end := Unfinished;
          return;
        }
        var _ := db.Others(id);
        readsLcl := readsLcl + 1;
        if n >= SUBSCRIPT_LIMIT {
          CheckTurn(db);
          end := Panicked;
          return;
        }
        var dataval := n in db.step;
        ghost var l := Me(db);
        CheckTurn(db);
        if dataval || 1 == n {
          break;
        }
        if i >= SUBSCRIPT_LIMIT {
          end := Panicked;
          return;
        }
        currpath := currpath + [n];
        n := if n % 2 == 0 then n / 2 else Int64(Int64(3 * n) + 1);
        if n > highestLcl {
          highestLcl := n;
        }
        i := i + 1;
        assert Me(db) == l.(readCount := readsLcl, path := currpath, n := n, i := i, highest := highestLcl);
      }
    }

    /** The memoised number at which the walk has stopped is still there when it is fetched. */
    lemma FetchDefined(db: Database)
      requires Synced(db, Fetch)
      ensures Me(db).n in db.world.db.step
    {
      Informed(db);
    }

    lemma PathToWrite(db: Database)
      requires Synced(db, Publish)
      ensures Me(db).pos < |Me(db).path|
    {
      Informed(db);
    }

    /** The transaction that raises ^result to maxpath; it is repeated until it commits. */
    method RaiseResult(db: Database, ghost blkend: int, ghost current: int)
      requires Walks(db, Raise, blkend, current, maxpath)
      modifies db
      ensures Walks(db, Publish, blkend, current, maxpath) && Me(db).pos == 0
    {
      var aborts :| 0 <= aborts;
      for a := 0 to aborts
        invariant Walks(db, Raise, blkend, current, maxpath)
      {
        var _ := db.Others(id);
        db.Turn(id, true);
      }
      var _ := db.Others(id);
      db.Turn(id, false);
      var resultDB := OrZero(db.result);
      if maxpath > resultDB {
        db.result := Some(maxpath);
      }
    }

    /** Writes ^step for every number of the path, one at a time. */
    method PublishPath(db: Database, ghost blkend: int, ghost current: int)
      requires Walks(db, Publish, blkend, current, maxpath) && Me(db).pos == 0
      modifies this, db
      ensures Begins(db, blkend, current + 1) && index == old(index)
    {
      PathToWrite(db);
      var n := 0;
      while n < |currpath|
        invariant 0 <= n <= |currpath| && index == old(index)
        invariant if n < |currpath| then
            Walks(db, Publish, blkend, current, maxpath) && Me(db).pos == n
          else Begins(db, blkend, current + 1)
      {
        var _ := db.Others(id);
        updatesLcl := updatesLcl + 1;
        PublishTurn(db);
        db.step := db.step[currpath[n] := maxpath - n];
        n := n + 1;
      }
    }

    /** Adds the steps of the number where the walk has stopped. */
    method FetchSteps(db: Database, n: int, i: int, ghost blkend: int, ghost current: int) returns (total: int)
      requires Walks(db, Fetch, blkend, current, i) && Me(db).n == n
      modifies db
      ensures Walks(db, Raise, blkend, current, total)
    {
      var _ := db.Others(id);
      FetchDefined(db);
      var stepval := db.step[n];
      db.Turn(id, false);
      total := i + stepval;
    }

    /** Processes the numbers blkstart..blkend. */
    method DoStep(db: Database, blkstart: int, blkend: int, allowance: nat) returns (end: End)
      requires Begins(db, blkend, blkstart)
      modifies this, db
      ensures index == old(index) && Ends(db, end, Probe, allowance)
    {
      end := Finished;
      var current := blkstart;
      while current <= blkend
        invariant Begins(db, blkend, current) && index == old(index) && end == Finished
      {
        var n, i;
        n, i, end := Walk(db, blkend, current, allowance);
        if end != Finished {
          return;
        }
        if 0 < i {
          if 1 < n {
            i := FetchSteps(db, n, i, blkend, current);
          }
          maxpath := i;
          RaiseResult(db, blkend, current);
          PublishPath(db, blkend, current);
        }
        current := current + 1;
      }
    }

    /** The transaction that adds the local statistics to the shared ones; it is repeated until it commits. */
    method MergeStatistics(db: Database)
      requires Synced(db, Merge)
      modifies db
      ensures Synced(db, Done)
    {
      var aborts :| 0 <= aborts;
      for a := 0 to aborts
        invariant Synced(db, Merge)
      {
        var _ := db.Others(id);
        db.Turn(id, true);
      }
      var _ := db.Others(id);
      MergeTurn(db);
      db.readCount := db.readCount + readsLcl;
      db.updateCount := db.updateCount + updatesLcl;
      var highestDB := OrZero(db.highest);
      if highestDB < highestLcl {
        db.highest := Some(highestLcl);
      }
    }

    /** The limits that a winner of a claim fetches are defined, and the block is not empty. */
    lemma BlockDefined(db: Database)
      requires Synced(db, FetchEnd) || Synced(db, FetchStart)
      ensures index in db.limits && (index == 1 ==> 1 <= db.limits[index])
      ensures Me(db).pc.FetchStart? ==>
        index - 1 in db.limits && db.limits[index - 1] + 1 <= Me(db).blkend
    {
      Informed(db);
      BlockEnds(db.plan, index);
    }

    lemma LimitsFixed(db: Database)
      requires db.Valid()
      ensures db.limits == db.plan.limits && forall b :: b in db.limits ==> b <= db.plan.count
    {
      db.Consistent();
    }

    /** Is there a block at this index? */
    method ProbeBlock(db: Database) returns (defined: bool)
      requires Synced(db, Probe)
      modifies this, db
      ensures index == old(index) + 1 && Synced(db, if defined then Claim else Merge)
      ensures defined ==> index <= db.plan.count
    {
      index := index + 1;
      var _ := db.Others(id);
      LimitsFixed(db);
      db.Turn(id, false);
      defined := index in db.limits;
    }

    /** Bumps the claim counter of the block; the goroutine that makes it 1 has the block. */
    method ClaimBlock(db: Database) returns (won: bool)
      requires Synced(db, Claim)
      modifies db
      ensures Synced(db, if won then FetchEnd else Probe)
    {
      var _ := db.Others(id);
      db.Turn(id, false);
      var claim := Incremented(db.claims, index);
      db.claims := db.claims[index := claim];
      won := 1 == claim;
    }

    /** Fetches where the block before the claimed one ends. */
    method FetchPrevious(db: Database, ghost blkend: int) returns (blkstart: int)
      requires Synced(db, FetchStart) && Me(db).blkend == blkend
      modifies db
      ensures Begins(db, blkend, blkstart)
    {
      var _ := db.Others(id);
      BlockDefined(db);
      db.Turn(id, false);
      blkstart := db.limits[index - 1] + 1;
    }

    /** Fetches where the claimed block begins and ends. */
    method FetchBlock(db: Database) returns (blkstart: int, blkend: int)
      requires Synced(db, FetchEnd)
      modifies db
      ensures Begins(db, blkend, blkstart)
    {
      var _ := db.Others(id);
      BlockDefined(db);
      db.Turn(id, false);
      blkend := db.limits[index];
      if 1 == index {
        blkstart := 1;
      } else {
        blkstart := FetchPrevious(db, blkend);
      }
    }

    /**
     Looks for blocks that nobody has claimed, and processes them. The goroutine comes to its end unless
     the process panics or, with some start that does not reach 1 within the allowance, a walk is cut off.
     */
    method DoBlk(db: Database, allowance: nat) returns (end: End)
      requires Synced(db, Probe)
      modifies this, db
      ensures Ends(db, end, Done, allowance)
    {
      end := Finished;
      while true
        invariant Synced(db, Probe) && end == Finished
        decreases db.plan.count - index
      {
        var defined := ProbeBlock(db);
        if !defined {
          break;
        }
        var won := ClaimBlock(db);
        if !won {
          continue;
        }
        var blkstart, blkend := FetchBlock(db);
        end := DoStep(db, blkstart, blkend, allowance);
        if end != Finished {
          return;
        }
      }
      MergeStatistics(db);
    }
  }
}
