/**
 The pseudo bank as it is programmed: keys and buffers that are filled in place and shared by all
 accesses of a transfer, records that load and save themselves, and a transaction whose body is
 cut off by a restart at any access and run again on what the earlier attempts left in memory.
 */
module BankProgram {
  import opened Options
  import opened Text
  import opened Traces
  import opened Bank
  import opened BankRuns

  /** How an access to the database, or a transaction body, ends. */
  datatype Code = Ok | Restart | Panicked

  /** The name and the subscripts of a node, of which the first `used` count. */
  class KeyT {
    var varnm: Global
    var subs: array<string>
    var used: nat

    ghost predicate Valid()
      reads this
    {
      subs.Length == 2 && used <= 2
    }

    constructor ()
      ensures Valid() && fresh(subs)
    {
      varnm, used := Accounts, 0;
      subs := new string[2](_ => "");
    }

    function Name(): Node
      requires Valid()
      reads this, subs
    {
      Node(varnm, subs[..used])
    }

    method SetAccountKey(cid: int)
      requires Valid()
      modifies this`varnm, this`used, subs
      ensures Valid() && Name() == AccountKey(cid)
    {
      varnm, used := Accounts, 1;
      subs[0] := Itoa(cid);
    }

    method SetHistKey(cid: int, histSeq: int)
      requires Valid()
      modifies this`varnm, this`used, subs
      ensures Valid() && Name() == HistKey(cid, histSeq)
    {
      varnm, used := Histories, 2;
      subs[0] := Itoa(cid);
      subs[1] := Itoa(histSeq);
    }

    method SetTrnLogKey(guid: string, tseq: int)
      requires Valid()
      modifies this`varnm, this`used, subs
      ensures Valid() && Name() == LogKey(guid, tseq)
    {
      varnm, used := Logs, 2;
      subs[0] := guid;
      subs[1] := Itoa(tseq);
    }
  }

  class BufferT {
    var text: string

    constructor ()
    {
      text := "";
    }
  }

  /**
   The database. When `left` is a number, the access after that many more is answered with a restart.
   `past` are the committed transfers of all workers, and the state of the bank on values to which they
   have led. Between transactions the nodes have the texts that they have there.
   */
  class Database {
    var nodes: Nodes
    var left: Option<nat>

    ghost const u: Setup
    ghost var past: Past

    ghost predicate Valid()
      reads this
    {
      Traced(u, past) && nodes == past.world.nodes
    }

    /** The database that the initialization leaves. */
    constructor (ghost u: Setup, nodes: Nodes)
      requires Proper(u) && nodes == InitNodes(u.accounts)
      ensures Valid() && past.turns == [] && this.u == u && this.nodes == nodes
    {
      this.nodes, left := nodes, None;
      this.u, past := u, Past([], [Run(u, [])], Run(u, []));
    }

    /** Records the commit of a transfer. */
    ghost method Commit(t: Turn)
      requires Traced(u, past)
      requires var world := Act(u, past.world, t); nodes == world.nodes && |world.next| == u.workers
      modifies `past
      ensures Valid() && past.turns == old(past).turns + [t] && past.world == Act(u, old(past).world, t)
    {
      past := PastGrows(u, past, t);
    }

    /**
     What the other workers commit in the meantime. The caller learns only that they made turns of their
     own; a commit of theirs is what makes an attempt restart.
     */
    method Others(ghost worker: nat) returns (ghost between: seq<Turn>)
      requires Valid() && worker < u.workers
      modifies `nodes, `past
      ensures Valid() && Elsewhere(old(past), past, between, worker)
    {
      between := [];
      ElsewhereNothing(past, worker);
    }

    /** The accounts of a possible transfer can be loaded. */
    lemma TransfersApply(t: Turn)
      requires Traced(u, past) && Possible(u, past.world, t)
      ensures Apply(past.world.nodes, Request(u, t, past.world.next[t.worker])).Some?
    {
      PastIsRun(u, past);
      ActAccounts(u, past.world, t);
    }

    /** Money is conserved and all histories are in order, whenever no transaction is under way. */
    lemma BooksAreInOrder(cid: int)
      requires Valid() && InRange(u.accounts, cid)
      ensures nodes == Run(u, past.turns).nodes
      ensures Total(nodes, u.accounts) == u.accounts * OPENING && HistoryOk(nodes, cid)
    {
      PastIsRun(u, past);
    }

    /** So are the records of all transfers, each with the end balances of its two accounts. */
    lemma RecordsAreKept()
      requires Valid()
      ensures forall i :: 0 <= i < |past.world.posted| ==> Kept(u, nodes, past.world.posted[i])
    {
      PastIsRun(u, past);
      PostingsOf(u, past.world);
    }

    method Access() returns (code: Code)
      modifies `left
      ensures code == Ok || (code == Restart && old(left).Some?)
      ensures left.Some? == old(left).Some?
    {
      match left
      case None =>
        code := Ok;
      case Some(k) =>
        if k == 0 {
          code := Restart;
        } else {
          left := Some(k - 1);
          code := Ok;
        }
    }

    method ValST(key: KeyT, buff: BufferT) returns (code: Code)
      requires key.Valid()
      modifies `left, buff
      ensures left.Some? == old(left).Some?
      ensures code == Ok ==> key.Name() in nodes && buff.text == nodes[key.Name()]
      ensures code == Restart ==> old(left).Some?
      ensures code == Panicked ==> key.Name() !in nodes
    {
      code := Access();
      if code == Ok {
        if key.Name() in nodes {
          buff.text := nodes[key.Name()];
        } else {
          code := Panicked;
        }
      }
    }

    method SetValST(key: KeyT, buff: BufferT) returns (code: Code)
      requires key.Valid()
      modifies `left, `nodes
      ensures left.Some? == old(left).Some?
      ensures code == Ok || (code == Restart && old(left).Some?)
      ensures nodes == if code == Ok then old(nodes)[key.Name() := buff.text] else old(nodes)
    {
      code := Access();
      if code == Ok {
        nodes := nodes[key.Name() := buff.text];
      }
    }
  }

  class AccountRecord {
    var cid: int
    var bal: int
    var histSeq: int

    function Value(): Account
      reads this
    {
      Account(cid, bal, histSeq)
    }

    constructor ()
    {
    }

    method Load(db: Database, cid: int, key: KeyT, data: BufferT) returns (code: Code)
      requires key.Valid()
      modifies this, db`left, key`varnm, key`used, key.subs, data
      ensures key.Valid() && db.left.Some? == old(db.left).Some?
      ensures code == Ok ==> LoadAccount(db.nodes, cid) == Some(Value())
      ensures code == Restart ==> old(db.left).Some?
      ensures code == Panicked ==> LoadAccount(db.nodes, cid) == None
    {
      key.SetAccountKey(cid);
      code := db.ValST(key, data);
      if code == Ok {
        var values := Split(data.text, BAR);
        if |values| < 2 {
          code := Panicked;
        } else {
          this.cid := cid;
          histSeq := Atoi(values[0]);
          bal := Atoi(values[1]);
        }
      }
    }

    method Save(db: Database, key: KeyT, data: BufferT) returns (code: Code)
      requires key.Valid()
      modifies db`nodes, db`left, key`varnm, key`used, key.subs, data
      ensures key.Valid() && db.left.Some? == old(db.left).Some?
      ensures code == Ok || (code == Restart && old(db.left).Some?)
      ensures code == Ok ==> db.nodes == old(db.nodes)[AccountKey(cid) := AccountText(Value())]
    {
      key.SetAccountKey(cid);
      data.text := Itoa(histSeq) + [BAR] + Itoa(bal);
      code := db.SetValST(key, data);
    }
  }

  class HistRecord {
    var cid: int
    var histSeq: int
    var comment: string
    var amt: int
    var endbal: int
    var user: string

    constructor (cid: int, histSeq: int, comment: string, amt: int, endbal: int, user: string)
      ensures this.cid == cid && this.histSeq == histSeq && this.comment == comment
      ensures this.amt == amt && this.endbal == endbal && this.user == user
    {
      this.cid, this.histSeq, this.comment := cid, histSeq, comment;
      this.amt, this.endbal, this.user := amt, endbal, user;
    }

    method Save(db: Database, key: KeyT, data: BufferT) returns (code: Code)
      requires key.Valid()
      modifies db`nodes, db`left, key`varnm, key`used, key.subs, data
      ensures key.Valid() && db.left.Some? == old(db.left).Some?
      ensures code == Ok || (code == Restart && old(db.left).Some?)
      ensures code == Ok ==>
        db.nodes == old(db.nodes)[HistKey(cid, histSeq) := HistText(comment, amt, endbal, user)]
    {
      key.SetHistKey(cid, histSeq);
      data.text := comment + [BAR] + (Itoa(amt) + [BAR] + (Itoa(endbal) + [BAR] + user));
      code := db.SetValST(key, data);
    }
  }

  class TrnLog {
    var guid: string
    var tseq: int
    var comment: string
    var stamp: string
    var cid: int
    var amt: int
    var endbal: int
    var user: string

    constructor (guid: string, tseq: int, comment: string, stamp: string, cid: int, amt: int, endbal: int, user: string)
      ensures this.guid == guid && this.tseq == tseq && this.comment == comment && this.stamp == stamp
      ensures this.cid == cid && this.amt == amt && this.endbal == endbal && this.user == user
    {
      this.guid, this.tseq, this.comment, this.stamp := guid, tseq, comment, stamp;
      this.cid, this.amt, this.endbal, this.user := cid, amt, endbal, user;
    }

    method Save(db: Database, key: KeyT, data: BufferT) returns (code: Code)
      requires key.Valid()
      modifies db`nodes, db`left, key`varnm, key`used, key.subs, data
      ensures key.Valid() && db.left.Some? == old(db.left).Some?
      ensures code == Ok || (code == Restart && old(db.left).Some?)
      ensures code == Ok ==>
        db.nodes == old(db.nodes)[LogKey(guid, tseq) := LogText(comment, stamp, cid, amt, endbal, user)]
    {
      key.SetTrnLogKey(guid, tseq);
      data.text := comment + [BAR] + (stamp + [BAR]
        + (Itoa(cid) + [BAR] + (Itoa(amt) + [BAR] + (Itoa(endbal) + [BAR] + user))));
      code := db.SetValST(key, data);
    }
  }

  /** The transfer, with the keys and buffers that all its accesses and all its attempts share. */
  class Posting {
    const db: Database
    const key: KeyT
    const buff: BufferT

    ghost predicate Valid()
      reads this, key
    {
      key.Valid()
    }

    constructor (db: Database)
      ensures Valid() && fresh(key) && fresh(key.subs) && fresh(buff) && this.db == db
    {
      this.db := db;
      key := new KeyT();
      buff := new BufferT();
    }

    /** Both accounts are loaded, changed, and then saved. */
    method MoveAmount(x: Transfer) returns (code: Code, a: AccountRecord, b: AccountRecord)
      requires Valid()
      modifies db`nodes, db`left, key`varnm, key`used, key.subs, buff
      ensures Valid() && db.left.Some? == old(db.left).Some? && fresh(a) && fresh(b) && a != b
      ensures code == Restart ==> old(db.left).Some?
      ensures code == Panicked ==> Apply(old(db.nodes), x) == None
      ensures code == Ok ==>
        && LoadAccount(old(db.nodes), x.from).Some? && LoadAccount(old(db.nodes), x.to).Some?
        && a.Value() == Debited(x, LoadAccount(old(db.nodes), x.from).value)
        && b.Value() == Credited(x, LoadAccount(old(db.nodes), x.to).value)
        && db.nodes == SetTwo(old(db.nodes), AccountKey(x.from), AccountText(a.Value()),
                              AccountKey(x.to), AccountText(b.Value()))
    {
      a := new AccountRecord();
      b := new AccountRecord();
      code := a.Load(db, x.from, key, buff);
      if code != Ok { return; }
      code := b.Load(db, x.to, key, buff);
      if code != Ok { return; }
      a.histSeq := a.histSeq + 1;
      a.bal := a.bal - x.amt;
      b.histSeq := b.histSeq + 1;
      b.bal := b.bal + x.amt;
      code := a.Save(db, key, buff);
      if code != Ok { return; }
      code := b.Save(db, key, buff);
    }

    method WriteHistories(x: Transfer, a: AccountRecord, b: AccountRecord) returns (code: Code)
      requires Valid() && a.cid == x.from && b.cid == x.to
      modifies db`nodes, db`left, key`varnm, key`used, key.subs, buff
      ensures Valid() && db.left.Some? == old(db.left).Some?
      ensures code == Ok || (code == Restart && old(db.left).Some?)
      ensures code == Ok ==>
        db.nodes == SetTwo(old(db.nodes), HistKey(x.from, a.histSeq), FromHistory(x, a.Value()),
                           HistKey(x.to, b.histSeq), ToHistory(x, b.Value()))
    {
      var histFrom := new HistRecord(x.from, a.histSeq, FromComment(x), -x.amt, a.bal, x.ref);
      code := histFrom.Save(db, key, buff);
      if code != Ok { return; }
      assert db.nodes == old(db.nodes)[HistKey(x.from, a.histSeq) := FromHistory(x, a.Value())];
      var histTo := new HistRecord(x.to, b.histSeq, ToComment(x), x.amt, b.bal, x.ref);
      code := histTo.Save(db, key, buff);
    }

    method WriteLogs(x: Transfer, a: AccountRecord, b: AccountRecord) returns (code: Code)
      requires Valid()
      modifies db`nodes, db`left, key`varnm, key`used, key.subs, buff
      ensures Valid() && db.left.Some? == old(db.left).Some?
      ensures code == Ok || (code == Restart && old(db.left).Some?)
      ensures code == Ok ==>
        db.nodes == SetTwo(old(db.nodes), LogKey(x.ref, 1), FromLog(x, a.Value()),
                           LogKey(x.ref, 2), ToLog(x, b.Value()))
    {
      var trnLogFrom := new TrnLog(x.ref, 1, FromComment(x), x.stamp, x.from, -x.amt, a.bal, x.user);
      code := trnLogFrom.Save(db, key, buff);
      if code != Ok { return; }
      assert db.nodes == old(db.nodes)[LogKey(x.ref, 1) := FromLog(x, a.Value())];
      var trnLogTo := new TrnLog(x.ref, 2, ToComment(x), x.stamp, x.to, x.amt, b.bal, x.user);
      code := trnLogTo.Save(db, key, buff);
    }

    /** One attempt at the transaction, on whatever earlier attempts have left in the key and the buffer. */
    method Attempt(x: Transfer) returns (code: Code)
      requires Valid()
      modifies db`nodes, db`left, key`varnm, key`used, key.subs, buff
      ensures Valid()
      ensures code == Restart ==> old(db.left).Some?
      ensures code == Panicked ==> Apply(old(db.nodes), x) == None
      ensures code == Ok ==> Apply(old(db.nodes), x) == Some(db.nodes)
    {
      var a, b;
      code, a, b := MoveAmount(x);
      if code != Ok { return; }
      code := WriteHistories(x, a, b);
      if code != Ok { return; }
      code := WriteLogs(x, a, b);
    }

    /**
     One attempt of the transaction, with a new time, after other workers have committed. Unless it goes
     through, its changes to the database are undone.
     */
    method Try(ref: string, from: int, to: int, amt: int, user: string, left: Option<nat>, ghost worker: nat)
      returns (code: Code, x: Transfer, ghost between: seq<Turn>)
      requires Valid() && db.Valid() && worker < db.u.workers
      modifies db, key`varnm, key`used, key.subs, buff
      ensures Valid() && BAR !in x.stamp && x == Transfer(ref, from, to, amt, user, x.stamp)
      ensures Traced(db.u, db.past) && Elsewhere(old(db.past), db.past, between, worker)
      ensures code == Ok ==> Apply(db.past.world.nodes, x) == Some(db.nodes)
      ensures code != Ok ==> db.Valid()
      ensures code == Panicked ==> Apply(db.past.world.nodes, x) == None
      ensures code == Restart ==> left.Some?
    {
      between := db.Others(worker);
      var before := db.nodes;
      var stamp :| BAR !in stamp;
      x := Transfer(ref, from, to, amt, user, stamp);
      db.left := left;
      code := Attempt(x);
      if code != Ok {
        db.nodes := before;
      }
    }

    /**
     The transaction: the k-th attempt is given a restart after restarts[k] accesses, and is made again.
     What is committed is the transfer applied once to the database as the others have left it.
     */
    method PostTransfer(ref: string, from: int, to: int, amt: int, user: string, restarts: seq<nat>, ghost worker: nat)
      returns (code: Code, x: Transfer, ghost between: seq<Turn>)
      requires Valid() && db.Valid() && worker < db.u.workers
      modifies db, key`varnm, key`used, key.subs, buff
      ensures Valid() && code != Restart && BAR !in x.stamp
      ensures x == Transfer(ref, from, to, amt, user, x.stamp)
      ensures Traced(db.u, db.past) && Elsewhere(old(db.past), db.past, between, worker)
      ensures if code == Ok then Apply(db.past.world.nodes, x) == Some(db.nodes)
              else Apply(db.past.world.nodes, x) == None && db.Valid()
    {
      ghost var start, more := db.past, [];
      between := [];
      ElsewhereNothing(start, worker);
      for k := 0 to |restarts|
        invariant Valid() && db.Valid() && Elsewhere(start, db.past, between, worker)
      {
        ghost var known, others := db.past, between;
        code, x, more := Try(ref, from, to, amt, user, Some(restarts[k]), worker);
        ElsewhereTwice(start, known, db.past, others, more, worker);
        between := others + more;
        if code != Restart { return; }
      }
      ghost var known, others := db.past, between;
      code, x, more := Try(ref, from, to, amt, user, None, worker);
      ElsewhereTwice(start, known, db.past, others, more, worker);
      between := others + more;
    }
  }

  /** The initialisation of the data: all accounts, and then the first history record of each. */
  method InitData(ghost u: Setup, accounts: nat) returns (db: Database)
    requires Proper(u) && accounts == u.accounts
    ensures fresh(db) && db.Valid() && db.past.turns == [] && db.u == u
  {
    var nodes := SetAccounts(accounts);
    nodes := SetHistories(nodes, accounts);
    db := new Database(u, nodes);
  }

  method SetAccounts(accounts: nat) returns (nodes: Nodes)
    ensures nodes == InitAccounts(accounts)
  {
    nodes := map[];
    for i := 0 to accounts
      invariant nodes == InitAccounts(i)
    {
      nodes := nodes[AccountKey(START_CID + i) := OPENING_ACCOUNT];
    }
  }

  method SetHistories(before: Nodes, accounts: nat) returns (nodes: Nodes)
    ensures nodes == InitHistories(before, accounts)
  {
    nodes := before;
    for i := 0 to accounts
      invariant nodes == InitHistories(before, i)
    {
      nodes := nodes[HistKey(START_CID + i, 1) := OPENING_HISTORY];
    }
  }

  /** The two numbers that a worker draws, and the restarts that it meets. */
  datatype Draw = Draw(r1: nat, r2: nat, restarts: seq<nat>)

  /** A worker, which counts its transfers. */
  class Teller {
    const id: nat
    var t: nat

    constructor (id: nat)
      ensures this.id == id && t == 0
    {
      this.id, t := id, 0;
    }

    /** The worker has made as many turns as it has counted. */
    ghost predicate Synced(db: Database)
      reads this, db
    {
      db.Valid() && id < db.u.workers && t == db.past.world.next[id]
    }

    /**
     One pass of the worker's loop, with the two numbers it has drawn. It commits exactly one turn, after
     what others have committed in the meantime, and never panics.
     */
    method NextTransfer(u: Setup, db: Database, draw: Draw) returns (ghost between: seq<Turn>, ghost turn: Turn)
      requires Synced(db) && u == db.u && draw.r1 < u.accounts && draw.r2 < u.accounts - 1
      modifies this`t, db
      ensures Synced(db) && t == old(t) + 1
      ensures turn == Turn(id, draw.r1, draw.r2, turn.stamp) && forall x :: x in between ==> x.worker != id
      ensures db.past.turns == old(db.past).turns + between + [turn]
    {
      ghost var k := t;
      var key, from, to := Ref(u, id, t), PickFrom(draw.r1), PickTo(draw.r1, draw.r2);
      t := t + 1;
      var post := new Posting(db);
      var code, x;
      code, x, between := post.PostTransfer(key, from, to, TRAN_AMT, u.user, draw.restarts, id);
      turn := Turn(id, draw.r1, draw.r2, x.stamp);
      assert x == Request(u, turn, k) && db.past.world.next[id] == k;
      db.TransfersApply(turn);
      ActIsApply(u, db.past.world, turn, db.nodes);
      db.Commit(turn);
    }

    /** The loop of a worker. */
    method Work(u: Setup, db: Database, draws: seq<Draw>)
      requires Synced(db) && u == db.u
      requires forall d :: d in draws ==> d.r1 < u.accounts && d.r2 < u.accounts - 1
      modifies this`t, db
      ensures Synced(db) && t == old(t) + |draws|
    {
      for i := 0 to |draws|
        invariant Synced(db) && t == old(t) + i
      {
        var _, _ := NextTransfer(u, db, draws[i]);
      }
    }
  }
}
