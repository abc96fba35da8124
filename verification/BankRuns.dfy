/** Every run of the pseudo bank: any interleaving of the committed transfers of its workers. */
module BankRuns {
  import opened Options
  import opened Text
  import opened Bank
  import opened Chains
  import opened Arith
  import opened Traces

  /** Worker i numbers its transfers i, i + spread, i + 2 * spread, and so on. */
  datatype Setup = Setup(accounts: nat, workers: nat, spread: nat, user: string)

  ghost predicate Proper(u: Setup) {
    2 <= u.accounts && u.workers <= u.spread
  }

  /** A committed transfer: the t-th of its worker, and the two accounts as it left them. */
  datatype Posting = Posting(worker: nat, t: nat, x: Transfer, debited: Account, credited: Account)

  datatype State = State(nodes: Nodes, next: seq<nat>, posted: seq<Posting>)

  /** A worker commits a transfer; r1 and r2 are the two random numbers it drew. */
  datatype Turn = Turn(worker: nat, r1: nat, r2: nat, stamp: string)

  /** The texts that every account and its first history record are initialised with. */
  const OPENING_ACCOUNT: string := "1|10000000"
  const OPENING_HISTORY: string := "Account Create||10000000"

  function InitAccounts(n: nat): Nodes {
    if n == 0 then map[] else InitAccounts(n - 1)[AccountKey(START_CID + n - 1) := OPENING_ACCOUNT]
  }

  function InitHistories(nodes: Nodes, n: nat): Nodes {
    if n == 0 then nodes else InitHistories(nodes, n - 1)[HistKey(START_CID + n - 1, 1) := OPENING_HISTORY]
  }

  /** The database after its initialisation: first all accounts, then a first history record for each. */
  function InitNodes(n: nat): Nodes {
    InitHistories(InitAccounts(n), n)
  }

  function PickFrom(r1: nat): int {
    START_CID + r1
  }

  function PickTo(r1: nat, r2: nat): int {
    var to := START_CID + r2;
    if PickFrom(r1) == to then to + 1 else to
  }

  function Ref(u: Setup, worker: nat, t: nat): string {
    Itoa(worker + t * u.spread)
  }

  function Request(u: Setup, t: Turn, k: nat): Transfer {
    Transfer(Ref(u, t.worker, k), PickFrom(t.r1), PickTo(t.r1, t.r2), TRAN_AMT, u.user, t.stamp)
  }

  predicate Possible(u: Setup, s: State, t: Turn) {
    && t.worker < u.workers && t.worker < |s.next|
    && t.r1 < u.accounts && t.r2 < u.accounts - 1
    && BAR !in t.stamp
  }

  function Act(u: Setup, s: State, t: Turn): State {
    if !Possible(u, s, t) then s else Post(s, t.worker, Request(u, t, s.next[t.worker]))
  }

  function Post(s: State, worker: nat, x: Transfer): State
    requires worker < |s.next|
  {
    var a, b := LoadAccount(s.nodes, x.from), LoadAccount(s.nodes, x.to);
    if a.None? || b.None? then s else Commit(s, worker, x, Debited(x, a.value), Credited(x, b.value))
  }

  function Commit(s: State, worker: nat, x: Transfer, a: Account, b: Account): State
    requires worker < |s.next|
  {
    State(Records(s.nodes, x, a, b), s.next[worker := s.next[worker] + 1],
          s.posted + [Posting(worker, s.next[worker], x, a, b)])
  }

  function Run(u: Setup, turns: seq<Turn>): State {
    if turns == [] then State(InitNodes(u.accounts), seq(u.workers, _ => 0), [])
    else Act(u, Run(u, turns[..|turns| - 1]), turns[|turns| - 1])
  }

  function Acting(u: Setup): (State, Turn) -> State {
    (s, t) => Act(u, s, t)
  }

  lemma {:induction false} TraceIsRun(u: Setup, turns: seq<Turn>, states: seq<State>)
    requires IsTrace(Acting(u), turns, states) && states[0] == Run(u, [])
    ensures Run(u, turns) == states[|turns|]
    decreases |turns|
  {
    if turns != [] {
      ShortenTrace(Acting(u), turns, states);
      TraceIsRun(u, turns[..|turns| - 1], states[..|turns|]);
    }
  }

  /** The transfer of the turn, made in the state s, leaves these nodes. */
  ghost predicate Leaves(u: Setup, s: State, t: Turn, nodes: Nodes)
    requires Possible(u, s, t)
  {
    Apply(s.nodes, Request(u, t, s.next[t.worker])) == Some(nodes)
  }

  /** Such a turn commits its transfer. */
  lemma ActIsApply(u: Setup, s: State, t: Turn, nodes: Nodes)
    requires Possible(u, s, t) && Leaves(u, s, t, nodes)
    ensures Act(u, s, t).nodes == nodes
    ensures Act(u, s, t).next == s.next[t.worker := s.next[t.worker] + 1]
  {
    PostIsApply(s, t.worker, Request(u, t, s.next[t.worker]));
  }

  lemma PostIsApply(s: State, worker: nat, x: Transfer)
    requires worker < |s.next| && Apply(s.nodes, x).Some?
    ensures Post(s, worker, x).nodes == Apply(s.nodes, x).value
    ensures Post(s, worker, x).next == s.next[worker := s.next[worker] + 1]
  {
    var a, b := LoadAccount(s.nodes, x.from), LoadAccount(s.nodes, x.to);
    CommitIs(s, worker, x, Debited(x, a.value), Credited(x, b.value));
  }

  lemma CommitIs(s: State, worker: nat, x: Transfer, a: Account, b: Account)
    requires worker < |s.next|
    ensures Commit(s, worker, x, a, b).nodes == Records(s.nodes, x, a, b)
    ensures Commit(s, worker, x, a, b).next == s.next[worker := s.next[worker] + 1]
  {
  }

  /** The turns of all workers so far, the states that they have led through, and the last of these. */
  datatype Past = Past(turns: seq<Turn>, states: seq<State>, world: State)

  /** The turns have led there from the opening state. */
  ghost predicate Traced(u: Setup, p: Past) {
    match p
    case Past(turns, states, world) =>
      && Proper(u)
      && IsTrace(Acting(u), turns, states)
      && states[0] == Run(u, [])
      && world == states[|turns|]
      && |world.next| == u.workers
  }

  lemma PastGrows(u: Setup, p: Past, t: Turn) returns (p': Past)
    requires Traced(u, p) && |Act(u, p.world, t).next| == u.workers
    ensures Traced(u, p') && p'.turns == p.turns + [t] && p'.world == Act(u, p.world, t)
  {
    var world := Act(u, p.world, t);
    ExtendTrace(Acting(u), p.turns, p.states, t);
    p' := Past(p.turns + [t], p.states + [world], world);
  }

  /** The turns of all workers, however interleaved, are a run of the bank. */
  lemma PastIsRun(u: Setup, p: Past)
    requires Traced(u, p)
    ensures p.world == Run(u, p.turns) && Inv(u, p.world)
  {
    TraceIsRun(u, p.turns, p.states);
    RunInv(u, p.turns);
  }

  /** Only workers other than this one have made turns. */
  ghost predicate Elsewhere(p: Past, p': Past, between: seq<Turn>, worker: nat) {
    && worker < |p.world.next| && worker < |p'.world.next| && p'.world.next[worker] == p.world.next[worker]
    && p'.turns == p.turns + between && forall t :: t in between ==> t.worker != worker
  }

  lemma ElsewhereNothing(p: Past, worker: nat)
    requires worker < |p.world.next|
    ensures Elsewhere(p, p, [], worker)
  {
    assert p.turns == p.turns + [];
  }

  lemma ElsewhereTwice(a: Past, b: Past, c: Past, first: seq<Turn>, second: seq<Turn>, worker: nat)
    requires Elsewhere(a, b, first, worker) && Elsewhere(b, c, second, worker)
    ensures Elsewhere(a, c, first + second, worker)
  {
  }

  // ----- the accounts drawn

  /** The two accounts of a transfer are different and exist. */
  lemma PicksDiffer(n: nat, r1: nat, r2: nat)
    requires r1 < n && r2 < n - 1
    ensures PickFrom(r1) != PickTo(r1, r2) && InRange(n, PickFrom(r1)) && InRange(n, PickTo(r1, r2))
  {
  }

  /**
   Which accounts can be drawn: any two different ones, except that the last account of the bank receives
   from the last but one only.
   */
  lemma PicksIff(n: nat, from: int, to: int)
    requires 2 <= n && InRange(n, from) && InRange(n, to)
    ensures (exists r1: nat, r2: nat :: r1 < n && r2 < n - 1 && PickFrom(r1) == from && PickTo(r1, r2) == to)
      <==> from != to && (to == 100_000 + n ==> from == 99_999 + n)
  {
    if from != to && (to == 100_000 + n ==> from == 99_999 + n) {
      var r1, r2 := from - START_CID, if to == from + 1 then from - START_CID else to - START_CID;
      assert PickFrom(r1) == from && PickTo(r1, r2) == to;
    }
  }

  // ----- references

  lemma RefArithmetic(w: nat, t: nat, w': nat, t': nat, spread: nat)
    requires w < spread && w' < spread && w + t * spread == w' + t' * spread
    ensures w == w' && t == t'
  {
    DivUnique(w + t * spread, t, w, spread);
    DivUnique(w + t * spread, t', w', spread);
    Distribute(t, t', spread);
    Distribute(t', t, spread);
    if t > t' { MulAtLeast(t - t', spread); }
    if t' > t { MulAtLeast(t' - t, spread); }
  }

  /** References of different transfers never collide. */
  lemma RefsDiffer(u: Setup, w: nat, t: nat, w': nat, t': nat)
    requires w < u.workers <= u.spread && w' < u.workers && Ref(u, w, t) == Ref(u, w', t')
    ensures w == w' && t == t'
  {
    ItoaInjective(w + t * u.spread, w' + t' * u.spread);
    RefArithmetic(w, t, w', t', u.spread);
  }

  // ----- the opening state

  lemma AppendZero(n: nat, s: string)
    requires 1 <= n && Itoa(n) == s
    ensures Itoa(10 * n) == s + "0"
  {
    assert (10 * n) / 10 == n && (10 * n) % 10 == 0;
  }

  lemma OpeningNumbers()
    ensures Itoa(1) == "1" && Itoa(OPENING) == "10000000"
  {
    assert Itoa(1) == "1";
    AppendZero(1, "1");
    AppendZero(10, "10");
    AppendZero(100, "100");
    AppendZero(1000, "1000");
    AppendZero(10000, "10000");
    AppendZero(100000, "100000");
    AppendZero(1000000, "1000000");
  }

  /** A record without an amount still has its end balance in field 2. */
  lemma EmptyAmount(comment: string, endbal: string)
    requires BAR !in comment && BAR !in endbal
    ensures NumberAt(comment + [BAR] + ([] + [BAR] + endbal), 2) == Atoi(endbal)
  {
    PeelTwo(comment, [], endbal, 0);
    SplitOne(endbal, BAR);
  }

  lemma OpeningAccount(a: Account)
    requires Itoa(a.histSeq) == "1" && Itoa(a.bal) == "10000000"
    ensures AccountText(a) == OPENING_ACCOUNT
  {
  }

  /** The opening texts are those of an account and of a history in order. */
  lemma OpeningTexts(a: Account)
    requires a.histSeq == 1 && a.bal == OPENING
    ensures AccountText(a) == OPENING_ACCOUNT
    ensures NumberAt(OPENING_HISTORY, 2) == OPENING
  {
    OpeningNumbers();
    OpeningAccount(a);
    OpeningHistory("Account Create", Itoa(OPENING));
  }

  lemma OpeningHistory(comment: string, endbal: string)
    requires comment == "Account Create" && endbal == Itoa(OPENING) == "10000000"
    ensures NumberAt(OPENING_HISTORY, 2) == OPENING
  {
    AtoiItoa(OPENING);
    ItoaNoBar(OPENING);
    EmptyAmount(comment, endbal);
    OpeningHistoryText(comment, endbal);
  }

  lemma OpeningHistoryText(comment: string, endbal: string)
    requires comment == "Account Create" && endbal == "10000000"
    ensures comment + [BAR] + ([] + [BAR] + endbal) == OPENING_HISTORY
  {
    assert [] + [BAR] + endbal == "|10000000";
  }

  lemma {:induction false} InitAccountsHas(n: nat, key: Node)
    ensures key in InitAccounts(n) <==> exists cid :: InRange(n, cid) && key == AccountKey(cid)
    ensures key in InitAccounts(n) ==> InitAccounts(n)[key] == OPENING_ACCOUNT
    decreases n
  {
    if n > 0 {
      InitAccountsHas(n - 1, key);
      if key in InitAccounts(n - 1) {
        var cid :| InRange(n - 1, cid) && key == AccountKey(cid);
        assert InRange(n, cid);
      } else if key in InitAccounts(n) {
        assert InRange(n, START_CID + n - 1);
      }
    }
  }

  lemma {:induction false} InitHistoriesHas(nodes: Nodes, n: nat, key: Node)
    ensures var nodes' := InitHistories(nodes, n);
      if exists cid :: InRange(n, cid) && key == HistKey(cid, 1) then key in nodes' && nodes'[key] == OPENING_HISTORY
      else SameAt(nodes, nodes', key)
    decreases n
  {
    if n > 0 {
      InitHistoriesHas(nodes, n - 1, key);
      var last := START_CID + n - 1;
      assert InRange(n, last);
      if cid :| InRange(n, cid) && key == HistKey(cid, 1) {
        assert cid == last || InRange(n - 1, cid);
      }
      if cid :| InRange(n - 1, cid) && key == HistKey(cid, 1) {
        assert InRange(n, cid);
      }
    }
  }

  predicate IsOpening(key: Node, cid: int) {
    key == Node(Accounts, [Itoa(cid)]) || key == Node(Histories, [Itoa(cid), "1"])
  }

  /** The opening database: every account and its first history record, and nothing else. */
  lemma OpeningNodes(n: nat, key: Node)
    ensures key in InitNodes(n) <==>
      (exists cid :: 100_001 <= cid <= 100_000 + n && IsOpening(key, cid))
    ensures key in InitNodes(n) && key.global == Accounts ==> InitNodes(n)[key] == "1|10000000"
    ensures key in InitNodes(n) && key.global == Histories ==> InitNodes(n)[key] == "Account Create||10000000"
  {
    assert Itoa(1) == "1";
    InitAccountsHas(n, key);
    InitHistoriesHas(InitAccounts(n), n, key);
    if cid :| 100_001 <= cid <= 100_000 + n && IsOpening(key, cid) {
      assert InRange(n, cid) && (key == AccountKey(cid) || key == HistKey(cid, 1));
    }
    if cid :| InRange(n, cid) && (key == AccountKey(cid) || key == HistKey(cid, 1)) {
      assert 100_001 <= cid <= 100_000 + n && IsOpening(key, cid);
    }
  }

  lemma InitLoad(n: nat, cid: int)
    requires InRange(n, cid)
    ensures LoadAccount(InitNodes(n), cid) == Some(Account(cid, OPENING, 1))
  {
    InitAccountsHas(n, AccountKey(cid));
    InitHistoriesHas(InitAccounts(n), n, AccountKey(cid));
    OpeningTexts(Account(cid, OPENING, 1));
    LoadSaved(InitNodes(n), Account(cid, OPENING, 1));
  }

  lemma InitRecord(n: nat, cid: int, k: int)
    requires InRange(n, cid)
    ensures HistKey(cid, k) in InitNodes(n) <==> k == 1
    ensures k == 1 ==> InitNodes(n)[HistKey(cid, k)] == OPENING_HISTORY
  {
    var key := HistKey(cid, k);
    InitAccountsHas(n, key);
    InitHistoriesHas(InitAccounts(n), n, key);
    if c :| InRange(n, c) && key == HistKey(c, 1) {
      KeysDiffer(cid, c, k, 1, "");
    }
  }

  lemma InitHistory(n: nat, cid: int)
    requires InRange(n, cid)
    ensures Chain(InitNodes(n), HistKeys(cid), AmountField, EndField, OPENING, 1, OPENING)
  {
    var nodes, key := InitNodes(n), HistKeys(cid);
    forall k
      ensures key(k) in nodes <==> k == 1
      ensures k == 1 ==> nodes[key(k)] == OPENING_HISTORY
    {
      InitRecord(n, cid, k);
    }
    OpeningTexts(Account(cid, OPENING, 1));
    assert EndField(OPENING_HISTORY) == OPENING;
    ChainOpens(nodes, key, AmountField, EndField, OPENING);
  }

  lemma {:induction false} InitSum(f: int -> int, n: nat)
    requires forall cid :: InRange(n, cid) ==> f(cid) == OPENING
    ensures SumOver(f, n) == n * OPENING
    decreases n
  {
    if n > 0 {
      assert forall cid :: InRange(n - 1, cid) ==> InRange(n, cid);
      InitSum(f, n - 1);
      assert InRange(n, START_CID + n - 1);
    }
  }

  // ----- what every run keeps

  /** The two log records of a posting are in the database, as it wrote them. */
  ghost predicate LogKept(nodes: Nodes, p: Posting) {
    var x := p.x;
    && LogKey(x.ref, 1) in nodes && LogKey(x.ref, 2) in nodes
    && nodes[LogKey(x.ref, 1)] == FromLog(x, p.debited)
    && nodes[LogKey(x.ref, 2)] == ToLog(x, p.credited)
  }

  /** Its two history records are there as well. */
  ghost predicate HistKept(nodes: Nodes, p: Posting) {
    var x := p.x;
    && HistKey(x.from, p.debited.histSeq) in nodes && HistKey(x.to, p.credited.histSeq) in nodes
    && nodes[HistKey(x.from, p.debited.histSeq)] == FromHistory(x, p.debited)
    && nodes[HistKey(x.to, p.credited.histSeq)] == ToHistory(x, p.credited)
  }

  /** The transfer is between two different accounts of the bank, of the amount and for the user of all. */
  predicate Ordinary(u: Setup, x: Transfer) {
    && InRange(u.accounts, x.from) && InRange(u.accounts, x.to) && x.from != x.to
    && x.amt == TRAN_AMT && x.user == u.user && BAR !in x.stamp
  }

  /** The posting has a number and a reference of its worker's. */
  ghost predicate RefOk(u: Setup, next: seq<nat>, p: Posting) {
    && p.worker < u.workers && p.worker < |next| && p.t < next[p.worker]
    && p.x.ref == Ref(u, p.worker, p.t) && Ordinary(u, p.x)
  }

  /** No two postings have the same worker and number. */
  ghost predicate Numbered(u: Setup, s: State) {
    && (forall i :: 0 <= i < |s.posted| ==> RefOk(u, s.next, s.posted[i]))
    && (forall i, j :: 0 <= i < j < |s.posted| ==>
          s.posted[i].worker != s.posted[j].worker || s.posted[i].t != s.posted[j].t)
  }

  ghost predicate LogsOk(s: State) {
    forall i :: 0 <= i < |s.posted| ==> LogKept(s.nodes, s.posted[i])
  }

  ghost predicate HistsOk(s: State) {
    forall i :: 0 <= i < |s.posted| ==> HistKept(s.nodes, s.posted[i])
  }

  ghost predicate AccountsOk(u: Setup, s: State) {
    && HasAccounts(s.nodes, u.accounts)
    && Total(s.nodes, u.accounts) == u.accounts * OPENING
    && forall cid :: InRange(u.accounts, cid) ==> HistoryOk(s.nodes, cid)
  }

  ghost predicate Inv(u: Setup, s: State) {
    Proper(u) && |s.next| == u.workers && AccountsOk(u, s) && Numbered(u, s) && LogsOk(s) && HistsOk(s)
  }

  lemma InitInv(u: Setup)
    requires Proper(u)
    ensures Inv(u, Run(u, []))
  {
    forall cid | InRange(u.accounts, cid)
      ensures LoadAccount(InitNodes(u.accounts), cid) == Some(Account(cid, OPENING, 1))
      ensures HistoryOk(InitNodes(u.accounts), cid)
    {
      InitLoad(u.accounts, cid);
      InitHistory(u.accounts, cid);
    }
    InitSum(cid => Balance(InitNodes(u.accounts), cid), u.accounts);
  }

  lemma TransferAccounts(nodes: Nodes, n: nat, x: Transfer)
    requires HasAccounts(nodes, n) && InRange(n, x.from) && InRange(n, x.to)
    requires x.from != x.to && x.amt != 0
    requires forall cid :: InRange(n, cid) ==> HistoryOk(nodes, cid)
    ensures Apply(nodes, x).Some? && HasAccounts(Apply(nodes, x).value, n)
    ensures Total(Apply(nodes, x).value, n) == Total(nodes, n)
    ensures forall cid :: InRange(n, cid) ==> HistoryOk(Apply(nodes, x).value, cid)
  {
    TransferConservesIff(nodes, n, x);
    forall cid | InRange(n, cid)
      ensures HistoryOk(Apply(nodes, x).value, cid)
    {
      TransferKeepsHistory(nodes, x, cid);
    }
  }

  lemma ActAccounts(u: Setup, s: State, t: Turn)
    requires Proper(u) && AccountsOk(u, s) && Possible(u, s, t)
    ensures Apply(s.nodes, Request(u, t, s.next[t.worker])).Some?
    ensures AccountsOk(u, Act(u, s, t))
  {
    PicksDiffer(u.accounts, t.r1, t.r2);
    TransferAccounts(s.nodes, u.accounts, Request(u, t, s.next[t.worker]));
  }

  /** A transfer with a new reference writes its own log records and leaves those of the others alone. */
  lemma RecordsLog(nodes: Nodes, x: Transfer, a: Account, b: Account, ref: string, tseq: int)
    requires tseq == 1 || tseq == 2
    ensures var key, nodes' := LogKey(ref, tseq), Records(nodes, x, a, b);
      if ref != x.ref then SameAt(nodes, nodes', key)
      else key in nodes' && nodes'[key] == if tseq == 1 then FromLog(x, a) else ToLog(x, b)
  {
    LogKeysDiffer(ref, tseq, x.ref);
    RecordsLookup(nodes, x, a, b, LogKey(ref, tseq));
  }

  lemma LogKeysDiffer(ref: string, tseq: int, ref': string)
    ensures LogKey(ref, tseq) == LogKey(ref', 1) <==> ref == ref' && tseq == 1
    ensures LogKey(ref, tseq) == LogKey(ref', 2) <==> ref == ref' && tseq == 2
  {
    if LogKey(ref, tseq) == LogKey(ref', 1) {
      assert LogKey(ref, tseq).subs[0] == LogKey(ref', 1).subs[0] && LogKey(ref, tseq).subs[1] == LogKey(ref', 1).subs[1];
      ItoaInjective(tseq, 1);
    }
    if LogKey(ref, tseq) == LogKey(ref', 2) {
      assert LogKey(ref, tseq).subs[0] == LogKey(ref', 2).subs[0] && LogKey(ref, tseq).subs[1] == LogKey(ref', 2).subs[1];
      ItoaInjective(tseq, 2);
    }
  }

  lemma CommitNumbered(u: Setup, s: State, worker: nat, x: Transfer, a: Account, b: Account)
    requires Numbered(u, s) && worker < u.workers && worker < |s.next|
    requires x.ref == Ref(u, worker, s.next[worker]) && Ordinary(u, x)
    ensures Numbered(u, Commit(s, worker, x, a, b))
  {
    var s' := Commit(s, worker, x, a, b);
    forall i | 0 <= i < |s.posted|
      ensures RefOk(u, s'.next, s'.posted[i])
      ensures s'.posted[i].worker != worker || s'.posted[i].t != s.next[worker]
    {
      assert RefOk(u, s.next, s.posted[i]);
    }
  }

  lemma CommitLogs(u: Setup, s: State, worker: nat, x: Transfer, a: Account, b: Account)
    requires Proper(u) && Numbered(u, s) && LogsOk(s) && worker < u.workers && worker < |s.next|
    requires x.ref == Ref(u, worker, s.next[worker])
    ensures LogsOk(Commit(s, worker, x, a, b))
  {
    var s' := Commit(s, worker, x, a, b);
    forall i | 0 <= i < |s'.posted|
      ensures LogKept(s'.nodes, s'.posted[i])
    {
      RecordsLog(s.nodes, x, a, b, s'.posted[i].x.ref, 1);
      RecordsLog(s.nodes, x, a, b, s'.posted[i].x.ref, 2);
      if i < |s.posted| {
        var p := s.posted[i];
        assert RefOk(u, s.next, p) && LogKept(s.nodes, p);
        if p.x.ref == x.ref {
          RefsDiffer(u, p.worker, p.t, worker, s.next[worker]);
        }
      }
    }
  }

  /** A history record that is there is not written again. */
  lemma HistStays(nodes: Nodes, x: Transfer, a: Account, b: Account, cid: int, k: int)
    requires LoadAccount(nodes, x.from) == Some(a) && LoadAccount(nodes, x.to) == Some(b) && x.from != x.to
    requires HistoryOk(nodes, cid) && HistKey(cid, k) in nodes
    ensures SameAt(nodes, Records(nodes, x, Debited(x, a), Credited(x, b)), HistKey(cid, k))
  {
    assert HistKeys(cid)(k) in nodes;
    RecordsHistory(nodes, x, Debited(x, a), Credited(x, b), cid, k);
  }

  lemma CommitHists(u: Setup, s: State, worker: nat, x: Transfer, a: Account, b: Account)
    requires AccountsOk(u, s) && Numbered(u, s) && HistsOk(s) && worker < |s.next| && x.from != x.to
    requires LoadAccount(s.nodes, x.from) == Some(a) && LoadAccount(s.nodes, x.to) == Some(b)
    ensures HistsOk(Commit(s, worker, x, Debited(x, a), Credited(x, b)))
  {
    var a', b' := Debited(x, a), Credited(x, b);
    var s' := Commit(s, worker, x, a', b');
    RecordsHistory(s.nodes, x, a', b', x.from, a'.histSeq);
    RecordsHistory(s.nodes, x, a', b', x.to, b'.histSeq);
    forall i | 0 <= i < |s.posted|
      ensures HistKept(s'.nodes, s.posted[i])
    {
      var p := s.posted[i];
      assert RefOk(u, s.next, p) && HistKept(s.nodes, p);
      HistStays(s.nodes, x, a, b, p.x.from, p.debited.histSeq);
      HistStays(s.nodes, x, a, b, p.x.to, p.credited.histSeq);
    }
  }

  lemma ActInv(u: Setup, s: State, t: Turn)
    requires Inv(u, s)
    ensures Inv(u, Act(u, s, t))
    ensures Possible(u, s, t) ==> |Act(u, s, t).posted| == |s.posted| + 1
  {
    if Possible(u, s, t) {
      var x := Request(u, t, s.next[t.worker]);
      PicksDiffer(u.accounts, t.r1, t.r2);
      ActAccounts(u, s, t);
      var a := Debited(x, LoadAccount(s.nodes, x.from).value);
      var b := Credited(x, LoadAccount(s.nodes, x.to).value);
      CommitNumbered(u, s, t.worker, x, a, b);
      CommitLogs(u, s, t.worker, x, a, b);
      CommitHists(u, s, t.worker, x, LoadAccount(s.nodes, x.from).value, LoadAccount(s.nodes, x.to).value);
    }
  }

  lemma {:induction false} RunInv(u: Setup, turns: seq<Turn>)
    requires Proper(u)
    ensures Inv(u, Run(u, turns))
    decreases |turns|
  {
    if turns == [] {
      InitInv(u);
    } else {
      RunInv(u, turns[..|turns| - 1]);
      ActInv(u, Run(u, turns[..|turns| - 1]), turns[|turns| - 1]);
    }
  }

  /** In every run the sum of all balances is what it was at the opening. */
  lemma TotalConserved(u: Setup, turns: seq<Turn>)
    requires Proper(u)
    ensures Total(Run(u, turns).nodes, u.accounts) == u.accounts * 10_000_000
  {
    RunInv(u, turns);
  }

  /** In every run the history of every account is free of gaps and leads from the opening balance to the current one. */
  lemma HistoriesInOrder(u: Setup, turns: seq<Turn>, cid: int)
    requires Proper(u) && InRange(u.accounts, cid)
    ensures HistoryOk(Run(u, turns).nodes, cid)
  {
    RunInv(u, turns);
  }

  /** What the log records of a posting say. */
  lemma LogSays(nodes: Nodes, p: Posting)
    requires LogKept(nodes, p) && BAR !in p.x.stamp
    ensures var k1, k2 := LogKey(p.x.ref, 1), LogKey(p.x.ref, 2);
      && k1 in nodes && NumberAt(nodes[k1], 2) == p.x.from && NumberAt(nodes[k1], 3) == -p.x.amt
      && k2 in nodes && NumberAt(nodes[k2], 2) == p.x.to && NumberAt(nodes[k2], 3) == p.x.amt
  {
    CommentsClean(p.x);
    LogNumbers(FromComment(p.x), p.x.stamp, p.x.from, -p.x.amt, p.debited.bal, p.x.user);
    LogNumbers(ToComment(p.x), p.x.stamp, p.x.to, p.x.amt, p.credited.bal, p.x.user);
  }

  /** The log and history records of a posting; those of an account agree in the end balance. */
  ghost predicate Recorded(u: Setup, nodes: Nodes, p: Posting) {
    var x, from, to := p.x, p.debited, p.credited;
    && Says(nodes, Node(Logs, [x.ref, "1"]),
            ["Transfer to " + Itoa(x.to), x.stamp, Itoa(x.from), "-1", Itoa(from.bal)] + Split(u.user, '|'))
    && Says(nodes, Node(Logs, [x.ref, "2"]),
            ["Transfer from " + Itoa(x.from), x.stamp, Itoa(x.to), "1", Itoa(to.bal)] + Split(u.user, '|'))
    && Says(nodes, Node(Histories, [Itoa(x.from), Itoa(from.histSeq)]),
            ["Transfer to " + Itoa(x.to), "-1", Itoa(from.bal), x.ref])
    && Says(nodes, Node(Histories, [Itoa(x.to), Itoa(to.histSeq)]),
            ["Transfer from " + Itoa(x.from), "1", Itoa(to.bal), x.ref])
  }

  lemma LastField(a: string, b: string, c: string, ref: string, fields: seq<string>)
    requires fields == [ref]
    ensures [a, b, c] + fields == [a, b, c, ref]
  {
  }

  lemma PostingRecorded(u: Setup, nodes: Nodes, p: Posting)
    requires LogKept(nodes, p) && HistKept(nodes, p) && Ordinary(u, p.x) && p.x.ref == Ref(u, p.worker, p.t)
    ensures Recorded(u, nodes, p)
  {
    var x := p.x;
    LogsTexts(nodes, x, p.debited, p.credited);
    HistoriesTexts(nodes, x, p.debited, p.credited);
    ItoaNoBar(p.worker + p.t * u.spread);
    SplitOne(x.ref, '|');
    assert Itoa(1) == "1" && Itoa(-1) == "-1";
    LastField("Transfer to " + Itoa(x.to), "-1", Itoa(p.debited.bal), x.ref, Split(x.ref, '|'));
    LastField("Transfer from " + Itoa(x.from), "1", Itoa(p.credited.bal), x.ref, Split(x.ref, '|'));
  }

  /** The transfer is between two different accounts, under its worker's next reference, and has its records. */
  ghost predicate Kept(u: Setup, nodes: Nodes, p: Posting) {
    && p.worker < u.workers && p.x.ref == Itoa(p.worker + p.t * u.spread) && p.x.from != p.x.to
    && 100_001 <= p.x.from < 100_001 + u.accounts && 100_001 <= p.x.to < 100_001 + u.accounts
    && Recorded(u, nodes, p)
  }

  lemma PostingKept(u: Setup, s: State, i: nat)
    requires Inv(u, s) && i < |s.posted|
    ensures Kept(u, s.nodes, s.posted[i])
  {
    var p := s.posted[i];
    assert RefOk(u, s.next, p) && LogKept(s.nodes, p) && HistKept(s.nodes, p);
    PostingRecorded(u, s.nodes, p);
  }

  lemma RefsUnique(u: Setup, s: State, i: nat, j: nat)
    requires Inv(u, s) && i < |s.posted| && j < |s.posted| && s.posted[i].x.ref == s.posted[j].x.ref
    ensures i == j
  {
    var p, q := s.posted[i], s.posted[j];
    assert RefOk(u, s.next, p) && RefOk(u, s.next, q);
    RefsDiffer(u, p.worker, p.t, q.worker, q.t);
  }

  /** In every run each committed transfer still has its records, and no other transfer has its reference. */
  lemma PostingsKept(u: Setup, turns: seq<Turn>)
    requires Proper(u)
    ensures var s := Run(u, turns);
      && (forall i :: 0 <= i < |s.posted| ==> Kept(u, s.nodes, s.posted[i]))
      && (forall i, j :: 0 <= i < j < |s.posted| ==> s.posted[i].x.ref != s.posted[j].x.ref)
  {
    RunInv(u, turns);
    PostingsOf(u, Run(u, turns));
  }

  lemma PostingsOf(u: Setup, s: State)
    requires Inv(u, s)
    ensures forall i :: 0 <= i < |s.posted| ==> Kept(u, s.nodes, s.posted[i])
    ensures forall i, j :: 0 <= i < j < |s.posted| ==> s.posted[i].x.ref != s.posted[j].x.ref
  {
    forall i | 0 <= i < |s.posted|
      ensures Kept(u, s.nodes, s.posted[i])
    {
      PostingKept(u, s, i);
    }
    forall i, j | 0 <= i < j < |s.posted|
      ensures s.posted[i].x.ref != s.posted[j].x.ref
    {
      if s.posted[i].x.ref == s.posted[j].x.ref {
        RefsUnique(u, s, i, j);
      }
    }
  }

  /** In every run each committed transfer still has its own two log records, whose amounts add up to zero. */
  lemma LogsKeptAndBalanced(u: Setup, turns: seq<Turn>, i: nat, j: nat)
    requires Proper(u) && i < |Run(u, turns).posted| && j < |Run(u, turns).posted|
    ensures var s := Run(u, turns); var x := s.posted[i].x; var k1, k2 := LogKey(x.ref, 1), LogKey(x.ref, 2);
      && k1 in s.nodes && NumberAt(s.nodes[k1], 2) == x.from
      && k2 in s.nodes && NumberAt(s.nodes[k2], 2) == x.to
      && NumberAt(s.nodes[k1], 3) + NumberAt(s.nodes[k2], 3) == 0 && NumberAt(s.nodes[k2], 3) == x.amt
      && (s.posted[j].x.ref == x.ref ==> i == j)
  {
    RunInv(u, turns);
    var s := Run(u, turns);
    var p, q := s.posted[i], s.posted[j];
    assert RefOk(u, s.next, p) && RefOk(u, s.next, q) && LogKept(s.nodes, p);
    LogSays(s.nodes, p);
    if p.x.ref == q.x.ref {
      RefsDiffer(u, p.worker, p.t, q.worker, q.t);
    }
  }
}
