/**
 The pseudo bank on values: what a transfer does to the database, and what every sequence of
 committed transfers keeps. A transaction commits as a whole, so that any interleaving of
 workers, with any restarts, comes to a sequence of commits.
 */
module Bank {
  import opened Options
  import opened Text
  import opened Chains

  const START_CID: int := 100_001
  const OPENING: int := 10_000_000
  const TRAN_AMT: int := 1

  /** The globals ^ZACN, ^ZHIST and ^ZTRNLOG. */
  datatype Global = Accounts | Histories | Logs

  /** A database node: a global and its subscripts. */
  datatype Node = Node(global: Global, subs: seq<string>)

  /** The text that every node holds. */
  type Nodes = map<Node, string>

  function AccountKey(cid: int): Node {
    Node(Accounts, [Itoa(cid)])
  }

  function HistKey(cid: int, histSeq: int): Node {
    Node(Histories, [Itoa(cid), Itoa(histSeq)])
  }

  function LogKey(guid: string, tseq: int): Node {
    Node(Logs, [guid, Itoa(tseq)])
  }

  datatype Account = Account(cid: int, bal: int, histSeq: int)

  function AccountText(a: Account): string {
    Itoa(a.histSeq) + [BAR] + Itoa(a.bal)
  }

  function HistText(comment: string, amt: int, endbal: int, user: string): string {
    comment + [BAR] + (Itoa(amt) + [BAR] + (Itoa(endbal) + [BAR] + user))
  }

  function LogText(comment: string, stamp: string, cid: int, amt: int, endbal: int, user: string): string {
    comment + [BAR] + (stamp + [BAR] + (Itoa(cid) + [BAR] + (Itoa(amt) + [BAR] + (Itoa(endbal) + [BAR] + user))))
  }

  /** Field k of a record, as a number; 0 when there is no such field. */
  function NumberAt(text: string, k: nat): int {
    var fields := Split(text, BAR);
    if k < |fields| then Atoi(fields[k]) else 0
  }

  /** The account stored in the database, if there is one with both its fields. */
  function LoadAccount(nodes: Nodes, cid: int): Option<Account> {
    if AccountKey(cid) !in nodes then None
    else
      var fields := Split(nodes[AccountKey(cid)], BAR);
      if |fields| < 2 then None else Some(Account(cid, Atoi(fields[1]), Atoi(fields[0])))
  }

  // ----- texts are read back

  /** The numbers of a record behind a field without separator are those of the rest. */
  lemma Peel(field: string, rest: string, k: nat)
    requires BAR !in field
    ensures NumberAt(field + [BAR] + rest, 0) == Atoi(field)
    ensures NumberAt(field + [BAR] + rest, k + 1) == NumberAt(rest, k)
  {
    SplitField(field, BAR, rest);
  }

  lemma PeelNumber(n: int, rest: string, k: nat)
    ensures NumberAt(Itoa(n) + [BAR] + rest, 0) == n
    ensures NumberAt(Itoa(n) + [BAR] + rest, k + 1) == NumberAt(rest, k)
  {
    ItoaNoBar(n);
    AtoiItoa(n);
    Peel(Itoa(n), rest, k);
  }

  lemma AccountTextFields(a: Account)
    ensures Split(AccountText(a), BAR) == [Itoa(a.histSeq), Itoa(a.bal)]
  {
    ItoaNoBar(a.histSeq);
    ItoaNoBar(a.bal);
    SplitField(Itoa(a.histSeq), BAR, Itoa(a.bal));
    SplitOne(Itoa(a.bal), BAR);
  }

  /** An account can be loaded exactly when its node is there and has a bar in its text. */
  lemma LoadableIff(nodes: Nodes, cid: int)
    ensures LoadAccount(nodes, cid).Some? <==>
      Node(Accounts, [Itoa(cid)]) in nodes && '|' in nodes[Node(Accounts, [Itoa(cid)])]
  {
    if AccountKey(cid) in nodes {
      if BAR in nodes[AccountKey(cid)] {
        SplitTwice(nodes[AccountKey(cid)], BAR);
      } else {
        SplitOne(nodes[AccountKey(cid)], BAR);
      }
    }
  }

  /** What is saved of an account is loaded again, whatever its balance. */
  lemma LoadSaved(nodes: Nodes, a: Account)
    requires AccountKey(a.cid) in nodes && nodes[AccountKey(a.cid)] == AccountText(a)
    ensures LoadAccount(nodes, a.cid) == Some(a)
  {
    AccountTextFields(a);
    AtoiItoa(a.histSeq);
    AtoiItoa(a.bal);
  }

  /** The amount and the end balance of a history record. */
  function AmountField(text: string): int {
    NumberAt(text, 1)
  }

  function EndField(text: string): int {
    NumberAt(text, 2)
  }

  lemma HistNumbers(comment: string, amt: int, endbal: int, user: string)
    requires BAR !in comment
    ensures AmountField(HistText(comment, amt, endbal, user)) == amt
    ensures EndField(HistText(comment, amt, endbal, user)) == endbal
  {
    var r2 := Itoa(endbal) + [BAR] + user;
    var r1 := Itoa(amt) + [BAR] + r2;
    Peel(comment, r1, 0);
    Peel(comment, r1, 1);
    PeelNumber(amt, r2, 0);
    PeelNumber(endbal, user, 0);
  }

  lemma TailNumbers(cid: int, amt: int, endbal: int, user: string)
    ensures var tail := Itoa(cid) + [BAR] + (Itoa(amt) + [BAR] + (Itoa(endbal) + [BAR] + user));
      NumberAt(tail, 0) == cid && NumberAt(tail, 1) == amt && NumberAt(tail, 2) == endbal
  {
    var r4 := Itoa(endbal) + [BAR] + user;
    var r3 := Itoa(amt) + [BAR] + r4;
    PeelNumber(cid, r3, 0);
    PeelNumber(cid, r3, 1);
    PeelNumber(amt, r4, 0);
    PeelNumber(endbal, user, 0);
  }

  lemma PeelTwo(a: string, b: string, rest: string, k: nat)
    requires BAR !in a && BAR !in b
    ensures NumberAt(a + [BAR] + (b + [BAR] + rest), k + 2) == NumberAt(rest, k)
  {
    Peel(a, b + [BAR] + rest, k + 1);
    Peel(b, rest, k);
  }

  lemma LogNumbers(comment: string, stamp: string, cid: int, amt: int, endbal: int, user: string)
    requires BAR !in comment && BAR !in stamp
    ensures var text := LogText(comment, stamp, cid, amt, endbal, user);
      NumberAt(text, 2) == cid && NumberAt(text, 3) == amt && NumberAt(text, 4) == endbal
  {
    var tail := Itoa(cid) + [BAR] + (Itoa(amt) + [BAR] + (Itoa(endbal) + [BAR] + user));
    TailNumbers(cid, amt, endbal, user);
    PeelTwo(comment, stamp, tail, 0);
    PeelTwo(comment, stamp, tail, 1);
    PeelTwo(comment, stamp, tail, 2);
  }

  // ----- one transfer

  datatype Transfer = Transfer(ref: string, from: int, to: int, amt: int, user: string, stamp: string)

  function FromComment(x: Transfer): string {
    "Transfer to " + Itoa(x.to)
  }

  function ToComment(x: Transfer): string {
    "Transfer from " + Itoa(x.from)
  }

  /** The two accounts as the transfer saves them; both are loaded before either is saved. */
  function Debited(x: Transfer, a: Account): Account {
    a.(histSeq := a.histSeq + 1, bal := a.bal - x.amt)
  }

  function Credited(x: Transfer, a: Account): Account {
    a.(histSeq := a.histSeq + 1, bal := a.bal + x.amt)
  }

  /** What the two log records of a transfer say, given the account that each is about. */
  function FromLog(x: Transfer, a: Account): string {
    LogText(FromComment(x), x.stamp, x.from, -x.amt, a.bal, x.user)
  }

  function ToLog(x: Transfer, b: Account): string {
    LogText(ToComment(x), x.stamp, x.to, x.amt, b.bal, x.user)
  }

  /** What its two history records say. */
  function FromHistory(x: Transfer, a: Account): string {
    HistText(FromComment(x), -x.amt, a.bal, x.ref)
  }

  function ToHistory(x: Transfer, b: Account): string {
    HistText(ToComment(x), x.amt, b.bal, x.ref)
  }

  /** Two settings, one after the other. */
  function SetTwo<K, V>(m: map<K, V>, k1: K, v1: V, k2: K, v2: V): map<K, V> {
    m[k1 := v1][k2 := v2]
  }

  /** The six nodes that a transfer sets, in its order, given the accounts it saves. */
  function Records(nodes: Nodes, x: Transfer, a: Account, b: Account): Nodes {
    var n1 := SetTwo(nodes, AccountKey(x.from), AccountText(a), AccountKey(x.to), AccountText(b));
    var n2 := SetTwo(n1, HistKey(x.from, a.histSeq), FromHistory(x, a), HistKey(x.to, b.histSeq), ToHistory(x, b));
    SetTwo(n2, LogKey(x.ref, 1), FromLog(x, a), LogKey(x.ref, 2), ToLog(x, b))
  }

  /** The database after the transfer has committed; none if an account cannot be loaded, which is a panic. */
  function Apply(nodes: Nodes, x: Transfer): Option<Nodes> {
    var a, b := LoadAccount(nodes, x.from), LoadAccount(nodes, x.to);
    if a.None? || b.None? then None else Some(Records(nodes, x, Debited(x, a.value), Credited(x, b.value)))
  }

  lemma KeysDiffer(c: int, c': int, k: int, k': int, g: string)
    ensures AccountKey(c) == AccountKey(c') <==> c == c'
    ensures HistKey(c, k) == HistKey(c', k') <==> c == c' && k == k'
    ensures AccountKey(c) != HistKey(c', k') && AccountKey(c) != LogKey(g, k) && HistKey(c, k) != LogKey(g, k')
  {
    if AccountKey(c) == AccountKey(c') {
      assert AccountKey(c).subs[0] == AccountKey(c').subs[0];
      ItoaInjective(c, c');
    }
    if HistKey(c, k) == HistKey(c', k') {
      assert HistKey(c, k).subs[0] == HistKey(c', k').subs[0] && HistKey(c, k).subs[1] == HistKey(c', k').subs[1];
      ItoaInjective(c, c');
      ItoaInjective(k, k');
    }
  }

  /** What a key holds after the six settings of a transfer. */
  lemma Lookup<K, V>(m: map<K, V>, k1: K, v1: V, k2: K, v2: V, k3: K, v3: V, k4: K, v4: V,
                     k5: K, v5: V, k6: K, v6: V, key: K)
    ensures var m' := SetTwo(SetTwo(SetTwo(m, k1, v1, k2, v2), k3, v3, k4, v4), k5, v5, k6, v6);
      if key == k6 then key in m' && m'[key] == v6
      else if key == k5 then key in m' && m'[key] == v5
      else if key == k4 then key in m' && m'[key] == v4
      else if key == k3 then key in m' && m'[key] == v3
      else if key == k2 then key in m' && m'[key] == v2
      else if key == k1 then key in m' && m'[key] == v1
      else SameAt(m, m', key)
  {
  }

  lemma RecordsLookup(nodes: Nodes, x: Transfer, a: Account, b: Account, key: Node)
    ensures var nodes' := Records(nodes, x, a, b);
      if key == LogKey(x.ref, 2) then key in nodes' && nodes'[key] == ToLog(x, b)
      else if key == LogKey(x.ref, 1) then key in nodes' && nodes'[key] == FromLog(x, a)
      else if key == HistKey(x.to, b.histSeq) then key in nodes' && nodes'[key] == ToHistory(x, b)
      else if key == HistKey(x.from, a.histSeq) then key in nodes' && nodes'[key] == FromHistory(x, a)
      else if key == AccountKey(x.to) then key in nodes' && nodes'[key] == AccountText(b)
      else if key == AccountKey(x.from) then key in nodes' && nodes'[key] == AccountText(a)
      else SameAt(nodes, nodes', key)
  {
    Lookup(nodes, AccountKey(x.from), AccountText(a), AccountKey(x.to), AccountText(b),
           HistKey(x.from, a.histSeq), FromHistory(x, a), HistKey(x.to, b.histSeq), ToHistory(x, b),
           LogKey(x.ref, 1), FromLog(x, a), LogKey(x.ref, 2), ToLog(x, b), key);
  }

  lemma RecordsAccount(nodes: Nodes, x: Transfer, a: Account, b: Account, cid: int)
    requires a.cid == x.from && b.cid == x.to
    ensures LoadAccount(Records(nodes, x, a, b), cid)
         == if cid == x.to then Some(b) else if cid == x.from then Some(a) else LoadAccount(nodes, cid)
  {
    var nodes' := Records(nodes, x, a, b);
    KeysDiffer(cid, x.from, 1, a.histSeq, x.ref);
    KeysDiffer(cid, x.to, 2, b.histSeq, x.ref);
    RecordsLookup(nodes, x, a, b, AccountKey(cid));
    if cid == x.to {
      LoadSaved(nodes', b);
    } else if cid == x.from {
      LoadSaved(nodes', a);
    }
  }

  // ----- the sum of the balances

  function Balance(nodes: Nodes, cid: int): int {
    match LoadAccount(nodes, cid)
    case Some(a) => a.bal
    case None => 0
  }

  /** The sum of f over the n accounts of the bank. */
  function SumOver(f: int -> int, n: nat): int {
    if n == 0 then 0 else SumOver(f, n - 1) + f(START_CID + n - 1)
  }

  function Total(nodes: Nodes, n: nat): int {
    SumOver(cid => Balance(nodes, cid), n)
  }

  predicate InRange(n: nat, cid: int) {
    START_CID <= cid < START_CID + n
  }

  ghost predicate HasAccounts(nodes: Nodes, n: nat) {
    forall cid :: InRange(n, cid) ==> LoadAccount(nodes, cid).Some?
  }

  function Change(x: Transfer, cid: int): int {
    if cid == x.to then x.amt else if cid == x.from then -x.amt else 0
  }

  lemma {:induction false} SumChange(f: int -> int, g: int -> int, x: Transfer, n: nat)
    requires forall cid :: InRange(n, cid) ==> g(cid) == f(cid) + Change(x, cid)
    requires START_CID <= x.from && START_CID <= x.to
    ensures SumOver(g, n) == SumOver(f, n)
      + (if InRange(n, x.to) then x.amt else 0) - (if InRange(n, x.from) && x.from != x.to then x.amt else 0)
    decreases n
  {
    if n > 0 {
      assert forall cid :: InRange(n - 1, cid) ==> InRange(n, cid);
      SumChange(f, g, x, n - 1);
      assert InRange(n, START_CID + n - 1);
    }
  }

  /** A transfer between accounts of the bank keeps the sum of all balances if, and only if, the two accounts differ. */
  lemma TransferConservesIff(nodes: Nodes, n: nat, x: Transfer)
    requires HasAccounts(nodes, n) && InRange(n, x.from) && InRange(n, x.to) && x.amt != 0
    ensures Apply(nodes, x).Some? && HasAccounts(Apply(nodes, x).value, n)
    ensures Total(Apply(nodes, x).value, n) == Total(nodes, n) <==> x.from != x.to
  {
    var a, b := LoadAccount(nodes, x.from).value, LoadAccount(nodes, x.to).value;
    var nodes' := Apply(nodes, x).value;
    forall cid | InRange(n, cid)
      ensures LoadAccount(nodes', cid).Some?
      ensures Balance(nodes', cid) == Balance(nodes, cid) + Change(x, cid)
    {
      RecordsAccount(nodes, x, Debited(x, a), Credited(x, b), cid);
    }
    SumChange(c => Balance(nodes, c), c => Balance(nodes', c), x, n);
  }

  // ----- the history of an account

  function HistKeys(cid: int): int -> Node {
    k => HistKey(cid, k)
  }

  ghost predicate HistoryOk(nodes: Nodes, cid: int) {
    match LoadAccount(nodes, cid)
    case None => false
    case Some(a) => Chain(nodes, HistKeys(cid), AmountField, EndField, OPENING, a.histSeq, a.bal)
  }

  lemma CommentsClean(x: Transfer)
    ensures BAR !in FromComment(x) && BAR !in ToComment(x)
  {
    ItoaNoBar(x.to);
    ItoaNoBar(x.from);
  }

  lemma RecordsHistory(nodes: Nodes, x: Transfer, a: Account, b: Account, cid: int, k: int)
    requires x.from != x.to
    ensures var key, nodes' := HistKey(cid, k), Records(nodes, x, a, b);
      if cid == x.from && k == a.histSeq then key in nodes' && nodes'[key] == FromHistory(x, a)
      else if cid == x.to && k == b.histSeq then key in nodes' && nodes'[key] == ToHistory(x, b)
      else SameAt(nodes, nodes', key)
  {
    KeysDiffer(cid, x.from, k, a.histSeq, x.ref);
    KeysDiffer(cid, x.to, k, b.histSeq, x.ref);
    KeysDiffer(x.from, cid, 1, k, x.ref);
    KeysDiffer(x.to, cid, 2, k, x.ref);
    KeysDiffer(cid, cid, k, 1, x.ref);
    KeysDiffer(cid, cid, k, 2, x.ref);
    RecordsLookup(nodes, x, a, b, HistKey(cid, k));
  }

  /** The history of an account gets its next record, `text`; its other records stay as they are. */
  lemma PartyHistory(nodes: Nodes, nodes': Nodes, cid: int, before: Account, amt: int, text: string)
    requires Chain(nodes, HistKeys(cid), AmountField, EndField, OPENING, before.histSeq, before.bal)
    requires AmountField(text) == amt && EndField(text) == before.bal + amt
    requires HistKey(cid, before.histSeq + 1) in nodes' && nodes'[HistKey(cid, before.histSeq + 1)] == text
    requires forall k :: k != before.histSeq + 1 ==> SameAt(nodes, nodes', HistKey(cid, k))
    ensures Chain(nodes', HistKeys(cid), AmountField, EndField, OPENING, before.histSeq + 1, before.bal + amt)
  {
    forall k | k != before.histSeq + 1
      ensures SameAt(nodes, nodes', HistKeys(cid)(k))
    {
      assert SameAt(nodes, nodes', HistKey(cid, k));
    }
    ChainGrows(nodes, nodes', HistKeys(cid), AmountField, EndField, OPENING, before.histSeq, before.bal, text);
  }

  lemma BystanderHistory(nodes: Nodes, x: Transfer, a: Account, b: Account, cid: int, c: Account)
    requires x.from != x.to && cid != x.from && cid != x.to
    requires Chain(nodes, HistKeys(cid), AmountField, EndField, OPENING, c.histSeq, c.bal)
    ensures Chain(Records(nodes, x, a, b), HistKeys(cid), AmountField, EndField, OPENING, c.histSeq, c.bal)
  {
    var nodes' := Records(nodes, x, a, b);
    forall k
      ensures SameAt(nodes, nodes', HistKeys(cid)(k))
    {
      RecordsHistory(nodes, x, a, b, cid, k);
    }
    ChainSame(nodes, nodes', HistKeys(cid), AmountField, EndField, OPENING, c.histSeq, c.bal);
  }

  /** In the history of the payer there is one record more, and likewise in that of the payee. */
  lemma PayerRecords(nodes: Nodes, x: Transfer, a: Account, b: Account)
    requires x.from != x.to
    ensures var nodes' := Records(nodes, x, a, b);
      && HistKey(x.from, a.histSeq) in nodes' && nodes'[HistKey(x.from, a.histSeq)] == FromHistory(x, a)
      && forall k :: k != a.histSeq ==> SameAt(nodes, nodes', HistKey(x.from, k))
  {
    RecordsHistory(nodes, x, a, b, x.from, a.histSeq);
    forall k | k != a.histSeq
      ensures SameAt(nodes, Records(nodes, x, a, b), HistKey(x.from, k))
    {
      RecordsHistory(nodes, x, a, b, x.from, k);
    }
  }

  lemma PayeeRecords(nodes: Nodes, x: Transfer, a: Account, b: Account)
    requires x.from != x.to
    ensures var nodes' := Records(nodes, x, a, b);
      && HistKey(x.to, b.histSeq) in nodes' && nodes'[HistKey(x.to, b.histSeq)] == ToHistory(x, b)
      && forall k :: k != b.histSeq ==> SameAt(nodes, nodes', HistKey(x.to, k))
  {
    RecordsHistory(nodes, x, a, b, x.to, b.histSeq);
    forall k | k != b.histSeq
      ensures SameAt(nodes, Records(nodes, x, a, b), HistKey(x.to, k))
    {
      RecordsHistory(nodes, x, a, b, x.to, k);
    }
  }

  lemma PayerHistory(nodes: Nodes, x: Transfer, a: Account, b: Account)
    requires x.from != x.to
    requires Chain(nodes, HistKeys(x.from), AmountField, EndField, OPENING, a.histSeq, a.bal)
    ensures Chain(Records(nodes, x, Debited(x, a), b), HistKeys(x.from), AmountField, EndField, OPENING,
                  a.histSeq + 1, a.bal - x.amt)
  {
    var a' := Debited(x, a);
    CommentsClean(x);
    HistNumbers(FromComment(x), -x.amt, a'.bal, x.ref);
    PayerRecords(nodes, x, a', b);
    PartyHistory(nodes, Records(nodes, x, a', b), x.from, a, -x.amt, FromHistory(x, a'));
  }

  lemma PayeeHistory(nodes: Nodes, x: Transfer, a: Account, b: Account)
    requires x.from != x.to
    requires Chain(nodes, HistKeys(x.to), AmountField, EndField, OPENING, b.histSeq, b.bal)
    ensures Chain(Records(nodes, x, a, Credited(x, b)), HistKeys(x.to), AmountField, EndField, OPENING,
                  b.histSeq + 1, b.bal + x.amt)
  {
    var b' := Credited(x, b);
    CommentsClean(x);
    HistNumbers(ToComment(x), x.amt, b'.bal, x.ref);
    PayeeRecords(nodes, x, a, b');
    PartyHistory(nodes, Records(nodes, x, a, b'), x.to, b, x.amt, ToHistory(x, b'));
  }

  lemma RecordsKeepHistory(nodes: Nodes, x: Transfer, a: Account, b: Account, cid: int, c: Account)
    requires x.from != x.to
    requires cid == x.from ==> c == a
    requires cid == x.to ==> c == b
    requires Chain(nodes, HistKeys(cid), AmountField, EndField, OPENING, c.histSeq, c.bal)
    ensures var nodes', c' := Records(nodes, x, Debited(x, a), Credited(x, b)),
        if cid == x.to then Credited(x, c) else if cid == x.from then Debited(x, c) else c;
      Chain(nodes', HistKeys(cid), AmountField, EndField, OPENING, c'.histSeq, c'.bal)
  {
    if cid == x.from {
      PayerHistory(nodes, x, a, Credited(x, b));
    } else if cid == x.to {
      PayeeHistory(nodes, x, Debited(x, a), b);
    } else {
      BystanderHistory(nodes, x, Debited(x, a), Credited(x, b), cid, c);
    }
  }

  /** A transfer between two different accounts keeps the histories of all accounts in order. */
  lemma TransferKeepsHistory(nodes: Nodes, x: Transfer, cid: int)
    requires Apply(nodes, x).Some? && x.from != x.to
    requires HistoryOk(nodes, cid)
    ensures HistoryOk(Apply(nodes, x).value, cid)
  {
    var a, b := LoadAccount(nodes, x.from).value, LoadAccount(nodes, x.to).value;
    RecordsAccount(nodes, x, Debited(x, a), Credited(x, b), cid);
    RecordsKeepHistory(nodes, x, a, b, cid, LoadAccount(nodes, cid).value);
  }

  // ----- what the records of a transfer say

  lemma TwoNumbers(amt: int, endbal: int, user: string)
    ensures Split(Itoa(amt) + [BAR] + (Itoa(endbal) + [BAR] + user), BAR) == [Itoa(amt), Itoa(endbal)] + Split(user, BAR)
  {
    ItoaNoBar(amt);
    ItoaNoBar(endbal);
    SplitField(Itoa(endbal), BAR, user);
    SplitField(Itoa(amt), BAR, Itoa(endbal) + [BAR] + user);
  }

  lemma HistFields(comment: string, amt: int, endbal: int, user: string)
    requires BAR !in comment
    ensures Split(HistText(comment, amt, endbal, user), BAR) == [comment, Itoa(amt), Itoa(endbal)] + Split(user, BAR)
  {
    TwoNumbers(amt, endbal, user);
    SplitField(comment, BAR, Itoa(amt) + [BAR] + (Itoa(endbal) + [BAR] + user));
  }

  lemma TailFields(cid: int, amt: int, endbal: int, user: string)
    ensures Split(Itoa(cid) + [BAR] + (Itoa(amt) + [BAR] + (Itoa(endbal) + [BAR] + user)), BAR)
         == [Itoa(cid), Itoa(amt), Itoa(endbal)] + Split(user, BAR)
  {
    ItoaNoBar(cid);
    HistFields(Itoa(cid), amt, endbal, user);
  }

  lemma LogFields(comment: string, stamp: string, cid: int, amt: int, endbal: int, user: string)
    requires BAR !in comment && BAR !in stamp
    ensures Split(LogText(comment, stamp, cid, amt, endbal, user), BAR)
         == [comment, stamp, Itoa(cid), Itoa(amt), Itoa(endbal)] + Split(user, BAR)
  {
    var tail := Itoa(cid) + [BAR] + (Itoa(amt) + [BAR] + (Itoa(endbal) + [BAR] + user));
    TailFields(cid, amt, endbal, user);
    SplitField(stamp, BAR, tail);
    SplitField(comment, BAR, stamp + [BAR] + tail);
  }

  /** The node holds these fields, separated by bars. */
  ghost predicate Says(nodes: Nodes, key: Node, fields: seq<string>) {
    key in nodes && Split(nodes[key], '|') == fields
  }

  /** The history records of a transfer that leaves the accounts as a and b. */
  ghost predicate HistoriesSay(nodes: Nodes, x: Transfer, a: Account, b: Account) {
    && Says(nodes, Node(Histories, [Itoa(x.from), Itoa(a.histSeq)]),
            ["Transfer to " + Itoa(x.to), Itoa(-x.amt), Itoa(a.bal)] + Split(x.ref, '|'))
    && Says(nodes, Node(Histories, [Itoa(x.to), Itoa(b.histSeq)]),
            ["Transfer from " + Itoa(x.from), Itoa(x.amt), Itoa(b.bal)] + Split(x.ref, '|'))
  }

  /** Its log records, under its reference. */
  ghost predicate LogsSay(nodes: Nodes, x: Transfer, a: Account, b: Account) {
    && Says(nodes, Node(Logs, [x.ref, "1"]),
            ["Transfer to " + Itoa(x.to), x.stamp, Itoa(x.from), Itoa(-x.amt), Itoa(a.bal)] + Split(x.user, '|'))
    && Says(nodes, Node(Logs, [x.ref, "2"]),
            ["Transfer from " + Itoa(x.from), x.stamp, Itoa(x.to), Itoa(x.amt), Itoa(b.bal)] + Split(x.user, '|'))
  }

  lemma HistoriesTexts(nodes: Nodes, x: Transfer, a: Account, b: Account)
    requires HistKey(x.from, a.histSeq) in nodes && nodes[HistKey(x.from, a.histSeq)] == FromHistory(x, a)
    requires HistKey(x.to, b.histSeq) in nodes && nodes[HistKey(x.to, b.histSeq)] == ToHistory(x, b)
    ensures HistoriesSay(nodes, x, a, b)
  {
    CommentsClean(x);
    HistFields(FromComment(x), -x.amt, a.bal, x.ref);
    HistFields(ToComment(x), x.amt, b.bal, x.ref);
  }

  lemma LogsTexts(nodes: Nodes, x: Transfer, a: Account, b: Account)
    requires LogKey(x.ref, 1) in nodes && nodes[LogKey(x.ref, 1)] == FromLog(x, a)
    requires LogKey(x.ref, 2) in nodes && nodes[LogKey(x.ref, 2)] == ToLog(x, b)
    requires BAR !in x.stamp
    ensures LogsSay(nodes, x, a, b)
  {
    CommentsClean(x);
    LogFields(FromComment(x), x.stamp, x.from, -x.amt, a.bal, x.user);
    LogFields(ToComment(x), x.stamp, x.to, x.amt, b.bal, x.user);
    assert Itoa(1) == "1" && Itoa(2) == "2";
  }

  /** The accounts of a transfer are now a and b, and its four other records agree with them. */
  ghost predicate Written(nodes: Nodes, x: Transfer, a: Account, b: Account) {
    && LoadAccount(nodes, x.from) == Some(a) && LoadAccount(nodes, x.to) == Some(b)
    && Says(nodes, Node(Accounts, [Itoa(x.from)]), [Itoa(a.histSeq), Itoa(a.bal)])
    && Says(nodes, Node(Accounts, [Itoa(x.to)]), [Itoa(b.histSeq), Itoa(b.bal)])
    && HistoriesSay(nodes, x, a, b) && LogsSay(nodes, x, a, b)
  }

  /**
   A transfer between two different accounts moves the amount, counts one history record more for each,
   and writes the end balances that the accounts now have into both history and both log records.
   */
  lemma TransferWrites(nodes: Nodes, x: Transfer, a: Account, b: Account)
    requires LoadAccount(nodes, x.from) == Some(a) && LoadAccount(nodes, x.to) == Some(b)
    requires x.from != x.to && BAR !in x.stamp
    ensures Apply(nodes, x).Some?
    ensures Written(Apply(nodes, x).value, x,
                    Account(x.from, a.bal - x.amt, a.histSeq + 1), Account(x.to, b.bal + x.amt, b.histSeq + 1))
  {
    ApplyIs(nodes, x, a, b);
    WrittenAre(nodes, x, Account(x.from, a.bal - x.amt, a.histSeq + 1), Account(x.to, b.bal + x.amt, b.histSeq + 1));
  }

  lemma ApplyIs(nodes: Nodes, x: Transfer, a: Account, b: Account)
    requires LoadAccount(nodes, x.from) == Some(a) && LoadAccount(nodes, x.to) == Some(b)
    ensures Apply(nodes, x) == Some(Records(nodes, x, Account(x.from, a.bal - x.amt, a.histSeq + 1),
                                            Account(x.to, b.bal + x.amt, b.histSeq + 1)))
  {
    assert Debited(x, a) == Account(x.from, a.bal - x.amt, a.histSeq + 1);
    assert Credited(x, b) == Account(x.to, b.bal + x.amt, b.histSeq + 1);
  }

  lemma WrittenAre(nodes: Nodes, x: Transfer, a: Account, b: Account)
    requires a.cid == x.from && b.cid == x.to && x.from != x.to && BAR !in x.stamp
    ensures Written(Records(nodes, x, a, b), x, a, b)
  {
    var nodes' := Records(nodes, x, a, b);
    RecordsAccount(nodes, x, a, b, x.from);
    RecordsAccount(nodes, x, a, b, x.to);
    AccountsTexts(nodes, x, a, b);
    RecordsHistory(nodes, x, a, b, x.from, a.histSeq);
    RecordsHistory(nodes, x, a, b, x.to, b.histSeq);
    HistoriesTexts(nodes', x, a, b);
    LogTexts(nodes, x, a, b);
    LogsTexts(nodes', x, a, b);
  }

  lemma AccountsTexts(nodes: Nodes, x: Transfer, a: Account, b: Account)
    requires x.from != x.to
    ensures var nodes' := Records(nodes, x, a, b);
      && Says(nodes', Node(Accounts, [Itoa(x.from)]), [Itoa(a.histSeq), Itoa(a.bal)])
      && Says(nodes', Node(Accounts, [Itoa(x.to)]), [Itoa(b.histSeq), Itoa(b.bal)])
  {
    KeysDiffer(x.from, x.to, a.histSeq, b.histSeq, x.ref);
    KeysDiffer(x.to, x.from, b.histSeq, a.histSeq, x.ref);
    RecordsLookup(nodes, x, a, b, AccountKey(x.from));
    RecordsLookup(nodes, x, a, b, AccountKey(x.to));
    AccountTextFields(a);
    AccountTextFields(b);
  }

  lemma LogTexts(nodes: Nodes, x: Transfer, a: Account, b: Account)
    ensures var nodes' := Records(nodes, x, a, b);
      && LogKey(x.ref, 1) in nodes' && nodes'[LogKey(x.ref, 1)] == FromLog(x, a)
      && LogKey(x.ref, 2) in nodes' && nodes'[LogKey(x.ref, 2)] == ToLog(x, b)
  {
    assert Itoa(1) == "1" && Itoa(2) == "2";
    assert LogKey(x.ref, 1).subs[1] != LogKey(x.ref, 2).subs[1];
    RecordsLookup(nodes, x, a, b, LogKey(x.ref, 1));
    RecordsLookup(nodes, x, a, b, LogKey(x.ref, 2));
  }
}
