/**
 Which host has which table, computed from the records of the translation file alone: a binary tree of
 the known names, each with its address and the number of the record that opened its table.
 */
module XlateLayout {
  import opened Options
  import opened XlateOrder
  import opened XlateRecords

  datatype Known = Known(name: string, addr: nat, table: Option<nat>)

  datatype Layout = Nil | Node(left: Layout, known: Known, right: Layout)

  function Find(t: Layout, name: string): Option<Known> {
    match t
    case Nil => None
    case Node(l, k, r) =>
      var direction := StringCaseCmp(k.name, name);
      if direction < 0 then Find(l, name) else if direction > 0 then Find(r, name) else Some(k)
  }

  /** The table of a name, if the name is known and has one. */
  function TableIn(t: Layout, name: string): Option<nat> {
    match Find(t, name)
    case None => None
    case Some(k) => k.table
  }

  /** The first name with an address, in preorder. */
  function FirstAt(t: Layout, addr: nat): Option<Known> {
    match t
    case Nil => None
    case Node(l, k, r) =>
      if k.addr == addr then Some(k)
      else if FirstAt(l, addr).Some? then FirstAt(l, addr)
      else FirstAt(r, addr)
  }

  function TableAt(t: Layout, addr: nat): Option<nat> {
    match FirstAt(t, addr)
    case None => None
    case Some(k) => k.table
  }

  function Add(t: Layout, k: Known): Layout {
    match t
    case Nil => Node(Nil, k, Nil)
    case Node(l, known, r) =>
      var direction := StringCaseCmp(known.name, k.name);
      if direction < 0 then Node(Add(l, k), known, r) else if direction > 0 then Node(l, known, Add(r, k)) else t
  }

  /** Gives a name its table. */
  function Give(t: Layout, name: string, table: nat): Layout {
    match t
    case Nil => Nil
    case Node(l, k, r) =>
      var direction := StringCaseCmp(k.name, name);
      if direction < 0 then Node(Give(l, name, table), k, r)
      else if direction > 0 then Node(l, k, Give(r, name, table))
      else Node(l, k.(table := Some(table)), r)
  }

  /** A new name begins with the table of the first name that has its address. */
  function Met(t: Layout, name: string, addr: nat): Layout {
    if Find(t, name).Some? then t else Add(t, Known(name, addr, TableAt(t, addr)))
  }

  /** A name gets a table of its own with its first path, if it has none by then. */
  function Opened(t: Layout, name: string, dummy: bool, n: nat): Layout {
    if dummy || TableIn(t, name).Some? then t else Give(t, name, n)
  }

  function Next(t: Layout, our: string, r: Record, n: nat): Layout {
    if !r.Complete() then t else Opened(Met(t, r.Name(our), r.ipaddr), r.Name(our), IsDummy(r.directory), n)
  }

  /** The layout after the first n records, on the host `our` with address `addr`. */
  function LayoutAfter(our: string, addr: nat, records: seq<Record>, n: nat): Layout
    requires n <= |records|
  {
    if n == 0 then Node(Nil, Known(our, addr, None), Nil)
    else Next(LayoutAfter(our, addr, records, n - 1), our, records[n - 1], n - 1)
  }

  /** Record n is complete and gives no path of its table another global directory than a record before it. */
  predicate Fits(our: string, addr: nat, records: seq<Record>, n: nat)
    requires n < |records|
  {
    && records[n].Complete()
    && forall j :: 0 <= j < n && records[j].host.Some? && Clash(records[j], records[n]) ==>
         var t := LayoutAfter(our, addr, records, n + 1);
         TableIn(t, records[j].Name(our)) != TableIn(t, records[n].Name(our))
  }

  /** The first n records fit. */
  predicate FitUpTo(our: string, addr: nat, records: seq<Record>, n: nat)
    requires n <= |records|
  {
    n == 0 || (FitUpTo(our, addr, records, n - 1) && Fits(our, addr, records, n - 1))
  }

  lemma {:induction false} FitUpToIff(our: string, addr: nat, records: seq<Record>, n: nat)
    requires n <= |records|
    ensures FitUpTo(our, addr, records, n) <==> forall j :: 0 <= j < n ==> Fits(our, addr, records, j)
  {
    if n > 0 {
      FitUpToIff(our, addr, records, n - 1);
    }
  }

  // ----- names

  /** Names that differ in case only compare alike with every other. */
  lemma SameNameCompares(a: string, b: string, c: string)
    requires SameName(b, c)
    ensures StringCaseCmp(a, b) == StringCaseCmp(a, c)
  {
    assert |b| == |Fold(b)| == |Fold(c)| == |c|;
  }

  lemma {:induction false} FindSame(t: Layout, a: string, b: string)
    requires SameName(a, b)
    ensures Find(t, a) == Find(t, b)
  {
    match t
    case Nil =>
    case Node(l, k, r) =>
      SameNameCompares(k.name, a, b);
      FindSame(l, a, b);
      FindSame(r, a, b);
  }

  lemma {:induction false} FindAdd(t: Layout, k: Known, name: string)
    requires Find(t, k.name).None?
    ensures Find(Add(t, k), name) == if SameName(k.name, name) then Some(k) else Find(t, name)
  {
    CaseCmpTotal(k.name, name);
    match t
    case Nil =>
    case Node(l, known, r) =>
      if SameName(k.name, name) {
        SameNameCompares(known.name, k.name, name);
      }
      var direction := StringCaseCmp(known.name, k.name);
      if direction < 0 { FindAdd(l, k, name); } else if direction > 0 { FindAdd(r, k, name); }
  }

  lemma {:induction false} FindGive(t: Layout, name': string, table: nat, name: string)
    requires Find(t, name').Some?
    ensures Find(Give(t, name', table), name) ==
      if SameName(name', name) then Some(Find(t, name').value.(table := Some(table))) else Find(t, name)
  {
    match t
    case Nil =>
    case Node(l, k, r) =>
      CaseCmpTotal(k.name, name');
      CaseCmpTotal(k.name, name);
      if SameName(name', name) {
        SameNameCompares(k.name, name', name);
      }
      var direction := StringCaseCmp(k.name, name');
      if direction < 0 { FindGive(l, name', table, name); } else if direction > 0 { FindGive(r, name', table, name); }
  }

  /** What a record does to the table of a name. */
  lemma FindNext(t: Layout, our: string, r: Record, n: nat, name: string)
    requires r.Complete()
    ensures var host, known := r.Name(our), Find(t, r.Name(our));
      var k := if known.Some? then known.value else Known(host, r.ipaddr, TableAt(t, r.ipaddr));
      Find(Next(t, our, r, n), name) ==
        if !SameName(host, name) then Find(t, name)
        else Some(if IsDummy(r.directory) || k.table.Some? then k else k.(table := Some(n)))
  {
    var host := r.Name(our);
    var met := Met(t, host, r.ipaddr);
    if Find(t, host).None? {
      FindAdd(t, Known(host, r.ipaddr, TableAt(t, r.ipaddr)), name);
      FindAdd(t, Known(host, r.ipaddr, TableAt(t, r.ipaddr)), host);
    }
    if SameName(host, name) {
      FindSame(t, host, name);
      FindSame(met, host, name);
    }
    if !IsDummy(r.directory) && TableIn(met, host).None? {
      FindGive(met, host, n, name);
    }
  }

  // ----- what later records keep

  /** A known name stays known with its address, and its table, once there, stays its table. */
  ghost predicate Keeps(t: Layout, t': Layout) {
    forall name :: Find(t, name).Some? ==>
      && Find(t', name).Some? && Find(t', name).value.addr == Find(t, name).value.addr
      && (TableIn(t, name).Some? ==> TableIn(t', name) == TableIn(t, name))
  }

  lemma NextKeeps(t: Layout, our: string, r: Record, n: nat)
    ensures Keeps(t, Next(t, our, r, n))
  {
    forall name | r.Complete() && Find(t, name).Some?
      ensures Find(Next(t, our, r, n), name).Some?
      ensures Find(Next(t, our, r, n), name).value.addr == Find(t, name).value.addr
      ensures TableIn(t, name).Some? ==> TableIn(Next(t, our, r, n), name) == TableIn(t, name)
    {
      FindNext(t, our, r, n, name);
      if SameName(r.Name(our), name) {
        FindSame(t, r.Name(our), name);
      }
    }
  }

  /** From any record to any later one. So names that have come to share a table share it for good. */
  lemma {:induction false} LayoutKeeps(our: string, addr: nat, records: seq<Record>, i: nat, j: nat)
    requires i <= j <= |records|
    ensures Keeps(LayoutAfter(our, addr, records, i), LayoutAfter(our, addr, records, j))
    decreases j - i
  {
    if i < j {
      LayoutKeeps(our, addr, records, i, j - 1);
      NextKeeps(LayoutAfter(our, addr, records, j - 1), our, records[j - 1], j - 1);
    }
  }

  // ----- order

  ghost predicate InTree(t: Layout, k: Known) {
    match t
    case Nil => false
    case Node(l, known, r) => k == known || InTree(l, k) || InTree(r, k)
  }

  ghost predicate AllLeft(t: Layout, name: string) {
    forall k :: InTree(t, k) ==> StringCaseCmp(name, k.name) < 0
  }

  ghost predicate AllRight(t: Layout, name: string) {
    forall k :: InTree(t, k) ==> StringCaseCmp(name, k.name) > 0
  }

  ghost predicate Sorted(t: Layout) {
    match t
    case Nil => true
    case Node(l, k, r) => Sorted(l) && Sorted(r) && AllLeft(l, k.name) && AllRight(r, k.name)
  }

  lemma {:induction false} InAdd(t: Layout, k: Known, x: Known)
    ensures InTree(Add(t, k), x) ==> InTree(t, x) || x == k
  {
    match t
    case Nil =>
    case Node(l, known, r) =>
      InAdd(l, k, x);
      InAdd(r, k, x);
  }

  lemma {:induction false} SortedAdd(t: Layout, k: Known)
    requires Sorted(t)
    ensures Sorted(Add(t, k))
  {
    match t
    case Nil =>
    case Node(l, known, r) =>
      SortedAdd(l, k);
      SortedAdd(r, k);
      forall x
        ensures InTree(Add(l, k), x) ==> InTree(l, x) || x == k
        ensures InTree(Add(r, k), x) ==> InTree(r, x) || x == k
      {
        InAdd(l, k, x);
        InAdd(r, k, x);
      }
  }

  lemma {:induction false} InGive(t: Layout, name: string, table: nat, x: Known)
    ensures InTree(Give(t, name, table), x) ==> exists y :: InTree(t, y) && y.name == x.name
  {
    match t
    case Nil =>
    case Node(l, k, r) =>
      InGive(l, name, table, x);
      InGive(r, name, table, x);
      if InTree(Give(t, name, table), x) && !InTree(Give(l, name, table), x) && !InTree(Give(r, name, table), x)
         && !InTree(l, x) && !InTree(r, x) {
        assert InTree(t, k);
      }
  }

  lemma {:induction false} SortedGive(t: Layout, name: string, table: nat)
    requires Sorted(t)
    ensures Sorted(Give(t, name, table))
  {
    match t
    case Nil =>
    case Node(l, k, r) =>
      SortedGive(l, name, table);
      SortedGive(r, name, table);
      forall x
        ensures InTree(Give(l, name, table), x) ==> exists y :: InTree(l, y) && y.name == x.name
        ensures InTree(Give(r, name, table), x) ==> exists y :: InTree(r, y) && y.name == x.name
      {
        InGive(l, name, table, x);
        InGive(r, name, table, x);
      }
  }

  lemma SortedNext(t: Layout, our: string, r: Record, n: nat)
    requires Sorted(t)
    ensures Sorted(Next(t, our, r, n))
  {
    if r.Complete() {
      SortedAdd(t, Known(r.Name(our), r.ipaddr, TableAt(t, r.ipaddr)));
      SortedGive(Met(t, r.Name(our), r.ipaddr), r.Name(our), n);
    }
  }

  lemma {:induction false} LayoutIsSorted(our: string, addr: nat, records: seq<Record>, n: nat)
    requires n <= |records|
    ensures Sorted(LayoutAfter(our, addr, records, n))
  {
    if n == 0 {
      assert Sorted(Nil);
    } else {
      LayoutIsSorted(our, addr, records, n - 1);
      SortedNext(LayoutAfter(our, addr, records, n - 1), our, records[n - 1], n - 1);
    }
  }

  lemma {:induction false} FoundInTree(t: Layout, k: Known)
    requires Sorted(t) && InTree(t, k)
    ensures Find(t, k.name) == Some(k)
  {
    match t
    case Node(l, known, r) =>
      CaseCmpTotal(known.name, k.name);
      if k != known && InTree(l, k) {
        FoundInTree(l, k);
      } else if k != known {
        FoundInTree(r, k);
      }
  }

  lemma {:induction false} FirstInTree(t: Layout, addr: nat)
    ensures FirstAt(t, addr).Some? ==> InTree(t, FirstAt(t, addr).value) && FirstAt(t, addr).value.addr == addr
  {
    match t
    case Nil =>
    case Node(l, k, r) =>
      FirstInTree(l, addr);
      FirstInTree(r, addr);
  }

  /** The first name with an address is a known name with this address. */
  lemma FirstIsFound(t: Layout, addr: nat)
    requires Sorted(t) && FirstAt(t, addr).Some?
    ensures Find(t, FirstAt(t, addr).value.name) == FirstAt(t, addr) && FirstAt(t, addr).value.addr == addr
  {
    FirstInTree(t, addr);
    FoundInTree(t, FirstAt(t, addr).value);
  }

  // ----- who shares a table

  /** The table of the name was opened by record k, for a host with the same address, which has it too. */
  predicate OpenedBy(t: Layout, our: string, records: seq<Record>, n: nat, name: string, k: nat)
    requires n <= |records|
  {
    && k < n && records[k].Complete() && !IsDummy(records[k].directory)
    && TableIn(t, records[k].Name(our)) == Some(k) && Find(t, name).Some?
    && Find(t, records[k].Name(our)).value.addr == Find(t, name).value.addr
  }

  /** Names share a table exactly when it was opened by the same record; sharers have one address. */
  lemma {:induction false} TableIsOpened(our: string, addr: nat, records: seq<Record>, n: nat, name: string)
    requires n <= |records|
    ensures var t := LayoutAfter(our, addr, records, n);
      TableIn(t, name).Some? ==> OpenedBy(t, our, records, n, name, TableIn(t, name).value)
    decreases n, 1
  {
    if n == 0 {
      assert Find(Nil, name).None?;
    } else if TableIn(LayoutAfter(our, addr, records, n), name).Some? {
      var r := records[n - 1];
      if !r.Complete() {
        TableIsOpened(our, addr, records, n - 1, name);
      } else {
        NextIsOpened(our, addr, records, n, name);
      }
    }
  }

  lemma NextIsOpened(our: string, addr: nat, records: seq<Record>, n: nat, name: string)
    requires 0 < n <= |records| && records[n - 1].Complete()
    requires TableIn(LayoutAfter(our, addr, records, n), name).Some?
    ensures var t := LayoutAfter(our, addr, records, n); OpenedBy(t, our, records, n, name, TableIn(t, name).value)
    decreases n, 0
  {
    var t, r := LayoutAfter(our, addr, records, n - 1), records[n - 1];
    var host := r.Name(our);
    FindNext(t, our, r, n - 1, name);
    FindNext(t, our, r, n - 1, host);
    if TableIn(t, name).Some? {
      TableIsOpened(our, addr, records, n - 1, name);
      NextKeeps(t, our, r, n - 1);
    } else if Find(t, host).None? && TableAt(t, r.ipaddr).Some? {
      LayoutIsSorted(our, addr, records, n - 1);
      FirstIsFound(t, r.ipaddr);
      TableIsOpened(our, addr, records, n - 1, FirstAt(t, r.ipaddr).value.name);
      NextKeeps(t, our, r, n - 1);
    } else {
      FindSame(t, host, name);
    }
  }

  /** A new name shares the table of the first name with its address exactly when that has one by then. */
  lemma NewcomerSharesIff(t: Layout, our: string, r: Record, n: nat)
    requires Sorted(t) && r.Complete() && Find(t, r.Name(our)).None? && FirstAt(t, r.ipaddr).Some?
    ensures var t', first := Next(t, our, r, n), FirstAt(t, r.ipaddr).value;
      TableIn(t', r.Name(our)).Some? && TableIn(t', r.Name(our)) == TableIn(t', first.name) <==> first.table.Some?
  {
    var first := FirstAt(t, r.ipaddr).value;
    FirstIsFound(t, r.ipaddr);
    FindNext(t, our, r, n, r.Name(our));
    FindNext(t, our, r, n, first.name);
    if SameName(r.Name(our), first.name) {
      FindSame(t, r.Name(our), first.name);
    }
  }

  /** One of the first n records gives a path to our own name. */
  predicate OursNamed(our: string, records: seq<Record>, n: nat)
    requires n <= |records|
  {
    exists j :: 0 <= j < n && records[j].Complete() && SameName(records[j].Name(our), our) && !IsDummy(records[j].directory)
  }

  /** Our own name, which is known before all others, has a table exactly when a record gives it a path. */
  lemma {:induction false} OwnTableIff(our: string, addr: nat, records: seq<Record>, n: nat)
    requires n <= |records|
    ensures var t := LayoutAfter(our, addr, records, n);
      Find(t, our).Some? && Find(t, our).value.addr == addr && (TableIn(t, our).Some? <==> OursNamed(our, records, n))
    decreases n
  {
    if n == 0 {
      CaseCmpTotal(our, our);
    } else {
      var t, r := LayoutAfter(our, addr, records, n - 1), records[n - 1];
      OwnTableIff(our, addr, records, n - 1);
      if r.Complete() {
        FindNext(t, our, r, n - 1, our);
        if SameName(r.Name(our), our) {
          FindSame(t, r.Name(our), our);
        }
      }
      if OursNamed(our, records, n - 1) {
        var j :| 0 <= j < n - 1 && records[j].Complete() && SameName(records[j].Name(our), our)
          && !IsDummy(records[j].directory);
        assert OursNamed(our, records, n);
      }
    }
  }

  /** A complete record makes its name known, and with a path gives it a table. */
  lemma RecordIsMet(our: string, addr: nat, records: seq<Record>, j: nat, n: nat)
    requires j < n <= |records| && records[j].Complete()
    ensures var t := LayoutAfter(our, addr, records, n);
      Find(t, records[j].Name(our)).Some? && (!IsDummy(records[j].directory) ==> TableIn(t, records[j].Name(our)).Some?)
  {
    FindNext(LayoutAfter(our, addr, records, j), our, records[j], j, records[j].Name(our));
    LayoutKeeps(our, addr, records, j + 1, n);
  }
}
