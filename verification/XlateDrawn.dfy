/** The database as a value is laid out as the records lay it out: the same names with the same tables. */
module XlateDrawn {
  import opened Options
  import opened XlateOrder
  import opened XlateRecords
  import L = XlateLayout
  import opened XlateDirTree
  import opened XlateHosts
  import opened XlateView
  import opened XlateService

  /** The number of the record that has opened a tree. */
  type Ids = map<TblEnt, nat>

  function IdOf(t: TblEnt?, ids: Ids): Option<nat> {
    if t == null || t !in ids then None else Some(ids[t])
  }

  ghost function KnownOf(h: Hosts, owner: map<Hosts, TblEnt?>, ids: Ids): L.Known {
    L.Known(h.hostname, h.ipaddr, if h in owner then IdOf(owner[h], ids) else None)
  }

  ghost function Drawn(s: Shape, owner: map<Hosts, TblEnt?>, ids: Ids): L.Layout {
    match s
    case Nil => L.Nil
    case Node(l, h, r) => L.Node(Drawn(l, owner, ids), KnownOf(h, owner, ids), Drawn(r, owner, ids))
  }

  /** Different trees have different numbers, all of records before n. */
  ghost predicate IdsOk(v: View, ids: Ids, n: nat) {
    && (forall h {:trigger IdOf(v.owner[h], ids)} :: h in v.owner && v.owner[h] != null ==>
          IdOf(v.owner[h], ids).Some? && IdOf(v.owner[h], ids).value < n)
    && (forall h, h' {:trigger IdOf(v.owner[h], ids), IdOf(v.owner[h'], ids)} ::
          h in v.owner && h' in v.owner && IdOf(v.owner[h], ids) == IdOf(v.owner[h'], ids) ==> v.owner[h] == v.owner[h'])
  }

  // ----- the same searches

  lemma {:induction false} DrawnFind(s: Shape, owner: map<Hosts, TblEnt?>, ids: Ids, name: string)
    ensures L.Find(Drawn(s, owner, ids), name) ==
      if Look(s, name) == null then None else Some(KnownOf(Look(s, name), owner, ids))
  {
    match s
    case Nil =>
    case Node(l, h, r) =>
      DrawnFind(l, owner, ids, name);
      DrawnFind(r, owner, ids, name);
  }

  lemma {:induction false} DrawnFirst(s: Shape, owner: map<Hosts, TblEnt?>, ids: Ids, addr: nat)
    ensures L.FirstAt(Drawn(s, owner, ids), addr) ==
      if FirstHost(s, addr) == null then None else Some(KnownOf(FirstHost(s, addr), owner, ids))
  {
    match s
    case Nil =>
    case Node(l, h, r) =>
      DrawnFirst(l, owner, ids, addr);
      DrawnFirst(r, owner, ids, addr);
  }

  /** Only the trees of the hosts in the shape count. */
  lemma {:induction false} DrawnSame(s: Shape, owner: map<Hosts, TblEnt?>, owner': map<Hosts, TblEnt?>, ids: Ids, ids': Ids)
    requires forall h :: h in HostsIn(s) ==> KnownOf(h, owner, ids) == KnownOf(h, owner', ids')
    ensures Drawn(s, owner, ids) == Drawn(s, owner', ids')
  {
    match s
    case Nil =>
    case Node(l, h, r) =>
      DrawnSame(l, owner, owner', ids, ids');
      DrawnSame(r, owner, owner', ids, ids');
  }

  lemma {:induction false} DrawnInsert(s: Shape, h: Hosts, owner: map<Hosts, TblEnt?>, ids: Ids)
    requires Look(s, h.hostname) == null
    ensures Drawn(Insert(s, h), owner, ids) == L.Add(Drawn(s, owner, ids), KnownOf(h, owner, ids))
  {
    match s
    case Nil =>
    case Node(l, host, r) =>
      var direction := StringCaseCmp(host.hostname, h.hostname);
      if direction < 0 { DrawnInsert(l, h, owner, ids); } else if direction > 0 { DrawnInsert(r, h, owner, ids); }
  }

  /** A host of an ordered shape is where its name is looked for. */
  lemma OnlySide(s: Shape, h: Hosts)
    requires s.Node? && Ordered(s) && h in HostsIn(s)
    ensures var direction := StringCaseCmp(s.host.hostname, h.hostname);
      && (direction < 0 ==> h in HostsIn(s.left) && h !in HostsIn(s.right) && h != s.host)
      && (direction > 0 ==> h in HostsIn(s.right) && h !in HostsIn(s.left) && h != s.host)
      && (direction == 0 ==> h == s.host && h !in HostsIn(s.left) && h !in HostsIn(s.right))
  {
    CaseCmpTotal(s.host.hostname, s.host.hostname);
  }

  lemma {:induction false} LookFinds(s: Shape, h: Hosts, name: string)
    requires Ordered(s) && h in HostsIn(s) && SameName(h.hostname, name)
    ensures Look(s, name) == h
  {
    match s
    case Node(l, host, r) =>
      OnlySide(s, h);
      L.SameNameCompares(host.hostname, h.hostname, name);
      var direction := StringCaseCmp(host.hostname, name);
      if direction < 0 { LookFinds(l, h, name); } else if direction > 0 { LookFinds(r, h, name); }
  }

  lemma {:induction false} LookIsIn(s: Shape, name: string)
    ensures Look(s, name) != null ==> Look(s, name) in HostsIn(s) && SameName(Look(s, name).hostname, name)
  {
    match s
    case Nil =>
    case Node(l, h, r) =>
      CaseCmpTotal(h.hostname, name);
      LookIsIn(l, name);
      LookIsIn(r, name);
  }

  /** A host gets its own tree, with a number of its own. */
  lemma {:induction false} DrawnGive(s: Shape, h: Hosts, owner: map<Hosts, TblEnt?>, owner': map<Hosts, TblEnt?>,
                                     ids: Ids, ids': Ids, n: nat)
    requires Ordered(s) && h in HostsIn(s)
    requires forall x :: x in HostsIn(s) && x != h ==> KnownOf(x, owner, ids) == KnownOf(x, owner', ids')
    requires KnownOf(h, owner', ids') == KnownOf(h, owner, ids).(table := Some(n))
    ensures Drawn(s, owner', ids') == L.Give(Drawn(s, owner, ids), h.hostname, n)
  {
    match s
    case Node(l, host, r) =>
      OnlySide(s, h);
      var direction := StringCaseCmp(host.hostname, h.hostname);
      if direction >= 0 { DrawnSame(l, owner, owner', ids, ids'); }
      if direction <= 0 { DrawnSame(r, owner, owner', ids, ids'); }
      if direction < 0 {
        DrawnGive(l, h, owner, owner', ids, ids', n);
      } else if direction > 0 {
        DrawnGive(r, h, owner, owner', ids, ids', n);
      }
  }

  // ----- the same step

  ghost function IdsAfter(ids: Ids, first: TblEnt?, entry: TblEnt?, n: nat): Ids {
    if first == null && entry != null then ids[entry := n] else ids
  }

  lemma IdsStep(v: View, host: Hosts, first: TblEnt?, entry: TblEnt?, ids: Ids, n: nat)
    requires Savable(v, host, first, entry) && IdsOk(v, ids, n)
    ensures IdsOk(Saved(v, host, first, entry), IdsAfter(ids, first, entry, n), n + 1)
  {
    forall h | h in v.owner && v.owner[h] != null
      ensures IdOf(v.owner[h], ids).Some? && IdOf(v.owner[h], ids).value < n
      ensures IdOf(v.owner[h], IdsAfter(ids, first, entry, n)) == IdOf(v.owner[h], ids)
    {
    }
  }

  /** The step of the database is that of the layout. */
  lemma DrawnStep(s: Shape, v: View, our: string, r: Record, host: Hosts, first: TblEnt?, entry: TblEnt?, ids: Ids, n: nat)
    requires r.Complete() && Savable(v, host, first, entry) && IdsOk(v, ids, n)
    requires Picked(s, v, r.Name(our), r.ipaddr, host, first) && (entry == null <==> IsDummy(r.directory))
    requires Ordered(s) && HostsIn(s) == v.owner.Keys
    requires Ordered(ShapeAfter(s, v, host)) && HostsIn(ShapeAfter(s, v, host)) == v.owner.Keys + {host}
    ensures Drawn(ShapeAfter(s, v, host), Saved(v, host, first, entry).owner, IdsAfter(ids, first, entry, n))
      == L.Next(Drawn(s, v.owner, ids), our, r, n)
  {
    var t, name, s' := Drawn(s, v.owner, ids), r.Name(our), ShapeAfter(s, v, host);
    var begun := v.owner[host := first];
    DrawnFind(s, v.owner, ids, name);
    DrawnFirst(s, v.owner, ids, r.ipaddr);
    MetIsDrawn(s, v, name, r.ipaddr, host, first, ids);
    assert Drawn(s', begun, ids) == L.Met(t, name, r.ipaddr);
    LookIsIn(s, name);
    LookFinds(s', host, name);
    DrawnFind(s', begun, ids, name);
    var owner', ids' := Saved(v, host, first, entry).owner, IdsAfter(ids, first, entry, n);
    if first == null && entry != null {
      GiveIsDrawn(s', v, begun, owner', host, entry, ids, n);
      GiveSame(L.Met(t, name, r.ipaddr), host.hostname, name, n);
    } else {
      DrawnSame(s', begun, owner', ids, ids');
    }
  }

  lemma MetIsDrawn(s: Shape, v: View, name: string, addr: nat, host: Hosts, first: TblEnt?, ids: Ids)
    requires Picked(s, v, name, addr, host, first) && HostsIn(s) == v.owner.Keys
    ensures Drawn(ShapeAfter(s, v, host), v.owner[host := first], ids) == L.Met(Drawn(s, v.owner, ids), name, addr)
  {
    var begun := v.owner[host := first];
    DrawnFind(s, v.owner, ids, name);
    DrawnSame(s, v.owner, begun, ids, ids);
    if host !in v.owner {
      DrawnFirst(s, v.owner, ids, addr);
      FirstIsIn(s, addr);
      DrawnInsert(s, host, begun, ids);
    }
  }

  lemma {:induction false} FirstIsIn(s: Shape, addr: nat)
    ensures FirstHost(s, addr) != null ==> FirstHost(s, addr) in HostsIn(s)
  {
    match s
    case Nil =>
    case Node(l, h, r) =>
      FirstIsIn(l, addr);
      FirstIsIn(r, addr);
  }

  lemma GiveIsDrawn(s: Shape, v: View, begun: map<Hosts, TblEnt?>, owner': map<Hosts, TblEnt?>, host: Hosts,
                    entry: TblEnt, ids: Ids, n: nat)
    requires Ordered(s) && host in HostsIn(s) && HostsIn(s) == v.owner.Keys + {host} && Whole(v) && entry !in v.tables
    requires begun == v.owner[host := null] && owner' == v.owner[host := entry]
    ensures Drawn(s, owner', ids[entry := n]) == L.Give(Drawn(s, begun, ids), host.hostname, n)
  {
    DrawnGive(s, host, begun, owner', ids, ids[entry := n], n);
  }

  lemma {:induction false} GiveSame(t: L.Layout, a: string, b: string, n: nat)
    requires SameName(a, b)
    ensures L.Give(t, a, n) == L.Give(t, b, n)
  {
    match t
    case Nil =>
    case Node(l, k, r) =>
      L.SameNameCompares(k.name, a, b);
      GiveSame(l, a, b, n);
      GiveSame(r, a, b, n);
  }

  // ----- the same conflicts

  /** The table of a name is the number of the tree of its host. */
  lemma TableOfHost(s: Shape, v: View, ids: Ids, h: Hosts, name: string)
    requires Ordered(s) && h in HostsIn(s) && h in v.owner && SameName(h.hostname, name)
    ensures L.TableIn(Drawn(s, v.owner, ids), name) == IdOf(v.owner[h], ids)
  {
    LookFinds(s, h, name);
    DrawnFind(s, v.owner, ids, name);
  }

  /** Record n clashes with one before it in the table that it goes to. */
  ghost predicate Clashes(t: L.Layout, our: string, records: seq<Record>, n: nat)
    requires n < |records| && records[n].host.Some?
  {
    exists j :: 0 <= j < n && records[j].host.Some? && Clash(records[j], records[n])
      && L.TableIn(t, records[j].Name(our)) == L.TableIn(t, records[n].Name(our))
  }

  lemma ConflictIffClashes(s: Shape, v: View, ids: Ids, our: string, records: seq<Record>, n: nat)
    requires n < |records| && records[n].Complete() && Ordered(s) && HostsIn(s) == v.owner.Keys && IdsOk(v, ids, n + 1)
    requires Look(s, records[n].Name(our)) != null
    requires !IsDummy(records[n].directory) ==> v.owner[LookUp(s, v, records[n].Name(our))] != null
    requires forall j :: 0 <= j < n ==> records[j].Complete() && Look(s, records[j].Name(our)) != null
    ensures Conflict(v, our, records, n) <==> Clashes(Drawn(s, v.owner, ids), our, records, n)
  {
    var t, r' := Drawn(s, v.owner, ids), records[n];
    if Conflict(v, our, records, n) {
      var j, h, h' :| 0 <= j < n && h in v.owner && h' in v.owner && ConflictAt(v, our, records[j], h, r', h');
      TableOfHost(s, v, ids, h, records[j].Name(our));
      TableOfHost(s, v, ids, h', r'.Name(our));
    }
    if Clashes(t, our, records, n) {
      var j :| 0 <= j < n && records[j].host.Some? && Clash(records[j], r')
        && L.TableIn(t, records[j].Name(our)) == L.TableIn(t, r'.Name(our));
      var h, h' := LookUp(s, v, records[j].Name(our)), LookUp(s, v, r'.Name(our));
      TableOfHost(s, v, ids, h, records[j].Name(our));
      TableOfHost(s, v, ids, h', r'.Name(our));
      assert ConflictAt(v, our, records[j], h, r', h');
    }
  }

  ghost function LookUp(s: Shape, v: View, name: string): (h: Hosts)
    requires Look(s, name) != null && HostsIn(s) == v.owner.Keys
    ensures h == Look(s, name) && h in v.owner && SameName(h.hostname, name)
  {
    LookIsIn(s, name);
    Look(s, name)
  }

  // ----- loading

  /** The first n records have been saved, on the host `our` with address `addr`. */
  ghost predicate Loaded(s: Shape, v: View, ids: Ids, our: string, addr: nat, records: seq<Record>, n: nat)
    requires n <= |records|
  {
    && Ordered(s) && HostsIn(s) == v.owner.Keys && IdsOk(v, ids, n)
    && Drawn(s, v.owner, ids) == L.LayoutAfter(our, addr, records, n)
    && AllTold(v, our, records, n) && AllRecorded(v, our, records, n)
  }

  lemma OrderedNamesDiffer(s: Shape, v: View)
    requires Ordered(s) && HostsIn(s) == v.owner.Keys
    ensures NamesDiffer(v)
  {
    forall h, h' | h in v.owner && h' in v.owner && SameName(h.hostname, h'.hostname)
      ensures h == h'
    {
      LookFinds(s, h, h.hostname);
      LookFinds(s, h', h.hostname);
    }
  }

  /** What has been recorded is complete, and known by its name also later. */
  lemma RecordedAreKnown(v: View, s': Shape, v': View, our: string, records: seq<Record>, n: nat)
    requires n <= |records| && AllRecorded(v, our, records, n) && Extends(v, v')
    requires Ordered(s') && HostsIn(s') == v'.owner.Keys
    ensures forall j :: 0 <= j < n ==> records[j].Complete() && Look(s', records[j].Name(our)) != null
  {
    forall j | 0 <= j < n
      ensures records[j].Complete() && Look(s', records[j].Name(our)) != null
    {
      var r := records[j];
      assert Kept(v, our, r);
      var h :| h in v.owner && SameName(h.hostname, r.Name(our));
      LookFinds(s', h, r.Name(our));
    }
  }

  /** The next record of a file, its host, the tree with which that begins, and the entry for it. */
  ghost predicate Takable(s: Shape, v: View, our: string, r: Record, host: Hosts, first: TblEnt?, entry: TblEnt?) {
    && Takes(r, our, host, entry) && Savable(v, host, first, entry) && Picked(s, v, r.Name(our), r.ipaddr, host, first)
    && Ordered(ShapeAfter(s, v, host)) && HostsIn(ShapeAfter(s, v, host)) == v.owner.Keys + {host}
  }

  lemma TakableFrom(s: Shape, v: View, our: string, r: Record, host: Hosts, first: TblEnt?, entry: TblEnt?)
    requires r.Complete() && Picked(s, v, r.Name(our), r.ipaddr, host, first) && Whole(v)
    requires entry == null <==> IsDummy(r.directory)
    requires entry != null ==>
      entry.directory == Strip(r.directory) && entry.gbldir == r.gblpath.value && entry !in v.tables
    requires Ordered(ShapeAfter(s, v, host)) && HostsIn(ShapeAfter(s, v, host)) == Saved(v, host, first, entry).owner.Keys
    ensures Takable(s, v, our, r, host, first, entry)
  {
    PickedBegins(s, v, r.Name(our), r.ipaddr, host, first);
    LookIsIn(s, r.Name(our));
  }

  /** It is saved exactly when it fits; then the database holds it, laid out as the records say. */
  lemma LoadStep(s: Shape, v: View, ids: Ids, our: string, addr: nat, records: seq<Record>, n: nat,
                 host: Hosts, first: TblEnt?, entry: TblEnt?)
    requires n < |records| && Loaded(s, v, ids, our, addr, records, n)
    requires Takable(s, v, our, records[n], host, first, entry)
    ensures var s', v' := ShapeAfter(s, v, host), Saved(v, host, first, entry);
      && Extends(v, v') && (Accepts(v, first, entry) <==> L.Fits(our, addr, records, n))
      && (Accepts(v, first, entry) ==> Loaded(s', v', IdsAfter(ids, first, entry, n), our, addr, records, n + 1))
  {
    var s', v', ids' := ShapeAfter(s, v, host), Saved(v, host, first, entry), IdsAfter(ids, first, entry, n);
    SavedExtends(v, host, first, entry);
    IdsStep(v, host, first, entry, ids, n);
    DrawnStep(s, v, our, records[n], host, first, entry, ids, n);
    OrderedNamesDiffer(s', v');
    RefusedIff(v, our, records, n, host, first, entry);
    RecordedAreKnown(v, s', v', our, records, n);
    FitsIff(s', v', ids', our, addr, records, n, host);
    if Accepts(v, first, entry) {
      AllToldStep(v, our, records, n, host, first, entry);
      AllRecordedStep(v, our, records, n, host, first, entry);
    }
  }

  lemma FitsIff(s: Shape, v: View, ids: Ids, our: string, addr: nat, records: seq<Record>, n: nat, host: Hosts)
    requires n < |records| && records[n].Complete() && Ordered(s) && HostsIn(s) == v.owner.Keys && IdsOk(v, ids, n + 1)
    requires Drawn(s, v.owner, ids) == L.LayoutAfter(our, addr, records, n + 1)
    requires host in v.owner && IsFor(records[n], our, host) && (!IsDummy(records[n].directory) ==> v.owner[host] != null)
    requires forall j :: 0 <= j < n ==> records[j].Complete() && Look(s, records[j].Name(our)) != null
    ensures Conflict(v, our, records, n) <==> !L.Fits(our, addr, records, n)
  {
    LookFinds(s, host, records[n].Name(our));
    ConflictIffClashes(s, v, ids, our, records, n);
  }

  /** Before the first record there is only our own host, without a tree. */
  lemma LoadedAtFirst(s: Shape, v: View, ids: Ids, ourHost: Hosts, records: seq<Record>)
    requires s == Node(Nil, ourHost, Nil) && v == View(map[ourHost := null], map[]) && ids == map[]
    ensures Loaded(s, v, ids, ourHost.hostname, ourHost.ipaddr, records, 0)
  {
    assert Ordered(Nil) && HostsIn(Nil) == {} && Drawn(Nil, v.owner, ids) == L.Nil;
  }

  /** The records of the hosts that share a tree are those of the names that have its table. */
  lemma HasRecordIffTold(s: Shape, v: View, ids: Ids, our: string, records: seq<Record>, h: Hosts, path: string, g: string)
    requires Ordered(s) && HostsIn(s) == v.owner.Keys && IdsOk(v, ids, |records|) && AllRecorded(v, our, records, |records|)
    requires h in v.owner && v.owner[h] != null
    ensures IdOf(v.owner[h], ids).Some?
    ensures HasRecord(v, our, records, v.owner[h], path, g)
      <==> SomeTells(Drawn(s, v.owner, ids), our, records, IdOf(v.owner[h], ids).value, path, g)
  {
    var t, table := Drawn(s, v.owner, ids), IdOf(v.owner[h], ids).value;
    if HasRecord(v, our, records, v.owner[h], path, g) {
      var j, host :| 0 <= j < |records| && host in v.owner && v.owner[host] == v.owner[h]
        && IsFor(records[j], our, host) && records[j].Gives(path, g);
      TableOfHost(s, v, ids, host, records[j].Name(our));
      assert Kept(v, our, records[j]);
      assert TellsOf(t, our, records[j], table, path);
    }
    if SomeTells(t, our, records, table, path, g) {
      var j :| 0 <= j < |records| && records[j].gblpath == Some(g) && TellsOf(t, our, records[j], table, path);
      DrawnFind(s, v.owner, ids, records[j].Name(our));
      var host := LookUp(s, v, records[j].Name(our));
      assert IsFor(records[j], our, host) && records[j].Gives(path, g);
    }
  }

  // ----- the way from the first record to the last

  /** The database before a record, and what was done for the record. */
  datatype Move = Move(s: Shape, v: View, host: Hosts, first: TblEnt?, entry: TblEnt?)

  ghost predicate Leads(m: Move, our: string, r: Record, s': Shape, v': View) {
    && Takable(m.s, m.v, our, r, m.host, m.first, m.entry)
    && s' == ShapeAfter(m.s, m.v, m.host) && v' == Saved(m.v, m.host, m.first, m.entry)
  }

  /** The moves for the first n records, all of which were accepted, lead from s0 and v0 to s and v. */
  ghost predicate Path(moves: seq<Move>, s0: Shape, v0: View, our: string, records: seq<Record>, n: nat, s: Shape, v: View)
    requires |moves| == n <= |records|
  {
    if n == 0 then s == s0 && v == v0
    else
      var m := moves[n - 1];
      && Path(moves[..n - 1], s0, v0, our, records, n - 1, m.s, m.v)
      && Leads(m, our, records[n - 1], s, v) && Accepts(m.v, m.first, m.entry)
  }

  lemma PathGoesOn(moves: seq<Move>, s0: Shape, v0: View, our: string, records: seq<Record>,
                   n: nat, m: Move, s: Shape, v: View)
    requires |moves| == n < |records| && Path(moves, s0, v0, our, records, n, m.s, m.v)
    requires Leads(m, our, records[n], s, v) && Accepts(m.v, m.first, m.entry)
    ensures Path(moves + [m], s0, v0, our, records, n + 1, s, v)
  {
    assert (moves + [m])[..n] == moves;
  }

  /** At the end of the path the records are in the database, and all of them fit. */
  lemma {:induction false} PathLoads(moves: seq<Move>, s0: Shape, v0: View, our: string, addr: nat, records: seq<Record>,
                                     n: nat, s: Shape, v: View)
    returns (ids: Ids)
    requires |moves| == n <= |records| && Path(moves, s0, v0, our, records, n, s, v)
    requires Loaded(s0, v0, map[], our, addr, records, 0)
    ensures Loaded(s, v, ids, our, addr, records, n) && L.FitUpTo(our, addr, records, n)
    decreases n
  {
    if n == 0 {
      ids := map[];
    } else {
      var m := moves[n - 1];
      ids := PathLoads(moves[..n - 1], s0, v0, our, addr, records, n - 1, m.s, m.v);
      LoadStep(m.s, m.v, ids, our, addr, records, n - 1, m.host, m.first, m.entry);
      ids := IdsAfter(ids, m.first, m.entry, n - 1);
    }
  }

  /** What has come of the reading: all records so far were taken, or the next is incomplete or refused. */
  datatype Reading = Good | Incomplete | Refused(m: Move)

  ghost predicate HasRead(how: Reading, moves: seq<Move>, s0: Shape, v0: View, our: string, records: seq<Record>,
                          s: Shape, v: View)
  {
    match how
    case Good => |moves| <= |records| && Path(moves, s0, v0, our, records, |moves|, s, v)
    case Incomplete => |moves| < |records| && !records[|moves|].Complete()
    case Refused(m) =>
      && |moves| < |records| && Path(moves, s0, v0, our, records, |moves|, m.s, m.v)
      && Leads(m, our, records[|moves|], s, v) && !Accepts(m.v, m.first, m.entry)
  }

  lemma PathIsRefused(moves: seq<Move>, s0: Shape, v0: View, our: string, records: seq<Record>, m: Move, s: Shape, v: View)
    requires |moves| < |records| && Path(moves, s0, v0, our, records, |moves|, m.s, m.v)
    requires Leads(m, our, records[|moves|], s, v) && !Accepts(m.v, m.first, m.entry)
    ensures HasRead(Refused(m), moves, s0, v0, our, records, s, v)
  {
  }

  /** A record at which the reading ends too early does not fit. */
  lemma StoppedDoesNotFit(moves: seq<Move>, s0: Shape, v0: View, our: string, addr: nat, records: seq<Record>,
                          how: Reading, s: Shape, v: View)
    requires !how.Good? && HasRead(how, moves, s0, v0, our, records, s, v)
    requires Loaded(s0, v0, map[], our, addr, records, 0)
    ensures !L.FitUpTo(our, addr, records, |records|)
  {
    var n := |moves|;
    L.FitUpToIff(our, addr, records, |records|);
    if how.Refused? {
      var m := how.m;
      var ids := PathLoads(moves, s0, v0, our, addr, records, n, m.s, m.v);
      LoadStep(m.s, m.v, ids, our, addr, records, n, m.host, m.first, m.entry);
    }
    assert !L.Fits(our, addr, records, n);
  }

  /** The database before each of the records, and after the last. */
  ghost function Views(moves: seq<Move>, v: View): seq<View> {
    if moves == [] then [v] else Views(moves[..|moves| - 1], moves[|moves| - 1].v) + [v]
  }

  /** From any record to any later one hosts and trees only grow. */
  lemma {:induction false} PathGrows(moves: seq<Move>, s0: Shape, v0: View, our: string, records: seq<Record>, n: nat,
                                     s: Shape, v: View)
    requires |moves| == n <= |records| && Path(moves, s0, v0, our, records, n, s, v)
    ensures |Views(moves, v)| == n + 1 && Views(moves, v)[0] == v0 && Views(moves, v)[n] == v && Growing(Views(moves, v))
    decreases n
  {
    ExtendsSelf(v);
    if n > 0 {
      var m := moves[n - 1];
      PathGrows(moves[..n - 1], s0, v0, our, records, n - 1, m.s, m.v);
      SavedExtends(m.v, m.host, m.first, m.entry);
      GrowingOn(Views(moves[..n - 1], m.v), v);
    }
  }
}
