/**
 The translation service: the database of hosts and directories, built from the records of the
 translation file, and its answers. Hosts with one address may share one tree of directories.
 */
module Xlate {
  import opened Options
  import opened XlateOrder
  import opened XlateRecords
  import opened XlateDirTree
  import opened XlateHosts
  import opened XlateView
  import opened XlateDrawn
  import opened XlateService
  import L = XlateLayout

  /** The trees of directories that the hosts have. */
  ghost function RootsOf(hosts: set<Hosts>): set<TblEnt>
    reads hosts`dirtable
  {
    set h | h in hosts && h.dirtable != null :: h.dirtable
  }

  ghost function OwnerMap(hosts: set<Hosts>): map<Hosts, TblEnt?>
    reads hosts`dirtable
  {
    map h | h in hosts :: h.dirtable
  }

  ghost function TableMap(roots: set<TblEnt>): map<TblEnt, set<TblEnt>>
    reads roots`Repr
  {
    map t | t in roots :: t.Repr
  }

  lemma OwnersAdd(hosts: set<Hosts>, h: Hosts)
    ensures OwnerMap(hosts + {h}) == OwnerMap(hosts)[h := h.dirtable]
  {
  }

  lemma RootsAddHost(hosts: set<Hosts>, h: Hosts)
    requires h.dirtable != null ==> h.dirtable in RootsOf(hosts)
    ensures RootsOf(hosts + {h}) == RootsOf(hosts)
  {
  }

  lemma TablesAdd(roots: set<TblEnt>, t: TblEnt)
    ensures TableMap(roots + {t}) == TableMap(roots)[t := t.Repr]
  {
  }

  /** Gives one of the hosts a tree. */
  method SetTable(host: Hosts, t: TblEnt, ghost hosts: set<Hosts>)
    requires host in hosts && host.dirtable == null
    modifies host`dirtable
    ensures host.dirtable == t && OwnerMap(hosts) == old(OwnerMap(hosts))[host := t]
    ensures RootsOf(hosts) == old(RootsOf(hosts)) + {t}
  {
    ghost var roots := RootsOf(hosts);
    host.dirtable := t;
    assert RootsOf(hosts) == roots + {t};
  }

  /** Each tree is in order and lies in `dirs`, and different ones have no node in common. */
  ghost predicate RootsOk(roots: set<TblEnt>, dirs: set<TblEnt>)
    reads dirs, roots
  {
    && (forall t :: t in roots ==> t.Repr <= dirs && t.Valid())
    && (forall t, t' :: t in roots && t' in roots && t != t' ==> t.Repr !! t'.Repr)
  }

  ghost predicate TablesOk(hosts: set<Hosts>, dirs: set<TblEnt>)
    reads hosts`dirtable, dirs, RootsOf(hosts)
  {
    RootsOk(RootsOf(hosts), dirs)
  }

  /** An insertion into one of the trees keeps all of them in order. */
  method InsertInto(root: TblEnt, entry: TblEnt, ghost roots: set<TblEnt>, ghost dirs: set<TblEnt>) returns (ok: bool)
    requires RootsOk(roots, dirs) && root in roots && entry.Valid() && entry.Repr == {entry} && entry !in dirs
    modifies root.Repr
    ensures RootsOk(roots, dirs + {entry})
    ensures root.Repr == Inserted(old(root.Repr), entry)
    ensures ok <==> Agrees(old(root.Repr), entry)
    ensures forall t :: t in roots && t != root ==> t.Repr == old(t.Repr)
  {
    assert forall t :: t in roots && t != root ==> t !in root.Repr;
    ok := DirTreeInsert(root, entry);
  }

  /** The tree of a host gets a further entry. */
  method GrowRoot(host: Hosts, entry: TblEnt, ghost hosts: set<Hosts>, ghost dirs: set<TblEnt>) returns (ok: bool)
    requires TablesOk(hosts, dirs) && host in hosts && host.dirtable != null
    requires entry.Valid() && entry.Repr == {entry} && entry !in dirs
    modifies host.dirtable.Repr
    ensures TablesOk(hosts, dirs + {entry})
    ensures host.dirtable.Repr == Inserted(old(host.dirtable.Repr), entry)
    ensures ok <==> Agrees(old(host.dirtable.Repr), entry)
    ensures OwnerMap(hosts) == old(OwnerMap(hosts))
    ensures TableMap(RootsOf(hosts)) == old(TableMap(RootsOf(hosts)))[host.dirtable := host.dirtable.Repr]
  {
    ghost var roots := RootsOf(hosts);
    ok := InsertInto(host.dirtable, entry, roots, dirs);
    assert RootsOf(hosts) == roots;
  }

  lemma RootsAdd(roots: set<TblEnt>, dirs: set<TblEnt>, entry: TblEnt)
    requires RootsOk(roots, dirs) && entry.Valid() && entry.Repr == {entry} && entry !in dirs
    ensures RootsOk(roots + {entry}, dirs + {entry})
  {
  }

  /** A host without a tree gets one. */
  method PlantRoot(host: Hosts, entry: TblEnt, ghost hosts: set<Hosts>, ghost dirs: set<TblEnt>)
    requires TablesOk(hosts, dirs) && host in hosts && host.dirtable == null
    requires entry.Valid() && entry.Repr == {entry} && entry !in dirs
    modifies host`dirtable
    ensures TablesOk(hosts, dirs + {entry}) && host.dirtable == entry
    ensures OwnerMap(hosts) == old(OwnerMap(hosts))[host := entry]
    ensures TableMap(RootsOf(hosts)) == old(TableMap(RootsOf(hosts)))[entry := {entry}]
  {
    ghost var roots, tables := RootsOf(hosts), TableMap(RootsOf(hosts));
    RootsAdd(roots, dirs, entry);
    TablesAdd(roots, entry);
    SetTable(host, entry, hosts);
    assert TableMap(roots + {entry}) == tables[entry := {entry}];
  }

  class Translator {
    var hostTree: Hosts?
    var ourHost: Hosts?
    var broken: bool
    ghost var hosts: set<Hosts>
    ghost var dirs: set<TblEnt>
    /** Which record has opened which tree, and what the first call has found. */
    ghost var ids: Ids
    ghost var source: Env

    ghost predicate TreeOk()
      reads this`hostTree, this`hosts, hosts`left, hosts`right, hosts`Repr
    {
      if hostTree == null then hosts == {} else hostTree in hosts && hostTree.Repr == hosts && hostTree.Valid()
    }

    ghost predicate Valid()
      reads this`hostTree, this`ourHost, this`hosts, this`dirs, hosts, dirs, RootsOf(hosts)
    {
      && TreeOk()
      && (ourHost != null ==> ourHost in hosts)
      && TablesOk(hosts, dirs)
    }

    ghost function ShapeNow(): Shape
      requires TreeOk()
      reads this`hostTree, this`hosts, hosts`left, hosts`right, hosts`Repr
    {
      ShapeOf(hostTree)
    }

    ghost function ViewOf(): View
      reads this`hosts, hosts`dirtable, RootsOf(hosts)
    {
      View(OwnerMap(hosts), TableMap(RootsOf(hosts)))
    }

    constructor ()
      ensures Usable() && ourHost == null && !broken
    {
      hostTree, ourHost, broken := null, null, false;
      hosts, dirs, ids := {}, {}, map[];
    }

    /** Adds the node to the tree of hosts, unless its name is there. */
    method AddToTree(node: Hosts) returns (inserted: bool)
      requires TreeOk() && node.Valid() && node.Repr == {node} && node !in hosts
      modifies this`hostTree, this`hosts, hosts`left, hosts`right, hosts`Repr
      ensures TreeOk() && inserted == !HasHost(old(hosts), node.hostname)
      ensures hosts == if inserted then old(hosts) + {node} else old(hosts)
      ensures ShapeNow() == Insert(old(ShapeNow()), node)
    {
      if hostTree == null {
        hostTree := node;
        hosts := {node};
        inserted := true;
        SingleShape(node);
      } else {
        inserted := HostTreeInsert(hostTree, node);
        hosts := hostTree.Repr;
      }
    }

    /** That does not touch the trees of directories. */
    method AddApart(node: Hosts, ghost roots: set<TblEnt>) returns (inserted: bool)
      requires TreeOk() && node.Valid() && node.Repr == {node} && node !in hosts && RootsOk(roots, dirs)
      modifies this`hostTree, this`hosts, hosts`left, hosts`right, hosts`Repr
      ensures TreeOk() && inserted == !HasHost(old(hosts), node.hostname)
      ensures hosts == if inserted then old(hosts) + {node} else old(hosts)
      ensures ShapeNow() == Insert(old(ShapeNow()), node)
      ensures RootsOk(roots, dirs) && TableMap(roots) == old(TableMap(roots))
    {
      ghost var all, tables := dirs, TableMap(roots);
      inserted := AddToTree(node);
      assert RootsOk(roots, all);
      assert TableMap(roots) == tables;
    }

    /** Nor does it touch which host has which. */
    method AddBeside(node: Hosts, ghost known: set<Hosts>, ghost roots: set<TblEnt>) returns (inserted: bool)
      requires TreeOk() && node.Valid() && node.Repr == {node} && node !in hosts && RootsOk(roots, dirs)
      modifies this`hostTree, this`hosts, hosts`left, hosts`right, hosts`Repr
      ensures TreeOk() && inserted == !HasHost(old(hosts), node.hostname)
      ensures hosts == if inserted then old(hosts) + {node} else old(hosts)
      ensures ShapeNow() == Insert(old(ShapeNow()), node)
      ensures RootsOk(roots, dirs) && TableMap(roots) == old(TableMap(roots))
      ensures OwnerMap(known) == old(OwnerMap(known)) && RootsOf(known) == old(RootsOf(known))
      ensures OwnerMap(known + {node}) == old(OwnerMap(known + {node}))
      ensures RootsOf(known + {node}) == old(RootsOf(known + {node}))
    {
      ghost var owners, owners' := OwnerMap(known), OwnerMap(known + {node});
      inserted := AddApart(node, roots);
      assert OwnerMap(known) == owners;
      assert OwnerMap(known + {node}) == owners';
    }

    /** The tree of the node is that of another host, or empty. */
    method AddHostNode(node: Hosts) returns (inserted: bool)
      requires TreeOk() && node.Valid() && node.Repr == {node} && node !in hosts && TablesOk(hosts, dirs)
      requires node.dirtable != null ==> node.dirtable in RootsOf(hosts)
      modifies this`hostTree, this`hosts, hosts`left, hosts`right, hosts`Repr
      ensures TreeOk() && inserted == !HasHost(old(hosts), node.hostname)
      ensures hosts == if inserted then old(hosts) + {node} else old(hosts)
      ensures TablesOk(hosts, dirs) && RootsOf(hosts) == old(RootsOf(hosts))
      ensures ShapeNow() == Insert(old(ShapeNow()), node)
      ensures ViewOf() ==
        if inserted then old(ViewOf()).(owner := old(ViewOf()).owner[node := node.dirtable]) else old(ViewOf())
    {
      ghost var known, roots := hosts, RootsOf(hosts);
      RootsAddHost(known, node);
      OwnersAdd(known, node);
      inserted := AddBeside(node, known, roots);
    }

    /** Adds a host that shares the given tree, which is that of another host or empty. */
    method SaveHost(hostname: string, ipaddr: nat, dirtable: TblEnt?) returns (host: Hosts?)
      requires Valid() && (dirtable != null ==> dirtable in RootsOf(hosts))
      modifies this`hostTree, this`hosts, hosts`left, hosts`right, hosts`Repr
      ensures Valid()
      ensures host == null <==> HasHost(old(hosts), hostname)
      ensures host == null ==> hosts == old(hosts)
      ensures host != null ==> fresh(host) && hosts == old(hosts) + {host} && host.dirtable == dirtable
      ensures host != null ==> host.hostname == hostname && host.ipaddr == ipaddr
      ensures host != null ==> ShapeNow() == Insert(old(ShapeNow()), host)
      ensures host != null ==> ViewOf() == old(ViewOf()).(owner := old(ViewOf()).owner[host := dirtable])
    {
      var node := new Hosts(hostname, ipaddr, dirtable);
      var inserted := AddHostNode(node);
      host := if inserted then node else null;
    }

    /**
     The host of a name. A new name becomes a new host; it gets the tree of the host that has its
     address and comes first in the tree of hosts, and that tree may be empty. The failure for a
     name that is there already cannot happen.
     */
    method HostFor(name: string, ipaddr: nat) returns (host: Hosts)
      requires Valid()
      modifies this`hostTree, this`hosts, hosts`left, hosts`right, hosts`Repr
      ensures Valid() && host in hosts && fresh(hosts - old(hosts))
      ensures Picked(old(ShapeNow()), old(ViewOf()), name, ipaddr, host, host.dirtable)
      ensures ShapeNow() == ShapeAfter(old(ShapeNow()), old(ViewOf()), host)
      ensures ViewOf() == old(ViewOf()).(owner := old(ViewOf()).owner[host := host.dirtable])
    {
      ghost var v := ViewOf();
      var found := LookupHost(name, hostTree);
      if found != null {
        host := found;
        assert v.owner[host := host.dirtable] == v.owner;
      } else {
        var althost := FindHostByIp(ipaddr, hostTree);
        var dirtable := if althost == null then null else althost.dirtable;
        assert althost != null ==> althost in v.owner && v.owner[althost] == dirtable;
        var saved := SaveHost(name, ipaddr, dirtable);
        host := saved;
      }
    }

    /** The entry that a tree has got is one of the nodes. */
    ghost method Enlist(entry: TblEnt)
      requires TreeOk() && (ourHost != null ==> ourHost in hosts) && TablesOk(hosts, dirs + {entry})
      modifies this`dirs
      ensures Valid() && dirs == old(dirs) + {entry} && ShapeNow() == old(ShapeNow()) && ViewOf() == old(ViewOf())
    {
      ghost var known, grown := hosts, dirs + {entry};
      dirs := grown;
      assert TablesOk(known, grown);
    }

    /** A host without a tree gets one. */
    method PlantTree(host: Hosts, entry: TblEnt)
      requires Valid() && host in hosts && entry.Valid() && entry.Repr == {entry} && entry !in dirs
      requires host.dirtable == null
      modifies host`dirtable, this`dirs
      ensures Valid() && unchanged(this`ourHost, this`hosts) && ShapeNow() == old(ShapeNow())
        && dirs == old(dirs) + {entry} && host.dirtable == entry
      ensures ViewOf() == View(old(ViewOf()).owner[host := entry], old(ViewOf()).tables[entry := {entry}])
    {
      ghost var v := ViewOf();
      PlantRoot(host, entry, hosts, dirs);
      assert ViewOf() == View(v.owner[host := entry], v.tables[entry := {entry}]);
      Enlist(entry);
    }

    /** The tree of a host gets a further entry. */
    method GrowTree(host: Hosts, entry: TblEnt) returns (ok: bool)
      requires Valid() && host in hosts && entry.Valid() && entry.Repr == {entry} && entry !in dirs
      requires host.dirtable != null
      modifies host.dirtable.Repr, this`dirs
      ensures Valid() && unchanged(this`ourHost, this`hosts) && ShapeNow() == old(ShapeNow())
        && dirs == old(dirs) + {entry}
      ensures host.dirtable.Repr == Inserted(old(host.dirtable.Repr), entry)
      ensures ok <==> Agrees(old(host.dirtable.Repr), entry)
      ensures ViewOf() == old(ViewOf()).(tables := old(ViewOf()).tables[host.dirtable := host.dirtable.Repr])
    {
      ghost var v := ViewOf();
      ok := GrowRoot(host, entry, hosts, dirs);
      assert ViewOf() == v.(tables := v.tables[host.dirtable := host.dirtable.Repr]);
      Enlist(entry);
    }

    /** Puts the new entry into the tree of the host. */
    method InsertEntry(host: Hosts, entry: TblEnt) returns (ok: bool)
      requires Valid() && host in hosts && entry.Valid() && entry.Repr == {entry} && entry !in dirs
      modifies host`dirtable, NodesOf(host.dirtable), this`dirs
      ensures Valid() && unchanged(this`ourHost, this`hosts) && ShapeNow() == old(ShapeNow())
        && dirs == old(dirs) + {entry}
      ensures host.dirtable == if old(host.dirtable) == null then entry else old(host.dirtable)
      ensures host.dirtable.Repr == Inserted(old(NodesOf(host.dirtable)), entry)
      ensures ok <==> Agrees(old(NodesOf(host.dirtable)), entry)
      ensures ViewOf() == View(old(ViewOf()).owner[host := host.dirtable],
                               old(ViewOf()).tables[host.dirtable := host.dirtable.Repr])
    {
      if host.dirtable == null {
        PlantTree(host, entry);
        ok := true;
      } else {
        ghost var owner := ViewOf().owner;
        assert owner[host := host.dirtable] == owner;
        ok := GrowTree(host, entry);
      }
    }

    /** A host's tree is in the view with its nodes. */
    lemma Viewed(host: Hosts)
      requires host in hosts
      ensures NodesIn(ViewOf(), host.dirtable) == NodesOf(host.dirtable)
    {
      assert host.dirtable != null ==> host.dirtable in RootsOf(hosts);
    }

    /** Stores the global directory of a path in the tree of the host, unless the path is a dummy. */
    method StoreEntry(host: Hosts, dir: string, gblpath: string) returns (ok: bool, ghost entry: TblEnt?)
      requires Valid() && host in hosts
      modifies host`dirtable, NodesOf(host.dirtable), this`dirs
      ensures Valid() && unchanged(this`ourHost, this`hosts) && ShapeNow() == old(ShapeNow())
        && dirs == old(dirs) + (if entry == null then {} else {entry})
      ensures entry == null <==> IsDummy(dir)
      ensures entry != null ==> entry.directory == Strip(dir) && entry.gbldir == gblpath && fresh(entry)
      ensures ok == Accepts(old(ViewOf()), old(host.dirtable), entry)
      ensures ViewOf() == Saved(old(ViewOf()), host, old(host.dirtable), entry)
    {
      ghost var v, shape := ViewOf(), ShapeNow();
      Viewed(host);
      if IsDummy(dir) {
        ok, entry := true, null;
        assert v.owner[host := host.dirtable] == v.owner;
      } else {
        var direntry := new TblEnt(Strip(dir), gblpath);
        assert ShapeNow() == shape && ViewOf() == v;
        entry := direntry;
        ok := InsertEntry(host, direntry);
      }
    }

    /**
     Saves one record. A new host begins with the tree of the host that has its address and comes first
     in the tree of hosts, and shares it if it is not empty. The entry goes into the tree of the host
     alone; it is refused exactly when that has another global directory for the path.
     */
    method SaveTableEntry(hostname: string, ipaddr: nat, dir: string, gblpath: string)
      returns (ok: bool, ghost host: Hosts, ghost first: TblEnt?, ghost entry: TblEnt?)
      requires Valid() && ourHost != null
      modifies this`hostTree, this`hosts, this`dirs, hosts, dirs
      ensures Valid() && ourHost == old(ourHost) && fresh(hosts - old(hosts))
      ensures dirs == old(dirs) + (if entry == null then {} else {entry})
      ensures Picked(old(ShapeNow()), old(ViewOf()), NameFor(old(ourHost).hostname, hostname), ipaddr, host, first)
      ensures ShapeNow() == ShapeAfter(old(ShapeNow()), old(ViewOf()), host)
      ensures entry == null <==> IsDummy(dir)
      ensures entry != null ==>
        entry.directory == Strip(dir) && entry.gbldir == gblpath && fresh(entry) && entry !in old(ViewOf()).tables
      ensures ok == Accepts(old(ViewOf()), first, entry)
      ensures ViewOf() == Saved(old(ViewOf()), host, first, entry)
    {
      ghost var v := ViewOf();
      var name := if StringCaseCmp(hostname, LOCALHOST) == 0 then ourHost.hostname else hostname;
      var node := HostFor(name, ipaddr);
      assert unchanged(this`dirs, this`ourHost);
      host, first := node, node.dirtable;
      ok, entry := StoreEntry(node, dir, gblpath);
      SavedAfterOwner(v, host, first, entry);
    }

    // ----- loading the translation file

    lemma ShapeOrdered()
      requires TreeOk()
      ensures Ordered(ShapeNow()) && HostsIn(ShapeNow()) == hosts
    {
      ShapeIsOrdered(hostTree);
    }

    /** All hosts in the records so far, and their entries, are in the database, laid out as the records say. */
    ghost predicate Holds(ids: Ids, addr: nat, records: seq<Record>, n: nat)
      requires TreeOk() && ourHost != null && n <= |records|
      reads this`hostTree, this`ourHost, this`hosts, hosts, RootsOf(hosts)
    {
      Loaded(ShapeNow(), ViewOf(), ids, ourHost.hostname, addr, records, n)
    }

    /** Saves a complete record. */
    method TakeRecord(r: Record) returns (ok: bool, ghost host: Hosts, ghost first: TblEnt?, ghost entry: TblEnt?)
      requires Valid() && ourHost != null && r.Complete()
      modifies this`hostTree, this`hosts, this`dirs, hosts, dirs
      ensures Valid() && ourHost == old(ourHost)
        && hosts == old(hosts) + {host} && (host in old(hosts) || fresh(host))
      ensures dirs == old(dirs) + (if entry == null then {} else {entry}) && (entry != null ==> fresh(entry))
      ensures Takable(old(ShapeNow()), old(ViewOf()), old(ourHost).hostname, r, host, first, entry)
      ensures ShapeNow() == ShapeAfter(old(ShapeNow()), old(ViewOf()), host)
      ensures ViewOf() == Saved(old(ViewOf()), host, first, entry) && ok == Accepts(old(ViewOf()), first, entry)
    {
      ghost var s, v, our := ShapeNow(), ViewOf(), ourHost.hostname;
      WholeView();
      ok, host, first, entry := SaveTableEntry(r.host.value, r.ipaddr, r.directory, r.gblpath.value);
      WholeView();
      ShapeOrdered();
      TakableFrom(s, v, our, r, host, first, entry);
    }

    lemma WholeView()
      ensures Whole(ViewOf()) && ViewOf().owner.Keys == hosts
    {
    }

    /**
     Reads the translation file. That goes well exactly when the file can be read to its end and every
     record fits. `views` are the database before the first record and after each of them: from any one
     to any later one hosts and trees only grow.
     */
    method ReadDirTable(ghost addr: nat, file: TransFile) returns (ok: bool, ghost ids: Ids, ghost views: seq<View>)
      requires Valid() && ourHost != null && (file.File? ==> Holds(map[], addr, file.records, 0))
      modifies this`hostTree, this`hosts, this`dirs, hosts, dirs
      ensures Valid() && ourHost == old(ourHost) && fresh(hosts - old(hosts)) && fresh(dirs - old(dirs))
      ensures ok == Readable(file, ourHost.hostname, addr)
      ensures ok ==> Holds(ids, addr, file.records, |file.records|)
      ensures ok ==> Growing(views) && |views| == |file.records| + 1
                     && views[0] == old(ViewOf()) && views[|file.records|] == ViewOf()
    {
      ids, views := map[], [];
      if file.NoFile? {
        return false, ids, views;
      }
      ghost var s0, v0, our, n := ShapeNow(), ViewOf(), ourHost.hostname, |file.records|;
      ghost var moves, how;
      ok, moves, how := ReadRecords(file.records);
      if ok {
        PathGrows(moves, s0, v0, our, file.records, n, ShapeNow(), ViewOf());
        views := Views(moves, ViewOf());
        ids := PathLoads(moves, s0, v0, our, addr, file.records, n, ShapeNow(), ViewOf());
        ok := file.readable;
      } else {
        StoppedDoesNotFit(moves, s0, v0, our, addr, file.records, how, ShapeNow(), ViewOf());
      }
    }

    /** Goes on with the next record. */
    method TakeNext(ghost moves: seq<Move>, ghost s0: Shape, ghost v0: View, records: seq<Record>, n: nat)
      returns (ok: bool, ghost m: Move)
      requires Valid() && ourHost != null && |moves| == n < |records| && records[n].Complete()
      requires HasRead(Good, moves, s0, v0, ourHost.hostname, records, ShapeNow(), ViewOf())
      modifies this`hostTree, this`hosts, this`dirs, hosts, dirs
      ensures Valid() && ourHost == old(ourHost)
        && hosts == old(hosts) + {m.host} && (m.host in old(hosts) || fresh(m.host))
      ensures dirs == old(dirs) + (if m.entry == null then {} else {m.entry}) && (m.entry != null ==> fresh(m.entry))
      ensures ok ==> HasRead(Good, moves + [m], s0, v0, ourHost.hostname, records, ShapeNow(), ViewOf())
      ensures !ok ==> HasRead(Refused(m), moves, s0, v0, ourHost.hostname, records, ShapeNow(), ViewOf())
    {
      ghost var s, v := ShapeNow(), ViewOf();
      ghost var host, first, entry;
      ok, host, first, entry := TakeRecord(records[n]);
      m := Move(s, v, host, first, entry);
      if ok {
        PathGoesOn(moves, s0, v0, ourHost.hostname, records, n, m, ShapeNow(), ViewOf());
      } else {
        PathIsRefused(moves, s0, v0, ourHost.hostname, records, m, ShapeNow(), ViewOf());
      }
    }

    /** The loop over the records ends at the first one that is incomplete or refused. */
    method ReadRecords(records: seq<Record>) returns (ok: bool, ghost moves: seq<Move>, ghost how: Reading)
      requires Valid() && ourHost != null
      modifies this`hostTree, this`hosts, this`dirs, hosts, dirs
      ensures Valid() && ourHost == old(ourHost) && fresh(hosts - old(hosts)) && fresh(dirs - old(dirs))
      ensures ok == how.Good? && (ok ==> |moves| == |records|)
      ensures HasRead(how, moves, old(ShapeNow()), old(ViewOf()), ourHost.hostname, records, ShapeNow(), ViewOf())
    {
      ghost var s0, v0, our := ShapeNow(), ViewOf(), ourHost.hostname;
      moves, how := [], Good;
      var n := 0;
      while n < |records|
        invariant |moves| == n <= |records| && how == Good
        invariant Valid() && ourHost == old(ourHost) && fresh(hosts - old(hosts)) && fresh(dirs - old(dirs))
        invariant HasRead(Good, moves, s0, v0, our, records, ShapeNow(), ViewOf())
      {
        var r := records[n];
        if r.host.None? || r.ipaddr == 0 || r.gblpath.None? {
          how := Incomplete;
          assert HasRead(how, moves, s0, v0, our, records, ShapeNow(), ViewOf());
          return false, moves, how;
        }
        ghost var m;
        ok, m := TakeNext(moves, s0, v0, records, n);
        if !ok {
          return false, moves, Refused(m);
        }
        moves, n := moves + [m], n + 1;
      }
      ok := true;
    }

    /** Our own host comes first into the database. */
    method SeedOurHost(name: string, ipaddr: nat)
      requires Valid() && hosts == {}
      modifies this`hostTree, this`hosts, this`ourHost
      ensures Valid() && ourHost != null && fresh(hosts)
      ensures ourHost.hostname == name && ourHost.ipaddr == ipaddr
      ensures ShapeNow() == Node(Nil, ourHost, Nil) && ViewOf() == View(map[ourHost := null], map[])
    {
      var node := SaveHost(name, ipaddr, null);
      ourHost := node;
    }

    /** Builds the database from our own host and the translation file. */
    method Load(name: string, ipaddr: nat, file: TransFile) returns (ok: bool, ghost found: Ids)
      requires Valid() && hosts == {} && dirs == {}
      modifies this`hostTree, this`hosts, this`dirs, this`ourHost
      ensures Valid() && fresh(hosts) && fresh(dirs)
      ensures ourHost != null && ourHost.hostname == name && ourHost.ipaddr == ipaddr
      ensures ok == Readable(file, name, ipaddr)
      ensures ok ==> Holds(found, ipaddr, file.records, |file.records|)
    {
      SeedOurHost(name, ipaddr);
      if file.File? {
        LoadedAtFirst(ShapeNow(), ViewOf(), map[], ourHost, file.records);
      }
      ghost var views;
      ok, found, views := ReadDirTable(ipaddr, file);
    }

    /** The service knows its host and holds all records. */
    ghost predicate Started(env: Env)
      requires TreeOk()
      reads this`hostTree, this`ourHost, this`hosts, this`ids, hosts, RootsOf(hosts)
    {
      && ourHost != null && env.hostname.Some? && ourHost.hostname == Ours(env) && ourHost.ipaddr == env.ipaddr
      && ourHost in hosts && env.file.File? && Holds(ids, env.ipaddr, env.file.records, |env.file.records|)
    }

    /** The first call reads the translation file; when something fails, the service is broken for good. */
    method Initialize(env: Env) returns (ok: bool)
      requires Valid() && ourHost == null && hosts == {} && dirs == {} && !broken
      modifies this
      ensures Valid() && fresh(hosts) && fresh(dirs) && source == env
      ensures ok == !broken == Startable(env) && (ok ==> Started(env))
    {
      source := env;
      if !env.functable || env.hostname.None? || env.ipaddr == 0 {
        broken := true;
        return false;
      }
      ghost var found;
      ok, found := Load(Chop(env.hostname.value), env.ipaddr, env.file);
      if ok {
        Start(env, found);
      } else {
        broken := true;
      }
    }

    /** The service has been started. */
    ghost method Start(env: Env, found: Ids)
      requires Valid() && ourHost != null && env.hostname.Some?
      requires ourHost.hostname == Ours(env) && ourHost.ipaddr == env.ipaddr
      requires env.file.File? && Holds(found, env.ipaddr, env.file.records, |env.file.records|)
      modifies this`ids
      ensures Valid() && Started(env)
    {
      ids := found;
    }

    // ----- answers

    /** Between requests: nothing is known before the first one; a working service holds what that has found. */
    ghost predicate Usable()
      reads this, hosts, dirs, RootsOf(hosts)
    {
      && Valid()
      && (ourHost == null && !broken ==> hosts == {} && dirs == {})
      && (ourHost != null && !broken ==> Started(source))
    }

    /** The host that a request is about: ours if it names none. */
    function HostAsked(host: Option<string>): (r: Hosts?)
      requires Valid() && ourHost != null
      reads this, hosts, dirs, RootsOf(hosts)
    {
      if host.None? || host.value == "" then ourHost
      else LookupHost(if StringCaseCmp(host.value, LOCALHOST) == 0 then ourHost.hostname else host.value, hostTree)
    }

    /** The answer for a path, which is or is not a file of our host. */
    function Answer(path: string, host: Option<string>, isFile: bool): Reply
      requires Valid() && ourHost != null
      reads this, hosts, dirs, RootsOf(hosts)
    {
      var node := HostAsked(host);
      if node == null then Error(NoTranslation)
      else if node.ipaddr == ourHost.ipaddr && isFile then Found(Cut(path))
      else if node.ipaddr == ourHost.ipaddr && ourHost.dirtable == null then Error(NoLocalTranslation)
      else
        HostIsIn(host);
        var entry := DirTreeSearch(node.dirtable, path);
        if entry == null then Error(NoTranslation) else Found(Cut(entry.gbldir))
    }

    lemma HostIsIn(host: Option<string>)
      requires Valid() && ourHost != null && HostAsked(host) != null
      ensures HostAsked(host) in hosts
    {
    }

    /**
     A request. The first one initializes the service; once that has failed, every request fails.
     A working service is never changed by a request, and answers as it should.
     */
    method GtmEnvXlate(dir: Option<string>, host: Option<string>, cwd: Option<string>, isFile: string -> bool, env: Env)
      returns (r: Reply)
      requires Usable()
      modifies this
      ensures Usable() && (broken || ourHost != null)
      ensures old(broken) || old(ourHost) != null ==> unchanged(this)
      ensures !old(broken) && old(ourHost) == null ==> source == env && broken == !Startable(env)
      ensures broken ==> r == Error(if old(broken) then Broken else NotInitialized)
      ensures !broken ==> r == Response(source, dir, host, cwd, isFile)
    {
      if broken {
        return Error(Broken);
      }
      if ourHost == null {
        var ok := Initialize(env);
        if !ok {
          return Error(NotInitialized);
        }
      }
      var path := dir;
      if path.None? || path.value == "" {
        if cwd.None? {
          return Error(NoCurrentDirectory);
        }
        path := cwd;
      }
      var name := Strip(path.value);
      r := Answer(name, host, isFile(name));
      AnswerIsExpected(source, name, host, isFile(name));
    }

    // ----- the answers are the expected ones

    /** The host asked is the name asked, with the tree of its table. */
    lemma AskedIsDrawn(env: Env, host: Option<string>)
      requires Valid() && Started(env)
      ensures Asked(env, host) ==
        if HostAsked(host) == null then None
        else Some(KnownOf(HostAsked(host), ViewOf().owner, ids))
    {
      var our := ourHost.hostname;
      var name := if host.None? || host.value == "" then our else NameFor(our, host.value);
      ShapeOrdered();
      DrawnFind(ShapeNow(), ViewOf().owner, ids, name);
      LookFinds(ShapeNow(), ourHost, our);
    }

    /** The search in the tree of a host finds what the records say of the names with its table. */
    lemma SearchIsTold(env: Env, h: Hosts, path: string, g: string)
      requires Valid() && Started(env) && h in hosts && h.dirtable != null
      ensures IdOf(h.dirtable, ids).Some?
      ensures SomeTells(Final(env), Ours(env), env.file.records, IdOf(h.dirtable, ids).value, path, g)
        <==> DirTreeSearch(h.dirtable, path) != null && DirTreeSearch(h.dirtable, path).gbldir == g
    {
      var s, v := ShapeNow(), ViewOf();
      ShapeOrdered();
      OrderedNamesDiffer(s, v);
      Viewed(h);
      StoredIffRecorded(v, Ours(env), env.file.records, h, path, g);
      SearchFinds(h.dirtable, path, g);
      HasRecordIffTold(s, v, ids, Ours(env), env.file.records, h, path, g);
    }

    /** Every answer of a started service is the one that follows from the records. */
    lemma AnswerIsExpected(env: Env, path: string, host: Option<string>, isFile: bool)
      requires Valid() && Started(env)
      ensures Answer(path, host, isFile) == Expected(env, path, host, isFile)
    {
      var our, records := Ours(env), env.file.records;
      AskedIsDrawn(env, host);
      AskedIsDrawn(env, None);
      L.OwnTableIff(our, env.ipaddr, records, |records|);
      var node := HostAsked(host);
      if node != null {
        HostIsIn(host);
        if node.dirtable != null {
          SearchIsExpected(env, node, path);
        }
      }
    }

    lemma SearchIsExpected(env: Env, h: Hosts, path: string)
      requires Valid() && Started(env) && h in hosts && h.dirtable != null
      ensures IdOf(h.dirtable, ids).Some?
      ensures var records, table := env.file.records, IdOf(h.dirtable, ids).value;
        var g := Translation(Final(env), Ours(env), records, |records|, table, path);
        var entry := DirTreeSearch(h.dirtable, path);
        if g.None? then entry == null else entry != null && entry.gbldir == g.value
    {
      SearchIsTold(env, h, path, "");
      var records, table := env.file.records, IdOf(h.dirtable, ids).value;
      var i := TranslationIs(Final(env), Ours(env), records, |records|, table, path);
      var g := Translation(Final(env), Ours(env), records, |records|, table, path);
      if g.Some? {
        SearchIsTold(env, h, path, g.value);
      }
      var entry := DirTreeSearch(h.dirtable, path);
      if entry != null {
        SearchIsTold(env, h, path, entry.gbldir);
      }
    }
  }

  /**
   A path recorded under another name of our host is not found when no record names our host itself: the
   new name does not share the empty table of our host, and our host's empty table ends the request.
   */
  method AliasIsLost() returns (r: Reply)
    ensures r == Error(NoLocalTranslation)
  {
    var env := Env(true, Some("h"), 1, File([Record("/d", Some("alias"), 1, Some("/d/a.gld"))], true));
    var isFile: string -> bool := _ => false;
    AliasExpected(env, isFile);
    var service := new Translator();
    r := service.GtmEnvXlate(Some("/d"), Some("alias"), None, isFile, env);
  }
}
