/**
 The translation database as a value: which tree of directories each host has and which entries each
 tree has, and what saving a record does to it.
 */
module XlateView {
  import opened Options
  import opened XlateOrder
  import opened XlateDirTree
  import opened XlateHosts
  import opened XlateRecords

  /** The database as a value: the tree that each host has, and the nodes of each tree. */
  datatype View = View(owner: map<Hosts, TblEnt?>, tables: map<TblEnt, set<TblEnt>>)

  /** The nodes of a tree, which may be empty. */
  ghost function NodesIn(v: View, t: TblEnt?): set<TblEnt> {
    if t != null && t in v.tables then v.tables[t] else {}
  }

  ghost function EntriesOf(v: View, h: Hosts): set<TblEnt>
    requires h in v.owner
  {
    NodesIn(v, v.owner[h])
  }

  /** The trees that hosts have are known. */
  ghost predicate Whole(v: View) {
    forall h :: h in v.owner && v.owner[h] != null ==> v.owner[h] in v.tables
  }

  // ----- saving one record

  /** May the entry be stored in the tree? There is none when the record is for a dummy path. */
  ghost predicate Accepts(v: View, t: TblEnt?, entry: TblEnt?) {
    entry == null || Agrees(NodesIn(v, t), entry)
  }

  /** The tree with which the saving of a record for the host begins: its own, or that of another host or none. */
  ghost predicate MayBegin(v: View, host: Hosts, first: TblEnt?) {
    if host in v.owner then first == v.owner[host]
    else first == null || exists alt :: alt in v.owner && v.owner[alt] == first
  }

  /** The tree of the first host with the address, or none if there is no such host. */
  ghost function TreeAt(s: Shape, v: View, addr: nat): TblEnt? {
    var first := FirstHost(s, addr);
    if first != null && first in v.owner then v.owner[first] else null
  }

  /** The host for a name, known or new, and the tree with which it begins. */
  ghost predicate Picked(s: Shape, v: View, name: string, addr: nat, host: Hosts, first: TblEnt?) {
    var known := Look(s, name);
    if known != null then host == known && host in v.owner && first == v.owner[host]
    else host !in v.owner && host.hostname == name && host.ipaddr == addr && first == TreeAt(s, v, addr)
  }

  lemma PickedBegins(s: Shape, v: View, name: string, addr: nat, host: Hosts, first: TblEnt?)
    requires Picked(s, v, name, addr, host, first)
    ensures MayBegin(v, host, first)
  {
  }

  ghost function ShapeAfter(s: Shape, v: View, host: Hosts): Shape {
    if host in v.owner then s else Insert(s, host)
  }

  /** The tree of the host in the end. */
  ghost function RootAfter(first: TblEnt?, entry: TblEnt?): TblEnt? {
    if first == null then entry else first
  }

  ghost function Saved(v: View, host: Hosts, first: TblEnt?, entry: TblEnt?): View {
    var root := RootAfter(first, entry);
    View(v.owner[host := root], if entry == null then v.tables else v.tables[root := Inserted(NodesIn(v, first), entry)])
  }

  /** It makes no difference that the host has got the tree with which it begins beforehand. */
  lemma SavedAfterOwner(v: View, host: Hosts, first: TblEnt?, entry: TblEnt?)
    ensures var v' := v.(owner := v.owner[host := first]);
      Saved(v', host, first, entry) == Saved(v, host, first, entry) && Accepts(v', first, entry) == Accepts(v, first, entry)
  {
    assert v.owner[host := first][host := RootAfter(first, entry)] == v.owner[host := RootAfter(first, entry)];
  }

  ghost predicate Savable(v: View, host: Hosts, first: TblEnt?, entry: TblEnt?) {
    Whole(v) && MayBegin(v, host, first) && (entry != null ==> entry !in v.tables)
  }

  /** The entries of every tree after a record has been saved. */
  lemma EntriesAfter(v: View, host: Hosts, first: TblEnt?, entry: TblEnt?, h: Hosts)
    requires Savable(v, host, first, entry) && h in Saved(v, host, first, entry).owner
    ensures var v' := Saved(v, host, first, entry);
      EntriesOf(v', h) ==
        if entry != null && v'.owner[h] == RootAfter(first, entry) then Inserted(NodesIn(v, first), entry)
        else if h in v.owner && h != host then EntriesOf(v, h)
        else NodesIn(v, first)
  {
  }

  // ----- what later records keep

  /**
   Hosts stay, a tree once there stays the tree of its host, hosts with different trees do not come to
   share one, and no entry is lost.
   */
  ghost predicate Extends(v: View, v': View) {
    && (forall h :: h in v.owner ==> h in v'.owner && (v.owner[h] != null ==> v'.owner[h] == v.owner[h]))
    && (forall h, h' :: h in v.owner && h' in v.owner && v.owner[h] != v.owner[h'] ==> v'.owner[h] != v'.owner[h'])
    && (forall h :: h in v.owner ==> EntriesOf(v, h) <= EntriesOf(v', h))
  }

  lemma SavedExtends(v: View, host: Hosts, first: TblEnt?, entry: TblEnt?)
    requires Savable(v, host, first, entry)
    ensures Whole(Saved(v, host, first, entry)) && Extends(v, Saved(v, host, first, entry))
  {
    var v' := Saved(v, host, first, entry);
    forall h | h in v.owner
      ensures EntriesOf(v, h) <= EntriesOf(v', h)
    {
      EntriesAfter(v, host, first, entry, h);
    }
  }

  lemma ExtendsSelf(v: View)
    ensures Extends(v, v)
  {
  }

  lemma ExtendsTransitive(v: View, v': View, v'': View)
    requires Extends(v, v') && Extends(v', v'')
    ensures Extends(v, v'')
  {
    forall h | h in v.owner
      ensures EntriesOf(v, h) <= EntriesOf(v'', h)
    {
      assert EntriesOf(v, h) <= EntriesOf(v', h) <= EntriesOf(v'', h);
    }
  }

  /** From any of these databases to any later one hosts and trees only grow. */
  ghost predicate Growing(views: seq<View>) {
    views != [] && forall i, j {:trigger Extends(views[i], views[j])} :: 0 <= i <= j < |views| ==> Extends(views[i], views[j])
  }

  lemma GrowingOn(views: seq<View>, v: View)
    requires Growing(views) && Extends(views[|views| - 1], v)
    ensures Growing(views + [v])
  {
    ExtendsSelf(v);
    forall i | 0 <= i < |views|
      ensures Extends(views[i], v)
    {
      ExtendsTransitive(views[i], views[|views| - 1], v);
    }
  }

  /**
   A new host and the host whose address it has are given one tree, for good, exactly when that host
   has a tree by then.
   */
  lemma SharesIff(v: View, host: Hosts, alt: Hosts, entry: TblEnt?)
    requires host !in v.owner && alt in v.owner && Savable(v, host, v.owner[alt], entry)
    ensures var v' := Saved(v, host, v.owner[alt], entry);
      v'.owner[host] == v'.owner[alt] && v'.owner[host] != null <==> v.owner[alt] != null
  {
  }

  // ----- the entries and the records

  /** The host of this name has an entry with this global directory for the path, or the path is a dummy. */
  ghost predicate Recorded(v: View, name: string, dir: string, gblpath: string) {
    exists h :: h in v.owner && SameName(h.hostname, name)
      && (IsDummy(dir) || Stores(EntriesOf(v, h), Strip(dir), gblpath))
  }

  lemma RecordedStays(v: View, v': View, name: string, dir: string, gblpath: string)
    requires Extends(v, v') && Recorded(v, name, dir, gblpath)
    ensures Recorded(v', name, dir, gblpath)
  {
    var h :| h in v.owner && SameName(h.hostname, name)
      && (IsDummy(dir) || Stores(EntriesOf(v, h), Strip(dir), gblpath));
    assert h in v'.owner && EntriesOf(v, h) <= EntriesOf(v', h);
  }

  predicate IsFor(r: Record, our: string, host: Hosts) {
    r.host.Some? && SameName(host.hostname, r.Name(our))
  }

  /** A record for the host tells of the entry. */
  predicate Tells(r: Record, our: string, host: Hosts, e: TblEnt) {
    IsFor(r, our, host) && !IsDummy(r.directory) && e.directory == Strip(r.directory) && r.gblpath == Some(e.gbldir)
  }

  /** One of the first n records tells of the entry, for a host with this tree. */
  ghost predicate Told(v: View, our: string, records: seq<Record>, n: nat, t: TblEnt?, e: TblEnt)
    requires n <= |records|
  {
    exists j, host :: 0 <= j < n && host in v.owner && v.owner[host] == t && Tells(records[j], our, host, e)
  }

  ghost predicate AllTold(v: View, our: string, records: seq<Record>, n: nat)
    requires n <= |records|
  {
    forall h, e {:trigger Told(v, our, records, n, v.owner[h], e)} ::
      h in v.owner && e in EntriesOf(v, h) ==> Told(v, our, records, n, v.owner[h], e)
  }

  /** The record is complete and in the database. */
  ghost predicate Kept(v: View, our: string, r: Record) {
    r.Complete() && Recorded(v, r.Name(our), r.directory, r.gblpath.value)
  }

  ghost predicate AllRecorded(v: View, our: string, records: seq<Record>, n: nat)
    requires n <= |records|
  {
    forall j {:trigger Kept(v, our, records[j])} :: 0 <= j < n ==> Kept(v, our, records[j])
  }

  /** What is told stays told, for the tree that the entry is in. */
  lemma ToldStays(v: View, v': View, our: string, records: seq<Record>, n: nat, t: TblEnt, e: TblEnt)
    requires n < |records| && Extends(v, v') && Told(v, our, records, n, t, e)
    ensures Told(v', our, records, n + 1, t, e)
  {
    var j, host :| 0 <= j < n && host in v.owner && v.owner[host] == t && Tells(records[j], our, host, e);
    assert host in v'.owner && v'.owner[host] == t;
  }

  /** The next record has been saved for its host. */
  ghost predicate Takes(r: Record, our: string, host: Hosts, entry: TblEnt?) {
    && r.Complete() && IsFor(r, our, host)
    && (entry == null <==> IsDummy(r.directory))
    && (entry != null ==> Tells(r, our, host, entry))
  }

  lemma AllToldStep(v: View, our: string, records: seq<Record>, n: nat, host: Hosts, first: TblEnt?, entry: TblEnt?)
    requires n < |records| && Savable(v, host, first, entry) && Takes(records[n], our, host, entry)
    requires AllTold(v, our, records, n)
    ensures AllTold(Saved(v, host, first, entry), our, records, n + 1)
  {
    var v' := Saved(v, host, first, entry);
    SavedExtends(v, host, first, entry);
    forall h, e | h in v'.owner && e in EntriesOf(v', h)
      ensures Told(v', our, records, n + 1, v'.owner[h], e)
    {
      EntriesAfter(v, host, first, entry, h);
      if entry != null && e == entry && v'.owner[h] == v'.owner[host] {
        assert Tells(records[n], our, host, e);
      } else if e in NodesIn(v, first) && v'.owner[h] == first {
        var h' :| h' in v.owner && v.owner[h'] == first;
        assert e in EntriesOf(v, h') && Told(v, our, records, n, v.owner[h'], e);
        ToldStays(v, v', our, records, n, first, e);
      } else {
        assert e in EntriesOf(v, h) && Told(v, our, records, n, v.owner[h], e);
        ToldStays(v, v', our, records, n, v.owner[h], e);
      }
    }
  }

  lemma AllRecordedStep(v: View, our: string, records: seq<Record>, n: nat, host: Hosts, first: TblEnt?, entry: TblEnt?)
    requires n < |records| && Savable(v, host, first, entry) && Takes(records[n], our, host, entry)
    requires AllRecorded(v, our, records, n) && Accepts(v, first, entry)
    ensures AllRecorded(Saved(v, host, first, entry), our, records, n + 1)
  {
    var v' := Saved(v, host, first, entry);
    SavedExtends(v, host, first, entry);
    forall j | 0 <= j < n + 1
      ensures Kept(v', our, records[j])
    {
      var r := records[j];
      if j < n {
        assert Kept(v, our, r);
        RecordedStays(v, v', r.Name(our), r.directory, r.gblpath.value);
      } else {
        EntriesAfter(v, host, first, entry, host);
      }
    }
  }

  // ----- when a record is refused

  ghost predicate ConflictAt(v: View, our: string, r: Record, h: Hosts, r': Record, h': Hosts) {
    && h in v.owner && h' in v.owner && v.owner[h] == v.owner[h']
    && IsFor(r, our, h) && IsFor(r', our, h') && Clash(r, r')
  }

  /** Record n clashes with an earlier record for the same host or one that shares its tree. */
  ghost predicate Conflict(v: View, our: string, records: seq<Record>, n: nat)
    requires n < |records|
  {
    exists j, h, h' :: 0 <= j < n && h in v.owner && h' in v.owner && ConflictAt(v, our, records[j], h, records[n], h')
  }

  ghost predicate NamesDiffer(v: View) {
    forall h, h' :: h in v.owner && h' in v.owner && SameName(h.hostname, h'.hostname) ==> h == h'
  }

  /** The tree speaks against the entry exactly when the record clashes with one before. */
  lemma RefusedIff(v: View, our: string, records: seq<Record>, n: nat, host: Hosts, first: TblEnt?, entry: TblEnt?)
    requires n < |records| && Savable(v, host, first, entry) && Takes(records[n], our, host, entry)
    requires AllTold(v, our, records, n) && AllRecorded(v, our, records, n)
    requires NamesDiffer(Saved(v, host, first, entry))
    ensures !Accepts(v, first, entry) <==> Conflict(Saved(v, host, first, entry), our, records, n)
  {
    if !Accepts(v, first, entry) {
      RefusedClashes(v, our, records, n, host, first, entry);
    }
    if Conflict(Saved(v, host, first, entry), our, records, n) {
      ConflictRefuses(v, our, records, n, host, first, entry);
    }
  }

  lemma RefusedClashes(v: View, our: string, records: seq<Record>, n: nat, host: Hosts, first: TblEnt?, entry: TblEnt)
    requires n < |records| && Savable(v, host, first, entry) && Takes(records[n], our, host, entry)
    requires AllTold(v, our, records, n) && !Accepts(v, first, entry)
    ensures Conflict(Saved(v, host, first, entry), our, records, n)
  {
    var e :| e in NodesIn(v, first) && e.directory == entry.directory && e.gbldir != entry.gbldir;
    var alt :| alt in v.owner && v.owner[alt] == first;
    assert e in EntriesOf(v, alt) && Told(v, our, records, n, v.owner[alt], e);
    var j, h :| 0 <= j < n && h in v.owner && v.owner[h] == first && Tells(records[j], our, h, e);
    assert ConflictAt(Saved(v, host, first, entry), our, records[j], h, records[n], host);
  }

  lemma ConflictRefuses(v: View, our: string, records: seq<Record>, n: nat, host: Hosts, first: TblEnt?, entry: TblEnt?)
    requires n < |records| && Savable(v, host, first, entry) && Takes(records[n], our, host, entry)
    requires AllRecorded(v, our, records, n) && NamesDiffer(Saved(v, host, first, entry))
    requires Conflict(Saved(v, host, first, entry), our, records, n)
    ensures !Accepts(v, first, entry)
  {
    var v' := Saved(v, host, first, entry);
    var j, h, h' :| 0 <= j < n && h in v'.owner && h' in v'.owner && ConflictAt(v', our, records[j], h, records[n], h');
    var r := records[j];
    assert Kept(v, our, r);
    var known :| known in v.owner && SameName(known.hostname, r.Name(our))
      && Stores(EntriesOf(v, known), Strip(r.directory), r.gblpath.value);
    assert known in v'.owner && known == h && h' == host;
    assert v.owner[h] == first;
  }

  // ----- what the finished database holds

  /** One of the records gives the path this global directory, for a host with this tree. */
  ghost predicate HasRecord(v: View, our: string, records: seq<Record>, t: TblEnt?, d: string, g: string) {
    exists j, host :: 0 <= j < |records| && host in v.owner && v.owner[host] == t
      && IsFor(records[j], our, host) && records[j].Gives(d, g)
  }

  lemma StoredIsRecorded(v: View, our: string, records: seq<Record>, h: Hosts, d: string, g: string)
    requires AllTold(v, our, records, |records|) && h in v.owner && Stores(EntriesOf(v, h), d, g)
    ensures HasRecord(v, our, records, v.owner[h], d, g)
  {
    var e :| e in EntriesOf(v, h) && e.directory == d && e.gbldir == g;
    assert Told(v, our, records, |records|, v.owner[h], e);
    var j, host :| 0 <= j < |records| && host in v.owner && v.owner[host] == v.owner[h] && Tells(records[j], our, host, e);
    assert records[j].Gives(d, g);
  }

  lemma RecordedIsStored(v: View, our: string, records: seq<Record>, h: Hosts, d: string, g: string)
    requires AllRecorded(v, our, records, |records|) && NamesDiffer(v)
    requires h in v.owner && HasRecord(v, our, records, v.owner[h], d, g)
    ensures Stores(EntriesOf(v, h), d, g)
  {
    var j, host :| 0 <= j < |records| && host in v.owner && v.owner[host] == v.owner[h]
      && IsFor(records[j], our, host) && records[j].Gives(d, g);
    assert Kept(v, our, records[j]);
    var known :| known in v.owner && SameName(known.hostname, records[j].Name(our))
      && Stores(EntriesOf(v, known), d, g);
    assert known == host;
  }

  /** The tree of a host holds what the records say of the hosts that share it, and nothing else. */
  lemma StoredIffRecorded(v: View, our: string, records: seq<Record>, h: Hosts, d: string, g: string)
    requires AllTold(v, our, records, |records|) && AllRecorded(v, our, records, |records|)
    requires NamesDiffer(v) && h in v.owner
    ensures Stores(EntriesOf(v, h), d, g) <==> HasRecord(v, our, records, v.owner[h], d, g)
  {
    if Stores(EntriesOf(v, h), d, g) {
      StoredIsRecorded(v, our, records, h, d, g);
    } else if HasRecord(v, our, records, v.owner[h], d, g) {
      RecordedIsStored(v, our, records, h, d, g);
    }
  }
}
