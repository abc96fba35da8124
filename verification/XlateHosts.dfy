/** The binary tree of host names, which knows the address of every host and its tree of directories. */
module XlateHosts {
  import opened XlateOrder
  import opened XlateRecords
  import opened XlateDirTree

  /** The nodes of a tree of hosts, which may be empty. */
  ghost function HostsOf(t: Hosts?): set<Hosts>
    reads (if t == null then {} else {t})`Repr
  {
    if t == null then {} else t.Repr
  }

  /** The hosts go to the left of a name when it is less than theirs, and to the right when it is greater. */
  ghost predicate NamesLeft(name: string, hosts: set<Hosts>) {
    forall h :: h in hosts ==> StringCaseCmp(name, h.hostname) < 0
  }

  ghost predicate NamesRight(name: string, hosts: set<Hosts>) {
    forall h :: h in hosts ==> StringCaseCmp(name, h.hostname) > 0
  }

  /** A host. Its name and its address never change. */
  class Hosts {
    var left: Hosts?
    var right: Hosts?
    const hostname: string
    const ipaddr: nat
    var dirtable: TblEnt?
    ghost var Repr: set<Hosts>

    ghost predicate Valid()
      reads this`left, this`right, this`Repr, Repr`left, Repr`right, Repr`Repr
      ensures Valid() ==> this in Repr
      decreases Repr
    {
      && this in Repr
      && (left != null ==> left in Repr && this !in left.Repr && left.Repr <= Repr && left.Valid())
      && (right != null ==> right in Repr && this !in right.Repr && right.Repr <= Repr && right.Valid())
      && HostsOf(left) !! HostsOf(right)
      && Repr == {this} + HostsOf(left) + HostsOf(right)
      && NamesLeft(hostname, HostsOf(left))
      && NamesRight(hostname, HostsOf(right))
    }

    constructor (hostname: string, ipaddr: nat, dirtable: TblEnt?)
      ensures Valid() && Repr == {this} && left == null && right == null
      ensures this.hostname == hostname && this.ipaddr == ipaddr && this.dirtable == dirtable
    {
      left, right := null, null;
      this.hostname, this.ipaddr, this.dirtable := hostname, ipaddr, dirtable;
      Repr := {this};
    }
  }

  /** Some host has this name, whatever the case of its letters. */
  ghost predicate HasHost(hosts: set<Hosts>, name: string) {
    exists h :: h in hosts && SameName(h.hostname, name)
  }

  lemma SideOf(root: Hosts, name: string)
    requires root.Valid()
    ensures StringCaseCmp(root.hostname, name) < 0 ==>
      forall h :: h in root.Repr && SameName(h.hostname, name) ==> h in HostsOf(root.left)
    ensures StringCaseCmp(root.hostname, name) > 0 ==>
      forall h :: h in root.Repr && SameName(h.hostname, name) ==> h in HostsOf(root.right)
    ensures StringCaseCmp(root.hostname, name) == 0 ==>
      SameName(root.hostname, name) && forall h :: h in root.Repr && SameName(h.hostname, name) ==> h == root
  {
    StringCmpTotal(Fold(root.hostname), Fold(name));
    forall h | h in root.Repr && SameName(h.hostname, name)
      ensures StringCaseCmp(root.hostname, h.hostname) == StringCaseCmp(root.hostname, name)
    {
    }
  }

  /** No two hosts of a tree have the same name. */
  lemma {:induction false} OneHost(root: Hosts, h: Hosts, h': Hosts)
    requires root.Valid() && h in root.Repr && h' in root.Repr && SameName(h.hostname, h'.hostname)
    ensures h == h'
    decreases root.Repr
  {
    SideOf(root, h.hostname);
    if StringCaseCmp(root.hostname, h.hostname) < 0 {
      OneHost(root.left, h, h');
    } else if StringCaseCmp(root.hostname, h.hostname) > 0 {
      OneHost(root.right, h, h');
    }
  }

  // ----- the shape of a tree

  /** A tree of hosts as a value. */
  datatype Shape = Nil | Node(left: Shape, host: Hosts, right: Shape)

  ghost function ShapeOf(root: Hosts?): Shape
    requires root != null ==> root.Valid()
    reads (if root == null then {} else {root})`Repr
    reads (if root == null then {} else root.Repr)`left
    reads (if root == null then {} else root.Repr)`right
    reads (if root == null then {} else root.Repr)`Repr
    decreases HostsOf(root)
  {
    if root == null then Nil else Node(ShapeOf(root.left), root, ShapeOf(root.right))
  }

  lemma SingleShape(h: Hosts)
    requires h.Valid() && h.Repr == {h}
    ensures ShapeOf(h) == Node(Nil, h, Nil)
  {
    assert h.left == null && h.right == null;
  }

  ghost function HostsIn(s: Shape): set<Hosts> {
    match s
    case Nil => {}
    case Node(l, h, r) => {h} + HostsIn(l) + HostsIn(r)
  }

  ghost predicate Ordered(s: Shape) {
    match s
    case Nil => true
    case Node(l, h, r) => Ordered(l) && Ordered(r) && NamesLeft(h.hostname, HostsIn(l)) && NamesRight(h.hostname, HostsIn(r))
  }

  lemma {:induction false} ShapeIsOrdered(root: Hosts?)
    requires root != null ==> root.Valid()
    ensures HostsIn(ShapeOf(root)) == HostsOf(root) && Ordered(ShapeOf(root))
    decreases HostsOf(root)
  {
    if root != null {
      ShapeIsOrdered(root.left);
      ShapeIsOrdered(root.right);
    }
  }

  /** The host of a name. */
  ghost function Look(s: Shape, name: string): Hosts? {
    match s
    case Nil => null
    case Node(l, h, r) =>
      var direction := StringCaseCmp(h.hostname, name);
      if direction < 0 then Look(l, name) else if direction > 0 then Look(r, name) else h
  }

  /** The first host with an address, in preorder. */
  ghost function FirstHost(s: Shape, addr: nat): Hosts? {
    match s
    case Nil => null
    case Node(l, h, r) =>
      if h.ipaddr == addr then h
      else if FirstHost(l, addr) != null then FirstHost(l, addr)
      else FirstHost(r, addr)
  }

  ghost function Preorder(s: Shape): seq<Hosts> {
    match s
    case Nil => []
    case Node(l, h, r) => [h] + Preorder(l) + Preorder(r)
  }

  /** The i-th host of a sequence is the first in it that has its address. */
  ghost predicate FirstOfAddress(hosts: seq<Hosts>, i: nat)
    requires i < |hosts|
  {
    forall j :: 0 <= j < i ==> hosts[j].ipaddr != hosts[i].ipaddr
  }

  /** FirstHost gives the host that preorder meets first, and null exactly if no host has the address. */
  lemma {:induction false} FirstHostIsFirst(s: Shape, addr: nat) returns (i: nat)
    ensures if FirstHost(s, addr) == null then forall h :: h in Preorder(s) ==> h.ipaddr != addr
            else i < |Preorder(s)| && Preorder(s)[i] == FirstHost(s, addr) && Preorder(s)[i].ipaddr == addr
                 && FirstOfAddress(Preorder(s), i)
  {
    i := 0;
    match s
    case Nil =>
    case Node(l, h, r) =>
      if h.ipaddr != addr {
        i := FirstHostIsFirst(l, addr);
        if FirstHost(l, addr) != null {
          i := 1 + i;
        } else {
          i := FirstHostIsFirst(r, addr);
          i := 1 + |Preorder(l)| + i;
        }
      }
  }

  /** A new host goes below the hosts that are there; one whose name is there is not inserted. */
  ghost function Insert(s: Shape, entry: Hosts): Shape {
    match s
    case Nil => Node(Nil, entry, Nil)
    case Node(l, h, r) =>
      var direction := StringCaseCmp(h.hostname, entry.hostname);
      if direction < 0 then Node(Insert(l, entry), h, r)
      else if direction > 0 then Node(l, h, Insert(r, entry))
      else s
  }

  // ----- searches

  /** Finds a host by its name. */
  function LookupHost(name: string, root: Hosts?): (r: Hosts?)
    requires root != null ==> root.Valid()
    reads root, if root == null then {} else root.Repr
    ensures r == Look(ShapeOf(root), name)
    ensures r == null <==> !HasHost(HostsOf(root), name)
    ensures r != null ==> r in root.Repr && SameName(r.hostname, name)
    decreases HostsOf(root)
  {
    if root == null then null
    else
      SideOf(root, name);
      var direction := StringCaseCmp(root.hostname, name);
      if direction < 0 then LookupHost(name, root.left)
      else if direction > 0 then LookupHost(name, root.right)
      else root
  }

  /** Finds a host by its address: of several the one that comes first in preorder. */
  function FindHostByIp(addr: nat, root: Hosts?): (r: Hosts?)
    requires root != null ==> root.Valid()
    reads root, if root == null then {} else root.Repr
    ensures r == FirstHost(ShapeOf(root), addr)
    ensures r == null <==> forall h :: h in HostsOf(root) ==> h.ipaddr != addr
    ensures r != null ==> r in root.Repr && r.ipaddr == addr
    decreases HostsOf(root)
  {
    if root == null then null
    else if root.ipaddr == addr then root
    else
      var node := FindHostByIp(addr, root.left);
      if node != null then node else FindHostByIp(addr, root.right)
  }

  // ----- insertion

  /** Restores the representation of a node whose subtrees have changed. */
  ghost method Refresh(root: Hosts)
    requires root.left != null ==> root.left.Valid() && root !in root.left.Repr
    requires root.right != null ==> root.right.Valid() && root !in root.right.Repr
    requires HostsOf(root.left) !! HostsOf(root.right)
    requires NamesLeft(root.hostname, HostsOf(root.left)) && NamesRight(root.hostname, HostsOf(root.right))
    modifies root`Repr
    ensures root.Valid() && root.Repr == {root} + HostsOf(root.left) + HostsOf(root.right)
    ensures ShapeOf(root) == Node(old(ShapeOf(root.left)), root, old(ShapeOf(root.right)))
  {
    root.Repr := {root} + HostsOf(root.left) + HostsOf(root.right);
  }

  /** Adds a host to a tree. It fails, and changes nothing, exactly when the name is there already. */
  method HostTreeInsert(root: Hosts, entry: Hosts) returns (ok: bool)
    requires root.Valid() && entry.Valid() && entry.Repr == {entry} && entry !in root.Repr
    modifies root.Repr`left, root.Repr`right, root.Repr`Repr
    ensures root.Valid() && ok == !HasHost(old(root.Repr), entry.hostname)
    ensures root.Repr == if ok then old(root.Repr) + {entry} else old(root.Repr)
    ensures !ok ==> unchanged(old(root.Repr))
    ensures ShapeOf(root) == Insert(old(ShapeOf(root)), entry)
    decreases root.Repr, 1
  {
    SideOf(root, entry.hostname);
    var direction := StringCaseCmp(root.hostname, entry.hostname);
    if direction < 0 {
      if root.left == null {
        AttachLeft(root, entry);
        ok := true;
      } else {
        ok := InsertLeft(root, entry);
      }
    } else if direction > 0 {
      if root.right == null {
        AttachRight(root, entry);
        ok := true;
      } else {
        ok := InsertRight(root, entry);
      }
    } else {
      ok := false;
    }
  }

  /** Adds a host to a tree; a tree apart from it stays as it is. */
  method InsertBeside(root: Hosts, entry: Hosts, ghost other: Hosts?) returns (ok: bool)
    requires root.Valid() && entry.Valid() && entry.Repr == {entry} && entry !in root.Repr
    requires other != null ==> other.Valid() && other.Repr !! root.Repr
    modifies root.Repr`left, root.Repr`right, root.Repr`Repr
    ensures root.Valid() && ok == !HasHost(old(root.Repr), entry.hostname)
    ensures root.Repr == if ok then old(root.Repr) + {entry} else old(root.Repr)
    ensures !ok ==> unchanged(old(root.Repr))
    ensures ShapeOf(root) == Insert(old(ShapeOf(root)), entry)
    ensures other != null ==> other.Valid() && other.Repr == old(other.Repr) && ShapeOf(other) == old(ShapeOf(other))
    decreases root.Repr, 2
  {
    ok := HostTreeInsert(root, entry);
  }

  method AttachLeft(root: Hosts, entry: Hosts)
    requires root.Valid() && entry.Valid() && entry.Repr == {entry} && entry !in root.Repr
    requires StringCaseCmp(root.hostname, entry.hostname) < 0 && root.left == null
    modifies root`left, root`Repr
    ensures root.Valid() && root.Repr == old(root.Repr) + {entry}
    ensures ShapeOf(root) == Insert(old(ShapeOf(root)), entry)
  {
    root.left := entry;
    Refresh(root);
  }

  /** The left subtree has got the entry as a new node. */
  ghost method GrowLeft(root: Hosts, entry: Hosts, side: set<Hosts>, other: set<Hosts>)
    requires root.left != null && root.left.Valid() && root.left.Repr == side + {entry}
    requires (root.right != null ==> root.right.Valid()) && HostsOf(root.right) == other
    requires root !in side + other + {entry} && side !! other && entry !in other
    requires NamesLeft(root.hostname, side + {entry}) && NamesRight(root.hostname, other)
    modifies root`Repr
    ensures root.Valid() && root.Repr == {root} + side + other + {entry}
    ensures ShapeOf(root) == Node(old(ShapeOf(root.left)), root, old(ShapeOf(root.right)))
  {
    Refresh(root);
  }

  /** The entry belongs into the left subtree of the root. */
  method InsertLeft(root: Hosts, entry: Hosts) returns (ok: bool)
    requires root.Valid() && entry.Valid() && entry.Repr == {entry} && entry !in root.Repr
    requires StringCaseCmp(root.hostname, entry.hostname) < 0 && root.left != null
    modifies root.Repr`left, root.Repr`right, root.Repr`Repr
    ensures root.Valid() && ok == !HasHost(old(root.Repr), entry.hostname)
    ensures root.Repr == if ok then old(root.Repr) + {entry} else old(root.Repr)
    ensures !ok ==> unchanged(old(root.Repr))
    ensures ShapeOf(root) == Insert(old(ShapeOf(root)), entry)
    decreases root.Repr, 0
  {
    SideOf(root, entry.hostname);
    ghost var before, side, other := root.Repr, HostsOf(root.left), HostsOf(root.right);
    assert HasHost(before, entry.hostname) <==> HasHost(side, entry.hostname);
    assert before == {root} + side + other && side !! other && root !in side + other;
    ok := InsertBeside(root.left, entry, root.right);
    if ok {
      GrowLeft(root, entry, side, other);
      assert root.Repr == before + {entry};
    }
  }

  method AttachRight(root: Hosts, entry: Hosts)
    requires root.Valid() && entry.Valid() && entry.Repr == {entry} && entry !in root.Repr
    requires StringCaseCmp(root.hostname, entry.hostname) > 0 && root.right == null
    modifies root`right, root`Repr
    ensures root.Valid() && root.Repr == old(root.Repr) + {entry}
    ensures ShapeOf(root) == Insert(old(ShapeOf(root)), entry)
  {
    root.right := entry;
    Refresh(root);
  }

  /** The right subtree has got the entry as a new node. */
  ghost method GrowRight(root: Hosts, entry: Hosts, side: set<Hosts>, other: set<Hosts>)
    requires root.right != null && root.right.Valid() && root.right.Repr == side + {entry}
    requires (root.left != null ==> root.left.Valid()) && HostsOf(root.left) == other
    requires root !in side + other + {entry} && side !! other && entry !in other
    requires NamesRight(root.hostname, side + {entry}) && NamesLeft(root.hostname, other)
    modifies root`Repr
    ensures root.Valid() && root.Repr == {root} + side + other + {entry}
    ensures ShapeOf(root) == Node(old(ShapeOf(root.left)), root, old(ShapeOf(root.right)))
  {
    Refresh(root);
  }

  /** The entry belongs into the right subtree of the root. */
  method InsertRight(root: Hosts, entry: Hosts) returns (ok: bool)
    requires root.Valid() && entry.Valid() && entry.Repr == {entry} && entry !in root.Repr
    requires StringCaseCmp(root.hostname, entry.hostname) > 0 && root.right != null
    modifies root.Repr`left, root.Repr`right, root.Repr`Repr
    ensures root.Valid() && ok == !HasHost(old(root.Repr), entry.hostname)
    ensures root.Repr == if ok then old(root.Repr) + {entry} else old(root.Repr)
    ensures !ok ==> unchanged(old(root.Repr))
    ensures ShapeOf(root) == Insert(old(ShapeOf(root)), entry)
    decreases root.Repr, 0
  {
    SideOf(root, entry.hostname);
    ghost var before, side, other := root.Repr, HostsOf(root.right), HostsOf(root.left);
    assert HasHost(before, entry.hostname) <==> HasHost(side, entry.hostname);
    assert before == {root} + side + other && side !! other && root !in side + other;
    ok := InsertBeside(root.right, entry, root.left);
    if ok {
      GrowRight(root, entry, side, other);
      assert root.Repr == before + {entry};
    }
  }
}
