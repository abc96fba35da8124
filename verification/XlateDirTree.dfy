/** The binary tree of directories of a host, with the global directory of each. */
module XlateDirTree {
  import opened XlateOrder

  /** The nodes of a tree, which may be empty. */
  ghost function NodesOf(t: TblEnt?): set<TblEnt>
    reads t
  {
    if t == null then {} else t.Repr
  }

  /** The nodes go to the left of d when d is less than they are, and to the right when it is greater. */
  ghost predicate GoLeft(d: string, nodes: set<TblEnt>) {
    forall n :: n in nodes ==> StringCmp(d, n.directory) < 0
  }

  ghost predicate GoRight(d: string, nodes: set<TblEnt>) {
    forall n :: n in nodes ==> StringCmp(d, n.directory) > 0
  }

  /** An entry of the tree. Its directory and global directory never change; its subtrees do. */
  class TblEnt {
    var left: TblEnt?
    var right: TblEnt?
    const directory: string
    const gbldir: string
    ghost var Repr: set<TblEnt>

    ghost predicate Valid()
      reads this, Repr
      ensures Valid() ==> this in Repr
    {
      && this in Repr
      && (left != null ==> left in Repr && this !in left.Repr && left.Repr <= Repr && left.Valid())
      && (right != null ==> right in Repr && this !in right.Repr && right.Repr <= Repr && right.Valid())
      && NodesOf(left) !! NodesOf(right)
      && Repr == {this} + NodesOf(left) + NodesOf(right)
      && GoLeft(directory, NodesOf(left))
      && GoRight(directory, NodesOf(right))
    }

    constructor (directory: string, gbldir: string)
      ensures Valid() && Repr == {this} && left == null && right == null
      ensures this.directory == directory && this.gbldir == gbldir
    {
      left, right := null, null;
      this.directory, this.gbldir := directory, gbldir;
      Repr := {this};
    }
  }

  /** Some node is for directory d. */
  ghost predicate Has(nodes: set<TblEnt>, d: string) {
    exists n :: n in nodes && n.directory == d
  }

  /** Some node stores global directory g for directory d. */
  ghost predicate Stores(nodes: set<TblEnt>, d: string, g: string) {
    exists n :: n in nodes && n.directory == d && n.gbldir == g
  }

  /** The comparison with the root tells on which side of it a directory is to be found. */
  lemma SideOf(root: TblEnt, d: string)
    requires root.Valid()
    ensures StringCmp(root.directory, d) < 0 ==> forall n :: n in root.Repr && n.directory == d ==> n in NodesOf(root.left)
    ensures StringCmp(root.directory, d) > 0 ==> forall n :: n in root.Repr && n.directory == d ==> n in NodesOf(root.right)
    ensures StringCmp(root.directory, d) == 0 ==>
      d == root.directory && forall n :: n in root.Repr && n.directory == d ==> n == root
  {
    StringCmpTotal(root.directory, d);
  }

  /** A tree has at most one entry for a directory. */
  lemma {:induction false} OneEntry(root: TblEnt, n: TblEnt, n': TblEnt)
    requires root.Valid() && n in root.Repr && n' in root.Repr && n.directory == n'.directory
    ensures n == n'
    decreases root.Repr
  {
    SideOf(root, n.directory);
    if StringCmp(root.directory, n.directory) < 0 {
      OneEntry(root.left, n, n');
    } else if StringCmp(root.directory, n.directory) > 0 {
      OneEntry(root.right, n, n');
    }
  }

  /** Finds the entry of a directory, if the tree has one. */
  function DirTreeSearch(root: TblEnt?, directory: string): (r: TblEnt?)
    requires root != null ==> root.Valid()
    reads root, if root == null then {} else root.Repr
    ensures r == null <==> !Has(NodesOf(root), directory)
    ensures r != null ==> r in root.Repr && r.directory == directory
    decreases NodesOf(root)
  {
    if root == null then null
    else
      SideOf(root, directory);
      var direction := StringCmp(root.directory, directory);
      if direction < 0 then DirTreeSearch(root.left, directory)
      else if direction > 0 then DirTreeSearch(root.right, directory)
      else root
  }

  /** The searched tree stores g for the directory exactly when the search finds it there. */
  lemma SearchFinds(root: TblEnt?, d: string, g: string)
    requires root != null ==> root.Valid()
    ensures Stores(NodesOf(root), d, g) <==> DirTreeSearch(root, d) != null && DirTreeSearch(root, d).gbldir == g
  {
    if Stores(NodesOf(root), d, g) {
      var n :| n in NodesOf(root) && n.directory == d && n.gbldir == g;
      OneEntry(root, n, DirTreeSearch(root, d));
    }
  }

  /** Nothing in these nodes speaks against storing the entry. */
  ghost predicate Agrees(nodes: set<TblEnt>, entry: TblEnt) {
    forall n :: n in nodes && n.directory == entry.directory ==> n.gbldir == entry.gbldir
  }

  /** The nodes after an insertion: what is stored first for a directory stays. */
  ghost function Inserted(nodes: set<TblEnt>, entry: TblEnt): set<TblEnt> {
    if Has(nodes, entry.directory) then nodes else nodes + {entry}
  }

  /** Restores the representation of a node whose subtrees have changed. */
  ghost method Refresh(root: TblEnt)
    requires root.left != null ==> root.left.Valid() && root !in root.left.Repr
    requires root.right != null ==> root.right.Valid() && root !in root.right.Repr
    requires NodesOf(root.left) !! NodesOf(root.right)
    requires GoLeft(root.directory, NodesOf(root.left)) && GoRight(root.directory, NodesOf(root.right))
    modifies root`Repr
    ensures root.Valid() && root.Repr == {root} + NodesOf(root.left) + NodesOf(root.right)
  {
    root.Repr := {root} + NodesOf(root.left) + NodesOf(root.right);
  }

  /**
   Adds an entry to a tree. It fails exactly when the directory is there with another global directory,
   and whenever the directory is there the tree is left as it is.
   */
  method DirTreeInsert(root: TblEnt, entry: TblEnt) returns (ok: bool)
    requires root.Valid() && entry.Valid() && entry.Repr == {entry} && entry !in root.Repr
    modifies root.Repr
    ensures root.Valid() && root.Repr == Inserted(old(root.Repr), entry)
    ensures ok <==> Agrees(old(root.Repr), entry)
    ensures Has(old(root.Repr), entry.directory) ==> unchanged(old(root.Repr))
    decreases root.Repr, 1
  {
    var direction := StringCmp(root.directory, entry.directory);
    if direction < 0 {
      ok := InsertLeft(root, entry);
    } else if direction > 0 {
      ok := InsertRight(root, entry);
    } else {
      SideOf(root, entry.directory);
      StringCmpTotal(root.gbldir, entry.gbldir);
      ok := StringCmp(root.gbldir, entry.gbldir) == 0;
    }
  }

  /** Adds an entry to a tree; a tree apart from it stays as it is. */
  method InsertBeside(root: TblEnt, entry: TblEnt, ghost other: TblEnt?) returns (ok: bool)
    requires root.Valid() && entry.Valid() && entry.Repr == {entry} && entry !in root.Repr
    requires other != null ==> other.Valid() && other.Repr !! root.Repr
    modifies root.Repr
    ensures root.Valid() && root.Repr == Inserted(old(root.Repr), entry)
    ensures ok <==> Agrees(old(root.Repr), entry)
    ensures Has(old(root.Repr), entry.directory) ==> unchanged(old(root.Repr))
    ensures other != null ==> other.Valid() && other.Repr == old(other.Repr)
    decreases root.Repr, 2
  {
    ok := DirTreeInsert(root, entry);
  }

  method AttachLeft(root: TblEnt, entry: TblEnt)
    requires root.Valid() && entry.Valid() && entry.Repr == {entry} && entry !in root.Repr
    requires StringCmp(root.directory, entry.directory) < 0 && root.left == null
    modifies root`left, root`Repr
    ensures root.Valid() && root.Repr == old(root.Repr) + {entry}
  {
    root.left := entry;
    Refresh(root);
  }

  /** The left subtree has got the entry as a new node. */
  ghost method GrowLeft(root: TblEnt, entry: TblEnt, side: set<TblEnt>, other: set<TblEnt>)
    requires root.left != null && root.left.Valid() && root.left.Repr == side + {entry}
    requires (root.right != null ==> root.right.Valid()) && NodesOf(root.right) == other
    requires root !in side + other + {entry} && side !! other && entry !in other
    requires GoLeft(root.directory, side + {entry}) && GoRight(root.directory, other)
    modifies root`Repr
    ensures root.Valid() && root.Repr == {root} + side + other + {entry}
  {
    Refresh(root);
  }

  /** The entry belongs to the left of the root. */
  method InsertLeft(root: TblEnt, entry: TblEnt) returns (ok: bool)
    requires root.Valid() && entry.Valid() && entry.Repr == {entry} && entry !in root.Repr
    requires StringCmp(root.directory, entry.directory) < 0
    modifies root.Repr
    ensures root.Valid() && root.Repr == Inserted(old(root.Repr), entry)
    ensures ok <==> Agrees(old(root.Repr), entry)
    ensures Has(old(root.Repr), entry.directory) ==> unchanged(old(root.Repr))
    decreases root.Repr, 0
  {
    SideOf(root, entry.directory);
    ghost var before, side, other := root.Repr, NodesOf(root.left), NodesOf(root.right);
    assert Has(before, entry.directory) <==> Has(side, entry.directory);
    assert Agrees(before, entry) <==> Agrees(side, entry);
    assert before == {root} + side + other && side !! other && root !in side + other;
    if root.left == null {
      AttachLeft(root, entry);
      ok := true;
    } else {
      ok := InsertBeside(root.left, entry, root.right);
      if !Has(before, entry.directory) {
        GrowLeft(root, entry, side, other);
        assert root.Repr == before + {entry};
      }
    }
  }

  method AttachRight(root: TblEnt, entry: TblEnt)
    requires root.Valid() && entry.Valid() && entry.Repr == {entry} && entry !in root.Repr
    requires StringCmp(root.directory, entry.directory) > 0 && root.right == null
    modifies root`right, root`Repr
    ensures root.Valid() && root.Repr == old(root.Repr) + {entry}
  {
    root.right := entry;
    Refresh(root);
  }

  /** The right subtree has got the entry as a new node. */
  ghost method GrowRight(root: TblEnt, entry: TblEnt, side: set<TblEnt>, other: set<TblEnt>)
    requires root.right != null && root.right.Valid() && root.right.Repr == side + {entry}
    requires (root.left != null ==> root.left.Valid()) && NodesOf(root.left) == other
    requires root !in side + other + {entry} && side !! other && entry !in other
    requires GoRight(root.directory, side + {entry}) && GoLeft(root.directory, other)
    modifies root`Repr
    ensures root.Valid() && root.Repr == {root} + side + other + {entry}
  {
    Refresh(root);
  }

  /** The entry belongs to the right of the root. */
  method InsertRight(root: TblEnt, entry: TblEnt) returns (ok: bool)
    requires root.Valid() && entry.Valid() && entry.Repr == {entry} && entry !in root.Repr
    requires StringCmp(root.directory, entry.directory) > 0
    modifies root.Repr
    ensures root.Valid() && root.Repr == Inserted(old(root.Repr), entry)
    ensures ok <==> Agrees(old(root.Repr), entry)
    ensures Has(old(root.Repr), entry.directory) ==> unchanged(old(root.Repr))
    decreases root.Repr, 0
  {
    SideOf(root, entry.directory);
    ghost var before, side, other := root.Repr, NodesOf(root.right), NodesOf(root.left);
    assert Has(before, entry.directory) <==> Has(side, entry.directory);
    assert Agrees(before, entry) <==> Agrees(side, entry);
    assert before == {root} + side + other && side !! other && root !in side + other;
    if root.right == null {
      AttachRight(root, entry);
      ok := true;
    } else {
      ok := InsertBeside(root.right, entry, root.left);
      if !Has(before, entry.directory) {
        GrowRight(root, entry, side, other);
        assert root.Repr == before + {entry};
      }
    }
  }
}
