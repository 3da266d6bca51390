/**
 Directories and link counts: the bookkeeping of create, link and unlink with their rollbacks.
 An entry's number is 0 when its slot is empty; slots 0 and 1 of a directory are `.` and `..`.
 */
module Links {
  import opened Common

  const ROOT := 1
  const DIRSIZ := 14

  datatype Kind = Free | Dir | File | Device
  datatype Entry = Entry(inum: nat, name: string)
  datatype Node = Node(kind: Kind, nlink: nat, entries: seq<Entry>)

  type Tree = seq<Node>

  /** What `namecmp` looks at: the first DIRSIZ characters. */
  function Cut(name: string): (r: string) { if |name| <= DIRSIZ then name else name[..DIRSIZ] }

  /** Slot `k` of directory `d` names inode `i`. */
  predicate Names(t: Tree, d: nat, k: nat, i: nat) {
    d < |t| && t[d].kind == Dir && 2 <= k < |t[d].entries| && t[d].entries[k].inum == i && i != 0
  }

  /** The slots that name inode `i`. */
  ghost function Slots(t: Tree, i: nat): (r: set<(nat, nat)>) {
    set d, k | 0 <= d < |t| && 0 <= k < |t[d].entries| && Names(t, d, k, i) :: (d, k)
  }

  /** The slots of directory `d` that name directories. */
  ghost function SubDirs(t: Tree, d: nat): (r: set<nat>)
    requires d < |t|
  {
    set k | 0 <= k < |t[d].entries| && SubDir(t, d, k)
  }

  predicate SubDir(t: Tree, d: nat, k: nat) {
    d < |t| && 2 <= k < |t[d].entries| && t[d].entries[k].inum != 0 && t[d].entries[k].inum < |t|
    && t[t[d].entries[k].inum].kind == Dir
  }

  predicate Bare(t: Tree, d: nat) { d < |t| && forall k :: 2 <= k < |t[d].entries| ==> t[d].entries[k].inum == 0 }

  ghost predicate DistinctNames(e: seq<Entry>) {
    forall j, k :: 0 <= j < k < |e| && e[j].inum != 0 && e[k].inum != 0 ==> Cut(e[j].name) != Cut(e[k].name)
  }

  /** `.` and `..`: the directory itself, and the one that names it (the root, for the root). */
  ghost predicate Dotted(t: Tree, i: nat)
    requires i < |t|
  {
    && |t[i].entries| >= 2 && t[i].entries[0] == Entry(i, ".") && t[i].entries[1].name == ".." && i != 0
    && 0 < t[i].entries[1].inum < |t|
    && (i == ROOT ==> t[i].entries[1].inum == ROOT)
    && (forall s :: s in Slots(t, i) ==> t[i].entries[1].inum == s.0)
  }

  /**
   The link counts.  A file's is the number of its names and of calls of `link` in progress for it; a
   directory's counts its one name (none for the root, which counts one anyway) and the directories
   named in it.  A directory without a name is bare.
   */
  ghost predicate NodeOk(t: Tree, pending: map<nat, nat>, i: nat)
    requires i < |t|
  {
    && i in pending
    && match t[i].kind
       case Free => Slots(t, i) == {} && t[i].entries == [] && pending[i] == 0
       case Dir => |Slots(t, i)| <= 1 && (i == ROOT ==> Slots(t, i) == {})
       && (i != ROOT && Slots(t, i) == {} ==> Bare(t, i)) && pending[i] == 0
                   && t[i].nlink == |Slots(t, i)| + (if i == ROOT then 1 else 0) + |SubDirs(t, i)|
                   && DistinctNames(t[i].entries) && Dotted(t, i)
       case _ => t[i].nlink == |Slots(t, i)| + pending[i] && t[i].entries == []
  }

  ghost predicate Linked(t: Tree, pending: map<nat, nat>) {
    && ROOT < |t| && t[ROOT].kind == Dir
    && (forall i {:trigger t[i]} :: 0 <= i < |t| ==> NodeOk(t, pending, i))
    && (forall d: nat, k: nat, i: nat {:trigger Names(t, d, k, i)} :: Names(t, d, k, i) ==> i < |t|)
  }

  predicate KeyLinks(u: int) { true }

  ghost predicate LinkedOk(t: Tree, pending: map<nat, nat>) {
    ROOT < |t| && forall u {:trigger KeyLinks(u)} :: KeyLinks(u) ==> Linked(t, pending)
  }

  // ---- One entry at a time ----

  /** Entry `k` of directory `d` becomes `e`; `k` may be the first slot past the end. */
  function Put(t: Tree, d: nat, k: nat, e: Entry): (r: Tree)
    requires d < |t| && k <= |t[d].entries|
  {
    t[d := t[d].(entries := if k < |t[d].entries| then t[d].entries[k := e] else t[d].entries + [e])]
  }

  lemma PutNames(t: Tree, d: nat, k: nat, e: Entry, d2: nat, k2: nat, i: nat)
    requires d < |t| && t[d].kind == Dir && 2 <= k <= |t[d].entries|
    ensures Names(Put(t, d, k, e), d2, k2, i) <==> if d2 == d && k2 == k then e.inum == i != 0 else Names(t, d2, k2, i)
  {
  }

  lemma PutSlots(t: Tree, d: nat, k: nat, e: Entry, i: nat)
    requires d < |t| && t[d].kind == Dir && 2 <= k <= |t[d].entries|
    ensures Slots(Put(t, d, k, e), i) == if e.inum == i != 0 then Slots(t, i) + {(d, k)} else Slots(t, i) - {(d, k)}
  {
    var t' := Put(t, d, k, e);
    forall d2: nat, k2: nat
      ensures (d2, k2) in Slots(t', i) <==> if d2 == d && k2 == k then e.inum == i != 0 else (d2, k2) in Slots(t, i) {
      PutNames(t, d, k, e, d2, k2, i);
    }
  }

  lemma PutSubDirs(t: Tree, d: nat, k: nat, e: Entry, x: nat)
    requires d < |t| && 2 <= k <= |t[d].entries| && x < |t|
    ensures var t' := Put(t, d, k, e);
            SubDirs(t', x) == if x != d then SubDirs(t, x)
              else if e.inum != 0 && e.inum < |t| && t[e.inum].kind == Dir then SubDirs(t, x) + {k}
              else SubDirs(t, x) - {k}
  {
    var t' := Put(t, d, k, e);
    forall j: nat
      ensures SubDir(t', x, j) <==>
          if x == d && j == k then e.inum != 0 && e.inum < |t| && t[e.inum].kind == Dir else SubDir(t, x, j) {
    }
  }

  /** Slot `k` of `d` is empty, or the first one past the end. */
  predicate Vacant(t: Tree, d: nat, k: nat) {
    d < |t| && t[d].kind == Dir && 2 <= k <= |t[d].entries| && (k < |t[d].entries| ==> t[d].entries[k].inum == 0)
  }

  predicate Absent(e: seq<Entry>, name: string) {
    forall k :: 0 <= k < |e| && e[k].inum != 0 ==> Cut(e[k].name) != Cut(name)
  }

  /** A directory that has a name, or is the root. */
  ghost predicate Rooted(t: Tree, d: nat) { d == ROOT || Slots(t, d) != {} }

  lemma PutDistinct(e: seq<Entry>, k: nat, x: Entry)
    requires DistinctNames(e) && k <= |e| && (k < |e| ==> e[k].inum == 0) && (x.inum != 0 ==> Absent(e, x.name))
    ensures DistinctNames(if k < |e| then e[k := x] else e + [x])
  {
  }

  // ---- link, and the file half of create ----

  lemma NodeAt(t: Tree, pending: map<nat, nat>, x: nat)
    requires LinkedOk(t, pending) && x < |t|
    ensures NodeOk(t, pending, x)
  {
    assert KeyLinks(0);
    assert t[x] == t[x];
  }

  lemma Seal(t: Tree, pending: map<nat, nat>)
    requires ROOT < |t| && t[ROOT].kind == Dir && (forall i :: 0 <= i < |t| ==> NodeOk(t, pending, i))
    requires forall d: nat, k: nat, i: nat :: Names(t, d, k, i) ==> i < |t|
    ensures LinkedOk(t, pending)
  {
  }

  lemma NamesBelow(t: Tree, pending: map<nat, nat>, d: nat, k: nat, i: nat)
    requires LinkedOk(t, pending) && Names(t, d, k, i)
    ensures i < |t| && t[i].kind != Free && (d, k) in Slots(t, i)
  {
    assert KeyLinks(0);
    NodeAt(t, pending, i);
    assert (d, k) in Slots(t, i);
  }

  lemma RootIsDir(t: Tree, pending: map<nat, nat>)
    requires LinkedOk(t, pending)
    ensures t[ROOT].kind == Dir
  {
    assert KeyLinks(0);
  }

  /** A node that does not change, named by the same slots, naming the same directories. */
  lemma NodeSame(t: Tree, pending: map<nat, nat>, t': Tree, pending': map<nat, nat>, x: nat)
    requires x < |t| == |t'| && NodeOk(t, pending, x) && t'[x] == t[x] && x in pending' && pending'[x] == pending[x]
    requires Slots(t', x) == Slots(t, x) && SubDirs(t', x) == SubDirs(t, x)
    ensures NodeOk(t', pending', x)
  {
  }

  /** A directory with other entries but the same name and the same directories in it. */
  lemma DirSame(t: Tree, pending: map<nat, nat>, t': Tree, pending': map<nat, nat>, x: nat)
    requires x < |t| == |t'| && NodeOk(t, pending, x) && t[x].kind == Dir && t'[x] == t[x].(entries := t'[x].entries)
    requires x in pending' && pending'[x] == pending[x] && Slots(t', x) == Slots(t, x)
             && SubDirs(t', x) == SubDirs(t, x)
    requires DistinctNames(t'[x].entries) && (Rooted(t, x) || Bare(t', x))
    requires |t'[x].entries| >= 2 && t'[x].entries[0] == t[x].entries[0] && t'[x].entries[1] == t[x].entries[1]
    ensures NodeOk(t', pending', x)
  {
  }

  /** A file with another count of names and calls in progress. */
  lemma FileSame(t': Tree, pending': map<nat, nat>, x: nat)
    requires x < |t'| && (t'[x].kind == File || t'[x].kind == Device) && t'[x].entries == []
    requires x in pending' && t'[x].nlink == |Slots(t', x)| + pending'[x]
    ensures NodeOk(t', pending', x)
  {
  }

  /** What one more name in `d` is to the counts of each inode. */
  lemma Named(t: Tree, d: nat, k: nat, e: Entry, t': Tree, x: nat)
    requires Vacant(t, d, k) && x < |t| && e.inum != 0 && e.inum < |t| && t' == Put(t, d, k, e)
    ensures |t'| == |t| && Slots(t', x) == (if x == e.inum then Slots(t, x) + {(d, k)} else Slots(t, x))
    ensures |Slots(t', x)| == |Slots(t, x)| + (if x == e.inum then 1 else 0)
    ensures SubDirs(t', x) == (if x == d && t[e.inum].kind == Dir then SubDirs(t, x) + {k} else SubDirs(t, x))
    ensures |SubDirs(t', x)| == |SubDirs(t, x)| + (if x == d && t[e.inum].kind == Dir then 1 else 0)
    ensures x != d ==> t'[x] == t[x]
  {
    VacantSlot(t, d, k, x);
    PutSlots(t, d, k, e, x);
    PutSubDirs(t, d, k, e, x);
  }

  lemma NameFileNode(t: Tree, pending: map<nat, nat>, d: nat, k: nat, e: Entry, t': Tree, pending': map<nat, nat>,
                     x: nat)
    requires x < |t| && NodeOk(t, pending, x) && Vacant(t, d, k) && Absent(t[d].entries, e.name) && Rooted(t, d)
    requires e.inum < |t| && e.inum != 0 && (t[e.inum].kind == File || t[e.inum].kind == Device) && e.inum in pending
             && pending[e.inum] > 0
    requires t' == Put(t, d, k, e) && pending' == pending[e.inum := pending[e.inum] - 1]
    ensures NodeOk(t', pending', x)
  {
    Named(t, d, k, e, t', x);
    if x == d {
      PutDistinct(t[d].entries, k, e);
      DirSame(t, pending, t', pending', x);
    } else if x == e.inum {
      FileSame(t', pending', x);
    } else {
      NodeSame(t, pending, t', pending', x);
    }
  }

  lemma VacantSlot(t: Tree, d: nat, k: nat, x: nat)
    requires Vacant(t, d, k) && x < |t|
    ensures (d, k) !in Slots(t, x) && Slots(t, x) - {(d, k)} == Slots(t, x) && k !in SubDirs(t, d)
            && SubDirs(t, d) - {k} == SubDirs(t, d)
  {
  }

  /** A file with a name still to come gets it. */
  lemma NameFile(t: Tree, pending: map<nat, nat>, d: nat, k: nat, e: Entry, t': Tree, pending': map<nat, nat>)
    requires LinkedOk(t, pending) && Vacant(t, d, k) && Absent(t[d].entries, e.name) && Rooted(t, d)
    requires e.inum < |t| && e.inum != 0 && (t[e.inum].kind == File || t[e.inum].kind == Device) && e.inum in pending
             && pending[e.inum] > 0
    requires t' == Put(t, d, k, e) && pending' == pending[e.inum := pending[e.inum] - 1]
    ensures LinkedOk(t', pending')
  {
    RootIsDir(t, pending);
    forall x | 0 <= x < |t'| ensures NodeOk(t', pending', x) {
      NodeAt(t, pending, x);
      NameFileNode(t, pending, d, k, e, t', pending', x);
    }
    forall d2: nat, k2: nat, x: nat | Names(t', d2, k2, x) ensures x < |t'| {
      PutNames(t, d, k, e, d2, k2, x);
      if d2 != d || k2 != k {
        NamesBelow(t, pending, d2, k2, x);
      }
    }
    Seal(t', pending');
  }

  // ---- Counts ----

  /** Two trees in which the same slots name the same inodes, and directories are the same. */
  ghost predicate SameShape(t: Tree, t': Tree) {
    && |t'| == |t| && (forall x :: 0 <= x < |t| ==> (t'[x].kind == Dir <==> t[x].kind == Dir))
    && (forall x {:trigger t'[x]} :: 0 <= x < |t| && t[x].kind == Dir ==> t'[x].entries == t[x].entries)
    && (forall x {:trigger t'[x]} :: 0 <= x < |t| && t[x].kind != Dir ==> t[x].entries == [] && t'[x].entries == [])
  }

  lemma ShapeSlots(t: Tree, t': Tree, x: nat)
    requires SameShape(t, t') && x < |t|
    ensures Slots(t', x) == Slots(t, x) && SubDirs(t', x) == SubDirs(t, x) && (Bare(t', x) <==> Bare(t, x))
  {
    forall d: nat, k: nat ensures Names(t', d, k, x) <==> Names(t, d, k, x) {
    }
    forall k: nat ensures SubDir(t', x, k) <==> SubDir(t, x, k) {
    }
  }

  lemma FilesBare(t: Tree, pending: map<nat, nat>)
    requires LinkedOk(t, pending)
    ensures forall x :: 0 <= x < |t| && t[x].kind != Dir ==> t[x].entries == []
  {
    forall x | 0 <= x < |t| ensures t[x].kind != Dir ==> t[x].entries == [] {
      NodeAt(t, pending, x);
    }
  }

  /** A node that is not a directory gets another kind or count that suits its names. */
  lemma Recount(t: Tree, pending: map<nat, nat>, i: nat, n: Node, t': Tree, pending': map<nat, nat>)
    requires LinkedOk(t, pending) && i < |t| && t[i].kind != Dir && n.kind != Dir && n.entries == [] && t' == t[i := n]
    requires i in pending' && pending' == pending[i := pending'[i]]
    requires n.kind == Free ==> Slots(t, i) == {} && pending'[i] == 0
    requires n.kind != Free ==> n.nlink == |Slots(t, i)| + pending'[i]
    ensures LinkedOk(t', pending')
  {
    RootIsDir(t, pending);
    FilesBare(t, pending);
    forall x | 0 <= x < |t'| ensures NodeOk(t', pending', x) {
      NodeAt(t, pending, x);
      ShapeSlots(t, t', x);
      if x != i {
        NodeSame(t, pending, t', pending', x);
      }
    }
    forall d: nat, k: nat, x: nat | Names(t', d, k, x) ensures x < |t'| {
      assert Names(t, d, k, x);
      NamesBelow(t, pending, d, k, x);
    }
    Seal(t', pending');
  }

  // ---- unlink ----

  lemma Unname(t: Tree, d: nat, k: nat, i: nat, x: nat, t1: Tree)
    requires Names(t, d, k, i) && i < |t| && x < |t| && t1 == Put(t, d, k, Entry(0, ""))
    ensures Slots(t1, x) == if x == i then Slots(t, x) - {(d, k)} else Slots(t, x)
    ensures SubDirs(t1, x) == if x == d && t[i].kind == Dir then SubDirs(t, x) - {k} else SubDirs(t, x)
    ensures (d, k) in Slots(t, i) && (t[i].kind == Dir ==> k in SubDirs(t, d))
  {
    PutSlots(t, d, k, Entry(0, ""), x);
    PutSubDirs(t, d, k, Entry(0, ""), x);
    assert (d, k) in Slots(t, i);
    assert x != i ==> (d, k) !in Slots(t, x);
    assert SubDir(t, d, k) <==> t[i].kind == Dir;
  }

  lemma ClearDistinct(e: seq<Entry>, k: nat)
    requires DistinctNames(e) && k < |e|
    ensures DistinctNames(e[k := Entry(0, "")])
  {
  }

  /** A file loses a name. */
  lemma UnlinkFile(t: Tree, pending: map<nat, nat>, d: nat, k: nat, i: nat, t': Tree)
    requires LinkedOk(t, pending) && Names(t, d, k, i) && i < |t| && t[i].kind != Dir && t[i].nlink > 0
    requires t' == Put(t, d, k, Entry(0, ""))[i := t[i].(nlink := t[i].nlink - 1)]
    ensures LinkedOk(t', pending)
  {
    RootIsDir(t, pending);
    FilesBare(t, pending);
    NamesBelow(t, pending, d, k, i);
    var t1 := Put(t, d, k, Entry(0, ""));
    forall x | 0 <= x < |t'| ensures NodeOk(t', pending, x) {
      UnlinkFileNode(t, pending, d, k, i, t1, t', x);
    }
    forall d2: nat, k2: nat, x: nat | Names(t', d2, k2, x) ensures x < |t'| {
      assert Names(t, d2, k2, x);
      NamesBelow(t, pending, d2, k2, x);
    }
    Seal(t', pending);
  }

  lemma UnlinkFileNode(t: Tree, pending: map<nat, nat>, d: nat, k: nat, i: nat, t1: Tree, t': Tree, x: nat)
    requires LinkedOk(t, pending) && Names(t, d, k, i) && i < |t| && t[i].kind != Dir && t[i].kind != Free
             && t[i].nlink > 0 && x < |t|
    requires forall y :: 0 <= y < |t| && t[y].kind != Dir ==> t[y].entries == []
    requires t1 == Put(t, d, k, Entry(0, "")) && t' == t1[i := t[i].(nlink := t[i].nlink - 1)]
    ensures NodeOk(t', pending, x)
  {
    NodeAt(t, pending, x);
    Unname(t, d, k, i, x, t1);
    ShapeSlots(t1, t', x);
    if x == d {
      ClearDistinct(t[d].entries, k);
      DirSame(t, pending, t', pending, x);
    } else if x != i {
      NodeSame(t, pending, t', pending, x);
    }
  }

  // ---- mkdir and rmdir ----

  /** A fresh directory holding only `.` and `..`, before it has its name. */
  function NewDir(i: nat, d: nat): (r: Node) { Node(Dir, 1, [Entry(i, "."), Entry(d, "..")]) }

  lemma Blank(t: Tree, i: nat, d: nat, t1: Tree, x: nat)
    requires i < |t| && t[i].kind == Free && t[i].entries == [] && Slots(t, i) == {} && t1 == t[i := NewDir(i, d)]
             && x < |t|
    requires forall y :: 0 <= y < |t| && t[y].kind != Dir ==> t[y].entries == []
    ensures Slots(t1, x) == Slots(t, x) && SubDirs(t1, x) == SubDirs(t, x)
  {
    forall d2: nat, k: nat ensures Names(t1, d2, k, x) <==> Names(t, d2, k, x) {
    }
    forall k: nat ensures SubDir(t1, x, k) <==> SubDir(t, x, k) {
      NotNamed(t, x, k, i);
    }
  }

  lemma NotNamed(t: Tree, d: nat, k: nat, i: nat)
    requires Slots(t, i) == {}
    ensures !Names(t, d, k, i)
  {
    assert Names(t, d, k, i) ==> (d, k) in Slots(t, i);
  }

  /** A directory whose name and entries add up. */
  lemma DirOk(t: Tree, pending: map<nat, nat>, x: nat)
    requires x < |t| && t[x].kind == Dir && x in pending && pending[x] == 0 && |Slots(t, x)| <= 1
    requires (x == ROOT ==> Slots(t, x) == {}) && (Rooted(t, x) || Bare(t, x)) && DistinctNames(t[x].entries)
             && Dotted(t, x)
    requires t[x].nlink == |Slots(t, x)| + (if x == ROOT then 1 else 0) + |SubDirs(t, x)|
    ensures NodeOk(t, pending, x)
  {
  }

  ghost predicate Making(t: Tree, d: nat, k: nat, i: nat, name: string, t1: Tree, t2: Tree, t': Tree) {
    && Vacant(t, d, k) && Absent(t[d].entries, name) && i != 0 && i < |t| && t[i].kind == Free
    && t1 == t[i := NewDir(i, d)] && t2 == Put(t1, d, k, Entry(i, name))
    && t' == t2[d := t2[d].(nlink := t[d].nlink + 1)]
  }

  /** What a new directory is to the counts of each inode. */
  lemma Made(t: Tree, pending: map<nat, nat>, d: nat, k: nat, i: nat, name: string, t1: Tree, t2: Tree, t': Tree,
             x: nat)
    requires LinkedOk(t, pending) && Making(t, d, k, i, name, t1, t2, t') && x < |t|
    ensures |t'| == |t| && Slots(t', x) == (if x == i then {(d, k)} else Slots(t, x))
    ensures |SubDirs(t', x)| == (if x == d then |SubDirs(t, x)| + 1 else |SubDirs(t, x)|)
            && (x != d ==> SubDirs(t', x) == SubDirs(t, x))
    ensures SubDirs(t, i) == {} && i in pending && pending[i] == 0
  {
    NodeAt(t, pending, i);
    FilesBare(t, pending);
    Blank(t, i, d, t1, x);
    assert Vacant(t1, d, k);
    Named(t1, d, k, Entry(i, name), t2, x);
    ShapeSlots(t2, t', x);
  }

  lemma MakeDirNode(t: Tree, pending: map<nat, nat>, d: nat, k: nat, i: nat, name: string, t1: Tree, t2: Tree, t': Tree,
                    x: nat)
    requires LinkedOk(t, pending) && Making(t, d, k, i, name, t1, t2, t') && Rooted(t, d) && x < |t|
    ensures NodeOk(t', pending, x)
  {
    RootIsDir(t, pending);
    NodeAt(t, pending, x);
    Made(t, pending, d, k, i, name, t1, t2, t', x);
    if x == i {
      DirOk(t', pending, x);
    } else if x == d {
      PutDistinct(t[d].entries, k, Entry(i, name));
      DirOk(t', pending, x);
    } else {
      NodeSame(t, pending, t', pending, x);
    }
  }

  /** A new directory is named in `d`, and `d` counts it. */
  lemma MakeDir(t: Tree, pending: map<nat, nat>, d: nat, k: nat, i: nat, name: string, t1: Tree, t2: Tree, t': Tree)
    requires LinkedOk(t, pending) && Making(t, d, k, i, name, t1, t2, t') && Rooted(t, d)
    ensures LinkedOk(t', pending)
  {
    RootIsDir(t, pending);
    forall x | 0 <= x < |t'| ensures NodeOk(t', pending, x) {
      MakeDirNode(t, pending, d, k, i, name, t1, t2, t', x);
    }
    forall d2: nat, k2: nat, x: nat | Names(t', d2, k2, x) ensures x < |t'| {
      if d2 != i && (d2 != d || k2 != k) {
        assert Names(t, d2, k2, x);
        NamesBelow(t, pending, d2, k2, x);
      }
    }
    Seal(t', pending);
  }

  /** A directory that names nothing loses its name, and `d` stops counting it. */
  lemma UnlinkDirNode(t: Tree, pending: map<nat, nat>, d: nat, k: nat, i: nat, t1: Tree, t2: Tree, t': Tree, x: nat)
    requires LinkedOk(t, pending) && Names(t, d, k, i) && i < |t| && t[i].kind == Dir && Bare(t, i) && i != d
             && t[d].nlink > 0 && t[i].nlink > 0
    requires t1 == Put(t, d, k, Entry(0, "")) && t2 == t1[d := t1[d].(nlink := t[d].nlink - 1)]
             && t' == t2[i := t[i].(nlink := t[i].nlink - 1)]
    requires x < |t| && (forall y :: 0 <= y < |t| && t[y].kind != Dir ==> t[y].entries == [])
    ensures NodeOk(t', pending, x)
  {
    NodeAt(t, pending, x);
    Unname(t, d, k, i, x, t1);
    ShapeSlots(t1, t', x);
    if x == d {
      ClearDistinct(t[d].entries, k);
      DirOk(t', pending, x);
    } else if x == i {
      DirOk(t', pending, x);
    } else {
      NodeSame(t, pending, t', pending, x);
    }
  }

  /** A named directory and the one it is named in count it. */
  lemma Counted(t: Tree, pending: map<nat, nat>, d: nat, k: nat, i: nat)
    requires LinkedOk(t, pending) && Names(t, d, k, i)
    ensures i < |t| && t[i].kind != Free && t[i].nlink > 0 && (t[i].kind == Dir ==> t[d].nlink > 0 && i != ROOT)
  {
    NamesBelow(t, pending, d, k, i);
    NodeAt(t, pending, i);
    NodeAt(t, pending, d);
    assert t[i].kind == Dir ==> k in SubDirs(t, d);
  }

  lemma UnlinkDir(t: Tree, pending: map<nat, nat>, d: nat, k: nat, i: nat, t1: Tree, t2: Tree, t': Tree)
    requires LinkedOk(t, pending) && Names(t, d, k, i) && i < |t| && t[i].kind == Dir && Bare(t, i) && i != d
             && t[d].nlink > 0 && t[i].nlink > 0
    requires t1 == Put(t, d, k, Entry(0, "")) && t2 == t1[d := t1[d].(nlink := t[d].nlink - 1)]
             && t' == t2[i := t[i].(nlink := t[i].nlink - 1)]
    ensures LinkedOk(t', pending)
  {
    RootIsDir(t, pending);
    FilesBare(t, pending);
    forall x | 0 <= x < |t'| ensures NodeOk(t', pending, x) {
      UnlinkDirNode(t, pending, d, k, i, t1, t2, t', x);
    }
    forall d2: nat, k2: nat, x: nat | Names(t', d2, k2, x) ensures x < |t'| {
      assert Names(t, d2, k2, x);
      NamesBelow(t, pending, d2, k2, x);
    }
    Seal(t', pending);
  }

  // ---- The last iput ----

  /** A directory that names nothing goes: no count moves. */
  lemma Emptied(t: Tree, i: nat, t': Tree, x: nat)
    requires i < |t| && x < |t| && t[i].kind == Dir && Bare(t, i) && Slots(t, i) == {}
             && t' == t[i := Node(Free, 0, [])]
    requires forall y :: 0 <= y < |t| && t[y].kind != Dir ==> t[y].entries == []
    ensures Slots(t', x) == Slots(t, x) && SubDirs(t', x) == SubDirs(t, x)
  {
    forall d2: nat, k: nat ensures Names(t', d2, k, x) <==> Names(t, d2, k, x) {
    }
    forall k: nat ensures SubDir(t', x, k) <==> SubDir(t, x, k) {
      NotNamed(t, x, k, i);
    }
  }

  /** Exactly the inodes without a link have no name and no call in progress; a directory then names nothing. */
  lemma Unlinked(t: Tree, pending: map<nat, nat>, i: nat)
    requires LinkedOk(t, pending) && i < |t| && t[i].kind != Free
    ensures t[i].kind == Dir ==> (t[i].nlink == 0 <==> !Rooted(t, i))
    ensures t[i].kind != Dir ==> (t[i].nlink == 0 <==> Slots(t, i) == {} && i in pending && pending[i] == 0)
    ensures t[i].nlink == 0 ==> i != ROOT && Slots(t, i) == {} && Bare(t, i) && SubDirs(t, i) == {}
  {
    RootIsDir(t, pending);
    NodeAt(t, pending, i);
    NodeAt(t, pending, ROOT);
    assert Bare(t, i) ==> SubDirs(t, i) == {};
  }

  /** An inode without a link is freed. */
  lemma Reaped(t: Tree, pending: map<nat, nat>, i: nat, t': Tree)
    requires LinkedOk(t, pending) && i < |t| && t[i].kind != Free && t[i].nlink == 0 && t' == t[i := Node(Free, 0, [])]
    ensures LinkedOk(t', pending)
  {
    RootIsDir(t, pending);
    FilesBare(t, pending);
    Unlinked(t, pending, i);
    NodeAt(t, pending, i);
    if t[i].kind == Dir {
      forall x | 0 <= x < |t'| ensures NodeOk(t', pending, x) {
        NodeAt(t, pending, x);
        Emptied(t, i, t', x);
        if x != i {
          NodeSame(t, pending, t', pending, x);
        }
      }
      forall d: nat, k: nat, x: nat | Names(t', d, k, x) ensures x < |t'| {
        assert Names(t, d, k, x);
        NamesBelow(t, pending, d, k, x);
      }
      Seal(t', pending);
    } else {
      Recount(t, pending, i, Node(Free, 0, []), t', pending);
    }
  }

  // ---- Entries in a directory that is already unlinked ----

  /** Once `create` or `link` puts an entry in a directory without links, the bookkeeping is broken. */
  lemma NamedTooLate(t: Tree, pending: map<nat, nat>, d: nat, k: nat, e: Entry, t': Tree, pending': map<nat, nat>)
    requires LinkedOk(t, pending) && Vacant(t, d, k) && t[d].nlink == 0 && e.inum != 0 && e.inum < |t|
             && t[e.inum].kind != Dir
    requires t' == Put(t, d, k, e)
    ensures !LinkedOk(t', pending')
  {
    Unlinked(t, pending, d);
    Named(t, d, k, e, t', d);
    assert t'[d].entries[k].inum != 0;
    if LinkedOk(t', pending') {
      NodeAt(t', pending', d);
    }
  }

  /** Naming a file keeps the counts if and only if the directory still has a link. */
  lemma NameFileIff(t: Tree, pending: map<nat, nat>, d: nat, k: nat, e: Entry, t': Tree, pending': map<nat, nat>)
    requires LinkedOk(t, pending) && Vacant(t, d, k) && Absent(t[d].entries, e.name)
    requires e.inum < |t| && e.inum != 0 && (t[e.inum].kind == File || t[e.inum].kind == Device) && e.inum in pending
             && pending[e.inum] > 0
    requires t' == Put(t, d, k, e) && pending' == pending[e.inum := pending[e.inum] - 1]
    ensures LinkedOk(t', pending') <==> t[d].nlink > 0
  {
    Unlinked(t, pending, d);
    if t[d].nlink > 0 {
      NameFile(t, pending, d, k, e, t', pending');
    } else {
      NamedTooLate(t, pending, d, k, e, t', pending');
    }
  }

  /** So does making a directory. */
  lemma MakeDirIff(t: Tree, pending: map<nat, nat>, d: nat, k: nat, i: nat, name: string, t1: Tree, t2: Tree, t': Tree)
    requires LinkedOk(t, pending) && Making(t, d, k, i, name, t1, t2, t')
    ensures LinkedOk(t', pending) <==> t[d].nlink > 0
  {
    Unlinked(t, pending, d);
    if t[d].nlink > 0 {
      MakeDir(t, pending, d, k, i, name, t1, t2, t');
    } else {
      Made(t, pending, d, k, i, name, t1, t2, t', d);
      assert t'[d].entries[k].inum != 0;
      if LinkedOk(t', pending) {
        NodeAt(t', pending, d);
      }
    }
  }

  /** What then goes wrong: the directory is freed, and one of the file's links is named nowhere. */
  lemma Orphaned(t: Tree, pending: map<nat, nat>, d: nat, k: nat, e: Entry, t1: Tree, t': Tree)
    requires LinkedOk(t, pending) && Vacant(t, d, k) && t[d].nlink == 0 && e.inum != 0 && e.inum < |t|
    requires (t[e.inum].kind == File || t[e.inum].kind == Device) && e.inum in pending && pending[e.inum] > 0
    requires t1 == Put(t, d, k, e) && t' == t1[d := Node(Free, 0, [])]
    ensures t'[e.inum].nlink == |Slots(t', e.inum)| + (pending[e.inum] - 1) + 1
  {
    Unlinked(t, pending, d);
    FilesBare(t, pending);
    NodeAt(t, pending, e.inum);
    forall d2: nat, k2: nat ensures Names(t', d2, k2, e.inum) <==> Names(t, d2, k2, e.inum) {
    }
    assert Slots(t', e.inum) == Slots(t, e.inum);
  }

  // ---- Looking up ----

  /** The inode that `name` stands for in a directory with entries `e`. */
  ghost predicate Means(e: seq<Entry>, name: string, i: nat) {
    exists k :: 0 <= k < |e| && e[k].inum == i && i != 0 && Cut(e[k].name) == Cut(name)
  }

  /** A name stands for at most one inode. */
  lemma OneMeaning(e: seq<Entry>, name: string, i: nat, j: nat)
    requires DistinctNames(e) && Means(e, name, i) && Means(e, name, j)
    ensures i == j
  {
  }

  /** A new entry gives its name a meaning, and changes that of no other. */
  lemma PutMeans(e: seq<Entry>, k: nat, x: Entry, name: string, i: nat)
    requires k <= |e| && (k < |e| ==> e[k].inum == 0) && x.inum != 0 && Absent(e, x.name)
    ensures Means(if k < |e| then e[k := x] else e + [x], name, i) <==>
              if Cut(name) == Cut(x.name) then i == x.inum else Means(e, name, i)
  {
    var e' := if k < |e| then e[k := x] else e + [x];
    assert e'[k] == x && forall j :: 0 <= j < |e| && j != k ==> e'[j] == e[j];
    if Means(e, name, i) {
      var j :| 0 <= j < |e| && e[j].inum == i && i != 0 && Cut(e[j].name) == Cut(name);
      assert e'[j] == e[j];
    }
  }

  lemma PutMeansAll(e: seq<Entry>, k: nat, x: Entry, e': seq<Entry>)
    requires k <= |e| && (k < |e| ==> e[k].inum == 0) && x.inum != 0 && Absent(e, x.name)
    requires e' == if k < |e| then e[k := x] else e + [x]
    ensures forall other, j ::
              Means(e', other, j) <==> if Cut(other) == Cut(x.name) then j == x.inum else Means(e, other, j)
  {
    forall other, j
      ensures Means(e', other, j) <==> if Cut(other) == Cut(x.name) then j == x.inum else Means(e, other, j) {
      PutMeans(e, k, x, other, j);
    }
  }

  /** Clearing an entry takes its name's meaning away, and changes that of no other. */
  lemma ClearMeans(e: seq<Entry>, k: nat, name: string, i: nat)
    requires DistinctNames(e) && k < |e| && e[k].inum != 0
    ensures Means(e[k := Entry(0, "")], name, i) <==> Cut(name) != Cut(e[k].name) && Means(e, name, i)
  {
    var e' := e[k := Entry(0, "")];
    if Means(e, name, i) && Cut(name) != Cut(e[k].name) {
      var j :| 0 <= j < |e| && e[j].inum == i && i != 0 && Cut(e[j].name) == Cut(name);
      assert e'[j] == e[j];
    }
  }

  /** The first empty slot of a directory comes after `.` and `..`. */
  lemma AfterDots(t: Tree, pending: map<nat, nat>, d: nat, k: nat)
    requires LinkedOk(t, pending) && d < |t| && t[d].kind == Dir && k <= |t[d].entries|
             && (k < |t[d].entries| ==> t[d].entries[k].inum == 0)
    ensures Vacant(t, d, k)
  {
    NodeAt(t, pending, d);
  }

  lemma CutAbsent(e: seq<Entry>, name: string)
    requires Absent(e, name)
    ensures Absent(e, Cut(name))
  {
  }

  lemma DirNotZero(t: Tree, pending: map<nat, nat>, d: nat)
    requires LinkedOk(t, pending) && d < |t| && t[d].kind == Dir
    ensures d != 0
  {
    NodeAt(t, pending, d);
  }

  /** What `dirlookup` finds is an inode, and the only one the name stands for. */
  lemma NodeSlot(t: Tree, pending: map<nat, nat>, d: nat, k: nat, name: string)
    requires LinkedOk(t, pending) && d < |t| && t[d].kind == Dir && k < |t[d].entries|
    requires t[d].entries[k].inum != 0 && Cut(t[d].entries[k].name) == Cut(name)
    ensures t[d].entries[k].inum < |t| && forall i: nat :: Means(t[d].entries, name, i) <==> i == t[d].entries[k].inum
  {
    NodeAt(t, pending, d);
    if k >= 2 {
      NamesBelow(t, pending, d, k, t[d].entries[k].inum);
    }
  }

  lemma FirstDot(t: Tree, i: nat, t1: Tree)
    requires i < |t| && t[i] == Node(Dir, 1, []) && t1 == Put(t, i, 0, Entry(i, Cut(".")))
    ensures t1 == t[i := Node(Dir, 1, [Entry(i, ".")])] && Absent(t1[i].entries, "..")
  {
    assert Cut(".") == "." && Cut("..") == "..";
    assert [] + [Entry(i, ".")] == [Entry(i, ".")];
  }

  lemma SecondDot(t: Tree, i: nat, d: nat, t1: Tree, t2: Tree)
    requires i < |t| && t1 == t[i := Node(Dir, 1, [Entry(i, ".")])] && t2 == Put(t1, i, 1, Entry(d, Cut("..")))
    ensures t2 == t[i := NewDir(i, d)]
  {
    assert [Entry(i, ".")] + [Entry(d, "..")] == [Entry(i, "."), Entry(d, "..")];
  }

  /** An inode taken and given back. */
  lemma Returned(t: Tree, pending: map<nat, nat>, i: nat, t1: Tree, t': Tree)
    requires LinkedOk(t, pending) && i < |t| && t[i].kind == Free && |t1| == |t|
             && (forall x :: 0 <= x < |t| && x != i ==> t1[x] == t[x])
    requires t' == t1[i := Node(Free, 0, [])]
    ensures t' == t[i := Node(Free, 0, [])] && LinkedOk(t', pending)
  {
    NodeAt(t, pending, i);
    Recount(t, pending, i, Node(Free, 0, []), t', pending);
  }

  /** Slot `k` of `d` holds `name`, and `unlink` may take it. */
  predicate Removable(t: Tree, d: nat, k: nat, name: string) {
    && d < |t| && k < |t[d].entries| && Cut(t[d].entries[k].name) == Cut(name) && Names(t, d, k, t[d].entries[k].inum)
    && var i := t[d].entries[k].inum;
       i < |t| && t[i].nlink > 0 && (t[i].kind == Dir ==> Bare(t, i) && t[d].nlink > 0)
  }

  /** The tree after `unlink`. */
  function Without(t: Tree, d: nat, k: nat, name: string): (r: Tree)
    requires Removable(t, d, k, name)
  {
    var i := t[d].entries[k].inum;
    var t1 := Put(t, d, k, Entry(0, ""));
    var t2 := if t[i].kind == Dir then t1[d := t1[d].(nlink := t[d].nlink - 1)] else t1;
    t2[i := t2[i].(nlink := t[i].nlink - 1)]
  }

  /**
   Since `t`, directory `d` has lost the name of inode `i`: the name stands for nothing, every other name of
   `d` for what it did; `i` has one link less, and so has `d` exactly if `i` is a directory; everything else
   is as it was.
   */
  ghost predicate Unnamed(t: Tree, t': Tree, d: nat, name: string, i: nat) {
    && |t'| == |t| && d < |t| && i < |t| && i != d && t[i].nlink > 0 && Means(t[d].entries, name, i)
    && (forall j :: !Means(t'[d].entries, name, j))
    && (forall other, j :: Cut(other) != Cut(name) ==>
        (Means(t'[d].entries, other, j) <==> Means(t[d].entries, other, j)))
    && t'[i] == t[i].(nlink := t[i].nlink - 1)
    && t'[d] == t[d].(nlink := t'[d].nlink, entries := t'[d].entries) && |t'[d].entries| == |t[d].entries|
    && t'[d].nlink == t[d].nlink - (if t[i].kind == Dir then 1 else 0)
    && (forall x {:trigger t'[x]} :: 0 <= x < |t| && x != d && x != i ==> t'[x] == t[x])
  }

  lemma WithoutIs(t: Tree, pending: map<nat, nat>, d: nat, k: nat, name: string, t': Tree)
    requires LinkedOk(t, pending) && Removable(t, d, k, name) && t' == Without(t, d, k, name)
    ensures Unnamed(t, t', d, name, t[d].entries[k].inum)
  {
    var i := t[d].entries[k].inum;
    NodeAt(t, pending, d);
    assert i != d;
    assert t'[d].entries == t[d].entries[k := Entry(0, "")];
    forall other, j
      ensures Means(t'[d].entries, other, j) <==> Cut(other) != Cut(name) && Means(t[d].entries, other, j) {
      ClearMeans(t[d].entries, k, other, j);
    }
  }

  lemma Removed(t: Tree, pending: map<nat, nat>, d: nat, k: nat, name: string, t': Tree)
    requires LinkedOk(t, pending) && Removable(t, d, k, name) && t' == Without(t, d, k, name)
    ensures LinkedOk(t', pending)
  {
    var i := t[d].entries[k].inum;
    var t1 := Put(t, d, k, Entry(0, ""));
    if t[i].kind == Dir {
      UnlinkDir(t, pending, d, k, i, t1, t1[d := t1[d].(nlink := t[d].nlink - 1)], t');
    } else {
      UnlinkFile(t, pending, d, k, i, t');
    }
  }

  /** `.` and `..` are never removable. */
  lemma DotsStay(t: Tree, pending: map<nat, nat>, d: nat, name: string)
    requires LinkedOk(t, pending) && d < |t| && t[d].kind == Dir && (Cut(name) == Cut(".") || Cut(name) == Cut(".."))
    ensures forall k :: !Removable(t, d, k, name)
  {
    NodeAt(t, pending, d);
  }

  /** Only one slot holds a name. */
  lemma OnlySlot(t: Tree, pending: map<nat, nat>, d: nat, k: nat, name: string)
    requires LinkedOk(t, pending) && d < |t| && t[d].kind == Dir && k < |t[d].entries| && t[d].entries[k].inum != 0
    requires Cut(t[d].entries[k].name) == Cut(name) && Cut(name) != Cut(".") && Cut(name) != Cut("..")
    ensures Names(t, d, k, t[d].entries[k].inum) && forall j :: Removable(t, d, j, name) ==> j == k
  {
    NodeAt(t, pending, d);
  }

  /**
   Since `t`, directory `d` has got a name for inode `i`: all its other names, and all other nodes, are as
   they were.
   */
  ghost predicate NamesToo(t: Tree, t': Tree, d: nat, name: string, i: nat) {
    && |t'| == |t| && d < |t| && t'[d] == t[d].(entries := t'[d].entries)
    && (forall other, j ::
          Means(t'[d].entries, other, j) <==> if Cut(other) == Cut(name) then j == i else Means(t[d].entries, other, j))
    && (forall x {:trigger t'[x]} :: 0 <= x < |t| && x != d ==> t'[x] == t[x])
  }

  lemma PutNamesToo(t: Tree, d: nat, k: nat, name: string, i: nat)
    requires d < |t| && k <= |t[d].entries| && (k < |t[d].entries| ==> t[d].entries[k].inum == 0) && i != 0
    requires Absent(t[d].entries, name)
    ensures NamesToo(t, Put(t, d, k, Entry(i, Cut(name))), d, name, i)
  {
    CutAbsent(t[d].entries, name);
    PutMeansAll(t[d].entries, k, Entry(i, Cut(name)), Put(t, d, k, Entry(i, Cut(name)))[d].entries);
  }

  // ---- The system calls ----

  /** An entry can be added: an empty slot is written in place, otherwise the directory grows if there is `room`. */
  predicate CanGrow(e: seq<Entry>, room: bool) { room || exists k :: 0 <= k < |e| && e[k].inum == 0 }

  /** The directories, and how many calls of `link` hold a count that has no name yet, for each inode. */
  class Directories {

    var nodes: Tree
    ghost var pending: map<nat, nat>

    /** A disk image that adds up. */
    constructor (nodes: Tree, ghost pending: map<nat, nat>)
      requires LinkedOk(nodes, pending)
      ensures this.nodes == nodes && this.pending == pending
    {
      this.nodes := nodes;
      this.pending := pending;
    }

    /** The first entry with the name. */
    method DirLookup(d: nat, name: string) returns (r: Option<nat>)
      requires d < |nodes| && nodes[d].kind == Dir
      ensures r.None? <==> Absent(nodes[d].entries, name)
      ensures r.Some? ==> r.value < |nodes[d].entries| && Means(nodes[d].entries, name, nodes[d].entries[r.value].inum)
      ensures r.Some? ==> nodes[d].entries[r.value].inum != 0 && Cut(nodes[d].entries[r.value].name) == Cut(name)
    {
      var k := 0;
      while k < |nodes[d].entries|
        invariant k <= |nodes[d].entries|
        invariant forall j :: 0 <= j < k && nodes[d].entries[j].inum != 0 ==> Cut(nodes[d].entries[j].name) != Cut(name)
      {
        var de := nodes[d].entries[k];
        if de.inum != 0 && Cut(name) == Cut(de.name) {
          return Some(k);
        }
        k := k + 1;
      }
      return None;
    }

    /** The first slot without an inode, or the one past the end. */
    method EmptySlot(d: nat) returns (k: nat)
      requires d < |nodes|
      ensures k <= |nodes[d].entries| && (k < |nodes[d].entries| ==> nodes[d].entries[k].inum == 0)
      ensures forall j :: 0 <= j < k ==> nodes[d].entries[j].inum != 0
    {
      k := 0;
      while k < |nodes[d].entries| && nodes[d].entries[k].inum != 0
        invariant k <= |nodes[d].entries| && forall j :: 0 <= j < k ==> nodes[d].entries[j].inum != 0
      {
        k := k + 1;
      }
    }

    /** Adds an entry, unless the name is there already or the directory must grow and the disk has no `room`. */
    method DirLink(d: nat, name: string, inum: nat, room: bool) returns (ok: bool, ghost k: nat)
      requires d < |nodes| && nodes[d].kind == Dir && inum != 0
      modifies this`nodes
      ensures ok <==> Absent(old(nodes)[d].entries, name) && CanGrow(old(nodes)[d].entries, room)
      ensures k <= |old(nodes)[d].entries| && (k < |old(nodes)[d].entries| ==> old(nodes)[d].entries[k].inum == 0)
      ensures forall j :: 0 <= j < k ==> old(nodes)[d].entries[j].inum != 0
      ensures nodes == if ok then Put(old(nodes), d, k, Entry(inum, Cut(name))) else old(nodes)
      ensures ok ==> NamesToo(old(nodes), nodes, d, name, inum)
    {
      var ip := DirLookup(d, name);
      var slot := EmptySlot(d);
      k := slot;
      if ip.Some? || (slot == |nodes[d].entries| && !room) {
        return false, k;
      }
      PutNamesToo(nodes, d, slot, name, inum);
      nodes := Put(nodes, d, slot, Entry(inum, Cut(name)));
      return true, k;
    }

    method IsDirEmpty(i: nat) returns (empty: bool)
      requires i < |nodes|
      ensures empty <==> Bare(nodes, i)
    {
      var k := 2;
      while k < |nodes[i].entries|
        invariant 2 <= k && forall j :: 2 <= j < k && j < |nodes[i].entries| ==> nodes[i].entries[j].inum == 0
      {
        if nodes[i].entries[k].inum != 0 {
          return false;
        }
        k := k + 1;
      }
      return true;
    }

    /** The first half of `link`: the count goes up before the name is there. */
    method LinkStart(i: nat) returns (ok: bool)
      requires LinkedOk(nodes, pending) && i < |nodes| && nodes[i].kind != Free
      modifies this
      ensures LinkedOk(nodes, pending) && (ok <==> old(nodes)[i].kind != Dir)
      ensures !ok ==> nodes == old(nodes) && pending == old(pending)
      ensures ok ==> i in old(pending) && nodes == old(nodes)[i := old(nodes)[i].(nlink := old(nodes)[i].nlink + 1)]
      ensures ok ==> pending == old(pending)[i := old(pending)[i] + 1]
    {
      if nodes[i].kind == Dir {
        return false;
      }
      NodeAt(nodes, pending, i);
      ghost var t, p := nodes, pending;
      var n := nodes[i].(nlink := nodes[i].nlink + 1);
      nodes, pending := nodes[i := n], pending[i := pending[i] + 1];
      Recount(t, p, i, n, nodes, pending);
      return true;
    }

    /** The `bad` exit of `link`: the count goes down again. */
    method LinkUndo(i: nat)
      requires LinkedOk(nodes, pending) && i < |nodes| && nodes[i].kind != Free && i in pending && pending[i] > 0
      modifies this
      ensures LinkedOk(nodes, pending) && old(nodes)[i].nlink > 0
      ensures nodes == old(nodes)[i := old(nodes)[i].(nlink := old(nodes)[i].nlink - 1)]
      ensures pending == old(pending)[i := old(pending)[i] - 1]
    {
      NodeAt(nodes, pending, i);
      ghost var t, p := nodes, pending;
      var n := nodes[i].(nlink := nodes[i].nlink - 1);
      nodes, pending := nodes[i := n], pending[i := pending[i] - 1];
      Recount(t, p, i, n, nodes, pending);
    }

    /** The second half of `link`. */
    method LinkFinish(d: nat, name: string, i: nat, room: bool) returns (ok: bool, ghost k: nat)
      requires LinkedOk(nodes, pending) && d < |nodes| && nodes[d].kind == Dir
      requires i != 0 && i < |nodes| && nodes[i].kind != Free && i in pending && pending[i] > 0
      modifies this
      ensures ok <==> Absent(old(nodes)[d].entries, name) && CanGrow(old(nodes)[d].entries, room)
      ensures pending == old(pending)[i := old(pending)[i] - 1] && Vacant(old(nodes), d, k)
      ensures ok ==> nodes == Put(old(nodes), d, k, Entry(i, Cut(name))) && NamesToo(old(nodes), nodes, d, name, i)
      ensures !ok ==>
                old(nodes)[i].nlink > 0 && nodes == old(nodes)[i := old(nodes)[i].(nlink := old(nodes)[i].nlink - 1)]
      ensures LinkedOk(nodes, pending) <==> !ok || old(nodes)[d].nlink > 0
    {
      ghost var t, p := nodes, pending;
      NodeAt(t, p, i);
      ok, k := DirLink(d, name, i, room);
      AfterDots(t, p, d, k);
      if !ok {
        LinkUndo(i);
      } else {
        pending := pending[i := pending[i] - 1];
        CutAbsent(t[d].entries, name);
        NameFileIff(t, p, d, k, Entry(i, Cut(name)), nodes, pending);
      }
    }

    /** `create` of a file or a device, once `ialloc` has given inode `i`. */
    method CreateFile(d: nat, name: string, kind: Kind, i: nat, room: bool) returns (ok: bool, ghost k: nat)
      requires LinkedOk(nodes, pending) && d < |nodes| && nodes[d].kind == Dir && (kind == File || kind == Device)
      requires i != 0 && i < |nodes| && nodes[i].kind == Free
      modifies this
      ensures ok <==> Absent(old(nodes)[d].entries, name) && CanGrow(old(nodes)[d].entries, room)
      ensures pending == old(pending) && Vacant(old(nodes), d, k)
      ensures nodes == if ok then Put(old(nodes)[i := Node(kind, 1, [])], d, k, Entry(i, Cut(name)))
              else old(nodes)[i := Node(Free, 0, [])]
      ensures LinkedOk(nodes, pending) <==> !ok || old(nodes)[d].nlink > 0
    {
      ghost var t, p := nodes, pending;
      NodeAt(t, p, i);
      nodes, pending := nodes[i := Node(kind, 1, [])], pending[i := 1];
      ghost var t1, p1 := nodes, pending;
      Recount(t, p, i, Node(kind, 1, []), t1, p1);
      ok, k := DirLink(d, name, i, room);
      AfterDots(t1, p1, d, k);
      pending := pending[i := 0];
      assert pending == p;
      if !ok {
        nodes := nodes[i := Node(Free, 0, [])];
        Recount(t, p, i, Node(Free, 0, []), nodes, pending);
      } else {
        CutAbsent(t[d].entries, name);
        NameFileIff(t1, p1, d, k, Entry(i, Cut(name)), nodes, pending);
      }
    }

    /** The entries `.` and `..` of a directory that has none. */
    method Dots(i: nat, d: nat, room0: bool, room1: bool) returns (ok: bool)
      requires i != 0 && d != 0 && i < |nodes| && nodes[i] == Node(Dir, 1, [])
      modifies this`nodes
      ensures ok <==> room0 && room1
      ensures |nodes| == |old(nodes)| && forall x :: 0 <= x < |nodes| && x != i ==> nodes[x] == old(nodes)[x]
      ensures ok ==> nodes == old(nodes)[i := NewDir(i, d)]
    {
      ghost var t := nodes;
      ghost var k;
      ok, k := DirLink(i, ".", i, room0);
      if ok {
        FirstDot(t, i, nodes);
        ghost var t1 := nodes;
        ok, k := DirLink(i, "..", d, room1);
        if ok {
          SecondDot(t, i, d, t1, nodes);
        }
      }
    }

    /** `create` of a directory, once `ialloc` has given inode `i`. */
    method CreateDir(d: nat, name: string, i: nat, room0: bool, room1: bool, room: bool)
      returns (ok: bool, ghost k: nat)
      requires LinkedOk(nodes, pending) && d < |nodes| && nodes[d].kind == Dir && i != 0 && i < |nodes|
               && nodes[i].kind == Free
      modifies this`nodes
      ensures ok <==> Absent(old(nodes)[d].entries, name) && room0 && room1 && CanGrow(old(nodes)[d].entries, room)
      ensures ok ==> Vacant(old(nodes), d, k)
      ensures ok ==> nodes == var t := Put(old(nodes)[i := NewDir(i, d)], d, k, Entry(i, Cut(name)));
              t[d := t[d].(nlink := old(nodes)[d].nlink + 1)]
      ensures !ok ==> nodes == old(nodes)[i := Node(Free, 0, [])]
      ensures LinkedOk(nodes, pending) <==> !ok || old(nodes)[d].nlink > 0
    {
      ghost var t := nodes;
      DirNotZero(t, pending, d);
      nodes := nodes[i := Node(Dir, 1, [])];
      ok := Dots(i, d, room0, room1);
      ghost var t1 := nodes;
      k := 0;
      if ok {
        ok, k := DirLink(d, name, i, room);
      }
      if !ok {
        nodes := nodes[i := Node(Free, 0, [])];
        Returned(t, pending, i, t1, nodes);
      } else {
        ghost var t2 := nodes;
        nodes := nodes[d := nodes[d].(nlink := nodes[d].nlink + 1)];
        AfterDots(t, pending, d, k);
        CutAbsent(t[d].entries, name);
        MakeDirIff(t, pending, d, k, i, Cut(name), t1, t2, nodes);
      }
    }

    /** The search of `ialloc`: the first free inode, from 1. */
    method FreeInode() returns (r: Option<nat>)
      ensures r.Some? ==> 0 < r.value < |nodes| && nodes[r.value].kind == Free && forall x :: 0 < x < r.value ==>
                nodes[x].kind != Free
      ensures r.None? <==> forall x :: 0 < x < |nodes| ==> nodes[x].kind != Free
    {
      var i := 1;
      while i < |nodes|
        invariant 1 <= i && forall x :: 0 < x < i && x < |nodes| ==> nodes[x].kind != Free
      {
        if nodes[i].kind == Free {
          return Some(i);
        }
        i := i + 1;
      }
      return None;
    }

    /**
     The inode that `name` stands for in `d` afterwards: an old file when a file was asked for, or a new
     inode.  Only an entry made in a directory without links breaks the counts.
     */
    method Create(d: nat, name: string, kind: Kind, room0: bool, room1: bool, room: bool) returns (r: Option<nat>)
      requires LinkedOk(nodes, pending) && d < |nodes| && nodes[d].kind == Dir && kind != Free
      modifies this
      ensures pending == old(pending) && |nodes| == |old(nodes)|
      ensures r.Some? ==> nodes[d].kind == Dir && Means(nodes[d].entries, name, r.value)
      ensures forall other, j :: Cut(other) != Cut(name) ==>
                (Means(nodes[d].entries, other, j) <==> Means(old(nodes)[d].entries, other, j))
      ensures !Absent(old(nodes)[d].entries, name) ==> nodes == old(nodes) && exists i ::
                0 <= i < |nodes| && Means(nodes[d].entries, name, i) && r == if kind == File
                && nodes[i].kind in {File, Device} then Some(i) else None
      ensures Absent(old(nodes)[d].entries, name) ==>
                (r.Some? <==> CanGrow(old(nodes)[d].entries, room) && (kind == Dir ==> room0 && room1) && exists x ::
                 0 < x < |old(nodes)| && old(nodes)[x].kind == Free)
      ensures Absent(old(nodes)[d].entries, name) && r.Some? ==>
                0 < r.value < |nodes| && old(nodes)[r.value].kind == Free && nodes[r.value].kind == kind
                && nodes[r.value].nlink == 1
      ensures Absent(old(nodes)[d].entries, name) && r.Some? ==>
                nodes[r.value].entries == if kind == Dir then [Entry(r.value, "."), Entry(d, "..")] else []
      ensures Absent(old(nodes)[d].entries, name) ==>
                nodes[d] == old(nodes)[d].(entries := if r.Some? then nodes[d].entries else old(nodes)[d].entries,
                                           nlink := old(nodes)[d].nlink + if r.Some? && kind == Dir then 1 else 0)
      ensures forall x :: 0 <= x < |nodes| && x != d && r != Some(x) ==>
                nodes[x] == old(nodes)[x] || nodes[x].kind == old(nodes)[x].kind == Free
      ensures LinkedOk(nodes, pending) <==> old(nodes)[d].nlink > 0 || r.None? || !Absent(old(nodes)[d].entries, name)
    {
      var off := DirLookup(d, name);
      if off.Some? {
        var i := nodes[d].entries[off.value].inum;
        NodeSlot(nodes, pending, d, off.value, name);
        if kind == File && nodes[i].kind in {File, Device} {
          return Some(i);
        }
        return None;
      }
      var ip := FreeInode();
      if ip.None? {
        return None;
      }
      ghost var t := nodes;
      var ok;
      ghost var k;
      if kind == Dir {
        ok, k := CreateDir(d, name, ip.value, room0, room1, room);
      } else {
        ok, k := CreateFile(d, name, kind, ip.value, room);
      }
      if !ok {
        return None;
      }
      CutAbsent(t[d].entries, name);
      PutMeansAll(t[d].entries, k, Entry(ip.value, Cut(name)), nodes[d].entries);
      return ip;
    }

    /**
     Takes a name away, unless it is that of a directory that names something.  The inode found always has
     a link to lose.
     */
    method Unlink(d: nat, name: string) returns (ok: bool, ghost k: nat)
      requires LinkedOk(nodes, pending) && d < |nodes| && nodes[d].kind == Dir
      modifies this`nodes
      ensures LinkedOk(nodes, pending)
      ensures ok <==> exists j :: Removable(old(nodes), d, j, name)
      ensures ok ==> Removable(old(nodes), d, k, name) && nodes == Without(old(nodes), d, k, name)
      ensures ok ==> Unnamed(old(nodes), nodes, d, name, old(nodes)[d].entries[k].inum)
      ensures !ok ==> nodes == old(nodes)
    {
      k := 0;
      ghost var t := nodes;
      if Cut(name) == Cut(".") || Cut(name) == Cut("..") {
        DotsStay(t, pending, d, name);
        return false, k;
      }
      var off := DirLookup(d, name);
      if off.None? {
        return false, k;
      }
      k := off.value;
      var i := nodes[d].entries[off.value].inum;
      OnlySlot(t, pending, d, k, name);
      Counted(t, pending, d, k, i);
      var empty := IsDirEmpty(i);
      if nodes[i].kind == Dir && !empty {
        return false, k;
      }
      assert Removable(t, d, k, name);
      nodes := Without(nodes, d, off.value, name);
      Removed(t, pending, d, k, name, nodes);
      WithoutIs(t, pending, d, k, name, nodes);
      return true, k;
    }

    /** The last `iput` of an inode without a link. */
    method Reap(i: nat)
      requires LinkedOk(nodes, pending) && i < |nodes| && nodes[i].kind != Free && nodes[i].nlink == 0
      modifies this`nodes
      ensures LinkedOk(nodes, pending) && nodes == old(nodes)[i := Node(Free, 0, [])]
    {
      ghost var t := nodes;
      nodes := nodes[i := Node(Free, 0, [])];
      Reaped(t, pending, i, nodes);
    }
  }

  // ---- A link that is lost ----

  /** Four inodes, of which only the root directory is in use. */
  function RootOnly(): (r: Tree) {
    [Node(Free, 0, []), Node(Dir, 1, [Entry(ROOT, "."), Entry(ROOT, "..")]), Node(Free, 0, []), Node(Free, 0, [])]
  }

  function NonePending(): (r: map<nat, nat>) { map[0 := 0, 1 := 0, 2 := 0, 3 := 0] }

  lemma RootOnlyOk()
    ensures LinkedOk(RootOnly(), NonePending())
  {
    var t, p := RootOnly(), NonePending();
    forall d: nat, k: nat, i: nat ensures !Names(t, d, k, i) {
    }
    forall x | 0 <= x < |t| ensures NodeOk(t, p, x) {
      assert Slots(t, x) == {} && SubDirs(t, x) == {};
    }
    Seal(t, p);
  }

  /**
   A directory is made, removed while someone still works in it, and a file is created in it: all three
   calls succeed, and the counts no longer hold.
   */
  method LostLink() returns (dirs: Directories)
    ensures fresh(dirs) && !LinkedOk(dirs.nodes, dirs.pending)
  {
    RootOnlyOk();
    dirs := new Directories(RootOnly(), NonePending());
    assert dirs.nodes[2].kind == Free;
    var a := dirs.Create(ROOT, "a", Dir, true, true, true);
    var d := a.value;
    RemovableNow(dirs.nodes, dirs.pending, d, "a");
    ghost var t := dirs.nodes;
    var ok, k := dirs.Unlink(ROOT, "a");
    Removes(t, dirs.pending, d, k, "a");
    assert dirs.nodes[d].nlink == 0 && Absent(dirs.nodes[d].entries, "f");
    ghost var spare := if d == 2 then 3 else 2;
    assert dirs.nodes[spare].kind == Free;
    var f := dirs.Create(d, "f", File, true, true, true);
  }

  /** What is removed is the inode the name stands for; its entries and all other inodes stay. */
  lemma Removes(t: Tree, pending: map<nat, nat>, d: nat, k: nat, name: string)
    requires LinkedOk(t, pending) && Removable(t, ROOT, k, name) && Means(t[ROOT].entries, name, d) && d < |t|
             && d != ROOT && t[d].kind == Dir
    ensures |Without(t, ROOT, k, name)| == |t| && t[d].nlink > 0
            && Without(t, ROOT, k, name)[d] == t[d].(nlink := t[d].nlink - 1)
    ensures forall x :: 0 <= x < |t| && x != d && x != ROOT ==> Without(t, ROOT, k, name)[x] == t[x]
  {
    NodeAt(t, pending, ROOT);
    OneMeaning(t[ROOT].entries, name, d, t[ROOT].entries[k].inum);
  }

  lemma RemovableNow(t: Tree, pending: map<nat, nat>, d: nat, name: string)
    requires LinkedOk(t, pending) && t[ROOT].kind == Dir && Means(t[ROOT].entries, name, d) && d < |t| && Bare(t, d)
             && Cut(name) != "." && Cut(name) != ".."
    ensures exists j :: Removable(t, ROOT, j, name)
  {
    var j :| 0 <= j < |t[ROOT].entries| && t[ROOT].entries[j].inum == d && d != 0
        && Cut(t[ROOT].entries[j].name) == Cut(name);
    NodeAt(t, pending, ROOT);
    assert Names(t, ROOT, j, d);
    Counted(t, pending, ROOT, j, d);
    assert Removable(t, ROOT, j, name);
  }
}
