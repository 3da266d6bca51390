/**
 Physical frames and Sv39 page tables (section 4.4 of the RISC-V Privileged Architecture, version
 20211203).  Addresses are counted in pages: a frame is a physical page number, a page a virtual one.
 */
module PageTables {
  import opened Common

  const ENTRIES := 512
  /** Pages below MAXVA, which is one bit short of what Sv39 allows. */
  const MAX_PAGES := 0x400_0000
  const TRAMPOLINE := MAX_PAGES - 1
  const TRAPFRAME := MAX_PAGES - 2

  datatype Flags = Flags(r: bool, w: bool, x: bool, u: bool)
  datatype Pte = Invalid | Refers(frame: nat, flags: Flags)

  /** What a frame of memory holds. */
  datatype Page<C> = Table(ptes: seq<Pte>) | Data(bytes: C)

  /** A page-table page, named by its level and the virtual-address bits above the ones it decodes. */
  datatype Spot = Spot(level: nat, prefix: nat)

  /**
   The meaning of a page table: the frame of each page-table page and the flat map from pages to
   leaf entries.  In a `user` space the pages below TRAPFRAME own the frames they map.
   */
  datatype Space = Space(user: bool, node: map<Spot, nat>, flat: map<nat, Pte>)

  /** What a frame is used for. */
  datatype Owner = Free | Held | Node(space: nat, spot: Spot) | Leaf(space: nat, page: nat)

  const INTERIOR := Flags(false, false, false, false)

  predicate IsLeaf(p: Pte) { p.Refers? && p.flags.(u := false) != INTERIOR }

  predicate Owns(s: Space, v: nat) { s.user && v < TRAPFRAME }

  function Child(s: Spot, j: nat): (r: Spot) requires s.level > 0 { Spot(s.level - 1, s.prefix * ENTRIES + j) }

  /** The entry the page-table page at `s` must have at index `j`. */
  function Entry(sp: Space, s: Spot, j: nat): (r: Pte) {
    if s.level > 0 then
      if Child(s, j) in sp.node then Refers(sp.node[Child(s, j)], INTERIOR) else Invalid
    else if s.prefix * ENTRIES + j in sp.flat then sp.flat[s.prefix * ENTRIES + j] else Invalid
  }

  /** Every page-table page but the root has a parent, and every leaf has its page-table page. */
  ghost predicate Shape(root: nat, sp: Space) {
    && Spot(2, 0) in sp.node && sp.node[Spot(2, 0)] == root
    && (forall s :: s in sp.node ==> s.level < 2 || s == Spot(2, 0))
    && (forall s :: s in sp.node && s.level < 2 ==> Spot(s.level + 1, s.prefix / ENTRIES) in sp.node)
    && (forall v :: v in sp.flat ==> v < MAX_PAGES && IsLeaf(sp.flat[v]) && Spot(0, v / ENTRIES) in sp.node)
  }

  ghost predicate TableAt<C>(mem: map<nat, Page<C>>, sp: Space, s: Spot, f: nat) {
    && f in mem && mem[f].Table? && |mem[f].ptes| == ENTRIES
    && forall j :: 0 <= j < ENTRIES ==> mem[f].ptes[j] == Entry(sp, s, j)
  }

  /** The tables in memory say what the space says, and each has its own frame. */
  ghost predicate Tables<C>(mem: map<nat, Page<C>>, owner: map<nat, Owner>, root: nat, sp: Space) {
    && (forall s {:trigger sp.node[s]} :: s in sp.node ==>
          sp.node[s] in owner && owner[sp.node[s]] == Node(root, s) && TableAt(mem, sp, s, sp.node[s]))
    && (forall f {:trigger owner[f]} :: f in owner && owner[f].Node? && owner[f].space == root ==>
          owner[f].spot in sp.node && sp.node[owner[f].spot] == f)
  }

  /** The frames of the pages a user space owns are its own, each for one page. */
  ghost predicate Leaves(owner: map<nat, Owner>, root: nat, sp: Space) {
    && (forall v {:trigger sp.flat[v]} :: v in sp.flat && Owns(sp, v) ==>
          sp.flat[v].Refers? && sp.flat[v].frame in owner && owner[sp.flat[v].frame] == Leaf(root, v))
    && (forall f {:trigger owner[f]} :: f in owner && owner[f].Leaf? && owner[f].space == root ==>
          Owns(sp, owner[f].page) && owner[f].page in sp.flat && sp.flat[owner[f].page].Refers?
          && sp.flat[owner[f].page].frame == f)
  }

  // The invariant is unfolded only in the lemmas that need it.

  predicate Key(u: int) { true }

  ghost predicate SpaceOk<C>(mem: map<nat, Page<C>>, owner: map<nat, Owner>, root: nat, sp: Space) {
    && Spot(2, 0) in sp.node && sp.node[Spot(2, 0)] == root
    && forall u {:trigger Key(u)} :: Key(u) ==>
      Shape(root, sp) && Tables(mem, owner, root, sp) && Leaves(owner, root, sp)
  }

  // ---- Decoding a page number ----

  /** The index that level `l` uses: nine bits of the page number. */
  function Px(v: nat, l: nat): (r: nat)
    requires l < 3
    ensures r < ENTRIES
  {
    if l == 0 then v % ENTRIES else if l == 1 then (v / ENTRIES) % ENTRIES else (v / ENTRIES / ENTRIES) % ENTRIES
  }

  /** The bits above them. */
  function Above(v: nat, l: nat): (r: nat) requires l < 3 {
    if l == 0 then v / ENTRIES else if l == 1 then v / ENTRIES / ENTRIES else v / ENTRIES / ENTRIES / ENTRIES
  }

  function Path(v: nat, l: nat): (r: Spot) requires l < 3 { Spot(l, Above(v, l)) }

  lemma Decode(v: nat, l: nat)
    requires v < MAX_PAGES && l < 3
    ensures Path(v, 2) == Spot(2, 0)
    ensures l > 0 ==> Child(Path(v, l), Px(v, l)) == Path(v, l - 1)
    ensures Above(v, 0) * ENTRIES + Px(v, 0) == v
  {
  }

  function Zeros(): (r: seq<Pte>) { seq(ENTRIES, i => Invalid) }

  // ---- The three changes a page table undergoes ----

  lemma Close<C>(mem: map<nat, Page<C>>, owner: map<nat, Owner>, root: nat, sp: Space)
    requires Shape(root, sp) && Tables(mem, owner, root, sp) && Leaves(owner, root, sp)
    ensures SpaceOk(mem, owner, root, sp)
  {
  }

  /** One page-table page, looked up. */
  lemma NodeAt<C>(mem: map<nat, Page<C>>, owner: map<nat, Owner>, root: nat, sp: Space, s: Spot, j: nat)
    requires SpaceOk(mem, owner, root, sp) && s in sp.node && j < ENTRIES
    ensures s.level <= 2 && sp.node[s] in mem && mem[sp.node[s]].Table? && |mem[sp.node[s]].ptes| == ENTRIES
    ensures mem[sp.node[s]].ptes[j] == Entry(sp, s, j)
    ensures sp.node[s] in owner && owner[sp.node[s]] == Node(root, s)
  {
    assert Key(0);
  }

  function WithNode(sp: Space, s: Spot, f: nat): (r: Space) { sp.(node := sp.node[s := f]) }

  lemma AddShape(root: nat, sp: Space, s: Spot, j: nat, g: nat)
    requires Shape(root, sp) && s in sp.node && s.level > 0 && j < ENTRIES && Child(s, j) !in sp.node
    ensures Shape(root, WithNode(sp, Child(s, j), g))
  {
    assert Child(s, j).prefix / ENTRIES == s.prefix;
  }

  lemma SameChild(s: Spot, j: nat, s2: Spot, j2: nat)
    requires s.level > 0 && s2.level > 0 && j < ENTRIES && j2 < ENTRIES
    ensures Child(s, j) == Child(s2, j2) <==> s == s2 && j == j2
  {
  }

  lemma ParentOf(p: nat, j: nat)
    requires j < ENTRIES
    ensures (p * ENTRIES + j) / ENTRIES == p && (p * ENTRIES + j) % ENTRIES == j
  {
  }

  lemma AddOwnEntry(root: nat, sp: Space, g: nat, j2: nat, c: Spot)
    requires Shape(root, sp) && c.level < 2 && c !in sp.node && j2 < ENTRIES
    ensures Entry(WithNode(sp, c, g), c, j2) == Invalid
  {
    ParentOf(c.prefix, j2);
  }

  /** Only the parent's entry changes, and the new page's entries are all empty. */
  lemma AddEntry(root: nat, sp: Space, s: Spot, j: nat, g: nat, s2: Spot, j2: nat, c: Spot)
    requires Shape(root, sp) && s in sp.node && s.level > 0 && j < ENTRIES && c == Child(s, j) && c !in sp.node
             && j2 < ENTRIES
    ensures s2 != c ==>
              Entry(WithNode(sp, c, g), s2, j2) == if s2 == s && j2 == j then Refers(g, INTERIOR) else Entry(sp, s2, j2)
    ensures s2 == c ==> Entry(WithNode(sp, c, g), s2, j2) == Invalid
  {
    if s2 == c {
      AddOwnEntry(root, sp, g, j2, c);
    } else if s2.level > 0 {
      SameChild(s, j, s2, j2);
    }
  }

  lemma AddTable<C>(mem: map<nat, Page<C>>, root: nat, sp: Space, s: Spot, j: nat, g: nat,
                    f: nat, c: Spot, mem': map<nat, Page<C>>, s2: Spot)
    requires Shape(root, sp) && s in sp.node && s.level > 0 && j < ENTRIES && f == sp.node[s] && c == Child(s, j)
             && c !in sp.node
    requires f in mem && mem[f].Table? && |mem[f].ptes| == ENTRIES && f != g
    requires mem' == mem[g := Table(Zeros())][f := Table(mem[f].ptes[j := Refers(g, INTERIOR)])]
    requires s2 != c ==>
               s2 in sp.node && TableAt(mem, sp, s2, sp.node[s2]) && sp.node[s2] != g && (sp.node[s2] == f ==> s2 == s)
    ensures TableAt(mem', WithNode(sp, c, g), s2, WithNode(sp, c, g).node[s2])
  {
    var sp' := WithNode(sp, c, g);
    forall j2 | 0 <= j2 < ENTRIES
      ensures s2 != c ==> Entry(sp', s2, j2) == if s2 == s && j2 == j then Refers(g, INTERIOR) else Entry(sp, s2, j2)
      ensures s2 == c ==> Entry(sp', s2, j2) == Invalid
    {
      AddEntry(root, sp, s, j, g, s2, j2, c);
    }
  }

  lemma AddTables<C>(mem: map<nat, Page<C>>, owner: map<nat, Owner>, root: nat, sp: Space, s: Spot, j: nat, g: nat,
                     f: nat, c: Spot, mem': map<nat, Page<C>>, owner': map<nat, Owner>)
    requires Shape(root, sp) && Tables(mem, owner, root, sp) && s in sp.node && s.level > 0 && j < ENTRIES
    requires f == sp.node[s] && c == Child(s, j) && c !in sp.node
    requires g in owner && owner[g] == Held && owner' == owner[g := Node(root, c)]
    requires f in mem && mem[f].Table? && |mem[f].ptes| == ENTRIES
    requires mem' == mem[g := Table(Zeros())][f := Table(mem[f].ptes[j := Refers(g, INTERIOR)])]
    ensures Tables(mem', owner', root, WithNode(sp, c, g))
  {
    var sp' := WithNode(sp, c, g);
    assert owner[sp.node[s]] == Node(root, s);
    forall s2 | s2 in sp'.node ensures TableAt(mem', sp', s2, sp'.node[s2]) && owner'[sp'.node[s2]] == Node(root, s2) {
      assert s2 != c ==> owner[sp.node[s2]] == Node(root, s2);
      AddTable(mem, root, sp, s, j, g, f, c, mem', s2);
    }
  }

  lemma AddLeaves(owner: map<nat, Owner>, root: nat, sp: Space, c: Spot, g: nat)
    requires Leaves(owner, root, sp) && g in owner && owner[g] == Held
    ensures Leaves(owner[g := Node(root, c)], root, WithNode(sp, c, g))
  {
  }

  /** An empty page-table page `g` goes in at index `j` of the one at `s`. */
  lemma AddNode<C>(mem: map<nat, Page<C>>, owner: map<nat, Owner>, root: nat, sp: Space, s: Spot, j: nat, g: nat,
                   f: nat, c: Spot, mem': map<nat, Page<C>>, owner': map<nat, Owner>)
    requires SpaceOk(mem, owner, root, sp) && s in sp.node && s.level > 0 && j < ENTRIES
    requires f == sp.node[s] && c == Child(s, j) && c !in sp.node
    requires g in owner && owner[g] == Held && owner' == owner[g := Node(root, c)]
    requires f in mem && mem[f].Table? && |mem[f].ptes| == ENTRIES
    requires mem' == mem[g := Table(Zeros())][f := Table(mem[f].ptes[j := Refers(g, INTERIOR)])]
    ensures SpaceOk(mem', owner', root, WithNode(sp, c, g))
  {
    assert Key(0);
    AddShape(root, sp, s, j, g);
    AddTables(mem, owner, root, sp, s, j, g, f, c, mem', owner');
    AddLeaves(owner, root, sp, c, g);
    Close(mem', owner', root, WithNode(sp, c, g));
  }

  /** The page-table page at `s` has no valid entry among its first `n`. */
  ghost predicate Barren(sp: Space, s: Spot, n: nat) {
    forall j :: 0 <= j < n ==> Entry(sp, s, j) == Invalid
  }

  function SansNode(sp: Space, c: Spot): (r: Space) { sp.(node := sp.node - {c}) }

  lemma NoChild(root: nat, sp: Space, c: Spot, j: nat)
    requires Shape(root, sp) && Barren(sp, c, ENTRIES) && j < ENTRIES
    ensures c.level > 0 ==> Child(c, j) !in sp.node
    ensures c.level == 0 ==> c.prefix * ENTRIES + j !in sp.flat
  {
    assert Entry(sp, c, j) == Invalid;
  }

  /** The parent of a page-table page, or the page-table page of a leaf, is not barren. */
  lemma NotParent(root: nat, sp: Space, c: Spot, x: nat)
    requires Shape(root, sp) && Barren(sp, c, ENTRIES) && c.prefix == x / ENTRIES
    ensures c.level > 0 ==> Spot(c.level - 1, x) !in sp.node
    ensures c.level == 0 ==> x !in sp.flat
  {
    NoChild(root, sp, c, x % ENTRIES);
  }

  lemma DropShape(root: nat, sp: Space, s: Spot, j: nat, c: Spot)
    requires Shape(root, sp) && s in sp.node && s.level > 0 && j < ENTRIES && c == Child(s, j) && c in sp.node
             && Barren(sp, c, ENTRIES)
    ensures Shape(root, SansNode(sp, c))
  {
    forall s2 | s2 in sp.node && s2.level < 2 ensures Spot(s2.level + 1, s2.prefix / ENTRIES) != c {
      if c.prefix == s2.prefix / ENTRIES {
        NotParent(root, sp, c, s2.prefix);
      }
    }
    forall v | v in sp.flat ensures Spot(0, v / ENTRIES) != c {
      if c.prefix == v / ENTRIES {
        NotParent(root, sp, c, v);
      }
    }
  }

  lemma DropEntry(root: nat, sp: Space, s: Spot, j: nat, c: Spot, s2: Spot, j2: nat)
    requires Shape(root, sp) && s in sp.node && s.level > 0 && j < ENTRIES && c == Child(s, j) && c in sp.node
             && j2 < ENTRIES
    ensures Entry(SansNode(sp, c), s2, j2) == if s2 == s && j2 == j then Invalid else Entry(sp, s2, j2)
  {
    if s2.level > 0 {
      SameChild(s, j, s2, j2);
    }
  }

  lemma DropTable<C>(mem: map<nat, Page<C>>, root: nat, sp: Space, s: Spot, j: nat, f: nat, c: Spot,
                     mem': map<nat, Page<C>>, s2: Spot)
    requires Shape(root, sp) && s in sp.node && s.level > 0 && j < ENTRIES && f == sp.node[s] && c == Child(s, j)
             && c in sp.node
    requires f in mem && mem[f].Table? && |mem[f].ptes| == ENTRIES
    requires mem' == mem[f := Table(mem[f].ptes[j := Invalid])]
    requires s2 in sp.node && TableAt(mem, sp, s2, sp.node[s2]) && (sp.node[s2] == f ==> s2 == s)
    ensures TableAt(mem', SansNode(sp, c), s2, sp.node[s2])
  {
    forall j2 | 0 <= j2 < ENTRIES
      ensures Entry(SansNode(sp, c), s2, j2) == if s2 == s && j2 == j then Invalid else Entry(sp, s2, j2) {
      DropEntry(root, sp, s, j, c, s2, j2);
    }
  }

  lemma DropTables<C>(mem: map<nat, Page<C>>, owner: map<nat, Owner>, root: nat, sp: Space, s: Spot, j: nat,
                      f: nat, c: Spot, g: nat, mem': map<nat, Page<C>>)
    requires Shape(root, sp) && Tables(mem, owner, root, sp) && s in sp.node && s.level > 0 && j < ENTRIES
    requires f == sp.node[s] && c == Child(s, j) && c in sp.node && g == sp.node[c]
    requires f in mem && mem[f].Table? && |mem[f].ptes| == ENTRIES
    requires mem' == mem[f := Table(mem[f].ptes[j := Invalid])]
    ensures g in owner && owner[g] == Node(root, c) && Tables(mem', owner[g := Held], root, SansNode(sp, c))
  {
    var sp', owner' := SansNode(sp, c), owner[g := Held];
    assert owner[sp.node[s]] == Node(root, s) && owner[sp.node[c]] == Node(root, c);
    forall s2 | s2 in sp'.node ensures TableAt(mem', sp', s2, sp'.node[s2]) && owner'[sp'.node[s2]] == Node(root, s2) {
      assert owner[sp.node[s2]] == Node(root, s2);
      DropTable(mem, root, sp, s, j, f, c, mem', s2);
    }
  }

  lemma DropLeaves(owner: map<nat, Owner>, root: nat, sp: Space, c: Spot, g: nat)
    requires Leaves(owner, root, sp) && g in owner && owner[g] == Node(root, c)
    ensures Leaves(owner[g := Held], root, SansNode(sp, c))
  {
  }

  /** The empty page-table page at `c` is cut off its parent at `s`. */
  lemma DropNode<C>(mem: map<nat, Page<C>>, owner: map<nat, Owner>, root: nat, sp: Space, s: Spot, j: nat,
                    f: nat, c: Spot, g: nat, mem': map<nat, Page<C>>, owner': map<nat, Owner>)
    requires SpaceOk(mem, owner, root, sp) && s in sp.node && s.level > 0 && j < ENTRIES
    requires f == sp.node[s] && c == Child(s, j) && c in sp.node && g == sp.node[c] && Barren(sp, c, ENTRIES)
    requires f in mem && mem[f].Table? && |mem[f].ptes| == ENTRIES
    requires mem' == mem[f := Table(mem[f].ptes[j := Invalid])] && owner' == owner[g := Held]
    ensures g in owner && owner[g] == Node(root, c) && SpaceOk(mem', owner', root, SansNode(sp, c))
  {
    assert Key(0);
    DropShape(root, sp, s, j, c);
    DropTables(mem, owner, root, sp, s, j, f, c, g, mem');
    DropLeaves(owner, root, sp, c, g);
    Close(mem', owner', root, SansNode(sp, c));
  }

  /** A space with nothing mapped: one empty page-table page. */
  function Blank(user: bool, root: nat): (r: Space) { Space(user, map[Spot(2, 0) := root], map[]) }

  lemma NewSpace<C>(mem: map<nat, Page<C>>, owner: map<nat, Owner>, root: nat, user: bool)
    requires root in owner && forall f :: f in owner ==> !((owner[f].Node? || owner[f].Leaf?) && owner[f].space == root)
    ensures SpaceOk(mem[root := Table(Zeros())], owner[root := Node(root, Spot(2, 0))], root, Blank(user, root))
  {
    var mem', owner', sp := mem[root := Table(Zeros())], owner[root := Node(root, Spot(2, 0))], Blank(user, root);
    assert TableAt(mem', sp, Spot(2, 0), root);
    Close(mem', owner', root, sp);
  }

  /** When the root has no entries and nothing is mapped, the root is all there is. */
  lemma OnlyRoot<C>(mem: map<nat, Page<C>>, owner: map<nat, Owner>, root: nat, sp: Space)
    requires SpaceOk(mem, owner, root, sp) && Barren(sp, Spot(2, 0), ENTRIES) && sp.flat == map[]
    ensures forall f :: f in owner && (owner[f].Node? || owner[f].Leaf?) && owner[f].space == root ==> f == root
    ensures root in owner && owner[root] == Node(root, Spot(2, 0))
  {
    assert Key(0);
    forall s | s in sp.node ensures s.level != 1 {
      NoChild(root, sp, Spot(2, 0), s.prefix % ENTRIES);
    }
    forall s | s in sp.node ensures s == Spot(2, 0) {
    }
    assert owner[sp.node[Spot(2, 0)]] == Node(root, Spot(2, 0));
  }

  function WithLeaf(sp: Space, v: nat, p: Pte): (r: Space) {
    sp.(flat := if p.Refers? then sp.flat[v := p] else sp.flat - {v})
  }

  /** The owner map when page `v` gets the frame of `p`: an owned page hands back its old frame. */
  ghost function Handover(owner: map<nat, Owner>, root: nat, sp: Space, v: nat, p: Pte): (r: map<nat, Owner>) {
    if Owns(sp, v) then
      map f | f in owner ::
        if p.Refers? && f == p.frame then Leaf(root, v) else if owner[f] == Leaf(root, v) then Held else owner[f]
    else owner
  }

  lemma SetTable<C>(mem: map<nat, Page<C>>, sp: Space, v: nat, p: Pte, f: nat, mem': map<nat, Page<C>>, s: Spot)
    requires v < MAX_PAGES && Path(v, 0) in sp.node && f == sp.node[Path(v, 0)]
    requires f in mem && mem[f].Table? && |mem[f].ptes| == ENTRIES
    requires mem' == mem[f := Table(mem[f].ptes[Px(v, 0) := p])]
    requires s in sp.node && TableAt(mem, sp, s, sp.node[s]) && (sp.node[s] == f ==> s == Path(v, 0))
    ensures TableAt(mem', WithLeaf(sp, v, p), s, sp.node[s])
  {
    Decode(v, 0);
    var sp' := WithLeaf(sp, v, p);
    forall j | 0 <= j < ENTRIES
      ensures Entry(sp', s, j) == if s == Path(v, 0) && j == Px(v, 0) then p else Entry(sp, s, j) {
    }
  }

  lemma SetTables<C>(mem: map<nat, Page<C>>, owner: map<nat, Owner>, root: nat, sp: Space, v: nat, p: Pte,
                     f: nat, mem': map<nat, Page<C>>, owner': map<nat, Owner>)
    requires Tables(mem, owner, root, sp) && v < MAX_PAGES && Path(v, 0) in sp.node && f == sp.node[Path(v, 0)]
    requires f in mem && mem[f].Table? && |mem[f].ptes| == ENTRIES
    requires mem' == mem[f := Table(mem[f].ptes[Px(v, 0) := p])]
    requires owner'.Keys == owner.Keys
    requires forall x {:trigger owner[x]} {:trigger owner'[x]} :: x in owner && (owner[x].Node? || owner'[x].Node?) ==>
               owner'[x] == owner[x]
    ensures Tables(mem', owner', root, WithLeaf(sp, v, p))
  {
    var sp' := WithLeaf(sp, v, p);
    forall s | s in sp'.node ensures TableAt(mem', sp', s, sp'.node[s]) && owner'[sp'.node[s]] == Node(root, s) {
      assert owner[sp.node[s]] == Node(root, s);
      assert owner[f] == Node(root, Path(v, 0));
      SetTable(mem, sp, v, p, f, mem', s);
    }
  }

  lemma SetLeaves(owner: map<nat, Owner>, root: nat, sp: Space, v: nat, p: Pte)
    requires Leaves(owner, root, sp) && (p.Refers? ==> IsLeaf(p))
    requires p.Refers? && Owns(sp, v) ==>
               p.frame in owner && (owner[p.frame] == Held || owner[p.frame] == Leaf(root, v))
    ensures Leaves(Handover(owner, root, sp, v, p), root, WithLeaf(sp, v, p))
  {
  }

  lemma SetShape(root: nat, sp: Space, v: nat, p: Pte)
    requires Shape(root, sp) && v < MAX_PAGES && Path(v, 0) in sp.node && (p.Refers? ==> IsLeaf(p))
    ensures Shape(root, WithLeaf(sp, v, p))
  {
  }

  /** Writing one leaf entry changes the flat map at one page. */
  lemma SetLeaf<C>(mem: map<nat, Page<C>>, owner: map<nat, Owner>, root: nat, sp: Space, v: nat, p: Pte,
                   f: nat, mem': map<nat, Page<C>>)
    requires SpaceOk(mem, owner, root, sp) && v < MAX_PAGES && Path(v, 0) in sp.node && f == sp.node[Path(v, 0)]
    requires p.Refers? ==> IsLeaf(p)
    requires p.Refers? && Owns(sp, v) ==>
               p.frame in owner && (owner[p.frame] == Held || owner[p.frame] == Leaf(root, v))
    requires f in mem && mem[f].Table? && |mem[f].ptes| == ENTRIES
    requires mem' == mem[f := Table(mem[f].ptes[Px(v, 0) := p])]
    ensures SpaceOk(mem', Handover(owner, root, sp, v, p), root, WithLeaf(sp, v, p))
  {
    assert Key(0);
    SetTables(mem, owner, root, sp, v, p, f, mem', Handover(owner, root, sp, v, p));
    SetLeaves(owner, root, sp, v, p);
    SetShape(root, sp, v, p);
    Close(mem', Handover(owner, root, sp, v, p), root, WithLeaf(sp, v, p));
  }

  // ---- What an operation leaves alone ----

  /** Frames in the hand of a caller or belonging to another space. */
  predicate Foreign(o: Owner, root: nat) { o.Held? || ((o.Node? || o.Leaf?) && o.space != root) }

  /** Foreign frames, and the frames of this space's pages outside [lo, hi). */
  predicate Protected(o: Owner, root: nat, lo: nat, hi: nat) {
    Foreign(o, root) || (o.Leaf? && !(lo <= o.page < hi))
  }

  /** Apart from the frames in `ex`, no protected frame changes owner or contents and none becomes foreign. */
  ghost predicate Keeps<C>(mem: map<nat, Page<C>>, owner: map<nat, Owner>, mem': map<nat, Page<C>>,
                           owner': map<nat, Owner>,
                           root: nat, lo: nat, hi: nat, ex: set<nat>)
  {
    && owner'.Keys == owner.Keys && owner.Keys <= mem.Keys && owner.Keys <= mem'.Keys
    && (forall f {:trigger owner[f]} {:trigger owner'[f]} {:trigger mem'[f]} ::
        f in owner && f !in ex && Protected(owner[f], root, lo, hi) ==>
          owner'[f] == owner[f] && mem'[f] == mem[f])
    && (forall f {:trigger owner'[f]} :: f in owner && f !in ex && Foreign(owner'[f], root) ==> owner'[f] == owner[f])
  }

  predicate KeyKeeps(u: int) { true }

  /** An operation on space `root`: the other spaces, and all that Keeps protects, are as before. */
  ghost predicate Only<C>(mem: map<nat, Page<C>>, owner: map<nat, Owner>, spaces: map<nat, Space>,
                          mem': map<nat, Page<C>>, owner': map<nat, Owner>, spaces': map<nat, Space>,
                          root: nat, lo: nat, hi: nat, ex: set<nat>)
  {
    && root in spaces && root in spaces' && spaces'.Keys == spaces.Keys && spaces'[root].user == spaces[root].user
    && owner'.Keys == owner.Keys
    && (forall r :: r in spaces && r != root ==> spaces'[r] == spaces[r])
    && forall u {:trigger KeyKeeps(u)} :: KeyKeeps(u) ==> Keeps(mem, owner, mem', owner', root, lo, hi, ex)
  }

  lemma OnlyClose<C>(mem: map<nat, Page<C>>, owner: map<nat, Owner>, spaces: map<nat, Space>,
                     mem': map<nat, Page<C>>, owner': map<nat, Owner>, sp: Space, root: nat, lo: nat, hi: nat,
                     ex: set<nat>)
    requires root in spaces && sp.user == spaces[root].user && Keeps(mem, owner, mem', owner', root, lo, hi, ex)
    ensures Only(mem, owner, spaces, mem', owner', spaces[root := sp], root, lo, hi, ex)
  {
  }

  lemma OnlyTrans<C>(m1: map<nat, Page<C>>, o1: map<nat, Owner>, s1: map<nat, Space>, m2: map<nat, Page<C>>,
                     o2: map<nat, Owner>, s2: map<nat, Space>,
                     m3: map<nat, Page<C>>, o3: map<nat, Owner>, s3: map<nat, Space>, root: nat, lo: nat, hi: nat,
                     ex: set<nat>)
    requires Only(m1, o1, s1, m2, o2, s2, root, lo, hi, ex) && Only(m2, o2, s2, m3, o3, s3, root, lo, hi, ex)
    ensures Only(m1, o1, s1, m3, o3, s3, root, lo, hi, ex)
  {
    assert KeyKeeps(0);
  }

  /** A space keeps its meaning while another one is changed. */
  lemma OtherSpace<C>(mem: map<nat, Page<C>>, owner: map<nat, Owner>, mem': map<nat, Page<C>>, owner': map<nat, Owner>,
                      root: nat, lo: nat, hi: nat, ex: set<nat>, other: nat, sp: Space)
    requires SpaceOk(mem, owner, other, sp) && other != root && Keeps(mem, owner, mem', owner', root, lo, hi, ex)
    requires forall f :: f in ex && f in owner ==> !Foreign(owner[f], root) || owner[f].Held?
    requires forall f :: f in ex && f in owner ==> !Foreign(owner'[f], root) || owner'[f].Held?
    ensures SpaceOk(mem', owner', other, sp)
  {
    assert Key(0);
    forall s | s in sp.node ensures TableAt(mem', sp, s, sp.node[s]) && owner'[sp.node[s]] == Node(other, s) {
      assert owner[sp.node[s]] == Node(other, s);
    }
    Close(mem', owner', other, sp);
  }

  // ---- The pool of frames ----

  /** The free list holds each free frame once; every frame used by a space belongs to a live one. */
  ghost predicate Pool(free: seq<nat>, owner: map<nat, Owner>, spaces: map<nat, Space>) {
    && Distinct(free)
    && (forall i :: 0 <= i < |free| ==> free[i] in owner && owner[free[i]] == Free)
    && (forall f {:trigger owner[f]} :: f in owner && owner[f] == Free ==> f in free)
    && (forall f {:trigger owner[f]} :: f in owner && (owner[f].Node? || owner[f].Leaf?) ==> owner[f].space in spaces)
  }

  predicate KeyPool(u: int) { true }

  ghost predicate PoolOk(free: seq<nat>, owner: map<nat, Owner>, spaces: map<nat, Space>) {
    && (|free| > 0 ==> free[0] in owner && owner[free[0]] == Free)
    && forall u {:trigger KeyPool(u)} :: KeyPool(u) ==> Pool(free, owner, spaces)
  }

  lemma PoolTake(free: seq<nat>, owner: map<nat, Owner>, spaces: map<nat, Space>)
    requires PoolOk(free, owner, spaces) && |free| > 0
    ensures PoolOk(free[1..], owner[free[0] := Held], spaces)
  {
    assert KeyPool(0);
    var free', owner' := free[1..], owner[free[0] := Held];
    forall f | f in owner' && owner'[f] == Free ensures f in free' {
      assert f in free;
      var i :| 0 <= i < |free| && free[i] == f;
      assert free'[i - 1] == f;
    }
  }

  lemma PoolGive(free: seq<nat>, owner: map<nat, Owner>, spaces: map<nat, Space>, f: nat)
    requires PoolOk(free, owner, spaces) && f in owner && owner[f] == Held
    ensures PoolOk([f] + free, owner[f := Free], spaces)
  {
    assert KeyPool(0);
    var free', owner' := [f] + free, owner[f := Free];
    forall x | x in owner' && owner'[x] == Free ensures x in free' {
      if x != f {
        assert x in free;
        var i :| 0 <= i < |free| && free[i] == x;
        assert free'[i + 1] == x;
      }
    }
  }

  /** Frames may change hands between users without the pool noticing. */
  lemma PoolSame(free: seq<nat>, owner: map<nat, Owner>, owner': map<nat, Owner>, spaces: map<nat, Space>,
                 spaces': map<nat, Space>)
    requires PoolOk(free, owner, spaces) && spaces.Keys <= spaces'.Keys && owner'.Keys == owner.Keys
    requires forall f :: f in owner ==> (owner'[f] == Free <==> owner[f] == Free)
    requires forall f :: f in owner && (owner'[f].Node? || owner'[f].Leaf?) ==>
               owner'[f] == owner[f] || owner'[f].space in spaces'
    ensures PoolOk(free, owner', spaces')
  {
    assert KeyPool(0);
  }

  /** Frames that no space uses may change between free and held, and their contents with them. */
  lemma Loose<C>(mem: map<nat, Page<C>>, owner: map<nat, Owner>, root: nat, sp: Space, f: nat, o: Owner, p: Page<C>)
    requires SpaceOk(mem, owner, root, sp) && f in owner && (owner[f].Free? || owner[f].Held?) && (o.Free? || o.Held?)
    ensures SpaceOk(mem[f := p], owner[f := o], root, sp)
  {
    assert Key(0);
    forall s | s in sp.node ensures TableAt(mem[f := p], sp, s, sp.node[s]) {
    }
    Close(mem[f := p], owner[f := o], root, sp);
  }

  ghost predicate AllOk<C>(mem: map<nat, Page<C>>, owner: map<nat, Owner>, spaces: map<nat, Space>) {
    owner.Keys <= mem.Keys && forall r {:trigger spaces[r]} :: r in spaces ==> SpaceOk(mem, owner, r, spaces[r])
  }

  lemma LooseAll<C>(mem: map<nat, Page<C>>, owner: map<nat, Owner>, spaces: map<nat, Space>, f: nat, o: Owner,
                    p: Page<C>)
    requires AllOk(mem, owner, spaces) && f in owner && (owner[f].Free? || owner[f].Held?) && (o.Free? || o.Held?)
    ensures AllOk(mem[f := p], owner[f := o], spaces)
  {
    forall r | r in spaces ensures SpaceOk(mem[f := p], owner[f := o], r, spaces[r]) {
      Loose(mem, owner, r, spaces[r], f, o, p);
    }
  }

  lemma OneChanged<C>(mem: map<nat, Page<C>>, owner: map<nat, Owner>, spaces: map<nat, Space>, mem': map<nat, Page<C>>,
                      owner': map<nat, Owner>,
                      sp: Space, root: nat, lo: nat, hi: nat, ex: set<nat>)
    requires AllOk(mem, owner, spaces) && root in spaces && Keeps(mem, owner, mem', owner', root, lo, hi, ex)
    requires forall f :: f in ex && f in owner ==> !Foreign(owner[f], root) || owner[f].Held?
    requires forall f :: f in ex && f in owner ==> !Foreign(owner'[f], root) || owner'[f].Held?
    requires SpaceOk(mem', owner', root, sp)
    ensures AllOk(mem', owner', spaces[root := sp])
  {
    forall r | r in spaces && r != root ensures SpaceOk(mem', owner', r, spaces[r]) {
      OtherSpace(mem, owner, mem', owner', root, lo, hi, ex, r, spaces[r]);
    }
  }

  /** Distinct pages have distinct leaf slots. */
  lemma DistinctSlots<C>(mem: map<nat, Page<C>>, owner: map<nat, Owner>, root: nat, sp: Space, v: nat, w: nat)
    requires SpaceOk(mem, owner, root, sp) && v < MAX_PAGES && w < MAX_PAGES && v != w
    requires Path(v, 0) in sp.node && Path(w, 0) in sp.node
    ensures sp.node[Path(v, 0)] != sp.node[Path(w, 0)] || Px(v, 0) != Px(w, 0)
  {
    assert Key(0);
    Decode(v, 0);
    Decode(w, 0);
    assert owner[sp.node[Path(v, 0)]] == Node(root, Path(v, 0));
  }
}
