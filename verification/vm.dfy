/**
 Virtual memory: the frame allocator and the operations on page tables.  A `requires` on a page or
 on the state of a mapping stands for a panic of the kernel; the callers below discharge them all.
 */
module Vm {
  import opened Common
  import opened PageTables

  // ---- Changes to all spaces at once ----

  /** A new page-table page `g` under page `f` touches nothing else. */
  lemma GrowKeeps<C>(mem0: map<nat, Page<C>>, owner0: map<nat, Owner>, mem: map<nat, Page<C>>, owner: map<nat, Owner>,
                     root: nat, s: Spot, j: nat, g: nat, f: nat, c: Spot, mem': map<nat, Page<C>>,
                     owner': map<nat, Owner>)
    requires owner0.Keys == owner.Keys && owner0.Keys <= mem0.Keys && owner.Keys <= mem.Keys && g in owner
             && owner0[g] == Free && owner == owner0[g := Held]
    requires owner' == owner[g := Node(root, c)] && f in owner && owner[f] == Node(root, s)
    requires forall x :: x in owner && x != g ==> mem0[x] == mem[x]
    requires mem[f].Table? && j < |mem[f].ptes|
    requires mem' == mem[g := Table(Zeros())][f := Table(mem[f].ptes[j := Refers(g, INTERIOR)])]
    ensures Keeps(mem, owner, mem', owner', root, 0, 0, {g}) && Keeps(mem0, owner0, mem', owner', root, 0, 0, {})
  {
  }

  /** The frames and spaces after a fresh frame `g` became the page-table page at `c`. */
  lemma GrowTree<C>(mem0: map<nat, Page<C>>, owner0: map<nat, Owner>, mem: map<nat, Page<C>>, owner: map<nat, Owner>,
                    spaces: map<nat, Space>,
                    root: nat, s: Spot, j: nat, g: nat, f: nat, c: Spot,
                    mem': map<nat, Page<C>>, owner': map<nat, Owner>, free: seq<nat>)
    requires PoolOk(free, owner, spaces) && AllOk(mem, owner, spaces) && root in spaces && s in spaces[root].node
             && s.level > 0 && j < ENTRIES
    requires f == spaces[root].node[s] && c == Child(s, j) && c !in spaces[root].node
    requires owner0.Keys == owner.Keys && owner0.Keys <= mem0.Keys && g in owner && owner0[g] == Free
             && owner == owner0[g := Held]
    requires owner' == owner[g := Node(root, c)]
    requires forall x :: x in owner && x != g ==> mem0[x] == mem[x]
    requires f in mem && mem[f].Table? && |mem[f].ptes| == ENTRIES
    requires mem' == mem[g := Table(Zeros())][f := Table(mem[f].ptes[j := Refers(g, INTERIOR)])]
    ensures var spaces' := spaces[root := WithNode(spaces[root], c, g)];
            PoolOk(free, owner', spaces') && AllOk(mem', owner', spaces')
            && Only(mem0, owner0, spaces, mem', owner', spaces', root, 0, 0, {})
  {
    var sp := spaces[root];
    NodeAt(mem, owner, root, sp, s, j);
    AddNode(mem, owner, root, sp, s, j, g, f, c, mem', owner');
    GrowKeeps(mem0, owner0, mem, owner, root, s, j, g, f, c, mem', owner');
    OneChanged(mem, owner, spaces, mem', owner', WithNode(sp, c, g), root, 0, 0, {g});
    OnlyClose(mem0, owner0, spaces, mem', owner', WithNode(sp, c, g), root, 0, 0, {});
    PoolSame(free, owner, owner', spaces, spaces[root := WithNode(sp, c, g)]);
  }

  /** A page that is not mapped owns no frame. */
  lemma NoLeaf<C>(mem: map<nat, Page<C>>, owner: map<nat, Owner>, root: nat, sp: Space, v: nat)
    requires SpaceOk(mem, owner, root, sp) && v !in sp.flat
    ensures forall x :: x in owner ==> owner[x] != Leaf(root, v)
  {
    assert Key(0);
  }

  /** The frame of a mapped page: the page's own, where the space owns the page. */
  lemma LeafAt<C>(mem: map<nat, Page<C>>, owner: map<nat, Owner>, root: nat, sp: Space, v: nat)
    requires SpaceOk(mem, owner, root, sp) && v in sp.flat
    ensures v < MAX_PAGES && IsLeaf(sp.flat[v]) && Path(v, 0) in sp.node
    ensures Owns(sp, v) ==> sp.flat[v].frame in owner && owner[sp.flat[v].frame] == Leaf(root, v)
    ensures Owns(sp, v) ==> forall x :: x in owner && owner[x] == Leaf(root, v) ==> x == sp.flat[v].frame
  {
    assert Key(0);
  }

  /** Only the page's own frame is marked as its leaf. */
  lemma NoOtherLeaf<C>(mem: map<nat, Page<C>>, owner: map<nat, Owner>, root: nat, sp: Space, v: nat)
    requires SpaceOk(mem, owner, root, sp) && v in sp.flat
    ensures sp.flat[v].Refers?
            && forall x :: x in owner && owner[x] == Leaf(root, v) ==> Owns(sp, v) && x == sp.flat[v].frame
  {
    assert Key(0);
  }

  /** What the walk finds in the slot of page `v` is the flat map's entry. */
  lemma SlotAt<C>(mem: map<nat, Page<C>>, owner: map<nat, Owner>, root: nat, sp: Space, v: nat)
    requires SpaceOk(mem, owner, root, sp) && v < MAX_PAGES && Path(v, 0) in sp.node
    ensures var f := sp.node[Path(v, 0)];
            f in mem && mem[f].Table? && |mem[f].ptes| == ENTRIES
            && mem[f].ptes[Px(v, 0)] == if v in sp.flat then sp.flat[v] else Invalid
    ensures v in sp.flat ==> IsLeaf(sp.flat[v])
  {
    assert Key(0);
    Decode(v, 0);
    NodeAt(mem, owner, root, sp, Path(v, 0), Px(v, 0));
  }

  /** Writing one leaf entry. */
  lemma SetPage<C>(mem: map<nat, Page<C>>, owner: map<nat, Owner>, spaces: map<nat, Space>, root: nat, v: nat, p: Pte,
                   f: nat, mem': map<nat, Page<C>>, owner': map<nat, Owner>, lo: nat, hi: nat, ex: set<nat>,
                   free: seq<nat>)
    requires PoolOk(free, owner, spaces) && AllOk(mem, owner, spaces) && root in spaces && v < MAX_PAGES
    requires Path(v, 0) in spaces[root].node && f == spaces[root].node[Path(v, 0)]
    requires p.Refers? ==> IsLeaf(p)
    requires p.Refers? && Owns(spaces[root], v) ==>
               p.frame in owner && p.frame in ex && (owner[p.frame] == Held || owner[p.frame] == Leaf(root, v))
    requires f in mem && mem[f].Table? && |mem[f].ptes| == ENTRIES
    requires mem' == mem[f := Table(mem[f].ptes[Px(v, 0) := p])] && owner' == Handover(owner, root, spaces[root], v, p)
    requires forall x :: x in owner && owner[x] == Leaf(root, v) ==> x in ex
    requires forall x :: x in ex && x in owner ==> owner[x] == Held || owner[x] == Leaf(root, v)
    ensures var spaces' := spaces[root := WithLeaf(spaces[root], v, p)];
            PoolOk(free, owner', spaces') && AllOk(mem', owner', spaces')
            && Only(mem, owner, spaces, mem', owner', spaces', root, lo, hi, ex)
  {
    var sp := spaces[root];
    NodeAt(mem, owner, root, sp, Path(v, 0), 0);
    SetLeaf(mem, owner, root, sp, v, p, f, mem');
    assert Keeps(mem, owner, mem', owner', root, lo, hi, ex);
    OneChanged(mem, owner, spaces, mem', owner', WithLeaf(sp, v, p), root, lo, hi, ex);
    OnlyClose(mem, owner, spaces, mem', owner', WithLeaf(sp, v, p), root, lo, hi, ex);
    PoolSame(free, owner, owner', spaces, spaces[root := WithLeaf(sp, v, p)]);
  }

  ghost predicate MoreNodes(sp: Space, sp': Space) {
    sp'.flat == sp.flat && sp'.user == sp.user
    && forall s :: s in sp.node ==> s in sp'.node && sp'.node[s] == sp.node[s]
  }

  lemma OnlySelf<C>(mem: map<nat, Page<C>>, owner: map<nat, Owner>, spaces: map<nat, Space>, root: nat, lo: nat,
                    hi: nat, ex: set<nat>)
    requires AllOk(mem, owner, spaces) && root in spaces
    ensures Only(mem, owner, spaces, mem, owner, spaces, root, lo, hi, ex)
  {
  }

  /** A page whose page-table page is missing at some level is not mapped. */
  lemma Missing<C>(mem: map<nat, Page<C>>, owner: map<nat, Owner>, root: nat, sp: Space, v: nat, l: nat)
    requires SpaceOk(mem, owner, root, sp) && l < 3 && Path(v, l) !in sp.node
    ensures v !in sp.flat
  {
    assert Key(0);
    assert v in sp.flat ==> Path(v, 0) in sp.node;
  }

  predicate Between(lo: nat, x: nat, hi: nat) { lo <= x < hi }

  lemma OnlyWiden<C>(m1: map<nat, Page<C>>, o1: map<nat, Owner>, s1: map<nat, Space>, m2: map<nat, Page<C>>,
                     o2: map<nat, Owner>, s2: map<nat, Space>,
                     root: nat, lo: nat, hi: nat, ex: set<nat>, lo': nat, hi': nat, ex': set<nat>)
    requires Only(m1, o1, s1, m2, o2, s2, root, lo, hi, ex) && ex <= ex' && (lo < hi ==> lo' <= lo && hi <= hi')
    ensures Only(m1, o1, s1, m2, o2, s2, root, lo', hi', ex')
  {
    assert KeyKeeps(0);
  }

  /** Exempted frames that were free or of this space, and are again, need no exemption. */
  lemma OnlyDrop<C>(m1: map<nat, Page<C>>, o1: map<nat, Owner>, s1: map<nat, Space>, m2: map<nat, Page<C>>,
                    o2: map<nat, Owner>, s2: map<nat, Space>,
                    root: nat, lo: nat, hi: nat, ex: set<nat>)
    requires Only(m1, o1, s1, m2, o2, s2, root, lo, hi, ex)
    requires forall f :: f in ex && f in o1 ==> f in o2 && !Protected(o1[f], root, lo, hi) && !Foreign(o2[f], root)
    ensures Only(m1, o1, s1, m2, o2, s2, root, lo, hi, {})
  {
    assert KeyKeeps(0);
  }

  lemma OnlyIn<C>(m1: map<nat, Page<C>>, o1: map<nat, Owner>, s1: map<nat, Space>, m2: map<nat, Page<C>>,
                  o2: map<nat, Owner>, s2: map<nat, Space>,
                  root: nat, lo: nat, hi: nat, f: nat, ex: set<nat>)
    requires Only(m1, o1, s1, m2, o2, s2, root, lo, hi, {f}) && (f in o1 ==> f in ex)
    ensures Only(m1, o1, s1, m2, o2, s2, root, lo, hi, ex)
  {
    assert KeyKeeps(0);
  }

  lemma OnlyKept<C>(m1: map<nat, Page<C>>, o1: map<nat, Owner>, s1: map<nat, Space>, m2: map<nat, Page<C>>,
                    o2: map<nat, Owner>, s2: map<nat, Space>,
                    root: nat, ex: set<nat>)
    requires Only(m1, o1, s1, m2, o2, s2, root, 0, 0, ex)
    requires forall f :: f in ex && f in o1 ==> f in o2 && o2[f] == o1[f] && f in m1 && f in m2 && m2[f] == m1[f]
    ensures Only(m1, o1, s1, m2, o2, s2, root, 0, 0, {})
  {
    assert KeyKeeps(0);
  }

  /** A protected frame, looked up. */
  lemma OnlyAt<C>(m1: map<nat, Page<C>>, o1: map<nat, Owner>, s1: map<nat, Space>, m2: map<nat, Page<C>>,
                  o2: map<nat, Owner>, s2: map<nat, Space>,
                  root: nat, lo: nat, hi: nat, ex: set<nat>, f: nat)
    requires Only(m1, o1, s1, m2, o2, s2, root, lo, hi, ex) && f in o1 && f !in ex && Protected(o1[f], root, lo, hi)
    ensures f in o2 && o2[f] == o1[f] && f in m1 && f in m2 && m2[f] == m1[f]
  {
    assert KeyKeeps(0);
  }

  /** `n` consecutive pages mapped to `n` consecutive frames. */
  function MapRange(flat: map<nat, Pte>, v: nat, n: nat, frame: nat, flags: Flags): (r: map<nat, Pte>) {
    if n == 0 then flat else MapRange(flat, v, n - 1, frame, flags)[v + n - 1 := Refers(frame + n - 1, flags)]
  }

  /** The map changes on exactly that range. */
  lemma {:induction false} MapRangeAt(flat: map<nat, Pte>, v: nat, n: nat, frame: nat, flags: Flags, w: nat)
    ensures v <= w < v + n ==>
              w in MapRange(flat, v, n, frame, flags)
              && MapRange(flat, v, n, frame, flags)[w] == Refers(frame + (w - v), flags)
    ensures !(v <= w < v + n) ==>
              (w in MapRange(flat, v, n, frame, flags) <==> w in flat)
              && (w in flat ==> MapRange(flat, v, n, frame, flags)[w] == flat[w])
  {
    if n > 0 {
      MapRangeAt(flat, v, n - 1, frame, flags, w);
    }
  }

  /** Of the frames handed to `mappages`, the first `i` now belong to their pages, the rest are still in hand. */
  ghost predicate CarriedAll<C>(mem0: map<nat, Page<C>>, owner0: map<nat, Owner>, mem: map<nat, Page<C>>,
                                owner: map<nat, Owner>,
                                root: nat, sp: Space, v: nat, n: nat, frame: nat, i: nat)
  {
    forall x: nat {:trigger owner0[x]} {:trigger owner[x]} ::
      Between(frame, x, frame + n) && x in owner0 && owner0[x] == Held ==>
      && x in owner && x in mem && x in mem0 && mem[x] == mem0[x]
      && owner[x] == if x < frame + i && Owns(sp, v + (x - frame)) then Leaf(root, v + (x - frame)) else Held
  }

  predicate KeyCarry(u: int) { true }

  ghost predicate Carried<C>(mem0: map<nat, Page<C>>, owner0: map<nat, Owner>, mem: map<nat, Page<C>>,
                             owner: map<nat, Owner>,
                             root: nat, sp: Space, v: nat, n: nat, frame: nat, i: nat)
  {
    forall u {:trigger KeyCarry(u)} :: KeyCarry(u) ==> CarriedAll(mem0, owner0, mem, owner, root, sp, v, n, frame, i)
  }

  lemma CarryStart<C>(mem: map<nat, Page<C>>, owner: map<nat, Owner>, spaces: map<nat, Space>, root: nat, sp: Space,
                      v: nat, n: nat, frame: nat)
    requires AllOk(mem, owner, spaces)
    ensures Carried(mem, owner, mem, owner, root, sp, v, n, frame, 0)
  {
  }

  /** The caller holds the frames for the pages that will own them. */
  ghost predicate InHand(owner: map<nat, Owner>, sp: Space, v: nat, n: nat, frame: nat) {
    forall w: nat :: Between(v, w, v + n) && Owns(sp, w) ==> frame + (w - v) in owner && owner[frame + (w - v)] == Held
  }

  ghost function Span(owner: map<nat, Owner>, frame: nat, n: nat): (r: set<nat>) {
    set f | f in owner && Between(frame, f, frame + n)
  }

  lemma HandAt<C>(mem0: map<nat, Page<C>>, owner0: map<nat, Owner>, mem: map<nat, Page<C>>, owner: map<nat, Owner>,
                  root: nat, sp0: Space, sp: Space, v: nat, n: nat, frame: nat, i: nat)
    requires InHand(owner0, sp0, v, n, frame) && Carried(mem0, owner0, mem, owner, root, sp, v, n, frame, i) && i < n
             && sp.user == sp0.user
    ensures Owns(sp, v + i) ==> frame + i in owner && owner[frame + i] == Held
  {
    assert KeyCarry(0) && Between(v, v + i, v + n) && Between(frame, frame + i, frame + n);
    assert Owns(sp, v + i) == Owns(sp0, v + i);
    assert Owns(sp0, v + i) ==> owner0[frame + i] == Held;
  }

  lemma Carry<C>(mem0: map<nat, Page<C>>, owner0: map<nat, Owner>, m1: map<nat, Page<C>>, o1: map<nat, Owner>,
                 s1: map<nat, Space>,
                 m2: map<nat, Page<C>>, o2: map<nat, Owner>, s2: map<nat, Space>,
                 root: nat, v: nat, n: nat, frame: nat, i: nat, ok: bool)
    requires Only(m1, o1, s1, m2, o2, s2, root, 0, 0, {frame + i}) && i < n
    requires Carried(mem0, owner0, m1, o1, root, s1[root], v, n, frame, i)
    requires frame + i in o1 && o1[frame + i] == Held ==>
               frame + i in o2 && frame + i in m2 && frame + i in m1 && m2[frame + i] == m1[frame + i]
               && o2[frame + i] == if ok && Owns(s2[root], v + i) then Leaf(root, v + i) else Held
    ensures Carried(mem0, owner0, m2, o2, root, s2[root], v, n, frame, if ok then i + 1 else i)
  {
    assert KeyKeeps(0) && KeyCarry(0);
  }

  lemma CarryOn<C>(m0: map<nat, Page<C>>, o0: map<nat, Owner>, s0: map<nat, Space>, m1: map<nat, Page<C>>,
                   o1: map<nat, Owner>, s1: map<nat, Space>,
                   m2: map<nat, Page<C>>, o2: map<nat, Owner>, s2: map<nat, Space>,
                   root: nat, v: nat, n: nat, frame: nat, i: nat, ok: bool, ex: set<nat>)
    requires Only(m0, o0, s0, m1, o1, s1, root, 0, 0, ex) && Only(m1, o1, s1, m2, o2, s2, root, 0, 0, {frame + i})
             && i < n
    requires ex == Span(o0, frame, n) && Carried(m0, o0, m1, o1, root, s1[root], v, n, frame, i)
    requires frame + i in o1 && o1[frame + i] == Held ==>
               frame + i in o2 && frame + i in m2 && frame + i in m1 && m2[frame + i] == m1[frame + i]
               && o2[frame + i] == if ok && Owns(s2[root], v + i) then Leaf(root, v + i) else Held
    ensures Only(m0, o0, s0, m2, o2, s2, root, 0, 0, ex)
    ensures Carried(m0, o0, m2, o2, root, s2[root], v, n, frame, if ok then i + 1 else i)
  {
    assert Between(frame, frame + i, frame + n);
    OnlyIn(m1, o1, s1, m2, o2, s2, root, 0, 0, frame + i, ex);
    OnlyTrans(m0, o0, s0, m1, o1, s1, m2, o2, s2, root, 0, 0, ex);
    Carry(m0, o0, m1, o1, s1, m2, o2, s2, root, v, n, frame, i, ok);
  }

  /** Changing one frame, as `kalloc`, `kfree` or `memset` do. */
  lemma OnlyFrame<C>(mem: map<nat, Page<C>>, owner: map<nat, Owner>, spaces: map<nat, Space>, root: nat, lo: nat,
                     hi: nat, f: nat, o: Owner, p: Page<C>)
    requires AllOk(mem, owner, spaces) && root in spaces && f in owner
    ensures Only(mem, owner, spaces, mem[f := p], owner[f := o], spaces, root, lo, hi, {f})
  {
  }

  /** The flat map without `n` pages from `v` on. */
  function Without(flat: map<nat, Pte>, v: nat, n: nat): (r: map<nat, Pte>) {
    map w | w in flat && !(v <= w < v + n) :: flat[w]
  }

  lemma WithoutNext(flat: map<nat, Pte>, v: nat, n: nat)
    ensures Without(flat, v, n) - {v + n} == Without(flat, v, n + 1) && Without(flat, v, 0) == flat
  {
  }

  /** A frame taken from the pool and put to use by this space was nobody's before. */
  lemma OnlyFresh<C>(m1: map<nat, Page<C>>, o1: map<nat, Owner>, s1: map<nat, Space>, m2: map<nat, Page<C>>,
                     o2: map<nat, Owner>, s2: map<nat, Space>,
                     root: nat, g: nat)
    requires Only(m1, o1, s1, m2, o2, s2, root, 0, 0, {g}) && g in o1 && g in o2 && o1[g] == Free
             && !Foreign(o2[g], root)
    ensures Only(m1, o1, s1, m2, o2, s2, root, 0, 0, {})
  {
    assert KeyKeeps(0);
  }

  // ---- Growing a space ----

  const PGSIZE := 4096

  /** PGROUNDUP(sz) / PGSIZE. */
  function Pages(sz: nat): (r: nat)
    ensures sz <= r * PGSIZE < sz + PGSIZE
  {
    (sz + PGSIZE - 1) / PGSIZE
  }

  lemma WholePages(p: nat)
    ensures Pages(p * PGSIZE) == p
  {
  }

  /** Exactly the pages [lo, hi) are new, all with these flags. */
  ghost predicate Grown(flat0: map<nat, Pte>, flat: map<nat, Pte>, lo: nat, hi: nat, flags: Flags) {
    && (forall w :: w in flat <==> w in flat0 || lo <= w < hi)
    && (forall w :: w in flat && !(lo <= w < hi) ==> flat[w] == flat0[w])
    && (forall w :: w in flat && lo <= w < hi ==> flat[w].Refers? && flat[w].flags == flags)
  }

  lemma GrownNext(flat0: map<nat, Pte>, flat: map<nat, Pte>, lo: nat, p: nat, flags: Flags, g: nat)
    requires Grown(flat0, flat, lo, p, flags) && lo <= p
    ensures Grown(flat0, flat[p := Refers(g, flags)], lo, p + 1, flags)
  {
  }

  /** The flat map without the pages [lo, hi). */
  function Cut(flat: map<nat, Pte>, lo: nat, hi: nat): (r: map<nat, Pte>) {
    map w | w in flat && !(lo <= w < hi) :: flat[w]
  }

  lemma GrownBack(flat0: map<nat, Pte>, flat: map<nat, Pte>, lo: nat, p: nat, flags: Flags)
    requires Grown(flat0, flat, lo, p, flags) && forall w :: w in flat0 ==> !(lo <= w < p)
    ensures Cut(flat, lo, p) == flat0
  {
  }

  /** The frames of the pages [lo, hi) hold `content`. */
  ghost predicate Filled<C>(mem: map<nat, Page<C>>, flat: map<nat, Pte>, lo: nat, hi: nat, content: Page<C>) {
    forall w {:trigger flat[w]} :: w in flat && lo <= w < hi ==>
      flat[w].Refers? && flat[w].frame in mem && mem[flat[w].frame] == content
  }

  /** The frames of a space's pages keep their contents while it grows. */
  lemma StillThere<C>(m1: map<nat, Page<C>>, o1: map<nat, Owner>, s1: map<nat, Space>, m2: map<nat, Page<C>>,
                      o2: map<nat, Owner>, s2: map<nat, Space>,
                      root: nat, r: nat, w: nat)
    requires Only(m1, o1, s1, m2, o2, s2, root, 0, 0, {}) && r in s1 && SpaceOk(m1, o1, r, s1[r]) && w in s1[r].flat
             && Owns(s1[r], w)
    ensures s1[r].flat[w].Refers?
    ensures var f := s1[r].flat[w].frame;
            f in o1 && f in o2 && f in m1 && f in m2 && m2[f] == m1[f] && o1[f] == Leaf(r, w) && o2[f] == o1[f]
  {
    LeafAt(m1, o1, r, s1[r], w);
    OnlyAt(m1, o1, s1, m2, o2, s2, root, 0, 0, {}, s1[r].flat[w].frame);
  }

  lemma FilledNext<C>(m1: map<nat, Page<C>>, o1: map<nat, Owner>, s1: map<nat, Space>, m2: map<nat, Page<C>>,
                      o2: map<nat, Owner>, s2: map<nat, Space>,
                      root: nat, lo: nat, p: nat, q: nat, g: nat, flags: Flags, content: Page<C>)
    requires Only(m1, o1, s1, m2, o2, s2, root, 0, 0, {}) && SpaceOk(m1, o1, root, s1[root]) && s1[root].user
    requires Filled(m1, s1[root].flat, lo, p, content) && p < TRAPFRAME && q == p + 1
    requires g in m2 && m2[g] == content && s2[root].flat == s1[root].flat[p := Refers(g, flags)]
    ensures Filled(m2, s2[root].flat, lo, q, content)
  {
    forall w | w in s2[root].flat && lo <= w < q && w != p
      ensures s1[root].flat[w].Refers? && s1[root].flat[w].frame in m2 && m2[s1[root].flat[w].frame] == content {
      StillThere(m1, o1, s1, m2, o2, s2, root, root, w);
    }
  }

  lemma FilledSame<C>(m1: map<nat, Page<C>>, o1: map<nat, Owner>, s1: map<nat, Space>, m2: map<nat, Page<C>>,
                      o2: map<nat, Owner>, s2: map<nat, Space>,
                      root: nat, lo: nat, p: nat, content: Page<C>)
    requires Only(m1, o1, s1, m2, o2, s2, root, 0, 0, {}) && SpaceOk(m1, o1, root, s1[root]) && s1[root].user
             && p <= TRAPFRAME
    requires Filled(m1, s1[root].flat, lo, p, content) && s2[root].flat == s1[root].flat
    ensures Filled(m2, s2[root].flat, lo, p, content)
  {
    forall w | w in s2[root].flat && lo <= w < p
      ensures s1[root].flat[w].Refers? && s1[root].flat[w].frame in m2 && m2[s1[root].flat[w].frame] == content {
      StillThere(m1, o1, s1, m2, o2, s2, root, root, w);
    }
  }

  lemma OnlyNarrow<C>(m1: map<nat, Page<C>>, o1: map<nat, Owner>, s1: map<nat, Space>, m2: map<nat, Page<C>>,
                      o2: map<nat, Owner>, s2: map<nat, Space>,
                      root: nat, lo: nat, hi: nat)
    requires Only(m1, o1, s1, m2, o2, s2, root, lo, hi, {}) && SpaceOk(m1, o1, root, s1[root])
    requires forall w :: w in s1[root].flat ==> !(lo <= w < hi)
    ensures Only(m1, o1, s1, m2, o2, s2, root, 0, 0, {})
  {
    assert KeyKeeps(0) && Key(0);
  }

  lemma {:induction false} PageFrames<C>(mem: map<nat, Page<C>>, owner: map<nat, Owner>, root: nat, sp: Space, p: nat)
    returns (s: set<nat>)
    requires SpaceOk(mem, owner, root, sp) && sp.user && p <= TRAPFRAME && forall w :: 0 <= w < p ==> w in sp.flat
    ensures |s| == p && s <= owner.Keys && forall f :: f in s ==> owner[f].Leaf? && owner[f].page < p
  {
    s := {};
    if p > 0 {
      s := PageFrames(mem, owner, root, sp, p - 1);
      LeafAt(mem, owner, root, sp, p - 1);
      s := s + {sp.flat[p - 1].frame};
    }
  }

  /** With fewer frames than user pages, a space cannot have every page below TRAPFRAME mapped. */
  lemma Pigeonhole<C>(mem: map<nat, Page<C>>, owner: map<nat, Owner>, root: nat, sp: Space, p: nat)
    requires SpaceOk(mem, owner, root, sp) && sp.user && p <= TRAPFRAME && forall w :: 0 <= w < p ==> w in sp.flat
    ensures p <= |owner|
  {
    var s := PageFrames(mem, owner, root, sp, p);
    SmallerSet(s, owner.Keys);
    assert |owner.Keys| == |owner|;
  }

  /**
   The pages from `lo` to `hi` can be added without meeting a mapped page: nothing is mapped from `lo`
   to TRAPFRAME, and either `hi` stays below it or, everything below `lo` being mapped, memory runs
   out first.
   */
  ghost predicate Room(sp: Space, frames: nat, lo: nat, hi: nat) {
    && sp.user && lo <= TRAPFRAME && (forall w :: w in sp.flat ==> w < lo || w >= TRAPFRAME)
    && (hi <= TRAPFRAME || (frames < TRAPFRAME && forall w :: 0 <= w < lo ==> w in sp.flat))
  }

  lemma RoomAt<C>(mem: map<nat, Page<C>>, owner: map<nat, Owner>, root: nat, sp0: Space, sp: Space, lo: nat, p: nat,
                  hi: nat, flags: Flags)
    requires SpaceOk(mem, owner, root, sp) && Room(sp0, |owner|, lo, hi) && Grown(sp0.flat, sp.flat, lo, p, flags)
             && sp.user
    requires lo <= p < hi && p <= TRAPFRAME
    ensures p < TRAPFRAME && p !in sp.flat
  {
    if hi > TRAPFRAME {
      Pigeonhole(mem, owner, root, sp, p);
    }
  }

  lemma SameSize(o0: map<nat, Owner>, o1: map<nat, Owner>, o2: map<nat, Owner>)
    requires o1.Keys == o0.Keys && o2.Keys == o0.Keys
    ensures |o1| == |o2|
  {
    assert |o1.Keys| == |o1| && |o2.Keys| == |o2|;
  }

  // ---- Copying a space ----

  /** Page `w` of one space has the flags and the bytes of page `w` of another. */
  ghost predicate SamePage<C>(mem: map<nat, Page<C>>, from: map<nat, Pte>, to: map<nat, Pte>, w: nat) {
    && w in from && w in to && from[w].Refers? && to[w].Refers? && to[w].flags == from[w].flags
    && from[w].frame in mem && to[w].frame in mem && mem[to[w].frame] == mem[from[w].frame]
  }

  /** The pages of `from` below `p` have been copied into `to`, which was `to0`. */
  ghost predicate Copied<C>(mem: map<nat, Page<C>>, from: map<nat, Pte>, to0: map<nat, Pte>, to: map<nat, Pte>,
                            p: nat) {
    && (forall w :: w in to <==> w in to0 || (w < p && w in from))
    && (forall w :: w in to && w >= p ==> to[w] == to0[w])
    && (forall w :: w in from && w < p ==> SamePage(mem, from, to, w))
  }

  lemma CopiedNext<C>(m1: map<nat, Page<C>>, o1: map<nat, Owner>, s1: map<nat, Space>, m2: map<nat, Page<C>>,
                      o2: map<nat, Owner>, s2: map<nat, Space>,
                      from: nat, to: nat, to0: map<nat, Pte>, p: nat, q: nat, g: nat)
    requires Only(m1, o1, s1, m2, o2, s2, to, 0, 0, {}) && from in s1 && from != to && q == p + 1 <= TRAPFRAME
    requires SpaceOk(m1, o1, from, s1[from]) && SpaceOk(m1, o1, to, s1[to]) && s1[from].user && s1[to].user
    requires Copied(m1, s1[from].flat, to0, s1[to].flat, p) && p in s1[from].flat && s1[from].flat[p].Refers?
             && s1[from].flat[p].frame in m1
    requires g in m2 && m2[g] == m1[s1[from].flat[p].frame]
             && s2[to].flat == s1[to].flat[p := Refers(g, s1[from].flat[p].flags)]
    ensures Copied(m2, s2[from].flat, to0, s2[to].flat, q)
  {
    forall w | w in s2[from].flat && w < q ensures SamePage(m2, s2[from].flat, s2[to].flat, w) {
      StillThere(m1, o1, s1, m2, o2, s2, to, from, w);
      if w < p {
        assert SamePage(m1, s1[from].flat, s1[to].flat, w);
        StillThere(m1, o1, s1, m2, o2, s2, to, to, w);
      }
    }
  }

  lemma CopiedSame<C>(m1: map<nat, Page<C>>, o1: map<nat, Owner>, s1: map<nat, Space>, m2: map<nat, Page<C>>,
                      o2: map<nat, Owner>, s2: map<nat, Space>,
                      from: nat, to: nat, to0: map<nat, Pte>, p: nat)
    requires Only(m1, o1, s1, m2, o2, s2, to, 0, 0, {}) && from in s1 && from != to && p <= TRAPFRAME
    requires SpaceOk(m1, o1, from, s1[from]) && SpaceOk(m1, o1, to, s1[to]) && s1[from].user && s1[to].user
    requires Copied(m1, s1[from].flat, to0, s1[to].flat, p) && s2[to].flat == s1[to].flat
    ensures Copied(m2, s2[from].flat, to0, s2[to].flat, p)
  {
    forall w | w in s2[from].flat && w < p ensures SamePage(m2, s2[from].flat, s2[to].flat, w) {
      assert SamePage(m1, s1[from].flat, s1[to].flat, w);
      StillThere(m1, o1, s1, m2, o2, s2, to, from, w);
      StillThere(m1, o1, s1, m2, o2, s2, to, to, w);
    }
  }

  lemma CopiedBack<C>(mem: map<nat, Page<C>>, from: map<nat, Pte>, to0: map<nat, Pte>, to: map<nat, Pte>, p: nat)
    requires Copied(mem, from, to0, to, p) && forall w :: w in to0 ==> w >= p
    ensures Without(to, 0, p) == to0
  {
  }

  // ---- Making and unmaking a space ----

  /** The root of a live space is not a free frame, nor does a free frame belong to a space. */
  lemma NotARoot<C>(mem: map<nat, Page<C>>, owner: map<nat, Owner>, spaces: map<nat, Space>, free: seq<nat>, g: nat)
    requires PoolOk(free, owner, spaces) && AllOk(mem, owner, spaces) && g in owner && owner[g] == Held
    ensures g !in spaces
    ensures forall f :: f in owner ==> !((owner[f].Node? || owner[f].Leaf?) && owner[f].space == g)
  {
    assert KeyPool(0);
    if g in spaces {
      NodeAt(mem, owner, g, spaces[g], Spot(2, 0), 0);
    }
  }

  lemma SpaceAdded<C>(mem: map<nat, Page<C>>, owner: map<nat, Owner>, spaces: map<nat, Space>, free: seq<nat>, g: nat,
                      user: bool,
                      mem': map<nat, Page<C>>, owner': map<nat, Owner>, spaces': map<nat, Space>)
    requires PoolOk(free, owner, spaces) && AllOk(mem, owner, spaces) && g in owner && owner[g] == Held
    requires mem' == mem[g := Table(Zeros())] && owner' == owner[g := Node(g, Spot(2, 0))]
             && spaces' == spaces[g := Blank(user, g)]
    ensures g !in spaces && PoolOk(free, owner', spaces') && AllOk(mem', owner', spaces')
  {
    NotARoot(mem, owner, spaces, free, g);
    NewSpace(mem, owner, g, user);
    assert Keeps(mem, owner, mem', owner', g, 0, 0, {g});
    forall r | r in spaces ensures SpaceOk(mem', owner', r, spaces[r]) {
      OtherSpace(mem, owner, mem', owner', g, 0, 0, {g}, r, spaces[r]);
    }
    PoolSame(free, owner, owner', spaces, spaces');
  }

  lemma SpaceGone<C>(mem: map<nat, Page<C>>, owner: map<nat, Owner>, spaces: map<nat, Space>, free: seq<nat>, root: nat,
                     owner': map<nat, Owner>)
    requires PoolOk(free, owner, spaces) && AllOk(mem, owner, spaces) && root in spaces
    requires Barren(spaces[root], Spot(2, 0), ENTRIES) && spaces[root].flat == map[] && owner' == owner[root := Held]
    ensures root in owner && PoolOk(free, owner', spaces - {root}) && AllOk(mem, owner', spaces - {root})
    ensures Keeps(mem, owner, mem, owner', root, 0, 0, {root})
  {
    OnlyRoot(mem, owner, root, spaces[root]);
    forall r | r in spaces && r != root ensures SpaceOk(mem, owner', r, spaces[r]) {
      OtherSpace(mem, owner, mem, owner', root, 0, 0, {root}, r, spaces[r]);
    }
    assert KeyPool(0);
  }

  /** Page-table pages below level `l` may have gone, no others. */
  ghost predicate FewerNodes(sp: Space, sp': Space, l: nat) {
    && sp'.flat == sp.flat && sp'.user == sp.user
    && (forall s :: s in sp'.node ==> s in sp.node && sp'.node[s] == sp.node[s])
    && (forall s :: s in sp.node && s.level >= l ==> s in sp'.node)
  }

  lemma BarrenStill(sp: Space, sp': Space, s: Spot, n: nat, l: nat)
    requires FewerNodes(sp, sp', l) && Barren(sp, s, n)
    ensures Barren(sp', s, n)
  {
    forall j | 0 <= j < n ensures Entry(sp', s, j) == Invalid {
      assert Entry(sp, s, j) == Invalid;
    }
  }

  lemma BarrenNext(sp: Space, s: Spot, i: nat, c: Spot)
    requires Barren(sp, s, i) && s.level > 0 && c == Child(s, i)
    ensures Barren(SansNode(sp, c), s, i + 1)
  {
    forall j | 0 <= j < i + 1 ensures Entry(SansNode(sp, c), s, j) == Invalid {
      assert j < i ==> Entry(sp, s, j) == Invalid;
    }
  }

  lemma PruneAll<C>(mem: map<nat, Page<C>>, owner: map<nat, Owner>, spaces: map<nat, Space>, free: seq<nat>, root: nat,
                    s: Spot, j: nat,
                    f: nat, c: Spot, g: nat, mem': map<nat, Page<C>>, owner': map<nat, Owner>, spaces': map<nat, Space>)
    requires PoolOk(free, owner, spaces) && AllOk(mem, owner, spaces) && root in spaces
    requires s in spaces[root].node && s.level > 0 && j < ENTRIES && f == spaces[root].node[s]
    requires c == Child(s, j) && c in spaces[root].node && g == spaces[root].node[c] && Barren(spaces[root], c, ENTRIES)
    requires f in mem && mem[f].Table? && |mem[f].ptes| == ENTRIES
    requires mem' == mem[f := Table(mem[f].ptes[j := Invalid])] && owner' == owner[g := Held]
    requires spaces' == spaces[root := SansNode(spaces[root], c)]
    ensures g in owner && owner[g] == Node(root, c) && PoolOk(free, owner', spaces') && AllOk(mem', owner', spaces')
    ensures Only(mem, owner, spaces, mem', owner', spaces', root, 0, 0, {g})
  {
    var sp := spaces[root];
    DropNode(mem, owner, root, sp, s, j, f, c, g, mem', owner');
    NodeAt(mem, owner, root, sp, s, j);
    assert Keeps(mem, owner, mem', owner', root, 0, 0, {g});
    OneChanged(mem, owner, spaces, mem', owner', SansNode(sp, c), root, 0, 0, {g});
    OnlyClose(mem, owner, spaces, mem', owner', SansNode(sp, c), root, 0, 0, {g});
    PoolSame(free, owner, owner', spaces, spaces');
  }

  predicate Of(o: Owner, root: nat) { (o.Node? || o.Leaf?) && o.space == root }

  /** Every frame of a space back in the pool. */
  ghost function Release(owner: map<nat, Owner>, root: nat): (r: map<nat, Owner>) {
    map f | f in owner :: if Of(owner[f], root) then Free else owner[f]
  }

  /** Space `root` and nothing else is gone, and its frames are free. */
  ghost predicate Gone<C>(mem: map<nat, Page<C>>, owner: map<nat, Owner>, spaces: map<nat, Space>,
                          mem': map<nat, Page<C>>, owner': map<nat, Owner>, spaces': map<nat, Space>, root: nat)
  {
    && spaces' == spaces - {root} && owner' == Release(owner, root)
    && forall f {:trigger mem'[f]} {:trigger owner[f]} :: f in owner && Foreign(owner[f], root) ==>
      f in mem && f in mem' && mem'[f] == mem[f]
  }

  lemma ReleaseIs(o0: map<nat, Owner>, o2: map<nat, Owner>, root: nat)
    requires o2.Keys == o0.Keys && forall f :: f in o0 ==> o2[f] == if Of(o0[f], root) then Free else o0[f]
    ensures o2 == Release(o0, root)
  {
  }

  /** Once a space is gone, its frames can only be free. */
  lemma AllReleased<C>(m0: map<nat, Page<C>>, o0: map<nat, Owner>, s0: map<nat, Space>, m1: map<nat, Page<C>>,
                       o1: map<nat, Owner>, s1: map<nat, Space>,
                       m2: map<nat, Page<C>>, o2: map<nat, Owner>, s2: map<nat, Space>, free: seq<nat>, root: nat,
                       hi: nat)
    requires Only(m0, o0, s0, m1, o1, s1, root, 0, hi, {}) && s2 == s1 - {root} && root in o1
    requires o1[root] == Node(root, Spot(2, 0)) && o2 == o1[root := Free] && o2.Keys <= m2.Keys
    requires forall f :: f in o1 && f != root ==> f in m2 && f in m1 && m2[f] == m1[f]
    requires PoolOk(free, o2, s2)
    ensures Gone(m0, o0, s0, m2, o2, s2, root)
  {
    assert KeyKeeps(0) && KeyPool(0);
    forall f | f in o0 ensures o2[f] == if Of(o0[f], root) then Free else o0[f] {
    }
    ReleaseIs(o0, o2, root);
  }

  /** Writing to the frame of a page disturbs no page table. */
  lemma WriteLeaf<C>(mem: map<nat, Page<C>>, owner: map<nat, Owner>, spaces: map<nat, Space>, root: nat, f: nat, w: nat,
                     hi: nat, content: Page<C>)
    requires AllOk(mem, owner, spaces) && root in spaces && f in owner && owner[f] == Leaf(root, w) && w < hi
    ensures AllOk(mem[f := content], owner, spaces)
    ensures Only(mem, owner, spaces, mem[f := content], owner, spaces, root, 0, hi, {})
  {
    var mem' := mem[f := content];
    forall r | r in spaces ensures SpaceOk(mem', owner, r, spaces[r]) {
      WriteOne(mem, owner, r, spaces[r], f, content);
    }
    assert Keeps(mem, owner, mem', owner, root, 0, hi, {});
  }

  lemma WriteOne<C>(mem: map<nat, Page<C>>, owner: map<nat, Owner>, root: nat, sp: Space, f: nat, content: Page<C>)
    requires SpaceOk(mem, owner, root, sp) && f in owner && owner[f].Leaf?
    ensures SpaceOk(mem[f := content], owner, root, sp)
  {
    assert Key(0);
    forall s | s in sp.node ensures TableAt(mem[f := content], sp, s, sp.node[s]) {
      assert owner[sp.node[s]] == Node(root, s);
    }
    Close(mem[f := content], owner, root, sp);
  }

  class Machine<C> {
    const zero: C
    const junk: C
    /** The free list, head first. */
    var free: seq<nat>
    /** The contents of every frame of the pool. */
    var mem: map<nat, Page<C>>
    /** The use of every frame of the pool. */
    ghost var owner: map<nat, Owner>
    /** The meaning of each page table, by the frame of its root. */
    ghost var spaces: map<nat, Space>

    ghost predicate Valid() reads this {
      PoolOk(free, owner, spaces) && AllOk(mem, owner, spaces)
    }

    /** `kinit`: frees each frame of the range [first, last) in turn. */
    constructor (zero: C, junk: C, first: nat, last: nat)
      requires first <= last
      ensures Valid() && spaces == map[] && this.zero == zero
      ensures forall f :: f in owner <==> first <= f < last
      ensures forall f :: f in owner ==> owner[f] == Free
    {
      this.zero, this.junk, free := zero, junk, [];
      mem := map f: nat | first <= f < last && Between(first, f, last) :: Data(junk);
      owner := map f: nat | first <= f < last && Between(first, f, last) :: Held;
      spaces := map[];
      new;
      var p := first;
      while p < last
        invariant first <= p <= last && Valid() && spaces == map[]
        invariant forall f :: f in owner <==> first <= f < last
        invariant forall f :: f in owner ==> owner[f] == if f < p then Free else Held
      {
        Kfree(p);
        p := p + 1;
      }
    }

    /** Takes the first free frame. */
    method Kalloc() returns (f: Option<nat>)
      requires Valid()
      modifies this`free, this`mem, this`owner
      ensures Valid()
      ensures f.None? <==> old(free) == []
      ensures f.None? ==> unchanged(this)
      ensures f.Some? ==> f.value in old(owner) && old(owner)[f.value] == Free && owner == old(owner)[f.value := Held]
      ensures f.Some? ==> mem == old(mem)[f.value := Data(junk)] && old(free) == [f.value] + free
    {
      if |free| == 0 {
        return None;
      }
      var r := free[0];
      PoolTake(free, owner, spaces);
      LooseAll(mem, owner, spaces, r, Held, Data(junk));
      free, mem, owner := free[1..], mem[r := Data(junk)], owner[r := Held];
      return Some(r);
    }

    /** Puts a frame that nothing refers to back at the head of the list. */
    method Kfree(f: nat)
      requires Valid() && f in owner && owner[f] == Held
      modifies this`free, this`mem, this`owner
      ensures Valid() && free == [f] + old(free) && owner == old(owner)[f := Free] && mem == old(mem)[f := Data(junk)]
    {
      PoolGive(free, owner, spaces, f);
      LooseAll(mem, owner, spaces, f, Free, Data(junk));
      free, mem, owner := [f] + free, mem[f := Data(junk)], owner[f := Free];
    }

    /** Hangs an empty page-table page under the one at `level`. */
    method NewTable(root: nat, v: nat, level: nat, f: nat) returns (r: Option<nat>)
      requires Valid() && root in spaces && v < MAX_PAGES && 0 < level < 3
      requires Path(v, level) in spaces[root].node && f == spaces[root].node[Path(v, level)]
               && Path(v, level - 1) !in spaces[root].node
      modifies this
      ensures Valid() && Only(old(mem), old(owner), old(spaces), mem, owner, spaces, root, 0, 0, {})
      ensures MoreNodes(old(spaces[root]), spaces[root])
      ensures r.Some? ==> Path(v, level - 1) in spaces[root].node && r.value == spaces[root].node[Path(v, level - 1)]
      ensures r.None? ==> unchanged(this) && free == []
      ensures |free| >= |old(free)| - 1
    {
      ghost var s, j, sp, c := Path(v, level), Px(v, level), spaces[root], Path(v, level - 1);
      OnlySelf(mem, owner, spaces, root, 0, 0, {});
      ghost var mem0, owner0 := mem, owner;
      r := Kalloc();
      if r.None? {
        return;
      }
      Decode(v, level);
      NodeAt(mem, owner, root, sp, s, j);
      var g, ptes := r.value, mem[f].ptes;
      ghost var mem' := mem[g := Table(Zeros())][f := Table(ptes[Px(v, level) := Refers(g, INTERIOR)])];
      ghost var owner' := owner[g := Node(root, c)];
      GrowTree(mem0, owner0, mem, owner, spaces, root, s, j, g, f, c, mem', owner', free);
      mem := mem[g := Table(Zeros())];
      mem := mem[f := Table(ptes[Px(v, level) := Refers(g, INTERIOR)])];
      owner, spaces := owner', spaces[root := WithNode(sp, c, g)];
    }

    /** One level of the walk: from the page-table page at `level` to the one below it. */
    method WalkStep(root: nat, v: nat, level: nat, f: nat, alloc: bool) returns (r: Option<nat>)
      requires Valid() && root in spaces && v < MAX_PAGES && 0 < level < 3
      requires Path(v, level) in spaces[root].node && f == spaces[root].node[Path(v, level)]
      modifies this
      ensures Valid() && Only(old(mem), old(owner), old(spaces), mem, owner, spaces, root, 0, 0, {})
      ensures MoreNodes(old(spaces[root]), spaces[root])
      ensures r.Some? ==> Path(v, level - 1) in spaces[root].node && r.value == spaces[root].node[Path(v, level - 1)]
      ensures r.None? ==> unchanged(this) && Path(v, level - 1) !in spaces[root].node && (alloc ==> free == [])
      ensures !alloc ==> unchanged(this)
      ensures |free| >= |old(free)| - 1
    {
      Decode(v, level);
      NodeAt(mem, owner, root, spaces[root], Path(v, level), Px(v, level));
      OnlySelf(mem, owner, spaces, root, 0, 0, {});
      var pte := mem[f].ptes[Px(v, level)];
      if pte.Refers? {
        return Some(pte.frame);
      } else if !alloc {
        return None;
      } else {
        r := NewTable(root, v, level, f);
      }
    }

    /** The level-0 page-table page for `v`; with `alloc`, missing pages are added on the way. */
    method Walk(root: nat, v: nat, alloc: bool) returns (r: Option<nat>)
      requires Valid() && root in spaces && v < MAX_PAGES
      modifies this
      ensures Valid() && Only(old(mem), old(owner), old(spaces), mem, owner, spaces, root, 0, 0, {})
      ensures MoreNodes(old(spaces[root]), spaces[root])
      ensures r.Some? ==> Path(v, 0) in spaces[root].node && r.value == spaces[root].node[Path(v, 0)]
      ensures r.None? ==> v !in spaces[root].flat && (alloc ==> free == [] && |old(free)| <= 1)
      ensures !alloc ==> unchanged(this)
      ensures |free| >= |old(free)| - 2
    {
      OnlySelf(mem, owner, spaces, root, 0, 0, {});
      NodeAt(mem, owner, root, spaces[root], Spot(2, 0), 0);
      Decode(v, 0);
      var level, f := 2, root;
      while level > 0
        invariant 0 <= level < 3 && Valid()
                  && Only(old(mem), old(owner), old(spaces), mem, owner, spaces, root, 0, 0, {})
        invariant MoreNodes(old(spaces[root]), spaces[root])
        invariant Path(v, level) in spaces[root].node && f == spaces[root].node[Path(v, level)]
        invariant !alloc ==> unchanged(this)
        invariant |free| >= |old(free)| - (2 - level)
      {
        ghost var mem1, owner1, spaces1 := mem, owner, spaces;
        r := WalkStep(root, v, level, f, alloc);
        OnlyTrans(old(mem), old(owner), old(spaces), mem1, owner1, spaces1, mem, owner, spaces, root, 0, 0, {});
        if r.None? {
          Missing(mem, owner, root, spaces[root], v, level - 1);
          return;
        }
        level, f := level - 1, r.value;
      }
      return Some(f);
    }

    /** Stores the leaf entry of page `v`, whose page-table page is at `f`. */
    method Store(root: nat, v: nat, f: nat, p: Pte, ghost ex: set<nat>)
      requires Valid() && root in spaces && v < MAX_PAGES
      requires Path(v, 0) in spaces[root].node && f == spaces[root].node[Path(v, 0)]
      requires p.Refers? ==> IsLeaf(p)
      requires p.Refers? && Owns(spaces[root], v) ==>
                 p.frame in owner && p.frame in ex && (owner[p.frame] == Held || owner[p.frame] == Leaf(root, v))
      requires forall x :: x in owner && owner[x] == Leaf(root, v) ==> x in ex
      requires forall x :: x in ex && x in owner ==> owner[x] == Held || owner[x] == Leaf(root, v)
      modifies this`mem, this`owner, this`spaces
      ensures Valid() && Only(old(mem), old(owner), old(spaces), mem, owner, spaces, root, 0, 0, ex)
      ensures spaces == old(spaces)[root := WithLeaf(old(spaces[root]), v, p)]
      ensures owner == Handover(old(owner), root, old(spaces[root]), v, p)
      ensures forall x :: x in owner && !old(owner)[x].Node? ==> mem[x] == old(mem)[x]
    {
      NodeAt(mem, owner, root, spaces[root], Path(v, 0), Px(v, 0));
      var ptes := mem[f].ptes[Px(v, 0) := p];
      ghost var owner' := Handover(owner, root, spaces[root], v, p);
      SetPage(mem, owner, spaces, root, v, p, f, mem[f := Table(ptes)], owner', 0, 0, ex, free);
      mem, owner, spaces := mem[f := Table(ptes)], owner', spaces[root := WithLeaf(spaces[root], v, p)];
    }

    /** One page of `mappages`. */
    method MapPage(root: nat, v: nat, frame: nat, flags: Flags) returns (ok: bool)
      requires Valid() && root in spaces && v < MAX_PAGES && v !in spaces[root].flat && IsLeaf(Refers(frame, flags))
      requires Owns(spaces[root], v) ==> frame in owner && owner[frame] == Held
      modifies this
      ensures Valid() && Only(old(mem), old(owner), old(spaces), mem, owner, spaces, root, 0, 0, {frame})
      ensures spaces[root].flat == if ok then old(spaces[root].flat)[v := Refers(frame, flags)]
              else old(spaces[root].flat)
      ensures !ok ==> free == [] && |old(free)| <= 1
      ensures |free| >= |old(free)| - 2
      ensures frame in old(owner) && old(owner)[frame] == Held ==>
                frame in owner && mem[frame] == old(mem)[frame] && owner[frame] == if ok
                && Owns(spaces[root], v) then Leaf(root, v) else Held
    {
      var r := Walk(root, v, true);
      OnlyWiden(old(mem), old(owner), old(spaces), mem, owner, spaces, root, 0, 0, {}, 0, 0, {frame});
      if frame in old(owner) && old(owner)[frame] == Held {
        OnlyAt(old(mem), old(owner), old(spaces), mem, owner, spaces, root, 0, 0, {}, frame);
      }
      if r.None? {
        return false;
      }
      NoLeaf(mem, owner, root, spaces[root], v);
      ghost var mem1, owner1, spaces1 := mem, owner, spaces;
      ghost var ex := if Owns(spaces[root], v) then {frame} else {};
      Store(root, v, r.value, Refers(frame, flags), ex);
      OnlyWiden(mem1, owner1, spaces1, mem, owner, spaces, root, 0, 0, ex, 0, 0, {frame});
      OnlyTrans(old(mem), old(owner), old(spaces), mem1, owner1, spaces1, mem, owner, spaces, root, 0, 0, {frame});
      return true;
    }

    /** `i` pages of a `mappages` call are done, counted from the state `m0`, `o0`, `s0`. */
    ghost predicate Mapping(m0: map<nat, Page<C>>, o0: map<nat, Owner>, s0: map<nat, Space>,
                            root: nat, v: nat, n: nat, frame: nat, flags: Flags, i: nat) reads this {
      && Valid() && Only(m0, o0, s0, mem, owner, spaces, root, 0, 0, Span(o0, frame, n))
      && spaces[root].flat == MapRange(s0[root].flat, v, i, frame, flags)
      && Carried(m0, o0, mem, owner, root, spaces[root], v, n, frame, i)
    }

    method MapNext(root: nat, v: nat, n: nat, frame: nat, flags: Flags, i: nat,
                   ghost m0: map<nat, Page<C>>, ghost o0: map<nat, Owner>, ghost s0: map<nat, Space>) returns (ok: bool)
      requires Mapping(m0, o0, s0, root, v, n, frame, flags, i) && i < n && v + n <= MAX_PAGES
               && IsLeaf(Refers(frame, flags))
      requires v + i !in s0[root].flat && InHand(o0, s0[root], v, n, frame)
      modifies this
      ensures Mapping(m0, o0, s0, root, v, n, frame, flags, if ok then i + 1 else i) && (!ok ==> free == [])
    {
      MapRangeAt(s0[root].flat, v, i, frame, flags, v + i);
      HandAt(m0, o0, mem, owner, root, s0[root], spaces[root], v, n, frame, i);
      ghost var mem1, owner1, spaces1 := mem, owner, spaces;
      ok := MapPage(root, v + i, frame + i, flags);
      CarryOn(m0, o0, s0, mem1, owner1, spaces1, mem, owner, spaces, root, v, n, frame, i, ok, Span(o0, frame, n));
    }

    /** Maps `n` pages from `v` on; on failure the first `k` of them stay mapped. */
    method Mappages(root: nat, v: nat, n: nat, frame: nat, flags: Flags) returns (ok: bool, ghost k: nat)
      requires Valid() && root in spaces && n > 0 && v + n <= MAX_PAGES && IsLeaf(Refers(frame, flags))
      requires forall w :: v <= w < v + n ==> w !in spaces[root].flat
      requires InHand(owner, spaces[root], v, n, frame)
      modifies this
      ensures Mapping(old(mem), old(owner), old(spaces), root, v, n, frame, flags, k)
      ensures k <= n && (ok <==> k == n) && (!ok ==> free == [])
    {
      ghost var m0, o0, s0 := mem, owner, spaces;
      OnlySelf(mem, owner, spaces, root, 0, 0, Span(owner, frame, n));
      CarryStart(mem, owner, spaces, root, spaces[root], v, n, frame);
      k := 0;
      var i := 0;
      while true
        invariant i == k < n && Mapping(m0, o0, s0, root, v, n, frame, flags, k)
        decreases n - i
      {
        ok := MapNext(root, v, n, frame, flags, i, m0, o0, s0);
        if !ok {
          return;
        }
        k := k + 1;
        if i == n - 1 {
          return;
        }
        i := i + 1;
      }
    }

    /** Clears the entry of a mapped page and, if asked to, frees its frame. */
    method Clear(root: nat, v: nat, f: nat, frame: nat, doFree: bool, ghost lo: nat, ghost hi: nat)
      requires Valid() && root in spaces && v in spaces[root].flat && spaces[root].flat[v].Refers?
               && spaces[root].flat[v].frame == frame
      requires (doFree <==> Owns(spaces[root], v)) && lo <= v < hi
      requires Path(v, 0) in spaces[root].node && f == spaces[root].node[Path(v, 0)]
      modifies this
      ensures Valid() && Only(old(mem), old(owner), old(spaces), mem, owner, spaces, root, lo, hi, {})
      ensures spaces[root] == WithLeaf(old(spaces[root]), v, Invalid)
    {
      LeafAt(mem, owner, root, spaces[root], v);
      NoOtherLeaf(mem, owner, root, spaces[root], v);
      ghost var ex := if doFree then {frame} else {};
      Store(root, v, f, Invalid, ex);
      OnlyWiden(old(mem), old(owner), old(spaces), mem, owner, spaces, root, 0, 0, ex, lo, hi, ex);
      if doFree {
        ghost var mem1, owner1, spaces1 := mem, owner, spaces;
        OnlyFrame(mem, owner, spaces, root, lo, hi, frame, Free, Data(junk));
        Kfree(frame);
        OnlyTrans(old(mem), old(owner), old(spaces), mem1, owner1, spaces1, mem, owner, spaces, root, lo, hi, ex);
      }
      OnlyDrop(old(mem), old(owner), old(spaces), mem, owner, spaces, root, lo, hi, ex);
    }

    /** One page of `uvmunmap`. */
    method UnmapPage(root: nat, v: nat, doFree: bool, ghost lo: nat, ghost hi: nat)
      requires Valid() && root in spaces && v < MAX_PAGES && lo <= v < hi
      requires v in spaces[root].flat ==> (doFree <==> Owns(spaces[root], v))
      modifies this
      ensures Valid() && Only(old(mem), old(owner), old(spaces), mem, owner, spaces, root, lo, hi, {})
      ensures spaces[root].flat == old(spaces[root].flat) - {v}
    {
      OnlySelf(mem, owner, spaces, root, lo, hi, {});
      var r := Walk(root, v, false);
      if r.None? {
        return;
      }
      SlotAt(mem, owner, root, spaces[root], v);
      var pte := mem[r.value].ptes[Px(v, 0)];
      if pte.Refers? {
        Clear(root, v, r.value, pte.frame, doFree, lo, hi);
      }
    }

    ghost predicate Unmapping(m0: map<nat, Page<C>>, o0: map<nat, Owner>, s0: map<nat, Space>, root: nat, v: nat,
                              hi: nat, i: nat) reads this {
      && Valid() && Only(m0, o0, s0, mem, owner, spaces, root, v, hi, {})
      && spaces[root].flat == Without(s0[root].flat, v, i)
    }

    method UnmapNext(root: nat, v: nat, ghost hi: nat, doFree: bool, i: nat,
                     ghost m0: map<nat, Page<C>>, ghost o0: map<nat, Owner>, ghost s0: map<nat, Space>)
      requires Unmapping(m0, o0, s0, root, v, hi, i) && v + i < hi <= MAX_PAGES
      requires v + i in s0[root].flat ==> (doFree <==> Owns(s0[root], v + i))
      modifies this
      ensures Unmapping(m0, o0, s0, root, v, hi, i + 1)
    {
      ghost var m1, o1, s1 := mem, owner, spaces;
      WithoutNext(s0[root].flat, v, i);
      UnmapPage(root, v + i, doFree, v, hi);
      OnlyTrans(m0, o0, s0, m1, o1, s1, mem, owner, spaces, root, v, hi, {});
    }

    /** Removes `n` pages from `v` on, mapped or not. */
    method Uvmunmap(root: nat, v: nat, n: nat, doFree: bool)
      requires Valid() && root in spaces && v + n <= MAX_PAGES
      requires forall w :: w in spaces[root].flat && v <= w < v + n ==> (doFree <==> Owns(spaces[root], w))
      modifies this
      ensures Valid() && Only(old(mem), old(owner), old(spaces), mem, owner, spaces, root, v, v + n, {})
      ensures spaces[root].flat == Without(old(spaces[root].flat), v, n)
    {
      ghost var m0, o0, s0, hi := mem, owner, spaces, v + n;
      OnlySelf(mem, owner, spaces, root, v, hi, {});
      WithoutNext(spaces[root].flat, v, 0);
      var i := 0;
      while i < n
        invariant 0 <= i <= n && Unmapping(m0, o0, s0, root, v, hi, i)
      {
        UnmapNext(root, v, hi, doFree, i, m0, o0, s0);
        i := i + 1;
      }
    }

    /** Takes a frame, fills it with `content` (as `memset` or `memmove` do) and maps it at page `v`. */
    method AddPage(root: nat, v: nat, flags: Flags, content: Page<C>) returns (frame: Option<nat>)
      requires Valid() && root in spaces && v !in spaces[root].flat && Owns(spaces[root], v) && IsLeaf(Refers(0, flags))
      modifies this
      ensures Valid() && Only(old(mem), old(owner), old(spaces), mem, owner, spaces, root, 0, 0, {})
      ensures frame.None? ==> spaces[root].flat == old(spaces[root].flat) && |old(free)| <= 2
      ensures |free| >= |old(free)| - 3
      ensures frame.Some? ==> spaces[root].flat == old(spaces[root].flat)[v := Refers(frame.value, flags)]
      ensures frame.Some? ==> frame.value in owner && mem[frame.value] == content
    {
      ghost var m0, o0, s0 := mem, owner, spaces;
      OnlySelf(mem, owner, spaces, root, 0, 0, {});
      frame := Kalloc();
      if frame.None? {
        return;
      }
      var g := frame.value;
      LooseAll(mem, owner, spaces, g, Held, content);
      mem := mem[g := content];
      owner := owner[g := Held];
      assert mem == m0[g := content] && owner == o0[g := Held];
      OnlyFrame(m0, o0, spaces, root, 0, 0, g, Held, content);
      ghost var m1, o1, s1 := mem, owner, spaces;
      var ok := MapPage(root, v, g, flags);
      OnlyTrans(m0, o0, s0, m1, o1, s1, mem, owner, spaces, root, 0, 0, {g});
      if !ok {
        ghost var m2, o2, s2 := mem, owner, spaces;
        OnlyFrame(mem, owner, spaces, root, 0, 0, g, Free, Data(junk));
        Kfree(g);
        OnlyTrans(m0, o0, s0, m2, o2, s2, mem, owner, spaces, root, 0, 0, {g});
        frame := None;
      }
      OnlyFresh(m0, o0, s0, mem, owner, spaces, root, g);
    }

    /** Pages [lo, p) have been added since the state `m0`, `o0`, `s0`, all zero. */
    ghost predicate Growing(m0: map<nat, Page<C>>, o0: map<nat, Owner>, s0: map<nat, Space>, root: nat, lo: nat, p: nat,
                            flags: Flags) reads this {
      && Valid() && Only(m0, o0, s0, mem, owner, spaces, root, 0, 0, {}) && lo <= p
      && Grown(s0[root].flat, spaces[root].flat, lo, p, flags) && Filled(mem, spaces[root].flat, lo, p, Data(zero))
    }

    method GrowNext(root: nat, ghost lo: nat, p: nat, flags: Flags, ghost q: nat,
                    ghost m0: map<nat, Page<C>>, ghost o0: map<nat, Owner>, ghost s0: map<nat, Space>)
      returns (ok: bool)
      requires Growing(m0, o0, s0, root, lo, p, flags) && s0[root].user && p < TRAPFRAME && p !in spaces[root].flat
               && IsLeaf(Refers(0, flags))
      requires q == p + 1
      modifies this
      ensures Growing(m0, o0, s0, root, lo, if ok then q else p, flags)
      ensures !ok ==> spaces[root].flat == old(spaces[root].flat) && |old(free)| <= 2
      ensures |free| >= |old(free)| - 3
    {
      ghost var m1, o1, s1 := mem, owner, spaces;
      var g := AddPage(root, p, flags, Data(zero));
      OnlyTrans(m0, o0, s0, m1, o1, s1, mem, owner, spaces, root, 0, 0, {});
      if g.Some? {
        GrownNext(s0[root].flat, s1[root].flat, lo, p, flags, g.value);
        FilledNext(m1, o1, s1, mem, owner, spaces, root, lo, p, q, g.value, flags, Data(zero));
      } else {
        FilledSame(m1, o1, s1, mem, owner, spaces, root, lo, p, Data(zero));
      }
      return g.Some?;
    }

    /** Shrinks a space from `oldsz` to `newsz` bytes. */
    method Uvmdealloc(root: nat, oldsz: nat, newsz: nat) returns (sz: nat)
      requires Valid() && root in spaces && spaces[root].user && Pages(oldsz) <= TRAPFRAME
      modifies this
      ensures Valid()
              && Only(old(mem), old(owner), old(spaces), mem, owner, spaces, root, Pages(newsz), Pages(oldsz), {})
      ensures spaces[root].flat == Cut(old(spaces[root].flat), Pages(newsz), Pages(oldsz))
      ensures sz == if newsz >= oldsz then oldsz else newsz
    {
      OnlySelf(mem, owner, spaces, root, Pages(newsz), Pages(oldsz), {});
      if newsz >= oldsz {
        return oldsz;
      }
      if Pages(newsz) < Pages(oldsz) {
        ghost var flat := spaces[root].flat;
        Uvmunmap(root, Pages(newsz), Pages(oldsz) - Pages(newsz), true);
        assert Pages(newsz) + (Pages(oldsz) - Pages(newsz)) == Pages(oldsz);
      }
      return newsz;
    }

    /** The failure path of `uvmalloc`: what was added is removed again. */
    method Ungrow(root: nat, lo: nat, p: nat, ghost flags: Flags,
                  ghost m0: map<nat, Page<C>>, ghost o0: map<nat, Owner>, ghost s0: map<nat, Space>)
      requires Growing(m0, o0, s0, root, lo, p, flags) && s0[root].user && SpaceOk(m0, o0, root, s0[root])
               && p <= TRAPFRAME
      requires forall w :: w in s0[root].flat ==> w < lo || w >= TRAPFRAME
      modifies this
      ensures Valid() && Only(m0, o0, s0, mem, owner, spaces, root, 0, 0, {}) && spaces[root].flat == s0[root].flat
    {
      ghost var m1, o1, s1 := mem, owner, spaces;
      WholePages(lo);
      WholePages(p);
      var sz := Uvmdealloc(root, p * PGSIZE, lo * PGSIZE);
      OnlyWiden(m0, o0, s0, m1, o1, s1, root, 0, 0, {}, lo, p, {});
      OnlyTrans(m0, o0, s0, m1, o1, s1, mem, owner, spaces, root, lo, p, {});
      OnlyNarrow(m0, o0, s0, mem, owner, spaces, root, lo, p);
      GrownBack(s0[root].flat, s1[root].flat, lo, p, flags);
    }

    /** The loop of `uvmalloc`, with its failure path. */
    method GrowPages(root: nat, lo: nat, newsz: nat, flags: Flags, ghost hi: nat,
                     ghost m0: map<nat, Page<C>>, ghost o0: map<nat, Owner>, ghost s0: map<nat, Space>)
      returns (ok: bool)
      requires Growing(m0, o0, s0, root, lo, lo, flags) && SpaceOk(m0, o0, root, s0[root]) && hi == Pages(newsz)
               && lo <= hi
      requires Room(s0[root], |owner|, lo, hi) && IsLeaf(Refers(0, flags))
      modifies this
      ensures ok ==> Growing(m0, o0, s0, root, lo, hi, flags) && hi <= TRAPFRAME
      ensures !ok ==>
                Valid() && Only(m0, o0, s0, mem, owner, spaces, root, 0, 0, {}) && spaces[root].flat == s0[root].flat
      ensures ok ==> |free| >= |old(free)| - 3 * (hi - lo)
      ensures !ok ==> |old(free)| < 3 * (hi - lo)
    {
      var p := lo;
      ghost var frames := |owner|;
      while p * PGSIZE < newsz
        invariant lo <= p <= hi && p <= TRAPFRAME && Growing(m0, o0, s0, root, lo, p, flags) && |owner| == frames
        invariant |free| >= |old(free)| - 3 * (p - lo)
      {
        RoomAt(mem, owner, root, s0[root], spaces[root], lo, p, hi, flags);
        ghost var q, o1 := p + 1, owner;
        ok := GrowNext(root, lo, p, flags, q, m0, o0, s0);
        SameSize(o0, o1, owner);
        if !ok {
          Ungrow(root, lo, p, flags, m0, o0, s0);
          return;
        }
        p := p + 1;
      }
      ok := true;
    }

    /** Grows a space from `oldsz` to `newsz` bytes with zero pages, all or nothing. */
    method Uvmalloc(root: nat, oldsz: nat, newsz: nat, w: bool, x: bool) returns (sz: nat, ghost ok: bool)
      requires Valid() && root in spaces && (newsz >= oldsz ==> Room(spaces[root], |owner|, Pages(oldsz), Pages(newsz)))
      modifies this
      ensures Valid() && Only(old(mem), old(owner), old(spaces), mem, owner, spaces, root, 0, 0, {})
      ensures newsz < oldsz ==> ok && sz == oldsz && unchanged(this)
      ensures newsz >= oldsz && ok ==> sz == newsz && Pages(newsz) <= TRAPFRAME
      ensures newsz >= oldsz && ok ==>
                Growing(old(mem), old(owner), old(spaces), root, Pages(oldsz), Pages(newsz), Flags(true, w, x, true))
      ensures newsz >= oldsz && !ok ==>
                sz == 0 && spaces[root].flat == old(spaces[root].flat)
                && |old(free)| < 3 * (Pages(newsz) - Pages(oldsz))
      ensures newsz >= oldsz && ok ==> |free| >= |old(free)| - 3 * (Pages(newsz) - Pages(oldsz))
    {
      OnlySelf(mem, owner, spaces, root, 0, 0, {});
      if newsz < oldsz {
        return oldsz, true;
      }
      var lo := Pages(oldsz);
      var grown := GrowPages(root, lo, newsz, Flags(true, w, x, true), Pages(newsz), mem, owner, spaces);
      return if grown then newsz else 0, grown;
    }

    /** The pages below `p` have been copied since the state `m0`, `o0`, `s0`. */
    ghost predicate Copying(m0: map<nat, Page<C>>, o0: map<nat, Owner>, s0: map<nat, Space>, from: nat, to: nat,
                            p: nat) reads this {
      && Valid() && Only(m0, o0, s0, mem, owner, spaces, to, 0, 0, {}) && from in s0 && from in spaces
      && Copied(mem, spaces[from].flat, s0[to].flat, spaces[to].flat, p)
    }

    method CopyNext(from: nat, to: nat, p: nat, ghost q: nat,
                    ghost m0: map<nat, Page<C>>, ghost o0: map<nat, Owner>, ghost s0: map<nat, Space>)
      returns (ok: bool)
      requires Copying(m0, o0, s0, from, to, p) && from != to && s0[from].user && s0[to].user && q == p + 1 <= TRAPFRAME
               && p !in s0[to].flat
      modifies this
      ensures Copying(m0, o0, s0, from, to, if ok then q else p)
      ensures |free| >= |old(free)| - 3 && (!ok ==> |old(free)| <= 2)
    {
      ghost var m1, o1, s1 := mem, owner, spaces;
      var slot := Walk(from, p, false);
      if slot.None? {
        return true;
      }
      SlotAt(mem, owner, from, spaces[from], p);
      var pte := mem[slot.value].ptes[Px(p, 0)];
      if !pte.Refers? {
        return true;
      }
      LeafAt(mem, owner, from, spaces[from], p);
      var g := AddPage(to, p, pte.flags, mem[pte.frame]);
      OnlyTrans(m0, o0, s0, m1, o1, s1, mem, owner, spaces, to, 0, 0, {});
      if g.Some? {
        CopiedNext(m1, o1, s1, mem, owner, spaces, from, to, s0[to].flat, p, q, g.value);
      } else {
        CopiedSame(m1, o1, s1, mem, owner, spaces, from, to, s0[to].flat, p);
      }
      return g.Some?;
    }

    /** Copies the first `sz` bytes of one space into another that has none of those pages, all or nothing. */
    method Uvmcopy(from: nat, to: nat, sz: nat) returns (ok: bool)
      requires Valid() && from in spaces && to in spaces && from != to && spaces[from].user && spaces[to].user
      requires Pages(sz) <= TRAPFRAME && forall w :: w in spaces[to].flat ==> w >= Pages(sz)
      modifies this
      ensures Valid() && Only(old(mem), old(owner), old(spaces), mem, owner, spaces, to, 0, 0, {})
      ensures ok ==> Copied(mem, old(spaces[from].flat), old(spaces[to].flat), spaces[to].flat, Pages(sz))
      ensures !ok ==> spaces[to].flat == old(spaces[to].flat) && |old(free)| < 3 * Pages(sz)
    {
      ghost var m0, o0, s0, hi := mem, owner, spaces, Pages(sz);
      OnlySelf(mem, owner, spaces, to, 0, 0, {});
      var p := 0;
      while p * PGSIZE < sz
        invariant 0 <= p <= hi && Copying(m0, o0, s0, from, to, p) && |free| >= |old(free)| - 3 * p
      {
        ghost var q := p + 1;
        var got := CopyNext(from, to, p, q, m0, o0, s0);
        if !got {
          Uncopy(from, to, p, m0, o0, s0);
          return false;
        }
        p := p + 1;
      }
      return true;
    }

    /** The failure path of `uvmcopy`. */
    method Uncopy(from: nat, to: nat, p: nat, ghost m0: map<nat, Page<C>>, ghost o0: map<nat, Owner>,
                  ghost s0: map<nat, Space>)
      requires Copying(m0, o0, s0, from, to, p) && s0[to].user && SpaceOk(m0, o0, to, s0[to]) && p <= TRAPFRAME
      requires forall w :: w in s0[to].flat ==> w >= p
      modifies this
      ensures Valid() && Only(m0, o0, s0, mem, owner, spaces, to, 0, 0, {}) && spaces[to].flat == s0[to].flat
    {
      ghost var m1, o1, s1 := mem, owner, spaces;
      Uvmunmap(to, 0, p, true);
      OnlyWiden(m0, o0, s0, m1, o1, s1, to, 0, 0, {}, 0, p, {});
      OnlyTrans(m0, o0, s0, m1, o1, s1, mem, owner, spaces, to, 0, p, {});
      OnlyNarrow(m0, o0, s0, mem, owner, spaces, to, 0, p);
      CopiedBack(m1, s1[from].flat, s0[to].flat, s1[to].flat, p);
    }

    /** An empty page table. */
    method Uvmcreate(ghost user: bool) returns (root: Option<nat>)
      requires Valid()
      modifies this
      ensures Valid()
      ensures root.None? ==> unchanged(this)
      ensures if root.None? then free == [] else |free| == |old(free)| - 1
      ensures root.Some? ==> root.value !in old(spaces) && spaces == old(spaces)[root.value := Blank(user, root.value)]
      ensures root.Some? ==>
                root.value in old(owner) && old(owner)[root.value] == Free
                && owner == old(owner)[root.value := Node(root.value, Spot(2, 0))]
      ensures root.Some? ==> mem == old(mem)[root.value := Table(Zeros())]
    {
      root := Kalloc();
      if root.None? {
        return;
      }
      var g := root.value;
      ghost var mem', owner', spaces' :=
          mem[g := Table(Zeros())], owner[g := Node(g, Spot(2, 0))], spaces[g := Blank(user, g)];
      SpaceAdded(mem, owner, spaces, free, g, user, mem', owner', spaces');
      mem := mem[g := Table(Zeros())];
      owner, spaces := owner', spaces';
    }

    /** Clears entry `j` of the page-table page `f` and frees the empty page-table page it points to. */
    method Prune(root: nat, f: nat, j: nat, child: nat, ghost s: Spot, ghost c: Spot)
      requires Valid() && root in spaces && s in spaces[root].node && s.level > 0 && j < ENTRIES
               && f == spaces[root].node[s]
      requires c == Child(s, j) && c in spaces[root].node && child == spaces[root].node[c]
               && Barren(spaces[root], c, ENTRIES)
      modifies this
      ensures Valid() && Only(old(mem), old(owner), old(spaces), mem, owner, spaces, root, 0, 0, {})
      ensures spaces[root] == SansNode(old(spaces[root]), c)
    {
      NodeAt(mem, owner, root, spaces[root], s, j);
      ghost var m0, o0, s0 := mem, owner, spaces;
      var ptes := mem[f].ptes[j := Invalid];
      ghost var owner', spaces' := owner[child := Held], spaces[root := SansNode(spaces[root], c)];
      PruneAll(mem, owner, spaces, free, root, s, j, f, c, child, mem[f := Table(ptes)], owner', spaces');
      mem, owner, spaces := mem[f := Table(ptes)], owner', spaces';
      ghost var m1, o1, s1 := mem, owner, spaces;
      OnlyFrame(mem, owner, spaces, root, 0, 0, child, Free, Data(junk));
      Kfree(child);
      OnlyTrans(m0, o0, s0, m1, o1, s1, mem, owner, spaces, root, 0, 0, {child});
      OnlyDrop(m0, o0, s0, mem, owner, spaces, root, 0, 0, {child});
    }

    /** Frees every page-table page below the one at `f`; nothing may be mapped any more. */
    method Freewalk(root: nat, f: nat, ghost s: Spot)
      requires Valid() && root in spaces && s in spaces[root].node && f == spaces[root].node[s]
               && spaces[root].flat == map[]
      modifies this
      ensures Valid() && Only(old(mem), old(owner), old(spaces), mem, owner, spaces, root, 0, 0, {})
      ensures FewerNodes(old(spaces[root]), spaces[root], s.level) && Barren(spaces[root], s, ENTRIES)
      decreases s.level, 1
    {
      ghost var m0, o0, s0 := mem, owner, spaces;
      OnlySelf(mem, owner, spaces, root, 0, 0, {});
      var i := 0;
      while i < ENTRIES
        invariant 0 <= i <= ENTRIES && Valid() && Only(m0, o0, s0, mem, owner, spaces, root, 0, 0, {})
        invariant FewerNodes(s0[root], spaces[root], s.level) && Barren(spaces[root], s, i)
      {
        ghost var m1, o1, s1 := mem, owner, spaces;
        NodeAt(mem, owner, root, spaces[root], s, i);
        var pte := mem[f].ptes[i];
        if pte.Refers? && !IsLeaf(pte) {
          FreeEntry(root, f, i, pte.frame, s);
          OnlyTrans(m0, o0, s0, m1, o1, s1, mem, owner, spaces, root, 0, 0, {});
        }
        i := i + 1;
      }
    }

    method FreeEntry(root: nat, f: nat, i: nat, child: nat, ghost s: Spot)
      requires Valid() && root in spaces && s in spaces[root].node && f == spaces[root].node[s]
               && spaces[root].flat == map[]
      requires i < ENTRIES && s.level > 0 && Child(s, i) in spaces[root].node && child == spaces[root].node[Child(s, i)]
      requires Barren(spaces[root], s, i)
      modifies this
      ensures Valid() && Only(old(mem), old(owner), old(spaces), mem, owner, spaces, root, 0, 0, {})
      ensures FewerNodes(old(spaces[root]), spaces[root], s.level) && Barren(spaces[root], s, i + 1)
      decreases s.level, 0
    {
      ghost var m0, o0, s0, c := mem, owner, spaces, Child(s, i);
      Freewalk(root, child, c);
      ghost var m1, o1, s1 := mem, owner, spaces;
      BarrenStill(s0[root], s1[root], s, i, c.level);
      Prune(root, f, i, child, s, c);
      BarrenNext(s1[root], s, i, c);
      OnlyTrans(m0, o0, s0, m1, o1, s1, mem, owner, spaces, root, 0, 0, {});
    }

    /** Frees all page-table pages of a space that has nothing mapped. */
    method FreeTree(root: nat, ghost hi: nat, ghost m0: map<nat, Page<C>>, ghost o0: map<nat, Owner>,
                    ghost s0: map<nat, Space>)
      requires Valid() && root in spaces && spaces[root].flat == map[]
      requires Only(m0, o0, s0, mem, owner, spaces, root, 0, hi, {})
      modifies this
      ensures Valid() && Gone(m0, o0, s0, mem, owner, spaces, root)
    {
      ghost var m1, o1, s1 := mem, owner, spaces;
      Freewalk(root, root, Spot(2, 0));
      OnlyWiden(m1, o1, s1, mem, owner, spaces, root, 0, 0, {}, 0, hi, {});
      OnlyTrans(m0, o0, s0, m1, o1, s1, mem, owner, spaces, root, 0, hi, {});
      ghost var m2, o2, s2 := mem, owner, spaces;
      NodeAt(mem, owner, root, spaces[root], Spot(2, 0), 0);
      SpaceGone(mem, owner, spaces, free, root, owner[root := Held]);
      owner, spaces := owner[root := Held], spaces - {root};
      Kfree(root);
      AllReleased(m0, o0, s0, m2, o2, s2, mem, owner, spaces, free, root, hi);
    }

    /** Frees the pages of the first `sz` bytes, which must be all that is mapped, and the page table. */
    method Uvmfree(root: nat, sz: nat, ghost m0: map<nat, Page<C>>, ghost o0: map<nat, Owner>,
                   ghost s0: map<nat, Space>)
      requires Valid() && root in spaces && spaces[root].user && Pages(sz) <= TRAPFRAME
      requires forall w :: w in spaces[root].flat ==> w < Pages(sz)
      requires Only(m0, o0, s0, mem, owner, spaces, root, 0, MAX_PAGES, {})
      modifies this
      ensures Valid() && Gone(m0, o0, s0, mem, owner, spaces, root)
    {
      ghost var m1, o1, s1 := mem, owner, spaces;
      if sz > 0 {
        Uvmunmap(root, 0, Pages(sz), true);
        OnlyWiden(m1, o1, s1, mem, owner, spaces, root, 0, Pages(sz), {}, 0, MAX_PAGES, {});
        OnlyTrans(m0, o0, s0, m1, o1, s1, mem, owner, spaces, root, 0, MAX_PAGES, {});
      }
      assert spaces[root].flat == map[];
      FreeTree(root, MAX_PAGES, m0, o0, s0);
    }

    /** The frame of a page the user may access. */
    method Walkaddr(root: nat, v: nat) returns (r: Option<nat>)
      requires Valid() && root in spaces
      modifies this
      ensures unchanged(this)
      ensures r.Some? <==> v in spaces[root].flat && spaces[root].flat[v].Refers? && spaces[root].flat[v].flags.u
      ensures r.Some? ==> r.value == spaces[root].flat[v].frame
    {
      if v >= MAX_PAGES {
        ghost var none := v in spaces[root].flat;
        if none { LeafAt(mem, owner, root, spaces[root], v); }
        return None;
      }
      var slot := Walk(root, v, false);
      if slot.None? {
        return None;
      }
      SlotAt(mem, owner, root, spaces[root], v);
      var pte := mem[slot.value].ptes[Px(v, 0)];
      if !pte.Refers? || !pte.flags.u {
        return None;
      }
      return Some(pte.frame);
    }

    /** Takes user access away from a mapped page. */
    method Uvmclear(root: nat, v: nat)
      requires Valid() && root in spaces && v in spaces[root].flat
      modifies this
      ensures Valid() && Only(old(mem), old(owner), old(spaces), mem, owner, spaces, root, 0, 0, {})
      ensures old(spaces[root].flat)[v].Refers?
      ensures spaces[root].flat ==
              old(spaces[root].flat)[v :=
                                     old(spaces[root].flat)[v].(flags := old(spaces[root].flat)[v].flags.(u := false))]
    {
      LeafAt(mem, owner, root, spaces[root], v);
      NoOtherLeaf(mem, owner, root, spaces[root], v);
      ghost var m0, o0, s0 := mem, owner, spaces;
      var slot := Walk(root, v, false);
      SlotAt(mem, owner, root, spaces[root], v);
      var pte := mem[slot.value].ptes[Px(v, 0)];
      ghost var ex := if Owns(spaces[root], v) then {pte.frame} else {};
      Store(root, v, slot.value, pte.(flags := pte.flags.(u := false)), ex);
      OnlyKept(m0, o0, s0, mem, owner, spaces, root, ex);
    }

    /** Overwrites the frame of page `v`. */
    method WritePage(root: nat, v: nat, f: nat, content: Page<C>)
      requires Valid() && root in spaces && v in spaces[root].flat && spaces[root].user && v < TRAPFRAME
               && spaces[root].flat[v].Refers? && spaces[root].flat[v].frame == f
      modifies this`mem
      ensures Valid() && mem == old(mem)[f := content]
              && Only(old(mem), owner, spaces, mem, owner, spaces, root, 0, TRAPFRAME, {})
    {
      LeafAt(mem, owner, root, spaces[root], v);
      WriteLeaf(mem, owner, spaces, root, f, v, TRAPFRAME, content);
      mem := mem[f := content];
    }
  }
}
