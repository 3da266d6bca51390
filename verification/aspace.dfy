/**
 The life of a process's address space: created, grown, grown lazily, faulted in, copied, replaced
 and torn down.  Every operation keeps the invariant SpaceFits, from which each one shows that the
 panics of the operations it calls cannot happen.
 */
module AddressSpaces {
  import opened Common
  import opened PageTables
  import opened Vm

  /** RAM from KERNBASE to PHYSTOP, in frames. */
  const MAX_FRAMES := 32768
  const USERSTACK := 1

  /** Apart from the trampoline and the trap frame, everything mapped lies below the process's size. */
  ghost predicate SpaceFits(sp: Space, sz: nat) {
    && sp.user && sz <= TRAPFRAME * PGSIZE
    && (forall w :: w in sp.flat ==> w < Pages(sz) || w >= TRAPFRAME)
    && TRAMPOLINE in sp.flat && TRAPFRAME in sp.flat
  }

  /** The trampoline and the trap frame, neither for the user. */
  function Ends(tramp: nat, tf: nat): (r: map<nat, Pte>) {
    map[TRAMPOLINE := Refers(tramp, Flags(true, false, true, false)),
        TRAPFRAME := Refers(tf, Flags(true, true, false, false))]
  }

  /** They are where they belong. */
  ghost predicate HasEnds(flat: map<nat, Pte>, tramp: nat, tf: nat) {
    && TRAMPOLINE in flat && flat[TRAMPOLINE] == Refers(tramp, Flags(true, false, true, false))
    && TRAPFRAME in flat && flat[TRAPFRAME] == Refers(tf, Flags(true, true, false, false))
  }

  lemma FitsLarger(sp: Space, sz: nat, sz': nat)
    requires SpaceFits(sp, sz) && sz <= sz' <= TRAPFRAME * PGSIZE
    ensures SpaceFits(sp, sz') && Pages(sz) <= Pages(sz') <= TRAPFRAME
  {
  }

  // ---- A new space beside the old ones ----

  predicate KeyOpen(u: int) { true }

  /** Since the state `m0`, `o0`, `s0`, space `root` has been built out of free frames. */
  ghost predicate Opened<C>(m0: map<nat, Page<C>>, o0: map<nat, Owner>, s0: map<nat, Space>,
                            mem: map<nat, Page<C>>, owner: map<nat, Owner>, spaces: map<nat, Space>, root: nat)
  {
    && root !in s0 && root in spaces && spaces - {root} == s0
    && owner.Keys == o0.Keys
    && forall u {:trigger KeyOpen(u)} :: KeyOpen(u) ==>
         Keeps(m0, o0, mem, owner, root, 0, 0, {}) && forall f {:trigger o0[f]} :: f in o0 ==> !Of(o0[f], root)
  }

  /** Nothing has happened, except to frames that were and are free. */
  ghost predicate Restored<C>(m0: map<nat, Page<C>>, o0: map<nat, Owner>, s0: map<nat, Space>,
                              mem: map<nat, Page<C>>, owner: map<nat, Owner>, spaces: map<nat, Space>)
  {
    && spaces == s0 && owner == o0
    && forall f {:trigger mem[f]} {:trigger o0[f]} :: f in o0 && o0[f] != Free ==>
      f in m0 && f in mem && mem[f] == m0[f]
  }

  lemma JustOpened<C>(m0: map<nat, Page<C>>, o0: map<nat, Owner>, s0: map<nat, Space>, free: seq<nat>, root: nat)
    requires PoolOk(free, o0, s0) && AllOk(m0, o0, s0) && root !in s0 && root in o0 && o0[root] == Free
    ensures Opened(m0, o0, s0, m0[root := Table(Zeros())], o0[root := Node(root, Spot(2, 0))],
                   s0[root := Blank(true, root)], root)
  {
    assert KeyPool(0);
    assert s0[root := Blank(true, root)] - {root} == s0;
  }

  lemma OpenedOnly<C>(m0: map<nat, Page<C>>, o0: map<nat, Owner>, s0: map<nat, Space>, m1: map<nat, Page<C>>,
                      o1: map<nat, Owner>, s1: map<nat, Space>,
                      m2: map<nat, Page<C>>, o2: map<nat, Owner>, s2: map<nat, Space>, root: nat, lo: nat, hi: nat)
    requires Opened(m0, o0, s0, m1, o1, s1, root) && Only(m1, o1, s1, m2, o2, s2, root, lo, hi, {})
    ensures Opened(m0, o0, s0, m2, o2, s2, root)
  {
    assert s2 - {root} == s1 - {root};
    assert KeyKeeps(0) && KeyOpen(0);
  }

  lemma OpenedHeld<C>(m0: map<nat, Page<C>>, o0: map<nat, Owner>, s0: map<nat, Space>,
                      mem: map<nat, Page<C>>, owner: map<nat, Owner>, spaces: map<nat, Space>, root: nat, f: nat)
    requires Opened(m0, o0, s0, mem, owner, spaces, root) && f in o0 && o0[f] == Held
    ensures f in owner && owner[f] == Held
  {
    assert KeyOpen(0);
  }

  /** A space built and torn down again leaves no trace. */
  lemma OpenedGone<C>(m0: map<nat, Page<C>>, o0: map<nat, Owner>, s0: map<nat, Space>, m1: map<nat, Page<C>>,
                      o1: map<nat, Owner>, s1: map<nat, Space>,
                      m2: map<nat, Page<C>>, o2: map<nat, Owner>, s2: map<nat, Space>, root: nat)
    requires Opened(m0, o0, s0, m1, o1, s1, root) && Gone(m1, o1, s1, m2, o2, s2, root)
    ensures Restored(m0, o0, s0, m2, o2, s2)
  {
    assert KeyOpen(0);
    forall f | f in o0 ensures o2[f] == o0[f] && (o0[f] != Free ==> f in m2 && m2[f] == m0[f]) {
      assert o0[f] != Free ==> Foreign(o0[f], root) && o1[f] == o0[f] && m1[f] == m0[f];
      assert o0[f] == Free ==> !Foreign(o1[f], root);
    }
    assert o2 == o0;
  }

  // ---- Page tables of processes ----

  /** Tears down a space under construction that has nothing mapped. */
  method Discard<C>(m: Machine<C>, root: nat, ghost m0: map<nat, Page<C>>, ghost o0: map<nat, Owner>,
                    ghost s0: map<nat, Space>)
    requires m.Valid() && Opened(m0, o0, s0, m.mem, m.owner, m.spaces, root) && m.spaces[root].user
             && m.spaces[root].flat == map[]
    modifies m
    ensures m.Valid() && Restored(m0, o0, s0, m.mem, m.owner, m.spaces)
  {
    ghost var m1, o1, s1 := m.mem, m.owner, m.spaces;
    OnlySelf(m1, o1, s1, root, 0, MAX_PAGES, {});
    m.Uvmfree(root, 0, m1, o1, s1);
    OpenedGone(m0, o0, s0, m1, o1, s1, m.mem, m.owner, m.spaces, root);
  }

  method MapTrampoline<C>(m: Machine<C>, root: nat, tramp: nat, ghost m0: map<nat, Page<C>>, ghost o0: map<nat, Owner>,
                          ghost s0: map<nat, Space>)
    returns (ok: bool)
    requires m.Valid() && Opened(m0, o0, s0, m.mem, m.owner, m.spaces, root) && m.spaces[root].user
             && m.spaces[root].flat == map[] && tramp !in m.owner
    modifies m
    ensures m.Valid()
    ensures ok ==> Opened(m0, o0, s0, m.mem, m.owner, m.spaces, root) && m.spaces[root].user
    ensures ok ==> m.spaces[root].flat == map[TRAMPOLINE := Refers(tramp, Flags(true, false, true, false))]
    ensures !ok ==> Restored(m0, o0, s0, m.mem, m.owner, m.spaces) && |old(m.free)| <= 1
    ensures ok ==> |m.free| >= |old(m.free)| - 2
  {
    ghost var m1, o1, s1 := m.mem, m.owner, m.spaces;
    ok := m.MapPage(root, TRAMPOLINE, tramp, Flags(true, false, true, false));
    OnlyDrop(m1, o1, s1, m.mem, m.owner, m.spaces, root, 0, 0, {tramp});
    OpenedOnly(m0, o0, s0, m1, o1, s1, m.mem, m.owner, m.spaces, root, 0, 0);
    if !ok {
      Discard(m, root, m0, o0, s0);
    }
  }

  method MapTrapframe<C>(m: Machine<C>, root: nat, tramp: nat, tf: nat,
                         ghost m0: map<nat, Page<C>>, ghost o0: map<nat, Owner>, ghost s0: map<nat, Space>)
    returns (ok: bool)
    requires m.Valid() && Opened(m0, o0, s0, m.mem, m.owner, m.spaces, root) && m.spaces[root].user
    requires m.spaces[root].flat == map[TRAMPOLINE := Refers(tramp, Flags(true, false, true, false))] && tf in m.owner
             && m.owner[tf] == Held
    modifies m
    ensures m.Valid()
    ensures ok ==>
              Opened(m0, o0, s0, m.mem, m.owner, m.spaces, root) && m.spaces[root].user
              && m.spaces[root].flat == Ends(tramp, tf)
    ensures !ok ==> Restored(m0, o0, s0, m.mem, m.owner, m.spaces) && |old(m.free)| <= 1
    ensures ok ==> |m.free| >= |old(m.free)| - 2
  {
    ghost var m1, o1, s1 := m.mem, m.owner, m.spaces;
    ok := m.MapPage(root, TRAPFRAME, tf, Flags(true, true, false, false));
    OnlyKept(m1, o1, s1, m.mem, m.owner, m.spaces, root, {tf});
    OpenedOnly(m0, o0, s0, m1, o1, s1, m.mem, m.owner, m.spaces, root, 0, 0);
    if !ok {
      DropTrampoline(m, root, tramp, m0, o0, s0);
    }
  }

  method DropTrampoline<C>(m: Machine<C>, root: nat, ghost tramp: nat, ghost m0: map<nat, Page<C>>,
                           ghost o0: map<nat, Owner>, ghost s0: map<nat, Space>)
    requires m.Valid() && Opened(m0, o0, s0, m.mem, m.owner, m.spaces, root) && m.spaces[root].user
    requires m.spaces[root].flat == map[TRAMPOLINE := Refers(tramp, Flags(true, false, true, false))]
    modifies m
    ensures m.Valid() && Restored(m0, o0, s0, m.mem, m.owner, m.spaces)
  {
    ghost var m2, o2, s2 := m.mem, m.owner, m.spaces;
    m.Uvmunmap(root, TRAMPOLINE, 1, false);
    OpenedOnly(m0, o0, s0, m2, o2, s2, m.mem, m.owner, m.spaces, root, TRAMPOLINE, TRAMPOLINE + 1);
    assert m.spaces[root].flat == map[];
    Discard(m, root, m0, o0, s0);
  }

  /** An empty user space with the trampoline and the trap frame `tf` mapped. */
  method ProcPagetable<C>(m: Machine<C>, tramp: nat, tf: nat) returns (root: Option<nat>)
    requires m.Valid() && tf in m.owner && m.owner[tf] == Held && tramp !in m.owner
    modifies m
    ensures m.Valid()
    ensures root.None? ==> Restored(old(m.mem), old(m.owner), old(m.spaces), m.mem, m.owner, m.spaces)
    ensures root.Some? ==> Opened(old(m.mem), old(m.owner), old(m.spaces), m.mem, m.owner, m.spaces, root.value)
    ensures root.Some? ==> SpaceFits(m.spaces[root.value], 0) && m.spaces[root.value].flat == Ends(tramp, tf)
    ensures if root.Some? then |m.free| >= |old(m.free)| - 5 else |old(m.free)| < 5
  {
    ghost var m0, o0, s0, f0 := m.mem, m.owner, m.spaces, m.free;
    root := m.Uvmcreate(true);
    if root.None? {
      return;
    }
    var r := root.value;
    JustOpened(m0, o0, s0, f0, r);
    OpenedHeld(m0, o0, s0, m.mem, m.owner, m.spaces, r, tf);
    var ok := MapTrampoline(m, r, tramp, m0, o0, s0);
    if ok {
      OpenedHeld(m0, o0, s0, m.mem, m.owner, m.spaces, r, tf);
      ok := MapTrapframe(m, r, tramp, tf, m0, o0, s0);
    }
    if !ok {
      root := None;
    }
  }

  /** Frees a process's memory and page table; its trap frame stays with the caller. */
  method ProcFreepagetable<C>(m: Machine<C>, root: nat, sz: nat)
    requires m.Valid() && root in m.spaces && SpaceFits(m.spaces[root], sz)
    modifies m
    ensures m.Valid() && Gone(old(m.mem), old(m.owner), old(m.spaces), m.mem, m.owner, m.spaces, root)
  {
    ghost var m0, o0, s0 := m.mem, m.owner, m.spaces;
    FlatBounds(m.mem, m.owner, root, m.spaces[root]);
    m.Uvmunmap(root, TRAMPOLINE, 1, false);
    OnlyWiden(m0, o0, s0, m.mem, m.owner, m.spaces, root, TRAMPOLINE, TRAMPOLINE + 1, {}, 0, MAX_PAGES, {});
    ghost var m1, o1, s1 := m.mem, m.owner, m.spaces;
    m.Uvmunmap(root, TRAPFRAME, 1, false);
    OnlyWiden(m1, o1, s1, m.mem, m.owner, m.spaces, root, TRAPFRAME, TRAPFRAME + 1, {}, 0, MAX_PAGES, {});
    OnlyTrans(m0, o0, s0, m1, o1, s1, m.mem, m.owner, m.spaces, root, 0, MAX_PAGES, {});
    FitsLarger(s0[root], sz, sz);
    m.Uvmfree(root, sz, m0, o0, s0);
  }

  lemma FlatBounds<C>(mem: map<nat, Page<C>>, owner: map<nat, Owner>, root: nat, sp: Space)
    requires SpaceOk(mem, owner, root, sp)
    ensures forall w :: w in sp.flat ==> w < MAX_PAGES
  {
    assert Key(0);
  }

  // ---- System calls on a process's memory ----

  /** Grows or shrinks by `n` bytes, an int.  A shrink below zero wraps around and does nothing. */
  method Growproc<C>(m: Machine<C>, root: nat, sz: nat, n: int) returns (ok: bool, newsz: nat)
    requires m.Valid() && root in m.spaces && SpaceFits(m.spaces[root], sz) && -0x8000_0000 <= n < 0x8000_0000
    modifies m
    ensures m.Valid() && root in m.spaces && SpaceFits(m.spaces[root], newsz)
    ensures ok && n >= 0 ==> newsz == sz + n
    ensures n < 0 ==> ok && newsz == if sz + n >= 0 then sz + n else sz
    ensures !ok ==> newsz == sz && m.spaces[root].flat == old(m.spaces[root].flat)
    ensures !ok ==> sz + n > TRAPFRAME * PGSIZE || |old(m.free)| < 3 * (Pages(sz + n) - Pages(sz))
    ensures ok && n > 0 ==>
              Grown(old(m.spaces[root].flat), m.spaces[root].flat, Pages(sz), Pages(newsz),
                    Flags(true, true, false, true))
              && Filled(m.mem, m.spaces[root].flat, Pages(sz), Pages(newsz), Data(m.zero))
    ensures forall w :: w in old(m.spaces[root].flat) && (w < Pages(newsz) || w >= TRAPFRAME) ==>
              w in m.spaces[root].flat && m.spaces[root].flat[w] == old(m.spaces[root].flat)[w]
    ensures Only(old(m.mem), old(m.owner), old(m.spaces), m.mem, m.owner, m.spaces, root, Pages(newsz), Pages(sz), {})
  {
    ghost var m0, o0, s0 := m.mem, m.owner, m.spaces;
    OnlySelf(m.mem, m.owner, m.spaces, root, Pages(sz), Pages(sz), {});
    FitsLarger(m.spaces[root], sz, sz);
    if n > 0 {
      if sz + n > TRAPFRAME * PGSIZE {
        return false, sz;
      }
      FitsLarger(m.spaces[root], sz, sz + n);
      var s, _ := m.Uvmalloc(root, sz, sz + n, true, false);
      newsz := if s == 0 then sz else s;
      OnlyWiden(m0, o0, s0, m.mem, m.owner, m.spaces, root, 0, 0, {}, Pages(newsz), Pages(sz), {});
      return s != 0, newsz;
    } else if n < 0 {
      var wanted := if sz + n >= 0 then sz + n else sz + n + 0x1_0000_0000_0000_0000;
      newsz := m.Uvmdealloc(root, sz, wanted);
      OnlyWiden(m0, o0, s0, m.mem, m.owner, m.spaces, root, Pages(wanted), Pages(sz), {}, Pages(newsz), Pages(sz), {});
      return true, newsz;
    }
    return true, sz;
  }

  /** The lazy branch of `sbrk`: only the size grows. */
  method SbrkLazy<C>(m: Machine<C>, root: nat, sz: nat, n: nat) returns (ok: bool, newsz: nat)
    requires m.Valid() && root in m.spaces && SpaceFits(m.spaces[root], sz) && n < 0x8000_0000
    ensures SpaceFits(m.spaces[root], newsz) && newsz == (if ok then sz + n else sz)
    ensures ok <==> sz + n <= TRAPFRAME * PGSIZE
  {
    if sz + n > TRAPFRAME * PGSIZE {
      return false, sz;
    }
    FitsLarger(m.spaces[root], sz, sz + n);
    return true, sz + n;
  }

  /** Maps a zero page at an address below the size that has none yet. */
  method Vmfault<C>(m: Machine<C>, root: nat, sz: nat, va: nat) returns (frame: Option<nat>)
    requires m.Valid() && root in m.spaces && SpaceFits(m.spaces[root], sz)
    modifies m
    ensures m.Valid() && root in m.spaces && SpaceFits(m.spaces[root], sz)
    ensures frame.Some? ==>
              va < sz && va / PGSIZE !in old(m.spaces[root].flat) && frame.value in m.mem
              && m.mem[frame.value] == Data(m.zero)
    ensures frame.Some? ==>
              m.spaces[root].flat ==
                old(m.spaces[root].flat)[va / PGSIZE := Refers(frame.value, Flags(true, true, false, true))]
    ensures frame.None? ==>
              m.spaces[root].flat == old(m.spaces[root].flat)
              && (va >= sz || va / PGSIZE in old(m.spaces[root].flat) || |old(m.free)| < 3)
    ensures Only(old(m.mem), old(m.owner), old(m.spaces), m.mem, m.owner, m.spaces, root, 0, 0, {})
            && |m.free| >= |old(m.free)| - 3
  {
    OnlySelf(m.mem, m.owner, m.spaces, root, 0, 0, {});
    if va >= sz {
      return None;
    }
    FitsLarger(m.spaces[root], sz, sz);
    var v := va / PGSIZE;
    var mapped := Ismapped(m, root, v);
    if mapped {
      return None;
    }
    frame := m.AddPage(root, v, Flags(true, true, false, true), Data(m.zero));
  }

  method Ismapped<C>(m: Machine<C>, root: nat, v: nat) returns (r: bool)
    requires m.Valid() && root in m.spaces && v < MAX_PAGES
    modifies m
    ensures unchanged(m) && (r <==> v in m.spaces[root].flat)
  {
    var slot := m.Walk(root, v, false);
    if slot.None? {
      return false;
    }
    SlotAt(m.mem, m.owner, root, m.spaces[root], v);
    return m.mem[slot.value].ptes[Px(v, 0)].Refers?;
  }

  /** The pages below `n` are mapped in both or neither, with equal flags and contents. */
  ghost predicate SamePages<C>(mem: map<nat, Page<C>>, from: map<nat, Pte>, to: map<nat, Pte>, n: nat) {
    forall w :: 0 <= w < n ==> (w in to <==> w in from) && (w in from ==> SamePage(mem, from, to, w))
  }

  /** The memory side of `fork`: a copy of the parent's space, or nothing at all. */
  method ForkSpace<C>(m: Machine<C>, parent: nat, sz: nat, tramp: nat, tf: nat) returns (child: Option<nat>)
    requires m.Valid() && parent in m.spaces && SpaceFits(m.spaces[parent], sz)
    requires tf in m.owner && m.owner[tf] == Held && tramp !in m.owner
    modifies m
    ensures m.Valid()
    ensures child.None? ==> Restored(old(m.mem), old(m.owner), old(m.spaces), m.mem, m.owner, m.spaces)
    ensures child.Some? ==> Opened(old(m.mem), old(m.owner), old(m.spaces), m.mem, m.owner, m.spaces, child.value)
    ensures child.None? ==> |old(m.free)| < 5 + 3 * Pages(sz)
    ensures child.Some? ==> SpaceFits(m.spaces[child.value], sz) && HasEnds(m.spaces[child.value].flat, tramp, tf)
    ensures child.Some? ==> SamePages(m.mem, old(m.spaces[parent].flat), m.spaces[child.value].flat, Pages(sz))
  {
    ghost var m0, o0, s0 := m.mem, m.owner, m.spaces;
    child := ProcPagetable(m, tramp, tf);
    if child.None? {
      return;
    }
    var root := child.value;
    FitsLarger(s0[parent], sz, sz);
    ghost var m1, o1, s1 := m.mem, m.owner, m.spaces;
    assert s1[parent] == (s1 - {root})[parent];
    var ok := m.Uvmcopy(parent, root, sz);
    OpenedOnly(m0, o0, s0, m1, o1, s1, m.mem, m.owner, m.spaces, root, 0, 0);
    if !ok {
      ghost var m2, o2, s2 := m.mem, m.owner, m.spaces;
      ProcFreepagetable(m, root, 0);
      OpenedGone(m0, o0, s0, m2, o2, s2, m.mem, m.owner, m.spaces, root);
      return None;
    }
  }
}
