/**
 Copying between the kernel and user memory, byte by byte across page boundaries.  User memory is
 seen as one flat array of bytes, in which a page that `sbrk` promised but nobody touched reads as
 zero: handing out its frame on the first copy changes nothing.
 */
module UserCopy {
  import opened Common
  import opened PageTables
  import opened Vm
  import opened AddressSpaces

  type Bytes = b: seq<byte> | |b| == PGSIZE witness seq(PGSIZE, i => 0)

  function ZeroPage(): (r: Bytes) { seq(PGSIZE, i => 0) }

  /** The bytes of a user page (a page-table page is never one). */
  function BytesOf(p: Page<Bytes>): (r: Bytes) { if p.Data? then p.bytes else ZeroPage() }

  /** Page `w` is mapped for the user. */
  ghost predicate Here(mem: map<nat, Page<Bytes>>, flat: map<nat, Pte>, w: nat) {
    w in flat && flat[w].Refers? && flat[w].flags.u && flat[w].frame in mem
  }

  /** What the user finds at address `a`, if anything. */
  ghost function View(mem: map<nat, Page<Bytes>>, flat: map<nat, Pte>, sz: nat, a: nat): (r: Option<byte>) {
    var w := a / PGSIZE;
    if Here(mem, flat, w) then Some(BytesOf(mem[flat[w].frame])[a % PGSIZE])
    else if w !in flat && w < Pages(sz) then Some(0)
    else None
  }

  predicate KeyView(u: int) { true }

  /** Two memories in which the user finds the same, but for `d` at address `at`. */
  ghost predicate Wrote(mem0: map<nat, Page<Bytes>>, flat0: map<nat, Pte>, mem: map<nat, Page<Bytes>>,
                        flat: map<nat, Pte>, sz: nat, at: nat, d: seq<byte>) {
    forall u {:trigger KeyView(u)} :: KeyView(u) ==>
      forall a: nat {:trigger View(mem, flat, sz, a)} ::
        View(mem, flat, sz, a) == if at <= a < at + |d| then Some(d[a - at]) else View(mem0, flat0, sz, a)
  }

  lemma WroteNothing(mem: map<nat, Page<Bytes>>, flat: map<nat, Pte>, sz: nat, at: nat)
    ensures Wrote(mem, flat, mem, flat, sz, at, [])
  {
  }

  lemma WroteMore(mem0: map<nat, Page<Bytes>>, flat0: map<nat, Pte>, mem1: map<nat, Page<Bytes>>, flat1: map<nat, Pte>,
                  mem2: map<nat, Page<Bytes>>, flat2: map<nat, Pte>, sz: nat, at: nat, d: seq<byte>, e: seq<byte>,
                  at2: nat, all: seq<byte>)
    requires Wrote(mem0, flat0, mem1, flat1, sz, at, d) && Wrote(mem1, flat1, mem2, flat2, sz, at2, e)
             && at2 == at + |d| && all == d + e
    ensures Wrote(mem0, flat0, mem2, flat2, sz, at, all)
  {
    assert KeyView(0);
    forall a: nat
      ensures View(mem2, flat2, sz, a) == if at <= a < at + |all| then Some(all[a - at]) else View(mem0, flat0, sz, a) {
      assert View(mem1, flat1, sz, a) == View(mem1, flat1, sz, a);
    }
  }

  // ---- A page at a time ----

  /** Above the trap frame nothing is for the user. */
  lemma KernelEnds(mem: map<nat, Page<Bytes>>, owner: map<nat, Owner>, root: nat, sp: Space, sz: nat, tramp: nat,
                   tf: nat, w: nat)
    requires SpaceOk(mem, owner, root, sp) && SpaceFits(sp, sz) && HasEnds(sp.flat, tramp, tf) && w in sp.flat
             && w >= TRAPFRAME
    ensures sp.flat[w].Refers? && !sp.flat[w].flags.u
  {
    LeafAt(mem, owner, root, sp, w);
    assert w == TRAPFRAME || w == TRAMPOLINE;
  }

  /** A user page lies below the trap frame, in a frame of its own. */
  lemma UserPage(mem: map<nat, Page<Bytes>>, owner: map<nat, Owner>, root: nat, sp: Space, sz: nat, tramp: nat, tf: nat,
                 w: nat)
    requires SpaceOk(mem, owner, root, sp) && SpaceFits(sp, sz) && HasEnds(sp.flat, tramp, tf) && owner.Keys <= mem.Keys
    requires w in sp.flat && sp.flat[w].Refers? && sp.flat[w].flags.u
    ensures w < TRAPFRAME && sp.flat[w].frame in owner && owner[sp.flat[w].frame] == Leaf(root, w)
            && Here(mem, sp.flat, w)
  {
    if w >= TRAPFRAME {
      KernelEnds(mem, owner, root, sp, sz, tramp, tf, w);
    }
    LeafAt(mem, owner, root, sp, w);
  }

  /** What is found in a page that stays mapped stays the same. */
  lemma SameView(m1: map<nat, Page<Bytes>>, o1: map<nat, Owner>, s1: map<nat, Space>, m2: map<nat, Page<Bytes>>,
                 o2: map<nat, Owner>, s2: map<nat, Space>,
                 root: nat, sz: nat, tramp: nat, tf: nat, a: nat)
    requires Only(m1, o1, s1, m2, o2, s2, root, 0, 0, {}) && SpaceOk(m1, o1, root, s1[root]) && SpaceFits(s1[root], sz)
             && HasEnds(s1[root].flat, tramp, tf)
    requires a / PGSIZE in s1[root].flat && a / PGSIZE in s2[root].flat
             && s2[root].flat[a / PGSIZE] == s1[root].flat[a / PGSIZE]
    ensures View(m2, s2[root].flat, sz, a) == View(m1, s1[root].flat, sz, a)
  {
    var w := a / PGSIZE;
    if w >= TRAPFRAME {
      KernelEnds(m1, o1, root, s1[root], sz, tramp, tf, w);
    } else {
      StillThere(m1, o1, s1, m2, o2, s2, root, root, w);
    }
  }

  /** A fault that could not be served changes nothing the user could find. */
  lemma NoFault(m1: map<nat, Page<Bytes>>, o1: map<nat, Owner>, s1: map<nat, Space>, m2: map<nat, Page<Bytes>>,
                o2: map<nat, Owner>, s2: map<nat, Space>,
                root: nat, sz: nat, tramp: nat, tf: nat)
    requires Only(m1, o1, s1, m2, o2, s2, root, 0, 0, {}) && SpaceOk(m1, o1, root, s1[root]) && SpaceFits(s1[root], sz)
             && HasEnds(s1[root].flat, tramp, tf)
    requires s2[root].flat == s1[root].flat
    ensures Wrote(m1, s1[root].flat, m2, s2[root].flat, sz, 0, [])
  {
    forall a: nat ensures View(m2, s2[root].flat, sz, a) == View(m1, s1[root].flat, sz, a) {
      if a / PGSIZE in s1[root].flat {
        SameView(m1, o1, s1, m2, o2, s2, root, sz, tramp, tf, a);
      }
    }
  }

  /** Nor does faulting in a page that was promised. */
  lemma FaultInvisible(m1: map<nat, Page<Bytes>>, o1: map<nat, Owner>, s1: map<nat, Space>, m2: map<nat, Page<Bytes>>,
                       o2: map<nat, Owner>, s2: map<nat, Space>,
                       root: nat, sz: nat, tramp: nat, tf: nat, v: nat, g: nat)
    requires Only(m1, o1, s1, m2, o2, s2, root, 0, 0, {}) && SpaceOk(m1, o1, root, s1[root]) && SpaceFits(s1[root], sz)
             && HasEnds(s1[root].flat, tramp, tf)
    requires v < Pages(sz) && v !in s1[root].flat && g in m2 && m2[g] == Data(ZeroPage())
    requires s2[root].flat == s1[root].flat[v := Refers(g, Flags(true, true, false, true))]
    ensures Wrote(m1, s1[root].flat, m2, s2[root].flat, sz, 0, [])
  {
    forall a: nat ensures View(m2, s2[root].flat, sz, a) == View(m1, s1[root].flat, sz, a) {
      if a / PGSIZE in s1[root].flat {
        SameView(m1, o1, s1, m2, o2, s2, root, sz, tramp, tf, a);
      }
    }
  }

  lemma PastPages(v: nat, sz: nat)
    ensures v * PGSIZE / PGSIZE == v && (v * PGSIZE >= sz <==> v >= Pages(sz))
  {
  }

  /** Bytes `d` at offset `o` of a page. */
  function Patch(p: Bytes, o: nat, d: seq<byte>): (r: Bytes)
    requires o + |d| <= PGSIZE
  {
    p[..o] + d + p[o + |d|..]
  }

  /** Writing to the frame of one page is seen there and nowhere else. */
  lemma PatchSeen(mem: map<nat, Page<Bytes>>, owner: map<nat, Owner>, root: nat, sp: Space, sz: nat, tramp: nat,
                  tf: nat, v: nat, f: nat, o: nat, d: seq<byte>,
                  mem': map<nat, Page<Bytes>>, at: nat)
    requires SpaceOk(mem, owner, root, sp) && SpaceFits(sp, sz) && HasEnds(sp.flat, tramp, tf) && owner.Keys <= mem.Keys
    requires v in sp.flat && sp.flat[v].Refers? && sp.flat[v].flags.u && f == sp.flat[v].frame && o + |d| <= PGSIZE
             && at == v * PGSIZE + o && o < PGSIZE
    requires f in mem && mem' == mem[f := Data(Patch(BytesOf(mem[f]), o, d))]
    ensures Wrote(mem, sp.flat, mem', sp.flat, sz, at, d)
  {
    UserPage(mem, owner, root, sp, sz, tramp, tf, v);
    forall a: nat
      ensures View(mem', sp.flat, sz, a) == if at <= a < at + |d| then Some(d[a - at]) else View(mem, sp.flat, sz, a) {
      var w := a / PGSIZE;
      if w == v {
        assert a == v * PGSIZE + a % PGSIZE;
      } else if Here(mem, sp.flat, w) {
        UserPage(mem, owner, root, sp, sz, tramp, tf, w);
      }
    }
  }

  // ---- The copying loops ----

  /** A process's space `root` of size `sz`. */
  ghost predicate Process(m: Machine<Bytes>, root: nat, sz: nat, tramp: nat, tf: nat) reads m {
    m.Valid() && root in m.spaces && SpaceFits(m.spaces[root], sz) && HasEnds(m.spaces[root].flat, tramp, tf)
    && m.zero == ZeroPage()
  }

  /** The kernel may not touch page `v` for the user: not promised, or mapped but not for the user. */
  ghost predicate Denied(flat: map<nat, Pte>, sz: nat, v: nat) {
    if v in flat then flat[v].Refers? && !flat[v].flags.u else v >= Pages(sz)
  }

  /** Entries are only added, each for a fresh page the user may write. */
  ghost predicate Faulted(flat0: map<nat, Pte>, flat: map<nat, Pte>) {
    forall u {:trigger KeyFault(u)} :: KeyFault(u) ==>
      && (forall w :: w in flat0 ==> w in flat && flat[w] == flat0[w])
      && (forall w :: w in flat && w !in flat0 ==> flat[w].Refers? && flat[w].flags == Flags(true, true, false, true))
  }

  predicate KeyFault(u: int) { true }

  lemma FaultedNone(flat: map<nat, Pte>)
    ensures Faulted(flat, flat)
  {
  }

  lemma FaultedOne(flat: map<nat, Pte>, v: nat, g: nat)
    requires v !in flat
    ensures Faulted(flat, flat[v := Refers(g, Flags(true, true, false, true))])
  {
  }

  /** The frame of user page `v`, faulted in if it was promised; `None` if it is denied or memory is short. */
  method Access(m: Machine<Bytes>, root: nat, sz: nat, v: nat, ghost tramp: nat, ghost tf: nat)
    returns (pa: Option<nat>)
    requires Process(m, root, sz, tramp, tf)
    modifies m
    ensures Process(m, root, sz, tramp, tf)
    ensures Only(old(m.mem), old(m.owner), old(m.spaces), m.mem, m.owner, m.spaces, root, 0, 0, {})
    ensures Wrote(old(m.mem), old(m.spaces[root].flat), m.mem, m.spaces[root].flat, sz, 0, [])
    ensures pa.Some? <==> Here(m.mem, m.spaces[root].flat, v)
    ensures pa.Some? ==> pa.value == m.spaces[root].flat[v].frame
    ensures pa.None? ==> Denied(old(m.spaces[root].flat), sz, v) || |old(m.free)| < 3
    ensures Faulted(old(m.spaces[root].flat), m.spaces[root].flat) && |m.free| >= |old(m.free)| - 3
  {
    OnlySelf(m.mem, m.owner, m.spaces, root, 0, 0, {});
    WroteNothing(m.mem, m.spaces[root].flat, sz, 0);
    FaultedNone(m.spaces[root].flat);
    pa := m.Walkaddr(root, v);
    if pa.Some? {
      UserPage(m.mem, m.owner, root, m.spaces[root], sz, tramp, tf, v);
      return;
    }
    if v in m.spaces[root].flat {
      LeafAt(m.mem, m.owner, root, m.spaces[root], v);
    }
    PastPages(v, sz);
    ghost var m1, o1, s1 := m.mem, m.owner, m.spaces;
    pa := Vmfault(m, root, sz, v * PGSIZE);
    if pa.Some? {
      FaultedOne(s1[root].flat, v, pa.value);
      FaultInvisible(m1, o1, s1, m.mem, m.owner, m.spaces, root, sz, tramp, tf, v, pa.value);
    } else {
      NoFault(m1, o1, s1, m.mem, m.owner, m.spaces, root, sz, tramp, tf);
    }
  }

  /** Mapped read-only. */
  ghost predicate ReadOnly(flat: map<nat, Pte>, v: nat) { v in flat && flat[v].Refers? && !flat[v].flags.w }

  lemma DeniedBefore(flat0: map<nat, Pte>, flat: map<nat, Pte>, sz: nat, v: nat)
    requires Faulted(flat0, flat)
    ensures Denied(flat, sz, v) ==> Denied(flat0, sz, v)
    ensures ReadOnly(flat, v) ==> ReadOnly(flat0, v)
  {
    assert KeyFault(0);
  }

  lemma FaultedTwice(flat0: map<nat, Pte>, flat1: map<nat, Pte>, flat2: map<nat, Pte>)
    requires Faulted(flat0, flat1) && Faulted(flat1, flat2)
    ensures Faulted(flat0, flat2)
  {
    assert KeyFault(0);
  }

  /** The write bit of a mapped page. */
  method Writable(m: Machine<Bytes>, root: nat, v: nat) returns (w: bool)
    requires m.Valid() && root in m.spaces && v in m.spaces[root].flat
    modifies m
    ensures unchanged(m) && m.spaces[root].flat[v].Refers? && w == m.spaces[root].flat[v].flags.w
  {
    LeafAt(m.mem, m.owner, root, m.spaces[root], v);
    var slot := m.Walk(root, v, false);
    SlotAt(m.mem, m.owner, root, m.spaces[root], v);
    return m.mem[slot.value].ptes[Px(v, 0)].flags.w;
  }

  /**
   Since `m0`, `o0`, `s0`, the bytes `d` have been copied to address `at` of space `root`, and nothing else
   has happened.
   */
  ghost predicate Sent(m: Machine<Bytes>, m0: map<nat, Page<Bytes>>, o0: map<nat, Owner>, s0: map<nat, Space>,
                       root: nat, sz: nat, tramp: nat, tf: nat, at: nat, d: seq<byte>)
    reads m
  {
    && Process(m, root, sz, tramp, tf) && root in s0
    && forall u {:trigger KeySent(u)} :: KeySent(u) ==>
         && Only(m0, o0, s0, m.mem, m.owner, m.spaces, root, 0, TRAPFRAME, {})
         && Wrote(m0, s0[root].flat, m.mem, m.spaces[root].flat, sz, at, d)
         && Faulted(s0[root].flat, m.spaces[root].flat)
  }

  predicate KeySent(u: int) { true }

  lemma Seal(m: Machine<Bytes>, m0: map<nat, Page<Bytes>>, o0: map<nat, Owner>, s0: map<nat, Space>, root: nat, sz: nat,
             tramp: nat, tf: nat, at: nat, d: seq<byte>)
    requires Process(m, root, sz, tramp, tf) && Only(m0, o0, s0, m.mem, m.owner, m.spaces, root, 0, TRAPFRAME, {})
    requires Wrote(m0, s0[root].flat, m.mem, m.spaces[root].flat, sz, at, d)
             && Faulted(s0[root].flat, m.spaces[root].flat)
    ensures Sent(m, m0, o0, s0, root, sz, tramp, tf, at, d)
  {
  }

  lemma Unseal(m: Machine<Bytes>, m0: map<nat, Page<Bytes>>, o0: map<nat, Owner>, s0: map<nat, Space>, root: nat,
               sz: nat, tramp: nat, tf: nat, at: nat, d: seq<byte>)
    requires Sent(m, m0, o0, s0, root, sz, tramp, tf, at, d)
    ensures Process(m, root, sz, tramp, tf) && Only(m0, o0, s0, m.mem, m.owner, m.spaces, root, 0, TRAPFRAME, {})
    ensures Wrote(m0, s0[root].flat, m.mem, m.spaces[root].flat, sz, at, d)
            && Faulted(s0[root].flat, m.spaces[root].flat)
  {
    assert KeySent(0);
  }

  lemma InPage(x: nat, left: nat)
    requires left > 0
    ensures x == x / PGSIZE * PGSIZE + x % PGSIZE && x % PGSIZE < PGSIZE
    ensures var n := if left < PGSIZE - x % PGSIZE then left else PGSIZE - x % PGSIZE; n > 0 && x % PGSIZE + n <= PGSIZE
  {
  }

  lemma NotThere(m: Machine<Bytes>, root: nat, sz: nat, v: nat)
    requires m.Valid() && root in m.spaces && SpaceFits(m.spaces[root], sz) && v >= MAX_PAGES
    ensures Denied(m.spaces[root].flat, sz, v)
  {
    FitsLarger(m.spaces[root], sz, sz);
    FlatBounds(m.mem, m.owner, root, m.spaces[root]);
  }

  /** Finds the page for a copy; what has been copied so far is not disturbed. */
  method OpenPage(m: Machine<Bytes>, root: nat, sz: nat, v: nat, ghost at: nat, ghost before: seq<byte>,
                  ghost tramp: nat, ghost tf: nat,
                  ghost m0: map<nat, Page<Bytes>>, ghost o0: map<nat, Owner>, ghost s0: map<nat, Space>)
    returns (pa: Option<nat>)
    requires Sent(m, m0, o0, s0, root, sz, tramp, tf, at, before)
    modifies m
    ensures Sent(m, m0, o0, s0, root, sz, tramp, tf, at, before) && |m.free| >= |old(m.free)| - 3
    ensures pa.Some? ==> Here(m.mem, m.spaces[root].flat, v) && pa.value == m.spaces[root].flat[v].frame
    ensures pa.None? ==> Denied(s0[root].flat, sz, v) || |old(m.free)| < 3
  {
    ghost var m1, o1, s1 := m.mem, m.owner, m.spaces;
    Unseal(m, m0, o0, s0, root, sz, tramp, tf, at, before);
    pa := Access(m, root, sz, v, tramp, tf);
    OnlyWiden(m1, o1, s1, m.mem, m.owner, m.spaces, root, 0, 0, {}, 0, TRAPFRAME, {});
    OnlyTrans(m0, o0, s0, m1, o1, s1, m.mem, m.owner, m.spaces, root, 0, TRAPFRAME, {});
    WroteThen(m0, s0[root].flat, m1, s1[root].flat, m.mem, m.spaces[root].flat, sz, at, before);
    DeniedBefore(s0[root].flat, s1[root].flat, sz, v);
    FaultedTwice(s0[root].flat, s1[root].flat, m.spaces[root].flat);
    Seal(m, m0, o0, s0, root, sz, tramp, tf, at, before);
  }

  lemma WroteThen(mem0: map<nat, Page<Bytes>>, flat0: map<nat, Pte>, mem1: map<nat, Page<Bytes>>, flat1: map<nat, Pte>,
                  mem2: map<nat, Page<Bytes>>, flat2: map<nat, Pte>, sz: nat, at: nat, d: seq<byte>)
    requires Wrote(mem0, flat0, mem1, flat1, sz, at, d) && Wrote(mem1, flat1, mem2, flat2, sz, 0, [])
    ensures Wrote(mem0, flat0, mem2, flat2, sz, at, d)
  {
    assert KeyView(0);
    forall a: nat
      ensures View(mem2, flat2, sz, a) == if at <= a < at + |d| then Some(d[a - at]) else View(mem0, flat0, sz, a) {
      assert View(mem1, flat1, sz, a) == View(mem1, flat1, sz, a);
    }
  }

  /** Copies `d` into a page that is there. */
  method PutBytes(m: Machine<Bytes>, root: nat, sz: nat, v: nat, pa: nat, o: nat, d: seq<byte>, ghost x: nat,
                  ghost at: nat, ghost before: seq<byte>, ghost after: seq<byte>, ghost tramp: nat, ghost tf: nat,
                  ghost m0: map<nat, Page<Bytes>>, ghost o0: map<nat, Owner>, ghost s0: map<nat, Space>)
    requires Sent(m, m0, o0, s0, root, sz, tramp, tf, at, before) && after == before + d
             && Here(m.mem, m.spaces[root].flat, v) && pa == m.spaces[root].flat[v].frame
    requires o < PGSIZE && o + |d| <= PGSIZE && x == v * PGSIZE + o == at + |before|
    modifies m`mem
    ensures Sent(m, m0, o0, s0, root, sz, tramp, tf, at, after)
  {
    ghost var m1 := m.mem;
    Unseal(m, m0, o0, s0, root, sz, tramp, tf, at, before);
    UserPage(m.mem, m.owner, root, m.spaces[root], sz, tramp, tf, v);
    var page := Data(Patch(BytesOf(m.mem[pa]), o, d));
    m.WritePage(root, v, pa, page);
    PutSeen(m1, m.owner, m.spaces, root, sz, tramp, tf, v, pa, o, d, m.mem, x, m0, s0, at, before, after);
    OnlyTrans(m0, o0, s0, m1, m.owner, m.spaces, m.mem, m.owner, m.spaces, root, 0, TRAPFRAME, {});
    Seal(m, m0, o0, s0, root, sz, tramp, tf, at, after);
  }

  lemma PutSeen(mem: map<nat, Page<Bytes>>, owner: map<nat, Owner>, spaces: map<nat, Space>, root: nat, sz: nat,
                tramp: nat, tf: nat, v: nat, f: nat, o: nat,
                d: seq<byte>, mem': map<nat, Page<Bytes>>, x: nat, m0: map<nat, Page<Bytes>>, s0: map<nat, Space>,
                at: nat, before: seq<byte>, after: seq<byte>)
    requires root in spaces && root in s0 && SpaceOk(mem, owner, root, spaces[root]) && SpaceFits(spaces[root], sz)
             && HasEnds(spaces[root].flat, tramp, tf)
    requires owner.Keys <= mem.Keys && Here(mem, spaces[root].flat, v) && f == spaces[root].flat[v].frame && o < PGSIZE
             && o + |d| <= PGSIZE
    requires mem' == mem[f := Data(Patch(BytesOf(mem[f]), o, d))] && x == v * PGSIZE + o == at + |before|
             && after == before + d
    requires Wrote(m0, s0[root].flat, mem, spaces[root].flat, sz, at, before)
    ensures Wrote(m0, s0[root].flat, mem', spaces[root].flat, sz, at, after)
  {
    PatchSeen(mem, owner, root, spaces[root], sz, tramp, tf, v, f, o, d, mem', x);
    WroteMore(m0, s0[root].flat, mem, spaces[root].flat, mem', spaces[root].flat, sz, at, before, d, x, after);
  }

  /** The kernel may store at address `a` for the user: the page is promised or the user's, and not read-only. */
  ghost predicate MayStore(flat: map<nat, Pte>, sz: nat, a: nat) {
    !Denied(flat, sz, a / PGSIZE) && !ReadOnly(flat, a / PGSIZE)
  }

  /** A page that is there for the user was promised, or was there. */
  lemma NotDenied(mem: map<nat, Page<Bytes>>, owner: map<nat, Owner>, root: nat, sp: Space, sz: nat, tramp: nat,
                  tf: nat, flat0: map<nat, Pte>, v: nat)
    requires SpaceOk(mem, owner, root, sp) && SpaceFits(sp, sz) && HasEnds(sp.flat, tramp, tf)
             && owner.Keys <= mem.Keys && Here(mem, sp.flat, v) && Faulted(flat0, sp.flat)
    ensures !Denied(flat0, sz, v) && (ReadOnly(flat0, v) ==> !sp.flat[v].flags.w)
  {
    assert KeyFault(0);
    UserPage(mem, owner, root, sp, sz, tramp, tf, v);
  }

  /** The bytes stored so far all went where they may. */
  ghost predicate Stored(flat: map<nat, Pte>, sz: nat, dst: nat, n: nat) {
    forall a {:trigger MayStore(flat, sz, a)} :: dst <= a < dst + n ==> MayStore(flat, sz, a)
  }

  /** One more piece, all in one page. */
  lemma StoredNext(flat: map<nat, Pte>, sz: nat, dst: nat, i: nat, n: nat, len: nat, q: nat)
    requires Stored(flat, sz, dst, i) && i + n <= len && q == i + n && MayStore(flat, sz, dst + i)
    requires n == if len - i < PGSIZE - (dst + i) % PGSIZE then len - i else PGSIZE - (dst + i) % PGSIZE
    ensures Stored(flat, sz, dst, q)
  {
    forall a | dst + i <= a < dst + q ensures a / PGSIZE == (dst + i) / PGSIZE {
    }
  }

  /** Why a copy to page `v` stops. */
  ghost predicate Stopped(flat: map<nat, Pte>, sz: nat, v: nat, frames: nat, pages: nat) {
    Denied(flat, sz, v) || ReadOnly(flat, v) || frames < 3 * pages
  }

  /**
   Up to the end of one page: `n` bytes of the rest of `src`, or none if the page is denied, read-only or
   cannot be had.
   */
  method SendPage(m: Machine<Bytes>, root: nat, sz: nat, x: nat, src: seq<byte>, i: nat, ghost at: nat,
                  ghost before: seq<byte>, ghost tramp: nat, ghost tf: nat,
                  ghost m0: map<nat, Page<Bytes>>, ghost o0: map<nat, Owner>, ghost s0: map<nat, Space>)
    returns (n: nat, ghost after: seq<byte>)
    requires Sent(m, m0, o0, s0, root, sz, tramp, tf, at, before) && i < |src| && before == src[..i] && x == at + i
    modifies m
    ensures i + n <= |src| && after == src[..i + n] && Sent(m, m0, o0, s0, root, sz, tramp, tf, at, after)
    ensures n > 0 ==> n == if |src| - i < PGSIZE - x % PGSIZE then |src| - i else PGSIZE - x % PGSIZE
    ensures n == 0 ==> after == before && Stopped(s0[root].flat, sz, x / PGSIZE, |old(m.free)|, 1)
    ensures n > 0 ==> MayStore(s0[root].flat, sz, x)
    ensures |m.free| >= |old(m.free)| - 3
  {
    after := before;
    var v, o := x / PGSIZE, x % PGSIZE;
    InPage(x, |src| - i);
    if v >= MAX_PAGES {
      NotThere(m, root, sz, v);
      Unseal(m, m0, o0, s0, root, sz, tramp, tf, at, before);
      DeniedBefore(s0[root].flat, m.spaces[root].flat, sz, v);
      return 0, after;
    }
    var pa := OpenPage(m, root, sz, v, at, before, tramp, tf, m0, o0, s0);
    if pa.None? {
      return 0, after;
    }
    Unseal(m, m0, o0, s0, root, sz, tramp, tf, at, before);
    DeniedBefore(s0[root].flat, m.spaces[root].flat, sz, v);
    var w := Writable(m, root, v);
    if !w {
      return 0, after;
    }
    NotDenied(m.mem, m.owner, root, m.spaces[root], sz, tramp, tf, s0[root].flat, v);
    n := if |src| - i < PGSIZE - o then |src| - i else PGSIZE - o;
    after := src[..i + n];
    Sliced(src, i, n);
    PutBytes(m, root, sz, v, pa.value, o, src[i..i + n], x, at, before, after, tramp, tf, m0, o0, s0);
  }

  lemma Sliced(s: seq<byte>, i: nat, n: nat)
    requires i + n <= |s|
    ensures s[..i + n] == s[..i] + s[i..i + n]
  {
  }

  /** Frames left after the pages from that of `dst` to that of `x`. */
  ghost predicate Left(free: nat, free0: nat, dst: nat, x: nat) { free >= free0 - 3 * (x / PGSIZE - dst / PGSIZE) }

  lemma LeftNext(free0: nat, free1: nat, free2: nat, dst: nat, i: nat, n: nat, len: nat)
    requires Left(free1, free0, dst, dst + i) && free2 >= free1 - 3 && i + n < len
    requires n == if len - i < PGSIZE - (dst + i) % PGSIZE then len - i else PGSIZE - (dst + i) % PGSIZE
    ensures Left(free2, free0, dst, dst + (i + n))
  {
    NextPage(dst, i, n, len);
  }

  lemma StopNow(flat: map<nat, Pte>, sz: nat, dst: nat, x: nat, free: nat, free0: nat)
    requires Stopped(flat, sz, x / PGSIZE, free, 1) && Left(free, free0, dst, x) && dst <= x
    ensures Stopped(flat, sz, x / PGSIZE, free0, Spanned(dst, x))
  {
  }

  /** The pages from that of `dst` to that of `x`. */
  function Spanned(dst: nat, x: nat): (r: nat)
    requires dst <= x
  {
    x / PGSIZE - dst / PGSIZE + 1
  }

  /**
   Copies `src` to address `dst`.  `done` bytes get there, all of them on success; the user finds them
   and everything else as it was.  It stops at the first page that is denied or read-only, or when memory
   is short.
   */
  method Copyout(m: Machine<Bytes>, root: nat, sz: nat, dst: nat, src: seq<byte>, ghost tramp: nat, ghost tf: nat)
    returns (ok: bool, ghost done: seq<byte>)
    requires Process(m, root, sz, tramp, tf)
    modifies m
    ensures done <= src && (ok <==> done == src)
            && Sent(m, old(m.mem), old(m.owner), old(m.spaces), root, sz, tramp, tf, dst, done)
    ensures !ok ==>
              Stopped(old(m.spaces[root].flat), sz, (dst + |done|) / PGSIZE, |old(m.free)|, Spanned(dst, dst + |done|))
    ensures Stored(old(m.spaces[root].flat), sz, dst, |done|)
    ensures src != [] && |old(m.free)| >= 3 * Spanned(dst, dst + |src| - 1) ==>
              (ok <==> Stored(old(m.spaces[root].flat), sz, dst, |src|))
  {
    ghost var m0, o0, s0, free0 := m.mem, m.owner, m.spaces, |m.free|;
    OnlySelf(m.mem, m.owner, m.spaces, root, 0, TRAPFRAME, {});
    WroteNothing(m.mem, m.spaces[root].flat, sz, dst);
    FaultedNone(m.spaces[root].flat);
    done := [];
    Seal(m, m0, o0, s0, root, sz, tramp, tf, dst, done);
    var i := 0;
    while i < |src|
      invariant i <= |src| && done == src[..i] && Sent(m, m0, o0, s0, root, sz, tramp, tf, dst, done)
      invariant i < |src| ==> Left(|m.free|, free0, dst, dst + i)
      invariant Stored(s0[root].flat, sz, dst, i)
    {
      ghost var free1 := |m.free|;
      var n;
      n, done := SendPage(m, root, sz, dst + i, src, i, dst, done, tramp, tf, m0, o0, s0);
      if n == 0 {
        StopNow(s0[root].flat, sz, dst, dst + i, free1, free0);
        assert Stored(s0[root].flat, sz, dst, |src|) ==> MayStore(s0[root].flat, sz, dst + i);
        return false, done;
      }
      StoredNext(s0[root].flat, sz, dst, i, n, |src|, i + n);
      if i + n < |src| {
        LeftNext(free0, free1, |m.free|, dst, i, n, |src|);
      }
      i := i + n;
    }
    ok := true;
  }

  lemma NextPage(x: nat, i: nat, n: nat, len: nat)
    requires i + n <= len && n == if len - i < PGSIZE - (x + i) % PGSIZE then len - i else PGSIZE - (x + i) % PGSIZE
    ensures i + n < len ==> (x + i + n) % PGSIZE == 0 && (x + i + n) / PGSIZE == (x + i) / PGSIZE + 1
  {
  }

  // ---- From the user ----

  /** The user finds `d` at address `at`. */
  ghost predicate Found(mem: map<nat, Page<Bytes>>, flat: map<nat, Pte>, sz: nat, at: nat, d: seq<byte>) {
    forall i {:trigger d[i]} :: 0 <= i < |d| ==> View(mem, flat, sz, at + i) == Some(d[i])
  }

  lemma FoundMore(mem: map<nat, Page<Bytes>>, flat: map<nat, Pte>, sz: nat, at: nat, d: seq<byte>, e: seq<byte>, x: nat)
    requires Found(mem, flat, sz, at, d) && Found(mem, flat, sz, x, e) && x == at + |d|
    ensures Found(mem, flat, sz, at, d + e)
  {
    var all := d + e;
    forall i | 0 <= i < |all| ensures View(mem, flat, sz, at + i) == Some(all[i]) {
      if i >= |d| {
        assert View(mem, flat, sz, x + (i - |d|)) == Some(e[i - |d|]);
      }
    }
  }

  /** The bytes of a page that is there are what the user finds, now as before. */
  lemma PageFound(mem: map<nat, Page<Bytes>>, flat: map<nat, Pte>, sz: nat, v: nat, o: nat, n: nat, x: nat,
                  mem0: map<nat, Page<Bytes>>, flat0: map<nat, Pte>)
    requires Here(mem, flat, v) && o + n <= PGSIZE && x == v * PGSIZE + o && Wrote(mem0, flat0, mem, flat, sz, 0, [])
    ensures Found(mem0, flat0, sz, x, BytesOf(mem[flat[v].frame])[o..o + n])
  {
    assert KeyView(0);
    var d := BytesOf(mem[flat[v].frame])[o..o + n];
    forall i | 0 <= i < n ensures View(mem0, flat0, sz, x + i) == Some(d[i]) {
      assert (x + i) / PGSIZE == v && (x + i) % PGSIZE == o + i;
      assert View(mem, flat, sz, x + i) == Some(d[i]);
    }
  }

  /** The bytes up to the end of one page, none if it is denied or cannot be had. */
  method FetchPage(m: Machine<Bytes>, root: nat, sz: nat, x: nat, left: nat, ghost tramp: nat, ghost tf: nat,
                   ghost m0: map<nat, Page<Bytes>>, ghost o0: map<nat, Owner>, ghost s0: map<nat, Space>)
    returns (d: seq<byte>)
    requires Sent(m, m0, o0, s0, root, sz, tramp, tf, 0, []) && left > 0
    modifies m
    ensures Sent(m, m0, o0, s0, root, sz, tramp, tf, 0, []) && |m.free| >= |old(m.free)| - 3
            && Found(m0, s0[root].flat, sz, x, d)
    ensures d != [] ==> |d| == if left < PGSIZE - x % PGSIZE then left else PGSIZE - x % PGSIZE
    ensures d == [] ==> Denied(s0[root].flat, sz, x / PGSIZE) || |old(m.free)| < 3
  {
    var v, o := x / PGSIZE, x % PGSIZE;
    InPage(x, left);
    var pa := OpenPage(m, root, sz, v, 0, [], tramp, tf, m0, o0, s0);
    if pa.None? {
      return [];
    }
    Unseal(m, m0, o0, s0, root, sz, tramp, tf, 0, []);
    var n := if left < PGSIZE - o then left else PGSIZE - o;
    PageFound(m.mem, m.spaces[root].flat, sz, v, o, n, x, m0, s0[root].flat);
    d := BytesOf(m.mem[pa.value])[o..o + n];
  }

  /**
   Copies `len` bytes from address `src`: what the user would find there.  Nothing the user could find
   changes.  It stops only at a page that is denied, or when memory is short.
   */
  method Copyin(m: Machine<Bytes>, root: nat, sz: nat, src: nat, len: nat, ghost tramp: nat, ghost tf: nat)
    returns (ok: bool, data: seq<byte>)
    requires Process(m, root, sz, tramp, tf)
    modifies m
    ensures Sent(m, old(m.mem), old(m.owner), old(m.spaces), root, sz, tramp, tf, 0, [])
            && Found(old(m.mem), old(m.spaces[root].flat), sz, src, data)
    ensures |data| <= len && (ok <==> |data| == len)
    ensures !ok ==>
              Denied(old(m.spaces[root].flat), sz, (src + |data|) / PGSIZE)
              || |old(m.free)| < 3 * Spanned(src, src + |data|)
  {
    ghost var m0, o0, s0, free0 := m.mem, m.owner, m.spaces, |m.free|;
    OnlySelf(m.mem, m.owner, m.spaces, root, 0, TRAPFRAME, {});
    WroteNothing(m.mem, m.spaces[root].flat, sz, 0);
    FaultedNone(m.spaces[root].flat);
    Seal(m, m0, o0, s0, root, sz, tramp, tf, 0, []);
    data := [];
    while |data| < len
      invariant |data| <= len && Sent(m, m0, o0, s0, root, sz, tramp, tf, 0, [])
                && Found(m0, s0[root].flat, sz, src, data)
      invariant |data| < len ==> Left(|m.free|, free0, src, src + |data|)
    {
      ghost var free1, i := |m.free|, |data|;
      var d := FetchPage(m, root, sz, src + |data|, len - |data|, tramp, tf, m0, o0, s0);
      if d == [] {
        return false, data;
      }
      FoundMore(m0, s0[root].flat, sz, src, data, d, src + |data|);
      if i + |d| < len {
        LeftNext(free0, free1, |m.free|, src, i, |d|, len);
      }
      data := data + d;
    }
    ok := true;
  }

  /** What was copied out is what is copied in. */
  lemma ReadBack(mem0: map<nat, Page<Bytes>>, flat0: map<nat, Pte>, mem: map<nat, Page<Bytes>>, flat: map<nat, Pte>,
                 sz: nat, at: nat, d: seq<byte>, e: seq<byte>)
    requires Wrote(mem0, flat0, mem, flat, sz, at, d) && Found(mem, flat, sz, at, e) && |e| <= |d|
    ensures e <= d
  {
    assert KeyView(0);
    forall i | 0 <= i < |e| ensures e[i] == d[i] {
      assert View(mem, flat, sz, at + i) == Some(e[i]);
    }
  }

  // ---- Strings ----

  /** Byte `b` is at address `a`, in a page that is there already. */
  ghost predicate ByteHere(mem: map<nat, Page<Bytes>>, flat: map<nat, Pte>, a: nat, b: byte) {
    Here(mem, flat, a / PGSIZE) && BytesOf(mem[flat[a / PGSIZE].frame])[a % PGSIZE] == b
  }

  /** `s` is at address `at`, and has no zero in it. */
  ghost predicate TextHere(mem: map<nat, Page<Bytes>>, flat: map<nat, Pte>, at: nat, s: seq<byte>) {
    forall i {:trigger s[i]} :: 0 <= i < |s| ==> s[i] != 0 && ByteHere(mem, flat, at + i, s[i])
  }

  lemma TextMore(mem: map<nat, Page<Bytes>>, flat: map<nat, Pte>, at: nat, s: seq<byte>, b: byte)
    requires TextHere(mem, flat, at, s) && b != 0 && ByteHere(mem, flat, at + |s|, b)
    ensures TextHere(mem, flat, at, s + [b])
  {
  }

  /** The bytes of one page up to a zero, the end of the page or `left` of them. */
  method ScanPage(page: Bytes, o: nat, left: nat, ghost mem: map<nat, Page<Bytes>>, ghost flat: map<nat, Pte>,
                  ghost at: nat, s0: seq<byte>, ghost v: nat)
    returns (s: seq<byte>, zero: bool)
    requires Here(mem, flat, v) && page == BytesOf(mem[flat[v].frame]) && at + |s0| == v * PGSIZE + o && o < PGSIZE
             && TextHere(mem, flat, at, s0)
    ensures |s0| <= |s| && |s| - |s0| <= left && TextHere(mem, flat, at, s)
    ensures zero ==> |s| - |s0| < left && ByteHere(mem, flat, at + |s|, 0)
    ensures !zero ==> |s| - |s0| == if left < PGSIZE - o then left else PGSIZE - o
  {
    s := s0;
    var n := if left < PGSIZE - o then left else PGSIZE - o;
    var k := 0;
    while k < n
      invariant 0 <= k <= n && |s| == |s0| + k && TextHere(mem, flat, at, s)
    {
      assert (v * PGSIZE + (o + k)) / PGSIZE == v && (v * PGSIZE + (o + k)) % PGSIZE == o + k;
      if page[o + k] == 0 {
        return s, true;
      }
      TextMore(mem, flat, at, s, page[o + k]);
      s := s + [page[o + k]];
      k := k + 1;
    }
    return s, false;
  }

  /**
   Copies a string from address `src`, up to its zero.  It succeeds exactly when the zero is among the
   first `max` bytes and all the pages up to it are mapped: unlike Copyin, it does not fault pages in.
   */
  method Copyinstr(m: Machine<Bytes>, root: nat, src: nat, max: nat, ghost sz: nat, ghost tramp: nat, ghost tf: nat)
    returns (ok: bool, s: seq<byte>)
    requires Process(m, root, sz, tramp, tf)
    modifies m
    ensures unchanged(m) && |s| <= max && TextHere(m.mem, m.spaces[root].flat, src, s)
    ensures ok ==> |s| < max && ByteHere(m.mem, m.spaces[root].flat, src + |s|, 0)
    ensures !ok ==> |s| == max || !Here(m.mem, m.spaces[root].flat, (src + |s|) / PGSIZE)
  {
    s := [];
    while |s| < max
      invariant |s| <= max && unchanged(m) && TextHere(m.mem, m.spaces[root].flat, src, s)
    {
      var x := src + |s|;
      InPage(x, max - |s|);
      var pa := m.Walkaddr(root, x / PGSIZE);
      if pa.None? {
        return false, s;
      }
      UserPage(m.mem, m.owner, root, m.spaces[root], sz, tramp, tf, x / PGSIZE);
      var zero;
      s, zero :=
          ScanPage(BytesOf(m.mem[pa.value]), x % PGSIZE, max - |s|, m.mem, m.spaces[root].flat, src, s, x / PGSIZE);
      if zero {
        return true, s;
      }
    }
    return false, s;
  }
}
