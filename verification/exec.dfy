/**
 `exec`: a program image built segment by segment beside the old address space, then swapped in.
 The new space is what the program headers say, whatever order and overlap the segments have; a
 failure at any point leaves no trace.
 */
module Exec {
  import opened Common
  import opened PageTables
  import opened Vm
  import opened AddressSpaces
  import opened UserCopy
  import opened Arguments

  /** A loadable segment: the header's fields, and what the file holds from the segment's offset on. */
  datatype Segment = Segment(vaddr: nat, memsz: nat, filesz: nat, w: bool, x: bool, file: seq<byte>)

  // ---- What a program's headers say ----

  function End(seg: Segment): (r: nat) { (seg.vaddr + seg.memsz) % WORD }

  /** The file size is passed on as a 32-bit number. */
  function FileSize(seg: Segment): (r: nat) { seg.filesz % 0x1_0000_0000 }

  /** The segment passes the checks of `kexec`, and the file holds all of it. */
  predicate Sound(seg: Segment) {
    seg.memsz >= seg.filesz && seg.vaddr + seg.memsz < WORD && seg.vaddr % PGSIZE == 0 && FileSize(seg) <= |seg.file|
  }

  /** The size of the program after its first `n` segments. */
  function SizeAfter(segs: seq<Segment>, n: nat): (r: nat)
    requires n <= |segs|
  {
    if n == 0 then 0 else if End(segs[n - 1]) < SizeAfter(segs, n - 1) then SizeAfter(segs, n - 1) else End(segs[n - 1])
  }

  lemma {:induction false} SizeGrows(segs: seq<Segment>, i: nat, n: nat)
    requires i <= n <= |segs|
    ensures SizeAfter(segs, i) <= SizeAfter(segs, n)
  {
    if i < n {
      SizeGrows(segs, i, n - 1);
    }
  }

  /**
   Every segment is page aligned, has room for its part of the file, which the file holds, and does not wrap
   around; the first reaches beyond address 0 (a growth to nothing counts as a failure).
   */
  ghost predicate Loadable(segs: seq<Segment>) {
    forall u {:trigger KeyLoad(u)} :: KeyLoad(u) ==>
      && (forall i :: 0 <= i < |segs| ==>
            && segs[i].vaddr % PGSIZE == 0 && segs[i].filesz <= segs[i].memsz && segs[i].vaddr + segs[i].memsz < WORD
            && segs[i].filesz % 0x1_0000_0000 <= |segs[i].file|)
      && (segs != [] ==> segs[0].vaddr + segs[0].memsz > 0)
  }

  predicate KeyLoad(u: int) { true }

  lemma {:induction false} LoadableSize(segs: seq<Segment>, n: nat)
    requires Loadable(segs) && 0 < n <= |segs|
    ensures SizeAfter(segs, n) > 0 && Sound(segs[n - 1])
  {
    assert KeyLoad(0);
    SizeGrows(segs, 1, n);
    assert Sound(segs[0]);
  }

  /** Address `a` gets its contents from the file. */
  predicate Fills(seg: Segment, a: nat) { seg.vaddr <= a < seg.vaddr + FileSize(seg) <= seg.vaddr + |seg.file| }

  /** The byte at address `a`: from the last segment that fills it, or zero. */
  function ByteOf(segs: seq<Segment>, n: nat, a: nat): (r: byte)
    requires n <= |segs|
  {
    if n == 0 then 0
    else if Fills(segs[n - 1], a) then segs[n - 1].file[a - segs[n - 1].vaddr]
    else ByteOf(segs, n - 1, a)
  }

  /** `k` bytes from address `a` on. */
  function Span(segs: seq<Segment>, n: nat, a: nat, k: nat): (r: seq<byte>)
    requires n <= |segs|
    ensures |r| == k && forall i :: 0 <= i < k ==> r[i] == ByteOf(segs, n, a + i)
  {
    if k == 0 then [] else Span(segs, n, a, k - 1) + [ByteOf(segs, n, a + (k - 1))]
  }

  /** The bytes of page `w`. */
  function PageOf(segs: seq<Segment>, n: nat, w: nat): (r: Bytes)
    requires n <= |segs|
  {
    Span(segs, n, w * PGSIZE, PGSIZE)
  }

  /** The permissions of page `w`: those of the first segment that reaches it. */
  function FlagsOf(segs: seq<Segment>, n: nat, w: nat): (r: Flags)
    requires n <= |segs|
  {
    if n == 0 then Flags(true, false, false, true)
    else if w < Pages(SizeAfter(segs, n - 1)) then FlagsOf(segs, n - 1, w)
    else Flags(true, segs[n - 1].w, segs[n - 1].x, true)
  }

  /** Page `w` is mapped with these permissions and holds `c`. */
  ghost predicate Has(mem: map<nat, Page<Bytes>>, flat: map<nat, Pte>, w: nat, flags: Flags, c: Bytes) {
    w in flat && flat[w].Refers? && flat[w].flags == flags && flat[w].frame in mem && mem[flat[w].frame] == Data(c)
  }

  /** Pages [lo, hi) are mapped and zero. */
  ghost predicate ZeroPages(mem: map<nat, Page<Bytes>>, flat: map<nat, Pte>, lo: nat, hi: nat, flags: Flags) {
    forall w :: lo <= w < hi ==> Has(mem, flat, w, flags, ZeroPage())
  }

  /** The pages below `hi` are what the first `n` segments say. */
  ghost predicate Laid(mem: map<nat, Page<Bytes>>, flat: map<nat, Pte>, segs: seq<Segment>, n: nat, hi: nat)
    requires n <= |segs|
  {
    forall w :: 0 <= w < hi ==> Has(mem, flat, w, FlagsOf(segs, n, w), PageOf(segs, n, w))
  }

  /** A sound segment fills only what it reaches. */
  lemma FillsBelow(seg: Segment, a: nat)
    requires Sound(seg) && Fills(seg, a)
    ensures a < End(seg)
  {
    assert seg.filesz % 0x1_0000_0000 <= seg.filesz;
  }

  lemma PagesMono(a: nat, b: nat)
    requires a <= b
    ensures Pages(a) <= Pages(b)
  {
  }

  /** Nothing is said about bytes past the end. */
  lemma {:induction false} PastEnd(segs: seq<Segment>, n: nat, a: nat)
    requires n <= |segs| && (forall j :: 0 <= j < n ==> Sound(segs[j])) && a >= SizeAfter(segs, n)
    ensures ByteOf(segs, n, a) == 0
  {
    if n > 0 {
      if Fills(segs[n - 1], a) {
        FillsBelow(segs[n - 1], a);
      }
      PastEnd(segs, n - 1, a);
    }
  }

  lemma PagePastEnd(segs: seq<Segment>, n: nat, w: nat)
    requires n <= |segs| && (forall j :: 0 <= j < n ==> Sound(segs[j])) && w >= Pages(SizeAfter(segs, n))
    ensures PageOf(segs, n, w) == ZeroPage()
  {
    forall i | 0 <= i < PGSIZE ensures PageOf(segs, n, w)[i] == ZeroPage()[i] {
      PastEnd(segs, n, w * PGSIZE + i);
    }
  }

  /** The bytes of a segment of `size` bytes that belong in its page `p`. */
  function Chunk(file: seq<byte>, size: nat, p: nat): (r: seq<byte>)
    ensures |r| <= PGSIZE
  {
    var lo := p * PGSIZE;
    var hi := if size < lo + PGSIZE then size else lo + PGSIZE;
    if lo <= hi <= |file| then file[lo..hi] else []
  }

  /** Loading a segment over a page gives what the headers say, and leaves the bytes past its end. */
  lemma ChunkFills(segs: seq<Segment>, n: nat, q: nat, w: nat)
    requires n < |segs| && q == n + 1 && Sound(segs[n])
    ensures var first, k := segs[n].vaddr / PGSIZE, Pages(FileSize(segs[n]));
            PageOf(segs, q, w) == if first <= w < first + k then Patch(PageOf(segs, n, w), 0,
                                                                       Chunk(segs[n].file, FileSize(segs[n]),
                    w - first)) else PageOf(segs, n, w)
  {
    var seg := segs[n];
    var first, size := seg.vaddr / PGSIZE, FileSize(seg);
    forall i | 0 <= i < PGSIZE
      ensures PageOf(segs, q,
                     w)[i] ==
              (if first <= w < first + Pages(size) then Patch(PageOf(segs, n, w), 0, Chunk(seg.file, size, w - first))
               else PageOf(segs, n, w))[i]
    {
      ChunkByte(seg, w, i);
    }
  }

  lemma ChunkByte(seg: Segment, w: nat, i: nat)
    requires Sound(seg) && i < PGSIZE
    ensures var first, size, a := seg.vaddr / PGSIZE, FileSize(seg), w * PGSIZE + i;
            && (Fills(seg, a) <==> first <= w < first + Pages(size) && i < |Chunk(seg.file, size, w - first)|)
            && (Fills(seg, a) ==> Chunk(seg.file, size, w - first)[i] == seg.file[a - seg.vaddr])
  {
    var first := seg.vaddr / PGSIZE;
    assert seg.vaddr == first * PGSIZE;
    if first <= w {
      assert (w - first) * PGSIZE == w * PGSIZE - seg.vaddr;
    }
  }

  // ---- Growing and loading ----

  /** Pages that were mapped still are, with the same contents. */
  ghost predicate Kept(mem0: map<nat, Page<Bytes>>, flat0: map<nat, Pte>, mem: map<nat, Page<Bytes>>,
                       flat: map<nat, Pte>) {
    forall w {:trigger flat0[w]} {:trigger flat[w]} :: w in flat0 ==>
      && w in flat && flat[w] == flat0[w]
      && (w < TRAPFRAME ==>
          flat[w].Refers? && flat[w].frame in mem0 && flat[w].frame in mem && mem[flat[w].frame] == mem0[flat[w].frame])
  }

  lemma KeptPages(m1: map<nat, Page<Bytes>>, o1: map<nat, Owner>, s1: map<nat, Space>, m2: map<nat, Page<Bytes>>,
                  o2: map<nat, Owner>, s2: map<nat, Space>, root: nat)
    requires Only(m1, o1, s1, m2, o2, s2, root, 0, 0, {}) && SpaceOk(m1, o1, root, s1[root]) && s1[root].user
    requires forall w :: w in s1[root].flat ==> w in s2[root].flat && s2[root].flat[w] == s1[root].flat[w]
    ensures Kept(m1, s1[root].flat, m2, s2[root].flat)
  {
    forall w | w in s1[root].flat && w < TRAPFRAME
      ensures var f := s1[root].flat[w]; f.Refers? && f.frame in m1 && f.frame in m2 && m2[f.frame] == m1[f.frame]
    {
      StillThere(m1, o1, s1, m2, o2, s2, root, root, w);
    }
  }

  /** Since `mem0`, `k` pages from `first` on have got their bytes from the file, and no other byte has changed. */
  ghost predicate Loaded(mem0: map<nat, Page<Bytes>>, mem: map<nat, Page<Bytes>>, flat: map<nat, Pte>, first: nat,
                         file: seq<byte>, size: nat, k: nat) {
    forall w {:trigger flat[w]} :: w in flat && w < TRAPFRAME ==>
      && flat[w].Refers? && flat[w].frame in mem0 && flat[w].frame in mem
      && mem[flat[w].frame] ==
        if first <= w < first + k then Data(Patch(BytesOf(mem0[flat[w].frame]), 0, Chunk(file, size, w - first)))
        else mem0[flat[w].frame]
  }

  lemma LoadedNone(mem: map<nat, Page<Bytes>>, owner: map<nat, Owner>, root: nat, sp: Space, first: nat,
                   file: seq<byte>, size: nat)
    requires SpaceOk(mem, owner, root, sp) && sp.user && owner.Keys <= mem.Keys
    ensures Loaded(mem, mem, sp.flat, first, file, size, 0)
  {
    forall w | w in sp.flat && w < TRAPFRAME ensures sp.flat[w].Refers? && sp.flat[w].frame in mem {
      LeafAt(mem, owner, root, sp, w);
    }
  }

  /** Distinct pages have distinct frames, so a change to one page is a change to no other. */
  lemma OtherFrames(mem: map<nat, Page<Bytes>>, owner: map<nat, Owner>, root: nat, sp: Space, v: nat)
    requires SpaceOk(mem, owner, root, sp) && sp.user && v in sp.flat && v < TRAPFRAME
    ensures sp.flat[v].Refers?
            && forall w {:trigger sp.flat[w]} :: w in sp.flat && w < TRAPFRAME && w != v ==>
              sp.flat[w].Refers? && sp.flat[w].frame != sp.flat[v].frame
  {
    LeafAt(mem, owner, root, sp, v);
    forall w | w in sp.flat && w < TRAPFRAME && w != v
      ensures sp.flat[w].Refers? && sp.flat[w].frame != sp.flat[v].frame {
      LeafAt(mem, owner, root, sp, w);
    }
  }

  lemma LoadedNext(mem0: map<nat, Page<Bytes>>, mem: map<nat, Page<Bytes>>, mem': map<nat, Page<Bytes>>,
                   owner: map<nat, Owner>, root: nat, sp: Space,
                   first: nat, file: seq<byte>, size: nat, k: nat, q: nat, v: nat)
    requires SpaceOk(mem, owner, root, sp) && sp.user && Loaded(mem0, mem, sp.flat, first, file, size, k) && q == k + 1
    requires v == first + k && v in sp.flat && v < TRAPFRAME && sp.flat[v].Refers? && sp.flat[v].frame in mem
    requires mem' == mem[sp.flat[v].frame := Data(Patch(BytesOf(mem[sp.flat[v].frame]), 0, Chunk(file, size, k)))]
    ensures Loaded(mem0, mem', sp.flat, first, file, size, q)
  {
    OtherFrames(mem, owner, root, sp, v);
  }

  /** One more segment: the space grew from `lo` to `hi` pages and the segment was loaded. */
  lemma LaidNext(mem0: map<nat, Page<Bytes>>, flat0: map<nat, Pte>, mem1: map<nat, Page<Bytes>>, flat: map<nat, Pte>,
                 mem: map<nat, Page<Bytes>>,
                 segs: seq<Segment>, n: nat, q: nat, lo: nat, hi: nat)
    requires n < |segs| && q == n + 1 && Laid(mem0, flat0, segs, n, lo) && Kept(mem0, flat0, mem1, flat)
    requires (forall j :: 0 <= j < q ==> Sound(segs[j])) && lo == Pages(SizeAfter(segs, n))
             && hi == Pages(SizeAfter(segs, q)) && hi <= TRAPFRAME
    requires ZeroPages(mem1, flat, lo, hi, Flags(true, segs[n].w, segs[n].x, true))
    requires Loaded(mem1, mem, flat, segs[n].vaddr / PGSIZE, segs[n].file, FileSize(segs[n]), Pages(FileSize(segs[n])))
    ensures Laid(mem, flat, segs, q, hi)
  {
    forall w | 0 <= w < hi ensures Has(mem, flat, w, FlagsOf(segs, q, w), PageOf(segs, q, w)) {
      ChunkFills(segs, n, q, w);
      if w < lo {
        assert Has(mem0, flat0, w, FlagsOf(segs, n, w), PageOf(segs, n, w));
        assert w in flat0 && flat[w] == flat0[w];
      } else {
        PagePastEnd(segs, n, w);
        assert Has(mem1, flat, w, Flags(true, segs[n].w, segs[n].x, true), ZeroPage());
      }
    }
  }

  // ---- Building the image ----

  /** A program image under construction: every page below its size is mapped for the user. */
  ghost predicate Image(sp: Space, sz: nat) {
    SpaceFits(sp, sz) && forall w :: 0 <= w < Pages(sz) ==> w in sp.flat && sp.flat[w].Refers? && sp.flat[w].flags.u
  }

  ghost predicate Building(m: Machine<Bytes>, m0: map<nat, Page<Bytes>>, o0: map<nat, Owner>, s0: map<nat, Space>,
                           root: nat, sz: nat) reads m {
    && m.Valid() && Opened(m0, o0, s0, m.mem, m.owner, m.spaces, root) && Image(m.spaces[root], sz)
    && |m.owner| <= MAX_FRAMES && m.zero == ZeroPage()
  }

  /** What Uvmalloc needs, and what it leaves. */
  lemma ImageRoom(sp: Space, sz: nat, newsz: nat, frames: nat)
    requires Image(sp, sz) && frames <= MAX_FRAMES
    ensures Room(sp, frames, Pages(sz), Pages(newsz))
  {
    FitsLarger(sp, sz, sz);
  }

  lemma ImageGrown(sp: Space, sp': Space, sz: nat, newsz: nat, flags: Flags)
    requires Image(sp, sz) && sz <= newsz && Pages(newsz) <= TRAPFRAME && sp'.user && flags.u
    requires Grown(sp.flat, sp'.flat, Pages(sz), Pages(newsz), flags)
    ensures Image(sp', newsz)
  {
    FitsLarger(sp, sz, newsz);
  }

  /** Grows the image to `newsz` with zero pages; on failure the mappings are as before. */
  method GrowImage(m: Machine<Bytes>, root: nat, sz: nat, newsz: nat, w: bool, x: bool,
                   ghost m0: map<nat, Page<Bytes>>, ghost o0: map<nat, Owner>, ghost s0: map<nat, Space>)
    returns (sz1: nat)
    requires Building(m, m0, o0, s0, root, sz)
    modifies m
    ensures Building(m, m0, o0, s0, root, if sz1 == 0 then sz else sz1)
    ensures Kept(old(m.mem), old(m.spaces[root].flat), m.mem, m.spaces[root].flat)
    ensures sz1 != 0 ==> sz1 == if newsz < sz then sz else newsz
    ensures sz1 != 0 ==> ZeroPages(m.mem, m.spaces[root].flat, Pages(sz), Pages(sz1), Flags(true, w, x, true))
    ensures sz1 != 0 ==> |m.free| >= |old(m.free)| - 3 * (Pages(sz1) - Pages(sz))
    ensures sz1 == 0 ==> newsz == sz == 0 || (newsz >= sz && |old(m.free)| < 3 * (Pages(newsz) - Pages(sz)))
  {
    ghost var m1, o1, s1 := m.mem, m.owner, m.spaces;
    ImageRoom(m.spaces[root], sz, newsz, |m.owner|);
    ghost var ok: bool;
    sz1, ok := m.Uvmalloc(root, sz, newsz, w, x);
    OpenedOnly(m0, o0, s0, m1, o1, s1, m.mem, m.owner, m.spaces, root, 0, 0);
    SameSize(o1, o1, m.owner);
    GrowFacts(m1, o1, s1, m.mem, m.owner, m.spaces, root, sz, newsz, Flags(true, w, x, true), ok && newsz >= sz);
  }

  /** What a growth, or none, is to the image and its pages. */
  lemma GrowFacts(m1: map<nat, Page<Bytes>>, o1: map<nat, Owner>, s1: map<nat, Space>, m2: map<nat, Page<Bytes>>,
                  o2: map<nat, Owner>, s2: map<nat, Space>,
                  root: nat, sz: nat, newsz: nat, flags: Flags, grown: bool)
    requires Only(m1, o1, s1, m2, o2, s2, root, 0, 0, {}) && SpaceOk(m1, o1, root, s1[root]) && Image(s1[root], sz)
             && flags.u
    requires if grown then sz <= newsz && Pages(newsz) <= TRAPFRAME
             && Grown(s1[root].flat, s2[root].flat, Pages(sz), Pages(newsz), flags)
                           && Filled(m2, s2[root].flat, Pages(sz), Pages(newsz), Data(ZeroPage()))
             else s2[root].flat == s1[root].flat
    ensures Kept(m1, s1[root].flat, m2, s2[root].flat)
    ensures if grown then Image(s2[root], newsz) && ZeroPages(m2, s2[root].flat, Pages(sz), Pages(newsz), flags)
            else Image(s2[root], sz) && ZeroPages(m2, s2[root].flat, Pages(sz), Pages(sz), flags)
  {
    FitsLarger(s1[root], sz, sz);
    if grown {
      ImageGrown(s1[root], s2[root], sz, newsz, flags);
    }
    KeptPages(m1, o1, s1, m2, o2, s2, root);
  }

  /** Writes bytes to the start of a page that is mapped already. */
  method LoadPage(m: Machine<Bytes>, root: nat, ghost sz: nat, v: nat, d: seq<byte>,
                  ghost m0: map<nat, Page<Bytes>>, ghost o0: map<nat, Owner>, ghost s0: map<nat, Space>)
    requires Building(m, m0, o0, s0, root, sz) && v < Pages(sz) && |d| <= PGSIZE
    modifies m
    ensures Building(m, m0, o0, s0, root, sz) && m.spaces == old(m.spaces) && m.owner == old(m.owner)
            && m.free == old(m.free)
    ensures v in m.spaces[root].flat && m.spaces[root].flat[v].Refers? && v < TRAPFRAME
            && m.spaces[root].flat[v].frame in old(m.mem)
    ensures m.mem ==
            old(m.mem)[m.spaces[root].flat[v].frame := Data(Patch(BytesOf(old(m.mem)[m.spaces[root].flat[v].frame]), 0,
                                                                  d))]
  {
    FitsLarger(m.spaces[root], sz, sz);
    var pa := m.Walkaddr(root, v);
    ghost var m1 := m.mem;
    LeafAt(m.mem, m.owner, root, m.spaces[root], v);
    var page := Data(Patch(BytesOf(m.mem[pa.value]), 0, d));
    m.WritePage(root, v, pa.value, page);
    OpenedOnly(m0, o0, s0, m1, m.owner, m.spaces, m.mem, m.owner, m.spaces, root, 0, TRAPFRAME);
  }

  lemma PageInside(va: nat, p: nat, filesz: nat, sz: nat)
    requires va % PGSIZE == 0 && va + filesz <= sz && p * PGSIZE < filesz
    ensures va / PGSIZE + p < Pages(sz) && p < Pages(filesz)
  {
  }

  /** What a read of the file for page `p` of the segment gives, and whether it is all that was asked for. */
  lemma ReadOk(file: seq<byte>, filesz: nat, p: nat, n: nat, d: seq<byte>)
    requires p * PGSIZE < filesz && n == (if filesz - p * PGSIZE < PGSIZE then filesz - p * PGSIZE else PGSIZE)
    requires d == if |file| < p * PGSIZE then [] else if |file| < p * PGSIZE + n then file[p * PGSIZE..]
             else file[p * PGSIZE..p * PGSIZE + n]
    ensures |d| <= n <= PGSIZE && (|d| == n <==> p * PGSIZE + n <= |file|) && (|d| == n ==> d == Chunk(file, filesz, p))
    ensures |d| != n ==> |file| < filesz
  {
  }

  /** Reads the bytes for page `p` of a segment, as far as the file goes. */
  method LoadNext(m: Machine<Bytes>, root: nat, ghost sz: nat, first: nat, file: seq<byte>, filesz: nat, p: nat,
                  ghost q: nat, ghost mem1: map<nat, Page<Bytes>>,
                  ghost m0: map<nat, Page<Bytes>>, ghost o0: map<nat, Owner>, ghost s0: map<nat, Space>)
    returns (ok: bool)
    requires Building(m, m0, o0, s0, root, sz) && p * PGSIZE < filesz && first + p < Pages(sz) && q == p + 1
    requires Loaded(mem1, m.mem, m.spaces[root].flat, first, file, filesz, p)
    modifies m
    ensures Building(m, m0, o0, s0, root, sz) && m.spaces == old(m.spaces) && m.free == old(m.free)
    ensures ok ==>
              Loaded(mem1, m.mem, m.spaces[root].flat, first, file, filesz, q)
              && (q * PGSIZE <= |file| || filesz <= |file|)
    ensures !ok ==> |file| < filesz
  {
    var at := p * PGSIZE;
    var n := if filesz - at < PGSIZE then filesz - at else PGSIZE;
    var d := if |file| < at then [] else if |file| < at + n then file[at..] else file[at..at + n];
    ReadOk(file, filesz, p, n, d);
    ghost var m1, sp := m.mem, m.spaces[root];
    LoadPage(m, root, sz, first + p, d, m0, o0, s0);
    ok := |d| == n;
    if ok {
      LoadedNext(mem1, m1, m.mem, m.owner, root, sp, first, file, filesz, p, q, first + p);
    }
  }

  /** Reads a segment's bytes into pages that are all mapped already, as far as the file goes. */
  method Loadseg(m: Machine<Bytes>, root: nat, ghost sz: nat, va: nat, file: seq<byte>, filesz: nat,
                 ghost m0: map<nat, Page<Bytes>>, ghost o0: map<nat, Owner>, ghost s0: map<nat, Space>)
    returns (ok: bool)
    requires Building(m, m0, o0, s0, root, sz) && va % PGSIZE == 0 && va + filesz <= sz
    modifies m
    ensures Building(m, m0, o0, s0, root, sz) && m.spaces == old(m.spaces)
    ensures (ok <==> filesz <= |file|) && m.free == old(m.free)
    ensures ok ==> Loaded(old(m.mem), m.mem, m.spaces[root].flat, va / PGSIZE, file, filesz, Pages(filesz))
  {
    ghost var mem1, flat := m.mem, m.spaces[root].flat;
    var first := va / PGSIZE;
    LoadedNone(m.mem, m.owner, root, m.spaces[root], first, file, filesz);
    var p := 0;
    while p * PGSIZE < filesz
      invariant 0 <= p <= Pages(filesz) && Building(m, m0, o0, s0, root, sz) && m.spaces == old(m.spaces)
                && m.free == old(m.free)
      invariant Loaded(mem1, m.mem, flat, first, file, filesz, p) && (p * PGSIZE <= |file| || filesz <= |file|)
    {
      PageInside(va, p, filesz, sz);
      ghost var q := p + 1;
      ok := LoadNext(m, root, sz, first, file, filesz, p, q, mem1, m0, o0, s0);
      if !ok {
        return;
      }
      p := p + 1;
    }
    ok := true;
  }

  /** What the checks of `kexec` establish. */
  lemma Checked(seg: Segment)
    requires seg.vaddr < WORD && seg.memsz < WORD
    ensures Sound(seg) <==>
              seg.memsz >= seg.filesz && End(seg) >= seg.vaddr && seg.vaddr % PGSIZE == 0 && FileSize(seg) <= |seg.file|
    ensures seg.memsz >= seg.filesz && End(seg) >= seg.vaddr ==> seg.vaddr + FileSize(seg) <= End(seg)
  {
    assert FileSize(seg) <= seg.filesz;
  }

  /** Loading failed for lack of memory, or never could succeed. */
  ghost predicate Excused(seg: Segment, sz: nat, frames: nat) {
    !Sound(seg) || End(seg) == sz == 0 || (End(seg) >= sz && frames < 3 * (Pages(End(seg)) - Pages(sz)))
  }

  /** Makes room for a segment and loads it; `mem1` is the memory in between. */
  method GrowLoad(m: Machine<Bytes>, root: nat, sz: nat, seg: Segment,
                  ghost m0: map<nat, Page<Bytes>>, ghost o0: map<nat, Owner>, ghost s0: map<nat, Space>)
    returns (ok: bool, newsz: nat, ghost mem1: map<nat, Page<Bytes>>)
    requires Building(m, m0, o0, s0, root, sz) && seg.vaddr < WORD && seg.memsz < WORD
    modifies m
    ensures Building(m, m0, o0, s0, root, newsz)
    ensures ok ==> Sound(seg) && newsz == if End(seg) < sz then sz else End(seg)
    ensures ok ==> |m.free| >= |old(m.free)| - 3 * (Pages(newsz) - Pages(sz))
    ensures !ok ==> Excused(seg, sz, |old(m.free)|)
    ensures ok ==> Kept(old(m.mem), old(m.spaces[root].flat), mem1, m.spaces[root].flat)
    ensures ok ==> ZeroPages(mem1, m.spaces[root].flat, Pages(sz), Pages(newsz), Flags(true, seg.w, seg.x, true))
    ensures ok ==>
              Loaded(mem1, m.mem, m.spaces[root].flat, seg.vaddr / PGSIZE, seg.file, FileSize(seg),
                     Pages(FileSize(seg)))
  {
    mem1 := m.mem;
    Checked(seg);
    var end, fsz := End(seg), FileSize(seg);
    if seg.memsz < seg.filesz || end < seg.vaddr || seg.vaddr % PGSIZE != 0 {
      return false, sz, mem1;
    }
    var sz1 := GrowImage(m, root, sz, end, seg.w, seg.x, m0, o0, s0);
    if sz1 == 0 {
      return false, sz, mem1;
    }
    mem1 := m.mem;
    ok := Loadseg(m, root, sz1, seg.vaddr, seg.file, fsz, m0, o0, s0);
    return ok, sz1, mem1;
  }

  /** One program header of the loop in `kexec`. */
  method AddSegment(m: Machine<Bytes>, root: nat, sz: nat, segs: seq<Segment>, n: nat, ghost q: nat, ghost tramp: nat,
                    ghost tf: nat,
                    ghost m0: map<nat, Page<Bytes>>, ghost o0: map<nat, Owner>, ghost s0: map<nat, Space>)
    returns (ok: bool, newsz: nat)
    requires Building(m, m0, o0, s0, root, sz) && n < |segs| && segs[n].vaddr < WORD && segs[n].memsz < WORD
             && q == n + 1
    requires SoFar(m.mem, m.spaces[root].flat, segs, n, sz, tramp, tf)
    modifies m
    ensures Building(m, m0, o0, s0, root, newsz)
    ensures ok ==> SoFar(m.mem, m.spaces[root].flat, segs, q, newsz, tramp, tf)
    ensures ok ==> |m.free| >= |old(m.free)| - 3 * (Pages(newsz) - Pages(sz))
    ensures !ok ==>
              !Sound(segs[n]) || SizeAfter(segs, q) == 0 || |old(m.free)| < 3 * (Pages(SizeAfter(segs, q)) - Pages(sz))
  {
    ghost var mem0, flat0, mem1 := m.mem, m.spaces[root].flat, m.mem;
    ok, newsz, mem1 := GrowLoad(m, root, sz, segs[n], m0, o0, s0);
    if ok {
      FitsLarger(m.spaces[root], newsz, newsz);
      SoFarNext(mem0, flat0, mem1, m.spaces[root].flat, m.mem, segs, n, q, sz, newsz, tramp, tf);
    }
  }

  /** The first `n` segments are in place, and the two pages at the top. */
  ghost predicate SoFar(mem: map<nat, Page<Bytes>>, flat: map<nat, Pte>, segs: seq<Segment>, n: nat, sz: nat,
                        tramp: nat, tf: nat)
    requires n <= |segs|
  {
    && sz == SizeAfter(segs, n) && (forall j :: 0 <= j < n ==> Sound(segs[j]))
    && Laid(mem, flat, segs, n, Pages(sz)) && HasEnds(flat, tramp, tf)
  }

  lemma SoFarNext(mem0: map<nat, Page<Bytes>>, flat0: map<nat, Pte>, mem1: map<nat, Page<Bytes>>, flat: map<nat, Pte>,
                  mem: map<nat, Page<Bytes>>,
                  segs: seq<Segment>, n: nat, q: nat, sz: nat, sz1: nat, tramp: nat, tf: nat)
    requires n < |segs| && q == n + 1 && SoFar(mem0, flat0, segs, n, sz, tramp, tf) && Kept(mem0, flat0, mem1, flat)
             && Sound(segs[n])
    requires sz1 == (if End(segs[n]) < sz then sz else End(segs[n])) && Pages(sz1) <= TRAPFRAME
    requires ZeroPages(mem1, flat, Pages(sz), Pages(sz1), Flags(true, segs[n].w, segs[n].x, true))
    requires Loaded(mem1, mem, flat, segs[n].vaddr / PGSIZE, segs[n].file, FileSize(segs[n]), Pages(FileSize(segs[n])))
    ensures SoFar(mem, flat, segs, q, sz1, tramp, tf)
  {
    LaidNext(mem0, flat0, mem1, flat, mem, segs, n, q, Pages(sz), Pages(sz1));
    assert flat0[TRAMPOLINE] == flat[TRAMPOLINE] && flat0[TRAPFRAME] == flat[TRAPFRAME];
  }

  // ---- The stack ----

  /** The whole image: the program, a guard page at `base`, the stack page above it, and the pages at the top. */
  ghost predicate Complete(mem: map<nat, Page<Bytes>>, flat: map<nat, Pte>, segs: seq<Segment>, base: nat, stack: Bytes,
                           tramp: nat, tf: nat) {
    && base == Pages(SizeAfter(segs, |segs|)) && (forall j :: 0 <= j < |segs| ==> Sound(segs[j]))
    && Laid(mem, flat, segs, |segs|, base) && HasEnds(flat, tramp, tf)
    && Has(mem, flat, base, Flags(true, true, false, false), ZeroPage())
    && Has(mem, flat, base + USERSTACK, Flags(true, true, false, true), stack)
  }

  lemma KeptSoFar(mem0: map<nat, Page<Bytes>>, flat0: map<nat, Pte>, mem: map<nat, Page<Bytes>>, flat: map<nat, Pte>,
                  segs: seq<Segment>, sz: nat, tramp: nat, tf: nat)
    requires SoFar(mem0, flat0, segs, |segs|, sz, tramp, tf) && Kept(mem0, flat0, mem, flat) && Pages(sz) <= TRAPFRAME
    ensures Laid(mem, flat, segs, |segs|, Pages(sz)) && HasEnds(flat, tramp, tf)
  {
    forall w | 0 <= w < Pages(sz) ensures Has(mem, flat, w, FlagsOf(segs, |segs|, w), PageOf(segs, |segs|, w)) {
      assert Has(mem0, flat0, w, FlagsOf(segs, |segs|, w), PageOf(segs, |segs|, w));
      assert flat0[w] == flat[w];
    }
    assert flat0[TRAMPOLINE] == flat[TRAMPOLINE] && flat0[TRAPFRAME] == flat[TRAPFRAME];
  }

  /** Since `mem0`, page `v` has become `page`, and no other page of the space has changed. */
  ghost predicate OnePage(mem0: map<nat, Page<Bytes>>, mem: map<nat, Page<Bytes>>, flat: map<nat, Pte>, v: nat,
                          page: Bytes) {
    forall w {:trigger flat[w]} :: w in flat && w < TRAPFRAME ==>
      && flat[w].Refers? && flat[w].frame in mem0 && flat[w].frame in mem
      && mem[flat[w].frame] == if w == v then Data(page) else mem0[flat[w].frame]
  }

  lemma OnePageNext(mem0: map<nat, Page<Bytes>>, mem: map<nat, Page<Bytes>>, mem': map<nat, Page<Bytes>>,
                    owner: map<nat, Owner>, root: nat, sp: Space,
                    v: nat, page: Bytes, page': Bytes)
    requires SpaceOk(mem, owner, root, sp) && sp.user && OnePage(mem0, mem, sp.flat, v, page) && v in sp.flat
             && v < TRAPFRAME
    requires sp.flat[v].Refers? && mem' == mem[sp.flat[v].frame := Data(page')]
    ensures OnePage(mem0, mem', sp.flat, v, page')
  {
    OtherFrames(mem, owner, root, sp, v);
  }

  /**
   The stack was added at `mem1`, `flat1`; since then the guard page lost its user bit, and the stack page
   became `page`.
   */
  ghost predicate Guarded(mem1: map<nat, Page<Bytes>>, flat1: map<nat, Pte>, mem: map<nat, Page<Bytes>>,
                          flat: map<nat, Pte>, segs: seq<Segment>,
                          base: nat, page: Bytes, tramp: nat, tf: nat)
  {
    && base == Pages(SizeAfter(segs, |segs|))
    && (forall j :: 0 <= j < |segs| ==> Sound(segs[j])) && base + USERSTACK < TRAPFRAME
    && Laid(mem1, flat1, segs, |segs|, base) && HasEnds(flat1, tramp, tf)
    && ZeroPages(mem1, flat1, base, base + USERSTACK + 1, Flags(true, true, false, true))
    && base in flat1 && flat1[base].Refers?
    && flat == flat1[base := flat1[base].(flags := flat1[base].flags.(u := false))]
    && OnePage(mem1, mem, flat, base + USERSTACK, page)
  }

  lemma NowComplete(mem1: map<nat, Page<Bytes>>, flat1: map<nat, Pte>, mem: map<nat, Page<Bytes>>, flat: map<nat, Pte>,
                    segs: seq<Segment>,
                    base: nat, stack: Bytes, tramp: nat, tf: nat)
    requires Guarded(mem1, flat1, mem, flat, segs, base, stack, tramp, tf)
    ensures Complete(mem, flat, segs, base, stack, tramp, tf)
  {
    forall w | 0 <= w < base ensures Has(mem, flat, w, FlagsOf(segs, |segs|, w), PageOf(segs, |segs|, w)) {
      assert Has(mem1, flat1, w, FlagsOf(segs, |segs|, w), PageOf(segs, |segs|, w));
      assert flat[w] == flat1[w];
    }
    assert Has(mem1, flat1, base, Flags(true, true, false, true), ZeroPage());
    assert Has(mem1, flat1, base + USERSTACK, Flags(true, true, false, true), ZeroPage());
    assert flat[base].frame == flat1[base].frame;
  }

  /** Clearing a user bit changes the contents of no page. */
  lemma ClearKeeps(m1: map<nat, Page<Bytes>>, o1: map<nat, Owner>, s1: map<nat, Space>, m2: map<nat, Page<Bytes>>,
                   o2: map<nat, Owner>, s2: map<nat, Space>,
                   root: nat, v: nat, top: nat)
    requires Only(m1, o1, s1, m2, o2, s2, root, 0, 0, {}) && SpaceOk(m1, o1, root, s1[root]) && s1[root].user
             && v in s1[root].flat
    requires s1[root].flat[v].Refers?
             && s2[root].flat == s1[root].flat[v := s1[root].flat[v].(flags := s1[root].flat[v].flags.(u := false))]
    requires top in s1[root].flat && top < TRAPFRAME && top != v && s1[root].flat[top].Refers?
             && s1[root].flat[top].frame in m1
    requires m1[s1[root].flat[top].frame] == Data(ZeroPage())
    ensures OnePage(m1, m2, s2[root].flat, top, ZeroPage())
  {
    forall w | w in s2[root].flat && w < TRAPFRAME
      ensures var f := s2[root].flat[w]; f.Refers? && f.frame in m1 && f.frame in m2 && m2[f.frame] == m1[f.frame]
    {
      StillThere(m1, o1, s1, m2, o2, s2, root, root, w);
    }
  }

  lemma ClearFits(sp: Space, sp': Space, sz: nat, v: nat, pte: Pte)
    requires SpaceFits(sp, sz) && v in sp.flat && sp'.flat == sp.flat[v := pte] && sp'.user
    ensures SpaceFits(sp', sz)
  {
  }

  /** The guard page and the stack page above a program of `base` pages. */
  method AddStack(m: Machine<Bytes>, root: nat, base: nat, ghost segs: seq<Segment>, ghost sz: nat, ghost tramp: nat,
                  ghost tf: nat,
                  ghost m0: map<nat, Page<Bytes>>, ghost o0: map<nat, Owner>, ghost s0: map<nat, Space>)
    returns (newsz: nat, ghost mem1: map<nat, Page<Bytes>>, ghost flat1: map<nat, Pte>)
    requires Building(m, m0, o0, s0, root, base * PGSIZE) && base == Pages(sz) && base <= TRAPFRAME
    requires SoFar(m.mem, m.spaces[root].flat, segs, |segs|, sz, tramp, tf)
    modifies m
    ensures m.Valid() && Opened(m0, o0, s0, m.mem, m.owner, m.spaces, root)
    ensures SpaceFits(m.spaces[root], if newsz == 0 then base * PGSIZE else newsz)
    ensures newsz != 0 ==>
              newsz == (base + USERSTACK + 1) * PGSIZE
              && Guarded(mem1, flat1, m.mem, m.spaces[root].flat, segs, base, ZeroPage(), tramp, tf)
    ensures newsz == 0 ==> |old(m.free)| < 3 * (USERSTACK + 1)
  {
    WholePages(base);
    WholePages(base + USERSTACK + 1);
    ghost var mem0, flat0 := m.mem, m.spaces[root].flat;
    newsz := GrowImage(m, root, base * PGSIZE, (base + USERSTACK + 1) * PGSIZE, true, false, m0, o0, s0);
    mem1, flat1 := m.mem, m.spaces[root].flat;
    if newsz == 0 {
      return;
    }
    KeptSoFar(mem0, flat0, mem1, flat1, segs, sz, tramp, tf);
    FitsLarger(m.spaces[root], newsz, newsz);
    assert Has(mem1, flat1, base + USERSTACK, Flags(true, true, false, true), ZeroPage());
    GuardPage(m, root, base, newsz, m0, o0, s0);
  }

  /** Takes the guard page away from the user. */
  method GuardPage(m: Machine<Bytes>, root: nat, base: nat, ghost sz: nat,
                   ghost m0: map<nat, Page<Bytes>>, ghost o0: map<nat, Owner>, ghost s0: map<nat, Space>)
    requires Building(m, m0, o0, s0, root, sz) && base + USERSTACK < Pages(sz)
    requires var f := m.spaces[root].flat; Has(m.mem, f, base + USERSTACK, Flags(true, true, false, true), ZeroPage())
    modifies m
    ensures m.Valid() && Opened(m0, o0, s0, m.mem, m.owner, m.spaces, root) && SpaceFits(m.spaces[root], sz)
    ensures base in old(m.spaces[root].flat) && old(m.spaces[root].flat)[base].Refers?
    ensures m.spaces[root].flat ==
            old(m.spaces[root].flat)[base :=
                                     old(m.spaces[root].flat)[base].(flags :=
                                                                     old(m.spaces[root].flat)[base].flags.(u := false))]
    ensures OnePage(old(m.mem), m.mem, m.spaces[root].flat, base + USERSTACK, ZeroPage())
  {
    ghost var m1, o1, s1 := m.mem, m.owner, m.spaces;
    m.Uvmclear(root, base);
    OpenedOnly(m0, o0, s0, m1, o1, s1, m.mem, m.owner, m.spaces, root, 0, 0);
    ClearFits(s1[root], m.spaces[root], sz, base, m.spaces[root].flat[base]);
    FitsLarger(s1[root], sz, sz);
    ClearKeeps(m1, o1, s1, m.mem, m.owner, m.spaces, root, base, base + USERSTACK);
  }

  /** The arguments are being written to the stack page. */
  ghost predicate Stacking(m: Machine<Bytes>, m0: map<nat, Page<Bytes>>, o0: map<nat, Owner>, s0: map<nat, Space>,
                           root: nat,
                           mem1: map<nat, Page<Bytes>>, flat1: map<nat, Pte>, segs: seq<Segment>, base: nat,
                           page: Bytes, tramp: nat, tf: nat)
    reads m
  {
    && m.Valid() && Opened(m0, o0, s0, m.mem, m.owner, m.spaces, root) && m.spaces[root].user
    && forall u {:trigger KeyGuard(u)} :: KeyGuard(u) ==>
      Guarded(mem1, flat1, m.mem, m.spaces[root].flat, segs, base, page, tramp, tf)
  }

  predicate KeyGuard(u: int) { true }

  /** A copy to the stack page, which is there: no fault, no lazy allocation. */
  method PutStack(m: Machine<Bytes>, root: nat, top: nat, o: nat, d: seq<byte>, ghost segs: seq<Segment>,
                  ghost base: nat, ghost page: Bytes, ghost tramp: nat, ghost tf: nat,
                  ghost m0: map<nat, Page<Bytes>>, ghost o0: map<nat, Owner>, ghost s0: map<nat, Space>,
                  ghost mem1: map<nat, Page<Bytes>>, ghost flat1: map<nat, Pte>)
    requires Stacking(m, m0, o0, s0, root, mem1, flat1, segs, base, page, tramp, tf) && top == base + USERSTACK
             && o + |d| <= PGSIZE
    modifies m
    ensures Stacking(m, m0, o0, s0, root, mem1, flat1, segs, base, Patch(page, o, d), tramp, tf)
            && m.spaces == old(m.spaces)
  {
    assert KeyGuard(0) && Has(mem1, flat1, top, Flags(true, true, false, true), ZeroPage());
    assert m.spaces[root].flat[top] == flat1[top];
    var pa := m.Walkaddr(root, top);
    ghost var m1 := m.mem;
    var page' := Data(Patch(BytesOf(m.mem[pa.value]), o, d));
    m.WritePage(root, top, pa.value, page');
    OpenedOnly(m0, o0, s0, m1, m.owner, m.spaces, m.mem, m.owner, m.spaces, root, 0, TRAPFRAME);
    OnePageNext(mem1, m1, m.mem, m.owner, root, m.spaces[root], top, page, Patch(page, o, d));
  }

  /** Pushes the strings, remembering their addresses. */
  method PushStrings(m: Machine<Bytes>, root: nat, top: nat, args: seq<seq<byte>>, ghost segs: seq<Segment>,
                     ghost base: nat, ghost tramp: nat, ghost tf: nat,
                     ghost m0: map<nat, Page<Bytes>>, ghost o0: map<nat, Owner>, ghost s0: map<nat, Space>,
                     ghost mem1: map<nat, Page<Bytes>>, ghost flat1: map<nat, Pte>)
    returns (ok: bool, sp: int, ustack: seq<byte>, ghost page: Bytes)
    requires Stacking(m, m0, o0, s0, root, mem1, flat1, segs, base, ZeroPage(), tramp, tf) && top == base + USERSTACK
    modifies m
    ensures Stacking(m, m0, o0, s0, root, mem1, flat1, segs, base, page, tramp, tf) && m.spaces == old(m.spaces)
    ensures if ok then Written(args, |args|, top * PGSIZE, sp, ustack, page) else !ArgsFit(args)
  {
    var stack := top * PGSIZE;
    sp, ustack, page := stack + PGSIZE, [], ZeroPage();
    WrittenNone(args, stack);
    var argc := 0;
    while argc < |args|
      invariant 0 <= argc <= |args| && m.spaces == old(m.spaces) && Written(args, argc, stack, sp, ustack, page)
      invariant Stacking(m, m0, o0, s0, root, mem1, flat1, segs, base, page, tramp, tf)
    {
      ghost var q, x, us := argc + 1, sp, ustack;
      var s := args[argc] + [0];
      ghost var y := sp - |s|;
      sp := sp - |s|;
      sp := sp - sp % 16;
      WrittenNext(args, argc, q, stack, x, us, page, s, y, sp);
      if sp < stack {
        return false, sp, ustack, page;
      }
      PutStack(m, root, top, sp - stack, s, segs, base, page, tramp, tf, m0, o0, s0, mem1, flat1);
      page := Patch(page, sp - stack, s);
      ustack := ustack + Word(sp);
      argc := argc + 1;
    }
    ok := true;
  }

  /** Copies the arguments and the array of their addresses to the stack page. */
  method CopyArgs(m: Machine<Bytes>, root: nat, top: nat, args: seq<seq<byte>>, ghost segs: seq<Segment>,
                  ghost base: nat, ghost tramp: nat, ghost tf: nat,
                  ghost m0: map<nat, Page<Bytes>>, ghost o0: map<nat, Owner>, ghost s0: map<nat, Space>,
                  ghost mem1: map<nat, Page<Bytes>>, ghost flat1: map<nat, Pte>)
    returns (ok: bool, sp: nat, ghost page: Bytes)
    requires Stacking(m, m0, o0, s0, root, mem1, flat1, segs, base, ZeroPage(), tramp, tf) && top == base + USERSTACK
    modifies m
    ensures Stacking(m, m0, o0, s0, root, mem1, flat1, segs, base, page, tramp, tf) && m.spaces == old(m.spaces)
    ensures (ok <==> ArgsFit(args)) && (ok ==> Stacked(args, top * PGSIZE, sp, page))
  {
    page := ZeroPage();
    if |args| >= MAXARG {
      return false, 0, page;
    }
    var pushed, x, ustack;
    pushed, x, ustack, page := PushStrings(m, root, top, args, segs, base, tramp, tf, m0, o0, s0, mem1, flat1);
    if !pushed {
      return false, 0, page;
    }
    var stack, words := top * PGSIZE, ustack + Word(0);
    var at := x - |words|;
    at := at - at % 16;
    WrittenArray(args, stack, x, ustack, page, words, x - |words|, at);
    if at < stack {
      return false, 0, page;
    }
    PutStack(m, root, top, at - stack, words, segs, base, page, tramp, tf, m0, o0, s0, mem1, flat1);
    return true, at, Patch(page, at - stack, words);
  }

  /** The loop over the program headers. */
  method AddSegments(m: Machine<Bytes>, root: nat, segs: seq<Segment>, ghost tramp: nat, ghost tf: nat,
                     ghost m0: map<nat, Page<Bytes>>, ghost o0: map<nat, Owner>, ghost s0: map<nat, Space>)
    returns (ok: bool, sz: nat)
    requires Building(m, m0, o0, s0, root, 0) && HasEnds(m.spaces[root].flat, tramp, tf)
    requires forall i :: 0 <= i < |segs| ==> segs[i].vaddr < WORD && segs[i].memsz < WORD
    modifies m
    ensures Building(m, m0, o0, s0, root, sz)
    ensures ok ==>
              SoFar(m.mem, m.spaces[root].flat, segs, |segs|, sz, tramp, tf)
              && |m.free| >= |old(m.free)| - 3 * Pages(sz)
    ensures !ok ==> !Loadable(segs) || |old(m.free)| < 3 * Pages(SizeAfter(segs, |segs|))
  {
    ok, sz := true, 0;
    var i := 0;
    while i < |segs|
      invariant 0 <= i <= |segs| && Building(m, m0, o0, s0, root, sz)
      invariant SoFar(m.mem, m.spaces[root].flat, segs, i, sz, tramp, tf) && |m.free| >= |old(m.free)| - 3 * Pages(sz)
    {
      ghost var q := i + 1;
      SizeGrows(segs, q, |segs|);
      PagesMono(SizeAfter(segs, q), SizeAfter(segs, |segs|));
      if Loadable(segs) {
        LoadableSize(segs, q);
      }
      ok, sz := AddSegment(m, root, sz, segs, i, q, tramp, tf, m0, o0, s0);
      if !ok {
        return;
      }
      i := i + 1;
    }
    return true, sz;
  }

  /** The stack and the arguments above a program of `base` pages. */
  method StackImage(m: Machine<Bytes>, root: nat, base: nat, ghost segs: seq<Segment>, args: seq<seq<byte>>,
                    ghost end: nat, ghost tramp: nat, ghost tf: nat,
                    ghost m0: map<nat, Page<Bytes>>, ghost o0: map<nat, Owner>, ghost s0: map<nat, Space>)
    returns (ok: bool, sz: nat, sp: nat, ghost page: Bytes)
    requires Building(m, m0, o0, s0, root, base * PGSIZE) && base == Pages(end) && base <= TRAPFRAME
    requires SoFar(m.mem, m.spaces[root].flat, segs, |segs|, end, tramp, tf)
    modifies m
    ensures m.Valid() && Opened(m0, o0, s0, m.mem, m.owner, m.spaces, root) && SpaceFits(m.spaces[root], sz)
    ensures ok ==> sz == (base + USERSTACK + 1) * PGSIZE && Stacked(args, (base + USERSTACK) * PGSIZE, sp, page)
    ensures ok ==> Complete(m.mem, m.spaces[root].flat, segs, base, page, tramp, tf)
    ensures !ok ==> !ArgsFit(args) || |old(m.free)| < 3 * (USERSTACK + 1)
  {
    var newsz, mem1, flat1 := AddStack(m, root, base, segs, end, tramp, tf, m0, o0, s0);
    if newsz == 0 {
      return false, base * PGSIZE, 0, ZeroPage();
    }
    sz := newsz;
    ok, sp, page := CopyArgs(m, root, base + USERSTACK, args, segs, base, tramp, tf, m0, o0, s0, mem1, flat1);
    assert KeyGuard(0);
    NowComplete(mem1, flat1, m.mem, m.spaces[root].flat, segs, base, page, tramp, tf);
  }

  /** An image is as good to the end of its last page. */
  lemma RoundImage(sp: Space, sz: nat, top: nat)
    requires Image(sp, sz) && top == Pages(sz)
    ensures Image(sp, top * PGSIZE) && top <= TRAPFRAME
  {
    WholePages(top);
    FitsLarger(sp, sz, top * PGSIZE);
  }

  /** The program, then the stack and the arguments. */
  method BuildImage(m: Machine<Bytes>, root: nat, segs: seq<Segment>, args: seq<seq<byte>>, ghost tramp: nat,
                    ghost tf: nat,
                    ghost m0: map<nat, Page<Bytes>>, ghost o0: map<nat, Owner>, ghost s0: map<nat, Space>)
    returns (ok: bool, sz: nat, sp: nat, ghost base: nat, ghost page: Bytes)
    requires Building(m, m0, o0, s0, root, 0) && HasEnds(m.spaces[root].flat, tramp, tf)
    requires forall i :: 0 <= i < |segs| ==> segs[i].vaddr < WORD && segs[i].memsz < WORD
    modifies m
    ensures m.Valid() && Opened(m0, o0, s0, m.mem, m.owner, m.spaces, root) && SpaceFits(m.spaces[root], sz)
    ensures ok ==> sz == (base + USERSTACK + 1) * PGSIZE && Stacked(args, (base + USERSTACK) * PGSIZE, sp, page)
    ensures ok ==> Complete(m.mem, m.spaces[root].flat, segs, base, page, tramp, tf)
    ensures !ok ==>
              !ArgsFit(args) || !Loadable(segs) || |old(m.free)| < 3 * (Pages(SizeAfter(segs, |segs|)) + USERSTACK + 1)
  {
    ok, sz := AddSegments(m, root, segs, tramp, tf, m0, o0, s0);
    base, sp, page := Pages(sz), 0, ZeroPage();
    if !ok {
      return;
    }
    var top := Pages(sz);
    RoundImage(m.spaces[root], sz, top);
    ok, sz, sp, page := StackImage(m, root, top, segs, args, sz, tramp, tf, m0, o0, s0);
  }

  /** Freeing the old space leaves the pages of the new one alone. */
  lemma StillHas(m1: map<nat, Page<Bytes>>, o1: map<nat, Owner>, s1: map<nat, Space>, m2: map<nat, Page<Bytes>>,
                 o2: map<nat, Owner>, s2: map<nat, Space>,
                 oldroot: nat, root: nat, w: nat, flags: Flags, c: Bytes)
    requires Gone(m1, o1, s1, m2, o2, s2, oldroot) && root in s1 && root != oldroot && SpaceOk(m1, o1, root, s1[root])
             && s1[root].user
    requires w < TRAPFRAME && Has(m1, s1[root].flat, w, flags, c)
    ensures root in s2 && s2[root] == s1[root] && Has(m2, s2[root].flat, w, flags, c)
  {
    LeafAt(m1, o1, root, s1[root], w);
    assert m2[s1[root].flat[w].frame] == m1[s1[root].flat[w].frame];
  }

  lemma StillComplete(m1: map<nat, Page<Bytes>>, o1: map<nat, Owner>, s1: map<nat, Space>, m2: map<nat, Page<Bytes>>,
                      o2: map<nat, Owner>, s2: map<nat, Space>,
                      oldroot: nat, root: nat, segs: seq<Segment>, base: nat, stack: Bytes, tramp: nat, tf: nat)
    requires Gone(m1, o1, s1, m2, o2, s2, oldroot) && root in s1 && root != oldroot && SpaceOk(m1, o1, root, s1[root])
             && s1[root].user
    requires Complete(m1, s1[root].flat, segs, base, stack, tramp, tf) && base + USERSTACK < TRAPFRAME
    ensures root in s2 && s2[root] == s1[root] && Complete(m2, s2[root].flat, segs, base, stack, tramp, tf)
  {
    forall w | 0 <= w < base ensures Has(m2, s1[root].flat, w, FlagsOf(segs, |segs|, w), PageOf(segs, |segs|, w)) {
      StillHas(m1, o1, s1, m2, o2, s2, oldroot, root, w, FlagsOf(segs, |segs|, w), PageOf(segs, |segs|, w));
    }
    StillHas(m1, o1, s1, m2, o2, s2, oldroot, root, base, Flags(true, true, false, false), ZeroPage());
    StillHas(m1, o1, s1, m2, o2, s2, oldroot, root, base + USERSTACK, Flags(true, true, false, true), stack);
  }

  lemma StackBelow(sp: Space, base: nat, sz: nat)
    requires SpaceFits(sp, sz) && sz == (base + USERSTACK + 1) * PGSIZE
    ensures base + USERSTACK < TRAPFRAME
  {
  }

  // ---- What the program finds ----

  lemma {:induction false} UserFlag(segs: seq<Segment>, n: nat, w: nat)
    requires n <= |segs|
    ensures FlagsOf(segs, n, w).u
  {
    if n > 0 {
      UserFlag(segs, n - 1, w);
    }
  }

  /** The byte that the headers and the stack page put at address `a`, if any. */
  function ImageAt(segs: seq<Segment>, base: nat, page: Bytes, a: nat): (r: Option<byte>) {
    var stack := (base + USERSTACK) * PGSIZE;
    if a < base * PGSIZE then Some(ByteOf(segs, |segs|, a))
    else if stack <= a < stack + PGSIZE then Some(page[a - stack])
    else None
  }

  lemma NothingAbove(mem: map<nat, Page<Bytes>>, owner: map<nat, Owner>, root: nat, sp: Space, top: nat, sz: nat,
                     tramp: nat, tf: nat, a: nat)
    requires SpaceOk(mem, owner, root, sp) && SpaceFits(sp, sz) && HasEnds(sp.flat, tramp, tf) && Pages(sz) == top
             && a / PGSIZE >= top
    ensures View(mem, sp.flat, sz, a) == None
  {
    if a / PGSIZE in sp.flat {
      FitsLarger(sp, sz, sz);
      KernelEnds(mem, owner, root, sp, sz, tramp, tf, a / PGSIZE);
    }
  }

  lemma StackFinds(mem: map<nat, Page<Bytes>>, flat: map<nat, Pte>, base: nat, page: Bytes, sz: nat, a: nat)
    requires Has(mem, flat, base, Flags(true, true, false, false), ZeroPage())
    requires Has(mem, flat, base + USERSTACK, Flags(true, true, false, true), page)
             && base <= a / PGSIZE <= base + USERSTACK
    ensures View(mem, flat, sz, a) == if a / PGSIZE == base then None else Some(page[a - (base + USERSTACK) * PGSIZE])
  {
  }

  /**
   At every address the program finds just what the headers and the stack page say: no byte more, and none in
   the guard page.
   */
  lemma ProgramFinds(mem: map<nat, Page<Bytes>>, owner: map<nat, Owner>, root: nat, sp: Space, segs: seq<Segment>,
                     base: nat, page: Bytes,
                     sz: nat, tramp: nat, tf: nat, a: nat)
    requires SpaceOk(mem, owner, root, sp) && SpaceFits(sp, sz) && sz == (base + USERSTACK + 1) * PGSIZE
    requires Complete(mem, sp.flat, segs, base, page, tramp, tf)
    ensures View(mem, sp.flat, sz, a) == ImageAt(segs, base, page, a)
  {
    var w := a / PGSIZE;
    if w < base {
      UserFlag(segs, |segs|, w);
      assert Has(mem, sp.flat, w, FlagsOf(segs, |segs|, w), PageOf(segs, |segs|, w));
    } else if w <= base + USERSTACK {
      StackFinds(mem, sp.flat, base, page, sz, a);
    } else {
      WholePages(base + USERSTACK + 1);
      NothingAbove(mem, owner, root, sp, base + USERSTACK + 1, sz, tramp, tf, a);
    }
  }

  /** The part of the file that belongs to the segment covers address `a`. */
  predicate Covers(seg: Segment, a: nat) { seg.vaddr <= a < seg.vaddr + seg.filesz }

  lemma {:induction false} ByteFrom(segs: seq<Segment>, n: nat, i: nat, a: nat)
    requires i < n <= |segs| && Fills(segs[i], a) && forall j :: i < j < n ==> !Covers(segs[j], a)
    ensures ByteOf(segs, n, a) == segs[i].file[a - segs[i].vaddr]
  {
    if i < n - 1 {
      assert !Covers(segs[n - 1], a);
      assert FileSize(segs[n - 1]) <= segs[n - 1].filesz;
      ByteFrom(segs, n - 1, i, a);
    }
  }

  lemma {:induction false} ByteZero(segs: seq<Segment>, n: nat, a: nat)
    requires n <= |segs| && forall j :: 0 <= j < n ==> !Covers(segs[j], a)
    ensures ByteOf(segs, n, a) == 0
  {
    if n > 0 {
      assert !Covers(segs[n - 1], a);
      assert FileSize(segs[n - 1]) <= segs[n - 1].filesz;
      ByteZero(segs, n - 1, a);
    }
  }

  /** A segment lies below the end of the program. */
  lemma {:induction false} EndBelow(segs: seq<Segment>, n: nat, i: nat)
    requires i < n <= |segs|
    ensures End(segs[i]) <= SizeAfter(segs, n)
  {
    if i < n - 1 {
      EndBelow(segs, n - 1, i);
    }
  }

  /** The program finds byte `k` of segment `i`'s part of the file, unless a later segment covers the address. */
  lemma SegmentFound(mem: map<nat, Page<Bytes>>, owner: map<nat, Owner>, root: nat, sp: Space, segs: seq<Segment>,
                     base: nat, page: Bytes, sz: nat, tramp: nat, tf: nat, i: nat, k: nat)
    requires SpaceOk(mem, owner, root, sp) && SpaceFits(sp, sz) && sz == (base + USERSTACK + 1) * PGSIZE
    requires Complete(mem, sp.flat, segs, base, page, tramp, tf)
    requires i < |segs| && k < segs[i].filesz < 0x1_0000_0000
    requires forall j :: i < j < |segs| ==> !Covers(segs[j], segs[i].vaddr + k)
    ensures k < |segs[i].file| && View(mem, sp.flat, sz, segs[i].vaddr + k) == Some(segs[i].file[k])
  {
    var a := segs[i].vaddr + k;
    assert Sound(segs[i]) && FileSize(segs[i]) == segs[i].filesz;
    ByteFrom(segs, |segs|, i, a);
    EndBelow(segs, |segs|, i);
    ProgramFinds(mem, owner, root, sp, segs, base, page, sz, tramp, tf, a);
  }

  /** Where a segment has memory but no segment covers the address, the program finds zero. */
  lemma ZeroFound(mem: map<nat, Page<Bytes>>, owner: map<nat, Owner>, root: nat, sp: Space, segs: seq<Segment>,
                  base: nat, page: Bytes, sz: nat, tramp: nat, tf: nat, i: nat, k: nat)
    requires SpaceOk(mem, owner, root, sp) && SpaceFits(sp, sz) && sz == (base + USERSTACK + 1) * PGSIZE
    requires Complete(mem, sp.flat, segs, base, page, tramp, tf)
    requires i < |segs| && k < segs[i].memsz && forall j :: 0 <= j < |segs| ==> !Covers(segs[j], segs[i].vaddr + k)
    ensures View(mem, sp.flat, sz, segs[i].vaddr + k) == Some(0)
  {
    var a := segs[i].vaddr + k;
    assert Sound(segs[i]);
    ByteZero(segs, |segs|, a);
    EndBelow(segs, |segs|, i);
    ProgramFinds(mem, owner, root, sp, segs, base, page, sz, tramp, tf, a);
  }

  lemma {:induction false} FlagsFrom(segs: seq<Segment>, n: nat, i: nat, w: nat)
    requires i < n <= |segs| && Pages(SizeAfter(segs, i)) <= w < Pages(SizeAfter(segs, i + 1))
    ensures FlagsOf(segs, n, w) == Flags(true, segs[i].w, segs[i].x, true)
  {
    if i < n - 1 {
      SizeGrows(segs, i + 1, n - 1);
      PagesMono(SizeAfter(segs, i + 1), SizeAfter(segs, n - 1));
      FlagsFrom(segs, n - 1, i, w);
    }
  }

  /** A page that segment `i` is the first to reach has its permissions. */
  lemma Permissions(mem: map<nat, Page<Bytes>>, flat: map<nat, Pte>, segs: seq<Segment>, base: nat, page: Bytes,
                    tramp: nat, tf: nat, i: nat, w: nat)
    requires Complete(mem, flat, segs, base, page, tramp, tf) && i < |segs|
    requires Pages(SizeAfter(segs, i)) <= w < Pages(End(segs[i]))
    ensures w in flat && flat[w].Refers? && flat[w].flags == Flags(true, segs[i].w, segs[i].x, true)
  {
    EndBelow(segs, i + 1, i);
    PagesMono(End(segs[i]), SizeAfter(segs, i + 1));
    EndBelow(segs, |segs|, i);
    PagesMono(End(segs[i]), SizeAfter(segs, |segs|));
    FlagsFrom(segs, |segs|, i, w);
    LaidAt(mem, flat, segs, base, w);
  }

  lemma LaidAt(mem: map<nat, Page<Bytes>>, flat: map<nat, Pte>, segs: seq<Segment>, base: nat, w: nat)
    requires Laid(mem, flat, segs, |segs|, base) && w < base
    ensures Has(mem, flat, w, FlagsOf(segs, |segs|, w), PageOf(segs, |segs|, w))
  {
  }

  /** Since `m0`, `o0`, every frame in use that was not space `gone`'s is as it was. */
  ghost predicate Spared(m0: map<nat, Page<Bytes>>, o0: map<nat, Owner>, mem: map<nat, Page<Bytes>>,
                         owner: map<nat, Owner>, gone: nat) {
    && owner.Keys == o0.Keys
    && forall u {:trigger KeySpared(u)} :: KeySpared(u) ==>
         && (forall f {:trigger owner[f]} {:trigger o0[f]} :: f in o0 && o0[f] != Free && !Of(o0[f], gone) ==>
               owner[f] == o0[f] && f in m0 && f in mem && mem[f] == m0[f])
         && (forall f {:trigger owner[f]} :: f in o0 && owner[f] == Held ==> o0[f] == Held)
  }

  predicate KeySpared(u: int) { true }

  lemma OldSpared(m0: map<nat, Page<Bytes>>, o0: map<nat, Owner>, s0: map<nat, Space>, m1: map<nat, Page<Bytes>>,
                  o1: map<nat, Owner>, s1: map<nat, Space>,
                  m2: map<nat, Page<Bytes>>, o2: map<nat, Owner>, s2: map<nat, Space>, root: nat, oldroot: nat)
    requires Opened(m0, o0, s0, m1, o1, s1, root) && Gone(m1, o1, s1, m2, o2, s2, oldroot) && oldroot != root
    ensures Spared(m0, o0, m2, o2, oldroot)
  {
    assert KeyOpen(0);
    forall f | f in o0 && o0[f] != Free && !Of(o0[f], oldroot)
      ensures o2[f] == o0[f] && f in m0 && f in m2 && m2[f] == m0[f] {
      assert Foreign(o0[f], root) && o1[f] == o0[f] && m1[f] == m0[f];
      assert Foreign(o1[f], oldroot);
    }
    forall f | f in o0 && o2[f] == Held ensures o0[f] == Held {
      assert o1[f] == Held;
      assert Foreign(o1[f], root);
    }
  }

  /** The point of no return: the new image stays and the old space goes. */
  method SwapIn(m: Machine<Bytes>, root: nat, ghost sz: nat, oldroot: nat, oldsz: nat, ghost segs: seq<Segment>,
                ghost base: nat, ghost stack: Bytes,
                ghost tramp: nat, ghost tf: nat, ghost m0: map<nat, Page<Bytes>>, ghost o0: map<nat, Owner>,
                ghost s0: map<nat, Space>)
    requires m.Valid() && Opened(m0, o0, s0, m.mem, m.owner, m.spaces, root) && SpaceFits(m.spaces[root], sz)
             && sz == (base + USERSTACK + 1) * PGSIZE
    requires Complete(m.mem, m.spaces[root].flat, segs, base, stack, tramp, tf) && oldroot in s0
             && SpaceFits(s0[oldroot], oldsz)
    modifies m
    ensures m.Valid() && Spared(m0, o0, m.mem, m.owner, oldroot) && m.spaces - {root} == s0 - {oldroot}
    ensures root in m.spaces && SpaceFits(m.spaces[root], sz)
            && Complete(m.mem, m.spaces[root].flat, segs, base, stack, tramp, tf)
  {
    ghost var m1, o1, s1 := m.mem, m.owner, m.spaces;
    assert s1[oldroot] == (s1 - {root})[oldroot];
    ProcFreepagetable(m, oldroot, oldsz);
    OldSpared(m0, o0, s0, m1, o1, s1, m.mem, m.owner, m.spaces, root, oldroot);
    StackBelow(s1[root], base, sz);
    StillComplete(m1, o1, s1, m.mem, m.owner, m.spaces, oldroot, root, segs, base, stack, tramp, tf);
  }

  /** Builds the image and swaps it in, or abandons it. */
  method TryImage(m: Machine<Bytes>, root: nat, oldroot: nat, oldsz: nat, segs: seq<Segment>, args: seq<seq<byte>>,
                  ghost tramp: nat, ghost tf: nat,
                  ghost m0: map<nat, Page<Bytes>>, ghost o0: map<nat, Owner>, ghost s0: map<nat, Space>)
    returns (ok: bool, sz: nat, sp: nat, ghost base: nat, ghost page: Bytes)
    requires Building(m, m0, o0, s0, root, 0) && HasEnds(m.spaces[root].flat, tramp, tf) && oldroot in s0
             && SpaceFits(s0[oldroot], oldsz)
    requires forall i :: 0 <= i < |segs| ==> segs[i].vaddr < WORD && segs[i].memsz < WORD
    modifies m
    ensures m.Valid() && (!ok ==> Restored(m0, o0, s0, m.mem, m.owner, m.spaces))
    ensures ok ==>
              root in m.spaces && SpaceFits(m.spaces[root], sz) && m.spaces - {root} == s0 - {oldroot}
              && Spared(m0, o0, m.mem, m.owner, oldroot)
    ensures ok ==> sz == (base + USERSTACK + 1) * PGSIZE && Stacked(args, (base + USERSTACK) * PGSIZE, sp, page)
    ensures ok ==> Complete(m.mem, m.spaces[root].flat, segs, base, page, tramp, tf)
    ensures !ok ==>
              !ArgsFit(args) || !Loadable(segs) || |old(m.free)| < 3 * (Pages(SizeAfter(segs, |segs|)) + USERSTACK + 1)
  {
    ok, sz, sp, base, page := BuildImage(m, root, segs, args, tramp, tf, m0, o0, s0);
    if ok {
      SwapIn(m, root, sz, oldroot, oldsz, segs, base, page, tramp, tf, m0, o0, s0);
    } else {
      Abandon(m, root, sz, m0, o0, s0);
    }
  }

  /**
   Replaces a process's space by a new image, with the stack pointer at `sp`; `base` is where the
   guard page goes.  On failure everything is as before.
   */
  method ExecSpace(m: Machine<Bytes>, oldroot: nat, oldsz: nat, segs: seq<Segment>, args: seq<seq<byte>>, tramp: nat,
                   tf: nat)
    returns (root: Option<nat>, sz: nat, sp: nat, ghost base: nat, ghost page: Bytes)
    requires m.Valid() && oldroot in m.spaces && SpaceFits(m.spaces[oldroot], oldsz) && |m.owner| <= MAX_FRAMES
             && m.zero == ZeroPage()
    requires tf in m.owner && m.owner[tf] == Held && tramp !in m.owner
    requires forall i :: 0 <= i < |segs| ==> segs[i].vaddr < WORD && segs[i].memsz < WORD
    modifies m
    ensures m.Valid()
    ensures root.None? ==> Restored(old(m.mem), old(m.owner), old(m.spaces), m.mem, m.owner, m.spaces)
    ensures root.Some? ==> root.value !in old(m.spaces) && root.value in m.spaces && SpaceFits(m.spaces[root.value], sz)
    ensures root.Some? ==> m.spaces - {root.value} == old(m.spaces) - {oldroot}
    ensures root.Some? ==> Spared(old(m.mem), old(m.owner), m.mem, m.owner, oldroot)
    ensures root.Some? ==> sz == (base + USERSTACK + 1) * PGSIZE && Stacked(args, (base + USERSTACK) * PGSIZE, sp, page)
    ensures root.Some? ==> Complete(m.mem, m.spaces[root.value].flat, segs, base, page, tramp, tf)
    ensures root.None? ==>
              !ArgsFit(args) || !Loadable(segs)
              || |old(m.free)| < 5 + 3 * (Pages(SizeAfter(segs, |segs|)) + USERSTACK + 1)
  {
    ghost var m0, o0, s0 := m.mem, m.owner, m.spaces;
    sz, sp, base, page := 0, 0, 0, ZeroPage();
    root := FreshImage(m, tramp, tf);
    if root.None? {
      return;
    }
    var ok: bool;
    ok, sz, sp, base, page := TryImage(m, root.value, oldroot, oldsz, segs, args, tramp, tf, m0, o0, s0);
    if !ok {
      root := None;
    }
  }

  /** An image with nothing in it yet. */
  method FreshImage(m: Machine<Bytes>, tramp: nat, tf: nat) returns (root: Option<nat>)
    requires m.Valid() && |m.owner| <= MAX_FRAMES && tf in m.owner && m.owner[tf] == Held && tramp !in m.owner
             && m.zero == ZeroPage()
    modifies m
    ensures root.None? ==>
              m.Valid() && Restored(old(m.mem), old(m.owner), old(m.spaces), m.mem, m.owner, m.spaces)
              && |old(m.free)| < 5
    ensures root.Some? ==>
              Building(m, old(m.mem), old(m.owner), old(m.spaces), root.value, 0)
              && HasEnds(m.spaces[root.value].flat, tramp, tf)
    ensures root.Some? ==> |m.free| >= |old(m.free)| - 5 && root.value !in old(m.spaces)
  {
    root := ProcPagetable(m, tramp, tf);
    SameSize(old(m.owner), old(m.owner), m.owner);
  }

  /** The way out of `kexec`: an unfinished image goes without a trace. */
  method Abandon(m: Machine<Bytes>, root: nat, sz: nat, ghost m0: map<nat, Page<Bytes>>, ghost o0: map<nat, Owner>,
                 ghost s0: map<nat, Space>)
    requires m.Valid() && Opened(m0, o0, s0, m.mem, m.owner, m.spaces, root) && SpaceFits(m.spaces[root], sz)
    modifies m
    ensures m.Valid() && Restored(m0, o0, s0, m.mem, m.owner, m.spaces)
  {
    ghost var m1, o1, s1 := m.mem, m.owner, m.spaces;
    ProcFreepagetable(m, root, sz);
    OpenedGone(m0, o0, s0, m1, o1, s1, m.mem, m.owner, m.spaces, root);
  }
}
