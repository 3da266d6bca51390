/**
 The inode layer: block allocation, the block map of a file, truncation, reading and writing.  The
 buffer cache and the log below it give this layer a plain map of blocks; `logged` collects the
 blocks the current transaction has passed to `log_write`.
 */
module Files {
  import opened Common
  import opened Inodes

  /** The number of blocks that `n` bytes from `off` on lie in. */
  function Span(off: nat, n: nat): (r: int) { if n == 0 then 0 else (off + n - 1) / BSIZE - off / BSIZE + 1 }

  lemma SpanNext(off: nat, tot: nat, m: nat)
    requires 0 < m && (off + tot) % BSIZE + m <= BSIZE && (tot > 0 ==> (off + tot) % BSIZE == 0)
    ensures Span(off, tot + m) == Span(off, tot) + 1
  {
    assert (off + tot + m - 1) / BSIZE == (off + tot) / BSIZE;
  }

  lemma SpanMono(off: nat, m: nat, n: nat)
    requires m <= n
    ensures 0 <= Span(off, m) <= Span(off, n)
  {
  }

  /** A write that begins inside a block begins in one that is there. */
  lemma FirstMapped(b0: map<nat, Block>, n0: seq<Inode>, blocks: map<nat, Block>, inodes: seq<Inode>, i: nat, off: nat,
                    src: seq<byte>)
    requires WrittenOk(b0, n0, blocks, inodes, i, off, src, 0) && off <= n0[i].size && off % BSIZE != 0
    ensures Addr(blocks, inodes[i], SlotOf(off / BSIZE)) != 0
  {
    assert KeyWrite(0);
    assert off / BSIZE < Blocks(n0[i].size);
  }

  /** A write that begins inside a block did not allocate the first block it visited. */
  ghost predicate Late(off: nat, visited: nat, grabbed: nat) {
    grabbed + (if visited > 0 && off % BSIZE != 0 then 1 else 0) <= visited
  }

  /** `tot` of `n` bytes have been written, to `visited` blocks. */
  ghost predicate Progress(off: nat, n: nat, tot: nat, visited: nat, grabbed: nat) {
    visited == Span(off, tot) && (0 < tot < n ==> (off + tot) % BSIZE == 0) && Late(off, visited, grabbed)
  }

  lemma ProgressNext(off: nat, n: nat, tot: nat, m: nat, visited: nat, grabbed: nat, added: bool)
    requires Progress(off, n, tot, visited, grabbed) && tot < n && (tot == 0 && off % BSIZE != 0 ==> !added)
    requires m == if n - tot < BSIZE - (off + tot) % BSIZE then n - tot else BSIZE - (off + tot) % BSIZE
    ensures 0 < m && (off + tot) % BSIZE + m <= BSIZE && tot + m <= n && visited + 1 <= Span(off, n)
    ensures Progress(off, n, tot + m, visited + 1, if added then grabbed + 1 else grabbed)
  {
    SpanNext(off, tot, m);
    SpanMono(off, tot + m, n);
  }

  /** Three blocks' worth of bytes lie in four blocks at most, in three if they begin at a block boundary. */
  lemma SpanBound(off: nat, n: nat)
    requires n <= 3 * BSIZE
    ensures Span(off, n) <= if off % BSIZE == 0 then 3 else 4
  {
  }

  lemma AddOne(s: set<nat>, x: nat)
    ensures |s + {x}| <= |s| + 1
  {
    if x in s {
      assert s + {x} == s;
    }
  }

  lemma Logged2(s: set<nat>, x: nat, y: nat)
    ensures |s + {x} + {y}| <= |s| + 2 && s <= s + {x} + {y}
  {
    AddOne(s, x);
    AddOne(s + {x}, y);
  }

  lemma Logged3(s: set<nat>, x: nat, y: nat, z: nat)
    ensures |s + {x} + {y} + {z}| <= |s| + 2 + if z in s then 0 else 1
    ensures s <= s + {x} + {y} + {z}
  {
    Logged2(s, x, y);
    if z in s {
      assert s + {x} + {y} + {z} == s + {x} + {y};
    } else {
      AddOne(s + {x} + {y}, z);
    }
  }

  /** Every block that changed has gone to the log. */
  ghost predicate Through(b0: map<nat, Block>, blocks: map<nat, Block>, logged: set<nat>) {
    b0.Keys <= blocks.Keys
    && forall b {:trigger blocks[b]} :: b in b0 && b in blocks && blocks[b] != b0[b] ==> b in logged
  }

  lemma ThroughTrans(b0: map<nat, Block>, b1: map<nat, Block>, l1: set<nat>, b2: map<nat, Block>, l2: set<nat>)
    requires Through(b0, b1, l1) && Through(b1, b2, l2) && l1 <= l2
    ensures Through(b0, b2, l2)
  {
  }

  /** All that several transactions have logged. */
  ghost function Union(txns: seq<set<nat>>): (r: set<nat>) {
    if txns == [] then {} else Union(txns[..|txns| - 1]) + txns[|txns| - 1]
  }

  lemma ThroughNext(b0: map<nat, Block>, b1: map<nat, Block>, txns: seq<set<nat>>, b2: map<nat, Block>, l: set<nat>)
    requires Through(b0, b1, Union(txns)) && Through(b1, b2, l)
    ensures Through(b0, b2, Union(txns + [l]))
  {
    assert (txns + [l])[..|txns|] == txns;
    ThroughMore(b0, b1, Union(txns), Union(txns) + l);
    ThroughMore(b1, b2, l, Union(txns) + l);
    ThroughTrans(b0, b1, Union(txns) + l, b2, Union(txns) + l);
  }

  predicate KeyTxns(u: int) { true }

  /** None logged more than it may, and, if `whole`, every block that changed since `b0` is in one of them. */
  ghost predicate Accounted(b0: map<nat, Block>, blocks: map<nat, Block>, txns: seq<set<nat>>, whole: bool) {
    forall u {:trigger KeyTxns(u)} :: KeyTxns(u) ==>
      && (forall k :: 0 <= k < |txns| ==> |txns[k]| <= MAXOPBLOCKS)
      && (whole ==> Through(b0, blocks, Union(txns)))
  }

  lemma AccountedNext(b0: map<nat, Block>, b1: map<nat, Block>, txns: seq<set<nat>>, b2: map<nat, Block>, l: set<nat>,
                      whole: bool)
    requires Accounted(b0, b1, txns, true) && |l| <= MAXOPBLOCKS && (whole ==> Through(b1, b2, l))
    ensures Accounted(b0, b2, txns + [l], whole)
  {
    assert KeyTxns(0);
    if whole {
      ThroughNext(b0, b1, txns, b2, l);
    }
  }

  lemma AccountedNone(b: map<nat, Block>)
    ensures Accounted(b, b, [], true)
  {
  }

  lemma ThroughMore(b0: map<nat, Block>, b1: map<nat, Block>, l: set<nat>, l': set<nat>)
    requires Through(b0, b1, l) && l <= l'
    ensures Through(b0, b1, l')
  {
  }

  predicate KeyHome(u: int) { true }

  /**
   Every block in the log is a bitmap block, an inode block or a data block: never the log, and never out of
   range.
   */
  ghost predicate Home(inodestart: nat, bmapstart: nat, inodes: nat, bits: nat, use: map<nat, Use>, logged: set<nat>) {
    forall u {:trigger KeyHome(u)} :: KeyHome(u) ==>
      forall b :: b in logged ==>
        inodestart <= b <= inodestart + inodes / IPB || bmapstart <= b <= bmapstart + bits / BPB
        || (b in use && use[b] != Meta)
  }

  lemma HomeInode(inodestart: nat, bmapstart: nat, inodes: nat, bits: nat, use: map<nat, Use>, logged: set<nat>, i: nat)
    requires Home(inodestart, bmapstart, inodes, bits, use, logged) && i < inodes
    ensures Home(inodestart, bmapstart, inodes, bits, use, logged + {inodestart + i / IPB})
  {
    assert KeyHome(0);
  }

  lemma HomeBit(inodestart: nat, bmapstart: nat, inodes: nat, bits: nat, use: map<nat, Use>, logged: set<nat>, a: nat)
    requires Home(inodestart, bmapstart, inodes, bits, use, logged) && a < bits
    ensures Home(inodestart, bmapstart, inodes, bits, use, logged + {bmapstart + a / BPB})
  {
    assert KeyHome(0);
  }

  lemma HomeData(inodestart: nat, bmapstart: nat, inodes: nat, bits: nat, use: map<nat, Use>, logged: set<nat>, b: nat)
    requires Home(inodestart, bmapstart, inodes, bits, use, logged) && b in use && use[b] != Meta
    ensures Home(inodestart, bmapstart, inodes, bits, use, logged + {b})
  {
    assert KeyHome(0);
  }

  /** A block that is not a meta block does not become one. */
  lemma HomeUse(inodestart: nat, bmapstart: nat, inodes: nat, bits: nat, use: map<nat, Use>, logged: set<nat>,
                use': map<nat, Use>)
    requires Home(inodestart, bmapstart, inodes, bits, use, logged)
    requires forall b {:trigger use[b]} {:trigger use'[b]} :: b in use && use[b] != Meta ==>
               b in use' && use'[b] != Meta
    ensures Home(inodestart, bmapstart, inodes, bits, use', logged)
  {
    assert KeyHome(0);
  }

  /** Every bit of the bitmap that changed is in a block that has gone to the log. */
  ghost predicate BitsThrough(start: nat, bits0: seq<bool>, bits: seq<bool>, logged: set<nat>) {
    |bits| == |bits0|
    && forall b {:trigger bits[b]} :: 0 <= b < |bits| && bits[b] != bits0[b] ==> start + b / BPB in logged
  }

  lemma BitsTrans(start: nat, bits0: seq<bool>, bits1: seq<bool>, l1: set<nat>, bits2: seq<bool>, l2: set<nat>)
    requires BitsThrough(start, bits0, bits1, l1) && BitsThrough(start, bits1, bits2, l2) && l1 <= l2
    ensures BitsThrough(start, bits0, bits2, l2)
  {
    assert forall b {:trigger bits2[b]} :: 0 <= b < |bits2| && bits2[b] != bits0[b] ==>
          bits1[b] != bits0[b] || bits2[b] != bits1[b];
  }

  /** What has been logged since `l0` are bitmap blocks. */
  ghost predicate BitmapOnly(start: nat, size: nat, l0: set<nat>, logged: set<nat>) {
    l0 <= logged && forall b :: b in logged && b !in l0 ==> start <= b <= start + size / BPB
  }

  predicate KeyMarks(u: int) { true }

  /**
   Since `bits0`, `u0`: no block in use changed hands, and every bit that changed and every block that was
   taken has gone to the log.  `start` is the first bitmap block.
   */
  ghost predicate MarksAll(start: nat, bits0: seq<bool>, u0: map<nat, Use>, bits: seq<bool>, use: map<nat, Use>,
                           logged: set<nat>)
    requires |bits| == |bits0|
  {
    && use.Keys == u0.Keys
    && (forall b {:trigger bits[b]} :: 0 <= b < |bits| && bits[b] != bits0[b] ==> start + b / BPB in logged)
    && (forall b {:trigger use[b]} :: b in u0 ==>
        if u0[b] != Free then use[b] == u0[b] else use[b] == Free || (b in logged && use[b] != Meta))
  }

  ghost predicate Marks(start: nat, bits0: seq<bool>, u0: map<nat, Use>, bits: seq<bool>, use: map<nat, Use>,
                        logged: set<nat>) {
    |bits| == |bits0|
    && forall u {:trigger KeyMarks(u)} :: KeyMarks(u) ==> MarksAll(start, bits0, u0, bits, use, logged)
  }

  lemma MarksSelf(start: nat, bits: seq<bool>, use: map<nat, Use>, logged: set<nat>)
    ensures Marks(start, bits, use, bits, use, logged)
  {
  }

  lemma MarksTrans(start: nat, bits0: seq<bool>, u0: map<nat, Use>, bits1: seq<bool>, u1: map<nat, Use>, l1: set<nat>,
                   bits2: seq<bool>, u2: map<nat, Use>, l2: set<nat>)
    requires Marks(start, bits0, u0, bits1, u1, l1) && Marks(start, bits1, u1, bits2, u2, l2) && l1 <= l2
    ensures Marks(start, bits0, u0, bits2, u2, l2)
  {
    assert KeyMarks(0);
    assert forall b {:trigger bits2[b]} :: 0 <= b < |bits2| && bits2[b] != bits0[b] ==>
          bits1[b] != bits0[b] || bits2[b] != bits1[b];
    assert forall b {:trigger u2[b]} :: b in u0 ==> b in u1 && u1[b] == u1[b];
  }

  lemma MarksMore(start: nat, bits0: seq<bool>, u0: map<nat, Use>, bits: seq<bool>, use: map<nat, Use>, l1: set<nat>,
                  l2: set<nat>)
    requires Marks(start, bits0, u0, bits, use, l1) && l1 <= l2
    ensures Marks(start, bits0, u0, bits, use, l2)
  {
    assert KeyMarks(0);
  }

  lemma MarksOne(start: nat, bits0: seq<bool>, u0: map<nat, Use>, a: nat, v: Use, bits: seq<bool>, use: map<nat, Use>,
                 logged: set<nat>)
    requires a < |bits0| && bits == bits0[a := true] && a in u0 && u0[a] == Free && use == u0[a := v] && v != Meta
             && a in logged && start + a / BPB in logged
    ensures Marks(start, bits0, u0, bits, use, logged)
  {
  }

  lemma Joined(s: seq<byte>, off: nat, tot: nat, m: nat)
    requires off + tot + m <= |s|
    ensures s[off..off + tot] + s[off + tot..off + tot + m] == s[off..off + (tot + m)]
  {
  }

  ghost function ClearBits(bits: seq<bool>, n: nat): (r: set<nat>) { set b | 0 <= b < n && b < |bits| && !bits[b] }

  /** Counting the clear bits is counting the free blocks. */
  lemma {:induction false} FreeBitsAre(bits: seq<bool>, n: nat)
    requires n <= |bits|
    ensures FreeBits(bits, n) == |ClearBits(bits, n)|
  {
    if n == 0 {
      assert ClearBits(bits, n) == {};
    } else {
      FreeBitsAre(bits, n - 1);
      assert ClearBits(bits, n) == if bits[n - 1] then ClearBits(bits, n - 1) else ClearBits(bits, n - 1) + {n - 1};
    }
  }

  ghost function DataBlocks(use: map<nat, Use>): (r: set<nat>) { set b | b in use && use[b] != Meta }
  ghost function OwnedBlocks(use: map<nat, Use>): (r: set<nat>) { set b | b in use && use[b].Slot? }

  /** What `fsinfo` reports as free is the number of data blocks less those that some inode owns. */
  lemma FreeBlocks(bits: seq<bool>, blocks: map<nat, Block>, inodes: seq<Inode>, use: map<nat, Use>)
    requires FsOk(bits, blocks, inodes, use) && forall b :: b in use ==> use[b] != Held
    ensures FreeBits(bits, |bits|) == |DataBlocks(use)| - |OwnedBlocks(use)|
  {
    assert KeyMark(0);
    FreeBitsAre(bits, |bits|);
    var clear, owned := ClearBits(bits, |bits|), OwnedBlocks(use);
    forall b: nat ensures b in clear <==> b in use && use[b] == Free {
    }
    assert DataBlocks(use) == clear + owned && clear !! owned;
    assert |clear + owned| == |clear| + |owned|;
  }

  /** Two writes in a row are one write of both. */
  lemma SpliceTwice(s: seq<byte>, off: nat, a: seq<byte>, b: seq<byte>)
    requires off <= |s|
    ensures off + |a| <= |Splice(s, off, a)| && Splice(Splice(s, off, a), off + |a|, b) == Splice(s, off, a + b)
  {
    var t := Splice(s, off, a);
    var x, y := Splice(t, off + |a|, b), Splice(s, off, a + b);
    forall q | 0 <= q < |x| ensures |x| == |y| && x[q] == y[q] {
      SpliceAt(t, off + |a|, b, q);
      SpliceAt(s, off, a + b, q);
      if q < |t| {
        SpliceAt(s, off, a, q);
      }
    }
  }

  /** `now` is `was` with the first `done` bytes of `src` written at `off`. */
  ghost predicate SoFar(was: seq<byte>, now: seq<byte>, off: nat, src: seq<byte>, done: nat) {
    done <= |src| && if done == 0 then now == was else off <= |was| && now == Splice(was, off, src[..done])
  }

  lemma SpliceWhole(s: seq<byte>, off: nat, d: seq<byte>, n: nat)
    requires off <= |s| && n == if off + |d| > |s| then off + |d| else |s|
    ensures Splice(s, off, d)[..n] == Splice(s, off, d)
  {
  }

  lemma SpliceNothing(s: seq<byte>, off: nat)
    requires off <= |s|
    ensures Splice(s, off, []) == s
  {
  }

  function Longer(a: nat, b: nat): (r: nat) { if a < b then b else a }

  /** `done` bytes of `src` count as written, but `w` are in the file's blocks: a copy failed half way. */
  ghost predicate TornSoFar(was: seq<byte>, now: seq<byte>, off: nat, src: seq<byte>, done: nat, w: nat) {
    && done <= w <= |src|
    && if w == 0 then now == was else off <= |was| && now == Splice(was, off, src[..w])[..Longer(|was|, off + done)]
  }

  /** The bytes torn lie past the end of the file, or are what was there. */
  ghost predicate Harmless(was: seq<byte>, off: nat, src: seq<byte>, done: nat, w: nat)
    requires done <= w <= |src|
  {
    forall q :: done <= q < w && off + q < |was| ==> src[q] == was[off + q]
  }

  /** What a splice of the first `w` bytes has at `q`. */
  lemma SplicedAt(was: seq<byte>, off: nat, src: seq<byte>, w: nat, q: nat)
    requires off <= |was| && w <= |src| && q < Longer(|was|, off + w)
    ensures |Splice(was, off, src[..w])| == Longer(|was|, off + w)
    ensures Splice(was, off, src[..w])[q] == if off <= q < off + w then src[q - off] else was[q]
  {
    SpliceAt(was, off, src[..w], q);
  }

  lemma TornSame(was: seq<byte>, a: seq<byte>, b: seq<byte>, off: nat, src: seq<byte>, done: nat, w: nat, n: nat)
    requires done <= w <= |src| && off <= |was| && a == Splice(was, off, src[..w]) && b == Splice(was, off, src[..done])
             && n == Longer(|was|, off + done)
    ensures |a| >= n == |b| && (a[..n] == b <==> Harmless(was, off, src, done, w))
  {
    assert |b| == n && |a| == Longer(|was|, off + w);
    forall q | 0 <= q < n ensures a[q] == b[q] <==> off + done <= q < off + w ==> src[q - off] == was[q] {
      SplicedAt(was, off, src, w, q);
      SplicedAt(was, off, src, done, q);
    }
    if a[..n] == b {
      forall q | done <= q < w && off + q < |was| ensures src[q] == was[off + q] {
        assert a[..n][off + q] == b[off + q];
      }
    }
    if Harmless(was, off, src, done, w) {
      forall q | 0 <= q < n ensures a[q] == b[q] {
        if off + done <= q < off + w {
          assert src[q - off] == was[off + (q - off)];
        }
      }
    }
  }

  /** A torn copy leaves the file as the bytes that count would if and only if it is harmless. */
  lemma TornIff(was: seq<byte>, now: seq<byte>, off: nat, src: seq<byte>, done: nat, w: nat)
    requires TornSoFar(was, now, off, src, done, w) && off <= |was|
    ensures SoFar(was, now, off, src, done) <==> Harmless(was, off, src, done, w)
  {
    SpliceNothing(was, off);
    assert src[..0] == [];
    var a, b, n := Splice(was, off, src[..w]), Splice(was, off, src[..done]), Longer(|was|, off + done);
    TornSame(was, a, b, off, src, done, w, n);
    assert now == a[..n];
  }

  /** With block `a` put back to `c`, everything changed is in the log and the write has done `tot` bytes. */
  ghost predicate Cleaned(b0: map<nat, Block>, n0: seq<Inode>, blocks: map<nat, Block>, inodes: seq<Inode>, i: nat,
                          off: nat, src: seq<byte>, tot: nat, logged: set<nat>, a: nat, c: Block) {
    a in blocks && Through(b0, blocks[a := c], logged) && WrittenOk(b0, n0, blocks[a := c], inodes, i, off, src, tot)
  }

  /** With block `a` put back to `c`, everything changed is in the log and just the bytes that count are in the file. */
  ghost predicate Undone(b0: map<nat, Block>, was: seq<byte>, blocks: map<nat, Block>, ino: Inode, off: nat,
                         src: seq<byte>, done: nat, logged: set<nat>, a: nat, c: Block) {
    && a in blocks && Through(b0, blocks[a := c], logged)
    && SoFar(was, Contents(blocks[a := c], ino), off, src, done)
  }

  lemma NothingToClean(b0: map<nat, Block>, n0: seq<Inode>, blocks: map<nat, Block>, inodes: seq<Inode>, i: nat,
                       off: nat, src: seq<byte>, tot: nat, logged: set<nat>, a: nat)
    requires Through(b0, blocks, logged) && WrittenOk(b0, n0, blocks, inodes, i, off, src, tot) && a in blocks
    ensures Cleaned(b0, n0, blocks, inodes, i, off, src, tot, logged, a, blocks[a])
  {
    assert blocks[a := blocks[a]] == blocks;
  }

  /** The end of a write, with the torn block put back. */
  lemma CleanedEnd(b0: map<nat, Block>, n0: seq<Inode>, blocks: map<nat, Block>, inodes: seq<Inode>, i: nat, off: nat,
                   src: seq<byte>, tot: nat, logged: set<nat>, a: nat, c: Block, ino: Inode)
    requires Cleaned(b0, n0, blocks, inodes, i, off, src, tot, logged, a, c) && off <= n0[i].size <= MAXFILE * BSIZE
    requires off + tot <= MAXFILE * BSIZE && |inodes[i].addrs| == NDIRECT + 1 && ino == Resized(inodes[i], off + tot)
    requires tot <= |src| && ino.size == Longer(n0[i].size, off + tot)
    ensures Undone(b0, Contents(b0, n0[i]), blocks, ino, off, src, tot, logged, a, c)
  {
    var was := Contents(b0, n0[i]);
    WriteDone(b0, n0, blocks[a := c], inodes, i, off, src, tot, tot);
    SpliceWhole(was, off, src[..tot], ino.size);
    if tot == 0 {
      SpliceNothing(was, off);
      assert src[..0] == [];
    }
  }

  // ---- Which bytes a failing copy leaves behind ----

  function Least(a: nat, b: nat): (r: nat) { if a < b then a else b }

  /** Where chunk `c` of a write at `off` starts: a chunk ends with its block. */
  function StartOf(off: nat, c: nat): (r: nat) { if c == 0 then 0 else c * BSIZE - off % BSIZE }

  /** The length of the chunk at `tot` of a write of `n` bytes. */
  function Piece(off: nat, n: nat, tot: nat): (r: nat) {
    if n <= tot then 0 else Least(n - tot, BSIZE - (off + tot) % BSIZE)
  }

  /** The write has the chunk whose copy fails. */
  predicate Stops(off: nat, n: nat, fault: Option<nat>) { fault.Some? && StartOf(off, fault.value) < n }

  /** Byte `q` is copied before the copy fails. */
  predicate Lost(off: nat, n: nat, fault: Option<nat>, torn: nat, q: nat) {
    && Stops(off, n, fault) && off + n <= MAXFILE * BSIZE
    && var s := StartOf(off, fault.value); s <= q < s + Least(torn, Piece(off, n, s))
  }

  /** A byte copied before the copy fails lies inside the file and is not what was there. */
  ghost predicate Harms(was: seq<byte>, off: nat, src: seq<byte>, fault: Option<nat>, torn: nat) {
    exists q :: 0 <= q < |src| && Lost(off, |src|, fault, torn, q) && off + q < |was| && src[q] != was[off + q]
  }

  /**
   A write of `n` bytes has ended with `tot` bytes that count and `w` bytes in the file.  It never passes
   the failing chunk; bytes that do not count are that chunk's first `torn`; and if the block at `tot` is
   `mapped`, so that no allocation can fail, nothing but the failing copy stops it there.
   */
  ghost predicate Halted(off: nat, n: nat, fault: Option<nat>, torn: nat, tot: nat, w: nat, mapped: bool) {
    && tot <= w <= n && (Stops(off, n, fault) ==> tot <= StartOf(off, fault.value))
    && (w > tot || (tot < n && mapped) ==>
          fault.Some? && tot == StartOf(off, fault.value) && w == tot + Least(torn, Piece(off, n, tot)))
  }

  predicate KeyChunk(u: int) { true }

  /** A copy of `n` bytes at `off` is at chunk `c`, byte `tot`, and no copy has failed. */
  ghost predicate AtChunk(off: nat, n: nat, c: nat, tot: nat, fault: Option<nat>) {
    tot <= n && forall u {:trigger KeyChunk(u)} :: KeyChunk(u) ==>
      tot == (if StartOf(off, c) < n then StartOf(off, c) else n) && (Stops(off, n, fault) ==> c <= fault.value)
  }

  lemma AtChunkNext(off: nat, n: nat, c: nat, tot: nat, fault: Option<nat>, q: nat)
    requires AtChunk(off, n, c, tot, fault) && tot < n && q == c + 1
    ensures 0 < Piece(off, n, tot) <= n - tot && tot == StartOf(off, c) && (fault == Some(c) ==> Stops(off, n, fault))
    ensures Stops(off, n, fault) ==> tot <= StartOf(off, fault.value)
    ensures fault != Some(c) ==> AtChunk(off, n, q, tot + Piece(off, n, tot), fault)
    ensures fault.Some? && fault != Some(c) ==> tot != StartOf(off, fault.value)
  {
    assert KeyChunk(0);
  }

  /** A write that stops in chunk `c`, for a failed copy or for want of a block. */
  lemma Halts(off: nat, n: nat, c: nat, tot: nat, fault: Option<nat>, torn: nat, w: nat, mapped: bool)
    requires AtChunk(off, n, c, tot, fault) && tot < n
    requires w == tot + (if fault == Some(c) then Least(torn, Piece(off, n, tot)) else 0) || (w == tot && !mapped)
    requires fault != Some(c) ==> !mapped
    ensures Halted(off, n, fault, torn, tot, w, mapped)
    ensures fault == Some(c) <==> fault.Some? && tot == StartOf(off, fault.value)
  {
    assert KeyChunk(0);
  }

  lemma AtEnd(off: nat, n: nat, c: nat, fault: Option<nat>)
    requires AtChunk(off, n, c, n, fault)
    ensures !Stops(off, n, fault)
  {
    assert KeyChunk(0);
  }

  /** Within the old file nothing but the failing copy stops a write, so the bytes it loses can be told beforehand. */
  lemma LostAre(off: nat, n: nat, fault: Option<nat>, torn: nat, tot: nat, w: nat, mapped: bool, size: nat, q: nat)
    requires Halted(off, n, fault, torn, tot, w, mapped) && off + n <= MAXFILE * BSIZE && (off + tot < size ==> mapped)
    ensures tot <= q < w ==> Lost(off, n, fault, torn, q)
    ensures Lost(off, n, fault, torn, q) && off + q < size ==> tot <= q < w
  {
  }

  /** So whether a torn copy harms the file can be told before the call. */
  lemma HarmIff(was: seq<byte>, off: nat, src: seq<byte>, fault: Option<nat>, torn: nat, tot: nat, w: nat, mapped: bool)
    requires Halted(off, |src|, fault, torn, tot, w, mapped) && off + |src| <= MAXFILE * BSIZE
    requires off + tot < |was| ==> mapped
    ensures Harmless(was, off, src, tot, w) <==> !Harms(was, off, src, fault, torn)
  {
    if Harms(was, off, src, fault, torn) {
      var q :| 0 <= q < |src| && Lost(off, |src|, fault, torn, q) && off + q < |was| && src[q] != was[off + q];
      LostAre(off, |src|, fault, torn, tot, w, mapped, |was|, q);
    }
    if !Harmless(was, off, src, tot, w) {
      var q :| tot <= q < w && off + q < |was| && src[q] != was[off + q];
      LostAre(off, |src|, fault, torn, tot, w, mapped, |was|, q);
    }
  }

  /** What a write to file `i` has done to it, in terms of what could be told beforehand. */
  lemma Judge(bits: seq<bool>, blocks: map<nat, Block>, inodes: seq<Inode>, use: map<nat, Use>, i: nat, now: seq<byte>,
              off: nat, src: seq<byte>, fault: Option<nat>, torn: nat, tot: nat, w: nat)
    requires FsOk(bits, blocks, inodes, use) && i < |inodes| && off <= inodes[i].size && off + |src| <= MAXFILE * BSIZE
    requires Halted(off, |src|, fault, torn, tot, w, Addr(blocks, inodes[i], SlotOf((off + tot) / BSIZE)) != 0)
    requires now == Splice(Contents(blocks, inodes[i]), off, src[..w])[..Longer(inodes[i].size, off + tot)]
    ensures SoFar(Contents(blocks, inodes[i]), now, off, src, tot) <==>
              !Harms(Contents(blocks, inodes[i]), off, src, fault, torn)
  {
    var was := Contents(blocks, inodes[i]);
    if off + tot < |was| {
      BelowSize(bits, blocks, inodes, use, i, off + tot);
    }
    if w == 0 {
      SpliceNothing(was, off);
      assert src[..0] == [];
    }
    TornIff(was, now, off, src, tot, w);
    HarmIff(was, off, src, fault, torn, tot, w, Addr(blocks, inodes[i], SlotOf((off + tot) / BSIZE)) != 0);
  }

  // ---- The same for all transactions of a `filewrite` ----

  /** The bytes of one transaction. */
  const SHARE := 3 * BSIZE

  /** How many of `n` bytes transaction `t` writes. */
  function Share(n: nat, t: nat): (r: nat) { if n <= t * SHARE then 0 else Least(SHARE, n - t * SHARE) }

  /** How many transactions `n` bytes take. */
  function Shares(n: nat): (r: nat) { (n + SHARE - 1) / SHARE }

  /** Transaction `t` has a chunk whose copy fails. */
  predicate ShareStops(off: nat, n: nat, fault: nat -> Option<nat>, t: nat) {
    Stops(off + t * SHARE, Share(n, t), fault(t))
  }

  /** None of the first `t` transactions stops. */
  ghost predicate NoneStops(off: nat, n: nat, fault: nat -> Option<nat>, t: nat) {
    forall u: nat :: u < t ==> !ShareStops(off, n, fault, u)
  }

  lemma NoneStopsNext(off: nat, n: nat, fault: nat -> Option<nat>, t: nat, q: nat)
    requires NoneStops(off, n, fault, t) && !ShareStops(off, n, fault, t) && q == t + 1
    ensures NoneStops(off, n, fault, q)
  {
  }

  /** Byte `q` is copied in the first transaction that stops, before the copy fails. */
  ghost predicate FileLost(off: nat, n: nat, fault: nat -> Option<nat>, torn: nat -> nat, q: nat) {
    ShareLost(off, n, fault, torn, q / SHARE, q % SHARE)
  }

  /** Byte `q` of transaction `t`. */
  ghost predicate ShareLost(off: nat, n: nat, fault: nat -> Option<nat>, torn: nat -> nat, t: nat, q: nat) {
    && NoneStops(off, n, fault, t)
    && Lost(off + t * SHARE, Share(n, t), fault(t), torn(t), q)
  }

  ghost predicate FileHarms(was: seq<byte>, off: nat, src: seq<byte>, fault: nat -> Option<nat>, torn: nat -> nat) {
    exists q :: 0 <= q < |src| && FileLost(off, |src|, fault, torn, q) && off + q < |was| && src[q] != was[off + q]
  }

  /**
   The bytes from `done` to `w` are lost by a write of `n` bytes at `x` that began at byte `j`, and no others
   below `room` are.
   */
  ghost predicate LostHere(x: nat, n: nat, fault: Option<nat>, torn: nat, j: nat, done: nat, w: nat, room: nat) {
    forall q {:trigger Lost(x, n, fault, torn, q)} :: 0 <= q ==>
      && (done <= j + q < w ==> Lost(x, n, fault, torn, q))
      && (Lost(x, n, fault, torn, q) && j + q < room ==> done <= j + q < w)
  }

  /** Nothing is lost in transactions that did not stop, nor after one that did. */
  lemma NotLost(off: nat, n: nat, fault: nat -> Option<nat>, torn: nat -> nat, t: nat, q: nat)
    requires NoneStops(off, n, fault, t)
    ensures q < t * SHARE ==> !FileLost(off, n, fault, torn, q)
    ensures q >= t * SHARE + SHARE && ShareStops(off, n, fault, t) ==> !FileLost(off, n, fault, torn, q)
  {
    if q < t * SHARE {
      assert q / SHARE < t;
      assert !ShareStops(off, n, fault, q / SHARE);
    } else if q >= t * SHARE + SHARE {
      assert q / SHARE > t;
    }
  }

  lemma LostIn(off: nat, n: nat, fault: nat -> Option<nat>, torn: nat -> nat, t: nat, j: nat, q: nat)
    requires NoneStops(off, n, fault, t) && j == t * SHARE <= q < j + SHARE
    ensures FileLost(off, n, fault, torn, q) <==> Lost(off + j, Share(n, t), fault(t), torn(t), q - j)
  {
    Place(q, t, q - j);
  }

  lemma Place(q: nat, t: nat, r: nat)
    requires q == t * SHARE + r && r < SHARE
    ensures q / SHARE == t && q % SHARE == r
  {
    var a := q / SHARE;
    assert (a - t) * SHARE == r - q % SHARE;
  }

  /** What is lost is lost in transaction `t`, the first that stops. */
  lemma LostThere(off: nat, n: nat, fault: nat -> Option<nat>, torn: nat -> nat, t: nat, j: nat, done: nat, w: nat,
                  room: nat, q: nat)
    requires NoneStops(off, n, fault, t) && j == t * SHARE <= done <= w <= j + SHARE
    requires LostHere(off + j, Share(n, t), fault(t), torn(t), j, done, w, room)
    requires !ShareStops(off, n, fault, t) ==> room <= j + SHARE
    ensures done <= q < w ==> FileLost(off, n, fault, torn, q)
    ensures FileLost(off, n, fault, torn, q) && q < room ==> done <= q < w
  {
    if j <= q < j + SHARE {
      LostIn(off, n, fault, torn, t, j, q);
      assert Lost(off + j, Share(n, t), fault(t), torn(t), q - j) ==> true;
    } else {
      NotLost(off, n, fault, torn, t, q);
    }
  }

  /** The bytes from `done` to `w` are lost, and no others in a file of `size` bytes are. */
  ghost predicate FileTorn(off: nat, n: nat, fault: nat -> Option<nat>, torn: nat -> nat, done: nat, w: nat,
                           size: nat) {
    forall u {:trigger KeyTorn(u)} :: KeyTorn(u) ==>
      forall q: nat {:trigger FileLost(off, n, fault, torn, q)} ::
        && (done <= q < w ==> FileLost(off, n, fault, torn, q))
        && (FileLost(off, n, fault, torn, q) && off + q < size ==> done <= q < w)
  }

  predicate KeyTorn(u: int) { true }

  /** Transaction `t`: `n1` bytes, from byte `j` on, at `x`. */
  lemma ShareIs(off: nat, n: nat, fault: nat -> Option<nat>, t: nat, j: nat, n1: nat, x: nat)
    requires t < Shares(n) && j == t * SHARE && n1 == (if n - j > SHARE then SHARE else n - j) && x == off + j
    ensures n1 == Share(n, t) && 0 < n1 <= SHARE && j + n1 <= n
    ensures j + n1 == (if t + 1 < Shares(n) then (t + 1) * SHARE else n)
    ensures ShareStops(off, n, fault, t) <==> Stops(x, n1, fault(t))
  {
  }

  predicate KeyReach(u: int) { true }

  /** The first `t` transactions of a call write `j` of `n` bytes. */
  ghost predicate Reaches(n: nat, t: nat, j: nat) {
    j <= n && forall u {:trigger KeyReach(u)} :: KeyReach(u) ==>
      t <= Shares(n) && j == if t < Shares(n) then t * SHARE else n
  }

  lemma ReachesNext(n: nat, t: nat, j: nat, n1: nat, q: nat)
    requires Reaches(n, t, j) && j < n && n1 == (if n - j > SHARE then SHARE else n - j) && q == t + 1
    ensures Reaches(n, q, j + n1)
  {
    assert KeyReach(0);
  }

  lemma ReachesEnd(n: nat, t: nat)
    requires Reaches(n, t, n)
    ensures t == Shares(n) && n <= t * SHARE
  {
    assert KeyReach(0);
  }

  lemma InShare(n: nat, t: nat, j: nat, n1: nat, done: nat)
    requires Reaches(n, t, j) && j < n && n1 == (if n - j > SHARE then SHARE else n - j) && j <= done < j + n1
    ensures done / SHARE == t
  {
    assert KeyReach(0);
  }

  /** A call that stops in transaction `t`. */
  lemma TornIn(off: nat, n: nat, fault: nat -> Option<nat>, torn: nat -> nat, t: nat, j: nat, n1: nat, x: nat,
               done: nat,
               w: nat, size: nat, room: nat)
    requires NoneStops(off, n, fault, t) && j == t * SHARE <= done <= w <= j + n1 && n1 == Share(n, t) && x == off + j
    requires LostHere(x, n1, fault(t), torn(t), j, done, w, room) && size <= off + room
    requires !Stops(x, n1, fault(t)) ==> room <= j + n1
    ensures FileTorn(off, n, fault, torn, done, w, size)
  {
    forall q: nat
      ensures (done <= q < w ==> FileLost(off, n, fault, torn, q))
        && (FileLost(off, n, fault, torn, q) && off + q < size ==> done <= q < w) {
      LostThere(off, n, fault, torn, t, j, done, w, room, q);
    }
  }

  /** A call that does not stop loses nothing. */
  lemma TornNowhere(off: nat, n: nat, fault: nat -> Option<nat>, torn: nat -> nat, t: nat, size: nat)
    requires NoneStops(off, n, fault, t) && n <= t * SHARE
    ensures FileTorn(off, n, fault, torn, n, n, size)
  {
    forall q: nat ensures !FileLost(off, n, fault, torn, q) {
      if q < t * SHARE {
        NotLost(off, n, fault, torn, t, q);
      } else {
        assert q / SHARE >= t;
        assert Share(n, q / SHARE) == 0;
      }
    }
  }

  /** What a write of `n` bytes at `x` to a file of `size` bytes loses, from the byte `j` it began at. */
  lemma LostFrom(x: nat, n: nat, fault: Option<nat>, torn: nat, r: int, wc: nat, mapped: bool, size: nat,
                 j: nat, done: nat, w: nat, room: nat)
    requires r >= 0 ==>
               Halted(x, n, fault, torn, r, wc, mapped) && x + n <= MAXFILE * BSIZE && (x + r < size ==> mapped)
    requires r < 0 ==> wc == 0 && (x > size || x + n > MAXFILE * BSIZE)
    requires done == (if r > 0 then j + r else j) && w == j + wc && (room > 0 ==> x + room <= size + j)
    ensures LostHere(x, n, fault, torn, j, done, w, room)
  {
    forall q: nat
      ensures (done <= j + q < w ==> Lost(x, n, fault, torn, q))
        && (Lost(x, n, fault, torn, q) && j + q < room ==> done <= j + q < w) {
      if r >= 0 {
        LostAre(x, n, fault, torn, r, wc, mapped, size, q);
      }
    }
  }

  /** So whether the call harms the file can be told beforehand. */
  lemma FileHarmIff(was: seq<byte>, off: nat, src: seq<byte>, fault: nat -> Option<nat>, torn: nat -> nat,
                    done: nat, w: nat)
    requires done <= w <= |src| && FileTorn(off, |src|, fault, torn, done, w, |was|)
    ensures Harmless(was, off, src, done, w) <==> !FileHarms(was, off, src, fault, torn)
  {
    assert KeyTorn(0);
    if FileHarms(was, off, src, fault, torn) {
      var q :| 0 <= q < |src| && FileLost(off, |src|, fault, torn, q) && off + q < |was| && src[q] != was[off + q];
      assert done <= q < w;
    }
    if !Harmless(was, off, src, done, w) {
      var q :| done <= q < w && off + q < |was| && src[q] != was[off + q];
      assert FileLost(off, |src|, fault, torn, q);
    }
  }

  lemma FileJudge(was: seq<byte>, now: seq<byte>, off: nat, src: seq<byte>, fault: nat -> Option<nat>,
                  torn: nat -> nat, done: nat, w: nat)
    requires TornSoFar(was, now, off, src, done, w) && FileTorn(off, |src|, fault, torn, done, w, |was|)
    ensures SoFar(was, now, off, src, done) <==> !FileHarms(was, off, src, fault, torn)
  {
    FileHarmIff(was, off, src, fault, torn, done, w);
    if off <= |was| {
      TornIff(was, now, off, src, done, w);
    }
  }

  /** One more chunk, torn or not, after `j` bytes written cleanly. */
  lemma TornNext(was: seq<byte>, now: seq<byte>, next: seq<byte>, off: nat, src: seq<byte>, j: nat, n: nat, r: nat,
                 w: nat)
    requires SoFar(was, now, off, src, j) && j + n <= |src| && r <= w <= n && off + j <= |now|
    requires next == Splice(now, off + j, src[j..j + n][..w])[..Longer(|now|, off + j + r)]
    ensures TornSoFar(was, next, off, src, j + r, j + w)
  {
    assert src[j..j + n][..w] == src[j..j + w] && src[..j + w] == src[..j] + src[j..j + w];
    SpliceNothing(was, off);
    assert src[..0] == [];
    SpliceTwice(was, off, src[..j], src[j..j + w]);
    if j + w == 0 {
      SpliceNothing(now, off);
    }
  }

  /** Without a torn copy the file is as SoFar says. */
  lemma Whole(was: seq<byte>, now: seq<byte>, off: nat, src: seq<byte>, done: nat)
    requires TornSoFar(was, now, off, src, done, done)
    ensures SoFar(was, now, off, src, done)
  {
    if done > 0 {
      SpliceWhole(was, off, src[..done], |now|);
    }
  }

  /** What a transaction says of its chunk, for the whole write. */
  lemma TornStep(was: seq<byte>, now: seq<byte>, next: seq<byte>, off: nat, src: seq<byte>, j: nat, d: seq<byte>,
                 x: nat, r: int, wc: nat, done: nat, w: nat)
    requires TornSoFar(was, now, off, src, j, j) && j + |d| <= |src| && d == src[j..j + |d|] && x == off + j
    requires r == -1 ==> wc == 0 && next == now
    requires r >= 0 ==> r <= wc <= |d| && x <= |now| && next == Splice(now, x, d[..wc])[..Longer(|now|, x + r)]
    requires r >= -1 && done == (if r > 0 then j + r else j) && w == j + wc
    ensures TornSoFar(was, next, off, src, done, w) && (x <= |now| ==> off + done <= |next|)
  {
    if r >= 0 {
      Whole(was, now, off, src, j);
      TornNext(was, now, next, off, src, j, |d|, r, wc);
    }
  }

  /** How many bytes of a file of `size` bytes there are from `off` on. */
  function Room(off: nat, size: nat): (r: nat) { if off < size then size - off else 0 }

  const T_DIR := 1
  const T_FILE := 2

  /** How many of the first `n` inodes are of a kind that satisfies `p`. */
  function Count(inodes: seq<Inode>, n: nat, p: nat -> bool): (r: nat)
    requires n <= |inodes|
  {
    if n == 0 then 0 else Count(inodes, n - 1, p) + if p(inodes[n - 1].kind) then 1 else 0
  }

  ghost function Those(inodes: seq<Inode>, n: nat, p: nat -> bool): (r: set<nat>)
    requires n <= |inodes|
  {
    set i | 0 <= i < n && p(inodes[i].kind)
  }

  /** It is the number of those inodes. */
  lemma {:induction false} CountIs(inodes: seq<Inode>, n: nat, p: nat -> bool)
    requires n <= |inodes|
    ensures Count(inodes, n, p) == |Those(inodes, n, p)|
  {
    if n == 0 {
      assert Those(inodes, n, p) == {};
    } else {
      CountIs(inodes, n - 1, p);
      assert Those(inodes, n, p) == Those(inodes, n - 1, p) + if p(inodes[n - 1].kind) then {n - 1} else {};
    }
  }

  ghost predicate Counted(inodes: seq<Inode>, n: nat, total: nat, files: nat, dirs: nat)
    requires n <= |inodes|
  {
    && total == Count(inodes, n, (k: nat) => k != 0)
    && files == Count(inodes, n, (k: nat) => k == T_FILE)
    && dirs == Count(inodes, n, (k: nat) => k == T_DIR)
  }

  function FreeBits(bits: seq<bool>, n: nat): (r: nat)
    requires n <= |bits|
  {
    if n == 0 then 0 else FreeBits(bits, n - 1) + if bits[n - 1] then 0 else 1
  }

  /** No file but `i` has other contents than before. */
  ghost predicate OthersSame(b0: map<nat, Block>, n0: seq<Inode>, blocks: map<nat, Block>, inodes: seq<Inode>, i: nat) {
    |inodes| == |n0|
    && forall k {:trigger inodes[k]} :: 0 <= k < |inodes| && k != i ==>
      Contents(blocks, inodes[k]) == Contents(b0, n0[k])
  }

  class FileSystem {
    const inodestart: nat
    const bmapstart: nat
    /** The bitmap: one bit for each block of the disk. */
    var bits: seq<bool>
    var blocks: map<nat, Block>
    /** The inodes as the kernel holds them, and as they are on disk. */
    var inodes: seq<Inode>
    var disk: seq<Inode>
    /** What each block is used for. */
    ghost var use: map<nat, Use>
    ghost var logged: set<nat>

    constructor (inodestart: nat, bmapstart: nat, bits: seq<bool>, blocks: map<nat, Block>, disk: seq<Inode>,
                 ghost use: map<nat, Use>)
      requires FsOk(bits, blocks, disk, use)
      ensures Ok() && this.bits == bits && this.blocks == blocks && inodes == disk == this.disk && this.use == use
              && logged == {}
      ensures this.inodestart == inodestart && this.bmapstart == bmapstart
    {
      this.inodestart, this.bmapstart, this.bits, this.blocks, this.inodes, this.disk :=
          inodestart, bmapstart, bits, blocks, disk, disk;
      this.use, logged := use, {};
    }

    ghost predicate Ok() reads this {
      FsOk(bits, blocks, inodes, use) && |disk| == |inodes|
      && Home(inodestart, bmapstart, |inodes|, |bits|, use, logged)
    }

    /** No block is allocated without being in some inode. */
    ghost predicate NoneHeld() reads this {
      forall b {:trigger use[b]} :: b in use ==> use[b] != Held
    }

    /** Takes the first free block and clears it; 0 if the disk is full. */
    method Balloc() returns (a: nat)
      requires Ok()
      modifies this
      ensures Ok() && inodes == old(inodes) && disk == old(disk)
      ensures a == 0 ==> unchanged(this) && forall k :: 0 <= k < |bits| ==> bits[k]
      ensures a != 0 ==>
                a < |old(bits)| && !old(bits)[a]
                && (forall k :: 0 <= k < a ==> old(bits)[k]) && bits == old(bits)[a := true]
      ensures a != 0 ==>
                blocks == old(blocks)[a := ZeroBlock()] && use == old(use)[a := Held] && a in old(use)
                && old(use)[a] == Free
      ensures a != 0 ==> logged == old(logged) + {bmapstart + a / BPB} + {a}
    {
      var b := 0;
      while b < |bits|
        invariant 0 <= b && b % BPB == 0 && unchanged(this)
        invariant forall k :: 0 <= k < b && k < |bits| ==> bits[k]
      {
        var bi := 0;
        while bi < BPB && b + bi < |bits|
          invariant 0 <= bi <= BPB && unchanged(this)
          invariant forall k :: 0 <= k < b + bi && k < |bits| ==> bits[k]
        {
          if !bits[b + bi] {
            a := b + bi;
            ghost var bits', blocks', use' := bits[a := true], blocks[a := ZeroBlock()], use[a := Held];
            TakeBlock(bits, blocks, inodes, use, a, bits', blocks', use');
            HomeUse(inodestart, bmapstart, |inodes|, |bits|, use, logged, use');
            HomeBit(inodestart, bmapstart, |inodes|, |bits|, use', logged, a);
            HomeData(inodestart, bmapstart, |inodes|, |bits|, use', logged + {bmapstart + a / BPB}, a);
            bits := bits[a := true];
            logged := logged + {bmapstart + a / BPB};
            blocks := blocks[a := ZeroBlock()];
            logged := logged + {a};
            use := use';
            return;
          }
          bi := bi + 1;
        }
        b := b + BPB;
      }
      return 0;
    }

    /** Frees a block that was in use. */
    method Bfree(b: nat)
      requires Ok() && b in use && use[b] == Held
      modifies this`bits, this`use, this`logged
      ensures Ok() && b < |old(bits)| && old(bits)[b] && bits == old(bits)[b := false] && use == old(use)[b := Free]
      ensures logged == old(logged) + {bmapstart + b / BPB}
    {
      assert b < |bits| by { assert KeyMark(0); }
      GiveBlock(bits, blocks, inodes, use, b, bits[b := false], use[b := Free]);
      HomeUse(inodestart, bmapstart, |inodes|, |bits|, use, logged, use[b := Free]);
      HomeBit(inodestart, bmapstart, |inodes|, |bits|, use[b := Free], logged, b);
      bits, use := bits[b := false], use[b := Free];
      logged := logged + {bmapstart + b / BPB};
    }

    /** The indirect block of inode `i` is among the blocks of the transaction. */
    ghost predicate IndirectLogged(i: nat) reads this {
      i < |inodes| && |inodes[i].addrs| == NDIRECT + 1 && inodes[i].addrs[NDIRECT] != 0
      && inodes[i].addrs[NDIRECT] in logged
    }

    /** Allocates a block for an empty slot of the inode itself. */
    method NewSlot(i: nat, s: nat) returns (a: nat)
      requires Ok() && NoneHeld() && i < |inodes| && s <= NDIRECT && |inodes[i].addrs| == NDIRECT + 1
               && inodes[i].addrs[s] == 0
      modifies this
      ensures Ok() && NoneHeld() && disk == old(disk) && |inodes| == |old(inodes)|
      ensures Through(old(blocks), blocks, logged) && Marks(bmapstart, old(bits), old(use), bits, use, logged)
      ensures KeptOk(old(blocks), old(inodes), old(use), blocks, inodes, use, |inodes|)
      ensures a == 0 ==> unchanged(this) && forall k :: 0 <= k < |bits| ==> bits[k]
      ensures a != 0 ==> inodes == old(inodes)[i := old(inodes)[i].(addrs := old(inodes)[i].addrs[s := a])]
      ensures a != 0 ==> a in blocks && blocks[a] == ZeroBlock() && a in use && use[a] == Slot(i, s)
      ensures a != 0 ==> logged == old(logged) + {bmapstart + a / BPB} + {a}
    {
      ghost var bits0, blocks0, inodes0, use0 := bits, blocks, inodes, use;
      KeptSelf(bits, blocks, inodes, use, |inodes|);
      MarksSelf(bmapstart, bits, use, logged);
      a := Balloc();
      if a == 0 {
        return;
      }
      TakeKept(bits0, blocks0, inodes, use0, a, |inodes|, bits, blocks, use);
      MarksOne(bmapstart, bits0, use0, a, Slot(i, s), bits, use0[a := Slot(i, s)], logged);
      assert use[a := Slot(i, s)] == use0[a := Slot(i, s)];
      var ino := inodes[i].(addrs := inodes[i].addrs[s := a]);
      ghost var inodes', use' := inodes[i := ino], use[a := Slot(i, s)];
      LinkSlot(bits, blocks, inodes, use, i, s, a, inodes', use');
      LinkKept(bits, blocks, inodes, use, blocks, inodes', i, s, a, |inodes|);
      KeptTrans(blocks0, inodes0, use0, blocks, inodes, use, blocks, inodes', use', |inodes|);
      HomeUse(inodestart, bmapstart, |inodes|, |bits|, use, logged, use');
      inodes, use := inodes[i := ino], use';
    }

    /** Allocates a block for an empty entry of the inode's indirect block `ind`. */
    method NewEntry(i: nat, j: nat, ind: nat) returns (a: nat)
      requires Ok() && NoneHeld() && i < |inodes| && j < NINDIRECT && |inodes[i].addrs| == NDIRECT + 1
               && inodes[i].addrs[NDIRECT] == ind != 0
      requires ind in blocks && Word(blocks[ind], j) == 0
      modifies this
      ensures Ok() && NoneHeld() && disk == old(disk) && inodes == old(inodes)
      ensures Through(old(blocks), blocks, logged) && Marks(bmapstart, old(bits), old(use), bits, use, logged)
      ensures KeptOk(old(blocks), old(inodes), old(use), blocks, inodes, use, |inodes|)
      ensures a == 0 ==> unchanged(this) && forall k :: 0 <= k < |bits| ==> bits[k]
      ensures a != 0 ==> a in blocks && blocks[a] == ZeroBlock() && a in use && use[a] == Slot(i, NDIRECT + 1 + j)
      ensures a != 0 ==> Addr(blocks, inodes[i], NDIRECT + 1 + j) == a
      ensures a != 0 ==> logged == old(logged) + {bmapstart + a / BPB} + {a} + {ind}
    {
      ghost var bits0, blocks0, use0, s := bits, blocks, use, NDIRECT + 1 + j;
      KeptSelf(bits, blocks, inodes, use, |inodes|);
      SlotUse(bits, blocks, inodes, use, i, NDIRECT);
      MarksSelf(bmapstart, bits, use, logged);
      a := Balloc();
      if a == 0 {
        return;
      }
      TakeKept(bits0, blocks0, inodes, use0, a, |inodes|, bits, blocks, use);
      MarksOne(bmapstart, bits0, use0, a, Slot(i, s), bits, use0[a := Slot(i, s)], logged + {ind});
      assert use[a := Slot(i, s)] == use0[a := Slot(i, s)];
      assert a < 0x1_0000_0000 by { assert KeyMark(0); }
      ghost var blocks', use' := blocks[ind := SetWord(blocks[ind], j, a)], use[a := Slot(i, s)];
      LinkEntry(bits, blocks, inodes, use, i, j, a, ind, s, blocks', use');
      LinkKept(bits, blocks, inodes, use, blocks', inodes, i, s, a, |inodes|);
      KeptTrans(blocks0, inodes, use0, blocks, inodes, use, blocks', inodes, use', |inodes|);
      HomeUse(inodestart, bmapstart, |inodes|, |bits|, use, logged, use');
      HomeData(inodestart, bmapstart, |inodes|, |bits|, use', logged, ind);
      blocks := blocks[ind := SetWord(blocks[ind], j, a)];
      logged := logged + {ind};
      use := use';
    }

    /** The indirect part of the block map. */
    method BmapIndirect(i: nat, j: nat) returns (addr: nat, ghost added: bool, ghost addedInd: bool)
      requires Ok() && NoneHeld() && i < |inodes| && j < NINDIRECT && |inodes[i].addrs| == NDIRECT + 1
      modifies this
      ensures Ok() && NoneHeld() && disk == old(disk) && |inodes| == |old(inodes)|
      ensures Through(old(blocks), blocks, logged) && Marks(bmapstart, old(bits), old(use), bits, use, logged)
      ensures KeptOk(old(blocks), old(inodes), old(use), blocks, inodes, use, |inodes|)
      ensures old(Addr(blocks, inodes[i], NDIRECT + 1 + j)) != 0 ==> unchanged(this) && addr != 0
      ensures addr != 0 ==>
                Addr(blocks, inodes[i], NDIRECT + 1 + j) == addr
                && (added <==> old(Addr(blocks, inodes[i], NDIRECT + 1 + j)) == 0)
      ensures addr == 0 ==> !added && forall k :: 0 <= k < |bits| ==> bits[k]
      ensures added ==> addr in blocks && blocks[addr] == ZeroBlock() && addr in logged
      ensures !added && !addedInd ==> unchanged(this)
      ensures addedInd ==> old(Addr(blocks, inodes[i], NDIRECT)) == 0 && Addr(blocks, inodes[i], NDIRECT) != 0
      ensures old(logged) <= logged
      ensures |logged| <= |old(logged)| + (if added then 2 else 0) + (if addedInd then 1
                                                                      else 0) + (if IndirectLogged(i)
              && !old(IndirectLogged(i)) then 1 else 0)
      ensures old(IndirectLogged(i)) ==> IndirectLogged(i)
      ensures forall k :: 0 <= k < |inodes| ==>
                inodes[k] == if k == i then old(inodes[k]).(addrs := inodes[k].addrs) else old(inodes[k])
    {
      ghost var bits0, blocks0, inodes0, use0 := bits, blocks, inodes, use;
      KeptSelf(bits, blocks, inodes, use, |inodes|);
      MarksSelf(bmapstart, bits, use, logged);
      added, addedInd := false, false;
      var ind := inodes[i].addrs[NDIRECT];
      if ind == 0 {
        ind := NewSlot(i, NDIRECT);
        if ind == 0 {
          return 0, false, false;
        }
        addedInd := true;
        Logged2(old(logged), bmapstart + ind / BPB, ind);
        ZeroWord(j);
      } else {
        SlotUse(bits, blocks, inodes, use, i, NDIRECT);
      }
      addr := Word(blocks[ind], j);
      if addr == 0 {
        ghost var bits1, blocks1, inodes1, use1, logged1 := bits, blocks, inodes, use, logged;
        addr := NewEntry(i, j, ind);
        added := addr != 0;
        KeptTrans(blocks0, inodes0, use0, blocks1, inodes1, use1, blocks, inodes, use, |inodes|);
        Logged3(logged1, bmapstart + addr / BPB, addr, ind);
        ThroughTrans(blocks0, blocks1, logged1, blocks, logged);
        MarksTrans(bmapstart, bits0, use0, bits1, use1, logged1, bits, use, logged);
      }
    }

    /**
     The disk block of block `bn` of a file, allocated if there is none; 0 if the disk is full.
     `added` says that it was, `addedInd` that the indirect block was.
     */
    method Bmap(i: nat, bn: nat) returns (addr: nat, ghost added: bool, ghost addedInd: bool)
      requires Ok() && NoneHeld() && i < |inodes| && bn < MAXFILE
      modifies this
      ensures Ok() && NoneHeld() && disk == old(disk) && |inodes| == |old(inodes)|
      ensures Through(old(blocks), blocks, logged) && Marks(bmapstart, old(bits), old(use), bits, use, logged)
      ensures KeptOk(old(blocks), old(inodes), old(use), blocks, inodes, use, |inodes|)
      ensures old(Addr(blocks, inodes[i], SlotOf(bn))) != 0 ==> unchanged(this) && addr != 0
      ensures addr != 0 ==>
                Addr(blocks, inodes[i], SlotOf(bn)) == addr
                && (added <==> old(Addr(blocks, inodes[i], SlotOf(bn))) == 0)
      ensures addr == 0 ==> !added && forall k :: 0 <= k < |bits| ==> bits[k]
      ensures added ==> addr in blocks && blocks[addr] == ZeroBlock() && addr in logged
      ensures !added && !addedInd ==> unchanged(this)
      ensures addedInd ==> old(Addr(blocks, inodes[i], NDIRECT)) == 0 && Addr(blocks, inodes[i], NDIRECT) != 0
      ensures old(logged) <= logged
      ensures |logged| <= |old(logged)| + (if added then 2 else 0) + (if addedInd then 1
                                                                      else 0) + (if IndirectLogged(i)
              && !old(IndirectLogged(i)) then 1 else 0)
      ensures old(IndirectLogged(i)) ==> IndirectLogged(i)
      ensures forall k :: 0 <= k < |inodes| ==>
                inodes[k] == if k == i then old(inodes[k]).(addrs := inodes[k].addrs) else old(inodes[k])
    {
      AddrsLen(bits, blocks, inodes, use, i);
      KeptSelf(bits, blocks, inodes, use, |inodes|);
      MarksSelf(bmapstart, bits, use, logged);
      added, addedInd := false, false;
      if bn < NDIRECT {
        addr := inodes[i].addrs[bn];
        if addr == 0 {
          addr := NewSlot(i, bn);
          added := addr != 0;
          Logged2(old(logged), bmapstart + addr / BPB, addr);
        }
      } else {
        addr, added, addedInd := BmapIndirect(i, bn - NDIRECT);
      }
    }

    /** Copies the in-memory inode to disk. */
    method Iupdate(i: nat)
      requires Ok() && i < |inodes|
      modifies this`disk, this`logged
      ensures Ok() && disk == old(disk)[i := inodes[i]] && logged == old(logged) + {inodestart + i / IPB}
      ensures |logged| <= |old(logged)| + 1
    {
      AddOne(logged, inodestart + i / IPB);
      HomeInode(inodestart, bmapstart, |inodes|, |bits|, use, logged, i);
      disk := disk[i := inodes[i]];
      logged := logged + {inodestart + i / IPB};
    }

    /** A write of `src` at `off` into file `i` has done `tot` bytes since the state `b0`, `n0`, `u0`. */
    ghost predicate Writing(b0: map<nat, Block>, n0: seq<Inode>, u0: map<nat, Use>, i: nat, off: nat, src: seq<byte>,
                            tot: nat) reads this {
      && Ok() && NoneHeld() && KeptOk(b0, n0, u0, blocks, inodes, use, i)
      && WrittenOk(b0, n0, blocks, inodes, i, off, src, tot)
    }

    /** Overwrites part of a block of file `i`. */
    method WriteBlock(i: nat, off: nat, src: seq<byte>, tot: nat, m: nat, addr: nat, log: bool, ghost next: nat,
                      ghost b0: map<nat, Block>, ghost n0: seq<Inode>, ghost u0: map<nat, Use>)
      requires Writing(b0, n0, u0, i, off, src, tot) && tot + m == next <= |src| && (off + tot) % BSIZE + m <= BSIZE
      requires addr == Addr(blocks, inodes[i], SlotOf((off + tot) / BSIZE)) != 0 && Through(b0, blocks, logged)
      modifies this`blocks, this`logged
      ensures Writing(b0, n0, u0, i, off, src, next)
      ensures logged == if log then old(logged) + {addr} else old(logged)
      ensures log ==> Through(b0, blocks, logged)
      ensures Addr(blocks, inodes[i], NDIRECT) == old(Addr(blocks, inodes[i], NDIRECT))
      ensures addr in old(blocks) && addr in blocks && blocks == old(blocks)[addr := blocks[addr]]
    {
      SlotUse(bits, blocks, inodes, use, i, SlotOf((off + tot) / BSIZE));
      var c: Block := Splice(blocks[addr], (off + tot) % BSIZE, src[tot..tot + m]);
      WrittenOkNext(bits, b0, n0, blocks, inodes, use, i, off, src, tot, m, next, addr, c);
      PutData(bits, blocks, inodes, use, addr, c);
      HomeData(inodestart, bmapstart, |inodes|, |bits|, use, logged, addr);
      PutKept(bits, blocks, inodes, use, addr, c, i);
      KeptTrans(b0, n0, u0, blocks, inodes, use, blocks[addr := c], inodes, use, i);
      blocks := blocks[addr := c];
      if log {
        logged := logged + {addr};
      }
    }

    /** The transaction has logged at most one block per block visited, one per allocation, and the indirect block. */
    ghost predicate Spent(l0: nat, i: nat, visited: nat, grabbed: nat, indirect: bool) reads this {
      && i < |inodes|
      && |logged| <= l0 + visited + grabbed + (if indirect then 1 else 0) + (if IndirectLogged(i) then 1 else 0)
      && (indirect ==> Addr(blocks, inodes[i], NDIRECT) != 0)
    }

    /** Finds the block at the current offset of a write, allocating it if need be. */
    method NextBlock(i: nat, off: nat, src: seq<byte>, tot: nat, ghost b0: map<nat, Block>, ghost n0: seq<Inode>,
                     ghost u0: map<nat, Use>,
                     ghost l0: nat, ghost visited: nat, ghost grabbed: nat, ghost indirect: bool)
      returns (addr: nat, ghost added: bool, ghost indirect': bool)
      requires Writing(b0, n0, u0, i, off, src, tot) && tot < |src| && off + |src| <= MAXFILE * BSIZE
               && Spent(l0, i, visited, grabbed, indirect)
      requires Through(b0, blocks, logged)
      modifies this
      ensures Writing(b0, n0, u0, i, off, src, tot) && disk == old(disk) && old(logged) <= logged
              && Through(b0, blocks, logged)
      ensures Marks(bmapstart, old(bits), old(use), bits, use, logged)
      ensures addr == 0 ==> Spent(l0, i, visited, grabbed, indirect') && forall k :: 0 <= k < |bits| ==> bits[k]
      ensures addr == 0 ==> Addr(b0, n0[i], SlotOf((off + tot) / BSIZE)) == 0
      ensures addr != 0 ==> addr == Addr(blocks, inodes[i], SlotOf((off + tot) / BSIZE))
      ensures addr != 0 && added ==> addr in logged && old(Addr(blocks, inodes[i], SlotOf((off + tot) / BSIZE))) == 0
      ensures addr != 0 && added ==> Spent(l0, i, visited + 1, grabbed + 1, indirect')
      ensures addr != 0 && !added ==> Spent(l0, i, visited, grabbed, indirect')
    {
      ghost var b1, n1, u1, l1 := blocks, inodes, use, logged;
      var bn := (off + tot) / BSIZE;
      ghost var addedInd: bool;
      StillAddr(b0, n0, u0, blocks, inodes, use, i, i, SlotOf(bn));
      addr, added, addedInd := Bmap(i, bn);
      indirect' := indirect || addedInd;
      WrittenOkKept(old(bits), b0, n0, b1, n1, u1, blocks, inodes, use, i, off, src, tot);
      KeptWiden(b1, n1, u1, blocks, inodes, use, i);
      KeptTrans(b0, n0, u0, b1, n1, u1, blocks, inodes, use, i);
      ThroughTrans(b0, b1, l1, blocks, logged);
      StillIndirect(b1, n1, u1, blocks, inodes, use, i);
    }

    /** Copies `n` bytes into a block and logs it; if the copy fails, `torn` bytes at most, and does not log it. */
    method CopyChunk(i: nat, off: nat, src: seq<byte>, tot: nat, n: nat, addr: nat, faulty: bool, torn: nat,
                     ghost b0: map<nat, Block>, ghost n0: seq<Inode>, ghost u0: map<nat, Use>)
      returns (m: nat, ghost w: nat)
      requires Writing(b0, n0, u0, i, off, src, tot) && tot + n <= |src| && (off + tot) % BSIZE + n <= BSIZE
      requires addr == Addr(blocks, inodes[i], SlotOf((off + tot) / BSIZE)) != 0 && Through(b0, blocks, logged)
      modifies this`blocks, this`logged
      ensures tot + m <= w <= |src| && Writing(b0, n0, u0, i, off, src, w) && m == (if faulty then 0 else n)
      ensures logged == (if faulty then old(logged) else old(logged) + {addr})
              && (w == tot + m ==> Through(b0, blocks, logged))
      ensures w == tot + if faulty then Least(torn, n) else n
      ensures Addr(blocks, inodes[i], NDIRECT) == old(Addr(blocks, inodes[i], NDIRECT))
      ensures faulty ==> exists a: nat, c: Block :: Cleaned(b0, n0, blocks, inodes, i, off, src, tot, logged, a, c)
    {
      if faulty {
        m, w := 0, tot;
        SlotUse(bits, blocks, inodes, use, i, SlotOf((off + tot) / BSIZE));
        NothingToClean(b0, n0, blocks, inodes, i, off, src, tot, logged, addr);
        ghost var before := blocks;
        var t := Least(torn, n);
        if t > 0 {
          w := tot + t;
          WriteBlock(i, off, src, tot, t, addr, false, w, b0, n0, u0);
          assert blocks[addr := before[addr]] == before;
        }
        assert Cleaned(b0, n0, blocks, inodes, i, off, src, tot, logged, addr, before[addr]);
        return;
      }
      m, w := n, tot + n;
      WriteBlock(i, off, src, tot, n, addr, true, w, b0, n0, u0);
    }

    /**
     One chunk of a write: up to the end of the block.  If the copy fails, `torn` bytes are changed but not
     logged.
     */
    method WriteChunk(i: nat, off: nat, src: seq<byte>, tot: nat, faulty: bool, torn: nat,
                      ghost b0: map<nat, Block>, ghost n0: seq<Inode>, ghost u0: map<nat, Use>,
                      ghost l0: nat, ghost visited: nat, ghost grabbed: nat, ghost indirect: bool)
      returns (m: nat, ghost w: nat, ghost visited': nat, ghost grabbed': nat, ghost indirect': bool)
      requires Writing(b0, n0, u0, i, off, src, tot) && tot < |src| && off + |src| <= MAXFILE * BSIZE
               && off <= n0[i].size
      requires Through(b0, blocks, logged) && Spent(l0, i, visited, grabbed, indirect)
               && Progress(off, |src|, tot, visited, grabbed)
      modifies this
      ensures tot + m <= w <= |src| && Writing(b0, n0, u0, i, off, src, w) && disk == old(disk)
              && Spent(l0, i, visited', grabbed', indirect')
      ensures m > 0 ==> w == tot + m && Progress(off, |src|, w, visited', grabbed')
      ensures visited' <= Span(off, |src|) && Late(off, visited', grabbed')
      ensures w == tot + m ==> Through(b0, blocks, logged)
      ensures m == 0 ==> exists a: nat, c: Block :: Cleaned(b0, n0, blocks, inodes, i, off, src, tot, logged, a, c)
      ensures m == 0 && !faulty ==>
                w == tot
                && (forall k :: 0 <= k < |bits| ==> bits[k]) && Addr(b0, n0[i], SlotOf((off + tot) / BSIZE)) == 0
      ensures m == (if faulty || m == 0 then 0 else Piece(off, |src|, tot))
      ensures faulty ==>
                || w == tot + Least(torn, Piece(off, |src|, tot))
                || (w == tot
                    && (forall k :: 0 <= k < |bits| ==> bits[k]) && Addr(b0, n0[i], SlotOf((off + tot) / BSIZE)) == 0)
      ensures Marks(bmapstart, old(bits), old(use), bits, use, logged) && old(logged) <= logged
    {
      m, w, visited', grabbed' := 0, tot, visited, grabbed;
      SpanMono(off, tot, |src|);
      if tot == 0 && off % BSIZE != 0 {
        FirstMapped(b0, n0, blocks, inodes, i, off, src);
      }
      var addr: nat;
      ghost var added: bool;
      addr, added, indirect' := NextBlock(i, off, src, tot, b0, n0, u0, l0, visited, grabbed, indirect);
      if addr == 0 {
        assert 0 in blocks by { assert KeyMark(0); }
        NothingToClean(b0, n0, blocks, inodes, i, off, src, tot, logged, 0);
        return;
      }
      MarksMore(bmapstart, old(bits), old(use), bits, use, logged, logged + {addr});
      var n := Piece(off, |src|, tot);
      visited', grabbed' := visited + 1, if added then grabbed + 1 else grabbed;
      ProgressNext(off, |src|, tot, n, visited, grabbed, added);
      AddOne(logged, addr);
      m, w := CopyChunk(i, off, src, tot, n, addr, faulty, torn, b0, n0, u0);
    }

    /** The copying loop of `writei`.  The copy of chunk `fault`, if there is one, fails after `torn` bytes. */
    method WriteLoop(i: nat, off: nat, src: seq<byte>, fault: Option<nat>, torn: nat,
                     ghost b0: map<nat, Block>, ghost n0: seq<Inode>, ghost u0: map<nat, Use>)
      returns (tot: nat, ghost w: nat, ghost visited: nat, ghost grabbed: nat, ghost indirect: bool)
      requires Writing(b0, n0, u0, i, off, src, 0) && off + |src| <= MAXFILE * BSIZE && off <= n0[i].size
               && Through(b0, blocks, logged)
      modifies this
      ensures Writing(b0, n0, u0, i, off, src, w) && disk == old(disk) && tot <= w <= |src|
      ensures Spent(|old(logged)|, i, visited, grabbed, indirect) && visited <= Span(off, |src|)
              && Late(off, visited, grabbed)
      ensures Halted(off, |src|, fault, torn, tot, w, Addr(b0, n0[i], SlotOf((off + tot) / BSIZE)) != 0)
      ensures tot < |src| && (fault.None? || tot != StartOf(off, fault.value)) ==>
                (forall k :: 0 <= k < |bits| ==> bits[k]) && Addr(b0, n0[i], SlotOf((off + tot) / BSIZE)) == 0
      ensures 0 < tot < |src| ==> (off + tot) % BSIZE == 0
      ensures w == tot ==> Through(b0, blocks, logged)
      ensures exists a: nat, c: Block :: Cleaned(b0, n0, blocks, inodes, i, off, src, tot, logged, a, c)
      ensures Marks(bmapstart, old(bits), old(use), bits, use, logged) && old(logged) <= logged
    {
      tot, w, visited, grabbed, indirect := 0, 0, 0, 0, false;
      var chunk := 0;
      ghost var l0 := |logged|;
      SpanMono(off, 0, |src|);
      MarksSelf(bmapstart, bits, use, logged);
      while tot < |src|
        invariant w == tot <= |src| && Writing(b0, n0, u0, i, off, src, tot) && disk == old(disk)
                  && Through(b0, blocks, logged)
        invariant Spent(l0, i, visited, grabbed, indirect) && Progress(off, |src|, tot, visited, grabbed)
        invariant visited <= Span(off, |src|) && Late(off, visited, grabbed)
        invariant AtChunk(off, |src|, chunk, tot, fault)
        invariant Marks(bmapstart, old(bits), old(use), bits, use, logged) && old(logged) <= logged
      {
        ghost var bits1, u1, l1, q := bits, use, logged, chunk + 1;
        var m: nat;
        m, w, visited, grabbed, indirect :=
          WriteChunk(i, off, src, tot, fault == Some(chunk), torn, b0, n0, u0, l0, visited, grabbed, indirect);
        MarksTrans(bmapstart, old(bits), old(use), bits1, u1, l1, bits, use, logged);
        if m == 0 {
          Halts(off, |src|, chunk, tot, fault, torn, w, Addr(b0, n0[i], SlotOf((off + tot) / BSIZE)) != 0);
          return;
        }
        AtChunkNext(off, |src|, chunk, tot, fault, q);
        tot, chunk := tot + m, chunk + 1;
      }
      AtEnd(off, |src|, chunk, fault);
      assert 0 in blocks by { assert KeyMark(0); }
      NothingToClean(b0, n0, blocks, inodes, i, off, src, tot, logged, 0);
    }

    /** The end of `writei`: the size grows to cover what was written, and the inode goes to disk. */
    method CloseWrite(i: nat, off: nat, src: seq<byte>, tot: nat, ghost w: nat, ghost bits0: seq<bool>,
                      ghost b0: map<nat, Block>, ghost n0: seq<Inode>, ghost u0: map<nat, Use>,
                      ghost fault: Option<nat>, ghost torn: nat)
      requires Writing(b0, n0, u0, i, off, src, w) && FsOk(bits0, b0, n0, u0) && i < |n0| == |inodes|
      requires off <= n0[i].size && off + |src| <= MAXFILE * BSIZE
      requires Halted(off, |src|, fault, torn, tot, w, Addr(b0, n0[i], SlotOf((off + tot) / BSIZE)) != 0)
      requires exists a: nat, c: Block :: Cleaned(b0, n0, blocks, inodes, i, off, src, tot, logged, a, c)
      modifies this`inodes, this`disk, this`logged
      ensures Ok() && NoneHeld() && |inodes| == |n0|
      ensures inodes[i] == Resized(n0[i], off + tot).(addrs := inodes[i].addrs)
      ensures Contents(blocks, inodes[i]) == Splice(Contents(b0, n0[i]), off, src[..w])[..inodes[i].size]
      ensures SoFar(Contents(b0, n0[i]), Contents(blocks, inodes[i]), off, src, tot) <==>
                !Harms(Contents(b0, n0[i]), off, src, fault, torn)
      ensures exists a: nat, c: Block ::
                Undone(b0, Contents(b0, n0[i]), blocks, inodes[i], off, src, tot, logged, a, c)
      ensures forall k :: 0 <= k < |inodes| && k != i ==>
                inodes[k] == n0[k] && Contents(blocks, inodes[k]) == Contents(b0, n0[k])
      ensures disk == old(disk)[i := inodes[i]] && logged == old(logged) + {inodestart + i / IPB}
      ensures |logged| <= |old(logged)| + 1
    {
      forall k | 0 <= k < |inodes| && k != i ensures Contents(blocks, inodes[k]) == Contents(b0, n0[k]) {
        KeptFile(bits0, b0, n0, u0, blocks, inodes, use, i, k);
      }
      AddrsLen(bits, blocks, inodes, use, i);
      AddrsLen(bits0, b0, n0, u0, i);
      WriteDone(b0, n0, blocks, inodes, i, off, src, tot, w);
      PutInode(bits, blocks, inodes, use, i, Resized(inodes[i], off + tot), inodes[i := Resized(inodes[i], off + tot)]);
      ghost var a: nat, c: Block :| Cleaned(b0, n0, blocks, inodes, i, off, src, tot, logged, a, c);
      CleanedEnd(b0, n0, blocks, inodes, i, off, src, tot, logged, a, c, Resized(inodes[i], off + tot));
      if off + tot > inodes[i].size {
        inodes := inodes[i := inodes[i].(size := off + tot)];
      }
      Judge(bits0, b0, n0, u0, i, Contents(blocks, inodes[i]), off, src, fault, torn, tot, w);
      Iupdate(i);
      assert Undone(b0, Contents(b0, n0[i]), blocks, inodes[i], off, src, tot, logged, a, c);
    }

    /** A write whose offset and length are in order. */
    method WriteInside(i: nat, off: nat, src: seq<byte>, fault: Option<nat>, torn: nat) returns (tot: nat, ghost w: nat)
      requires Ok() && NoneHeld() && i < |inodes| && off <= inodes[i].size && off + |src| <= MAXFILE * BSIZE
      modifies this
      ensures Ok() && NoneHeld() && |inodes| == |old(inodes)| && tot <= w <= |src|
      ensures inodes[i] == Resized(old(inodes[i]), off + tot).(addrs := inodes[i].addrs)
      ensures Contents(blocks, inodes[i]) == Splice(old(Contents(blocks, inodes[i])), off, src[..w])[..inodes[i].size]
      ensures forall k :: 0 <= k < |inodes| && k != i ==>
                inodes[k] == old(inodes[k]) && Contents(blocks, inodes[k]) == old(Contents(blocks, inodes[k]))
      ensures disk == old(disk)[i := inodes[i]]
      ensures Halted(off, |src|, fault, torn, tot, w, old(Addr(blocks, inodes[i], SlotOf((off + tot) / BSIZE))) != 0)
      ensures tot < |src| && (fault.None? || tot != StartOf(off, fault.value)) ==>
                (forall k :: 0 <= k < |bits| ==> bits[k])
                && old(Addr(blocks, inodes[i], SlotOf((off + tot) / BSIZE))) == 0
      ensures SoFar(old(Contents(blocks, inodes[i])), Contents(blocks, inodes[i]), off, src, tot) <==>
                !Harms(old(Contents(blocks, inodes[i])), off, src, fault, torn)
      ensures 0 < tot < |src| ==> (off + tot) % BSIZE == 0
      ensures w == tot ==> Through(old(blocks), blocks, logged)
      ensures exists a: nat, c: Block ::
                Undone(old(blocks), old(Contents(blocks, inodes[i])), blocks, inodes[i], off, src, tot, logged, a, c)
      ensures Marks(bmapstart, old(bits), old(use), bits, use, logged) && inodestart + i / IPB in logged
      ensures |src| <= 3 * BSIZE ==> |logged| <= |old(logged)| + 10
    {
      ghost var bits0, b0, n0, u0 := bits, blocks, inodes, use;
      AddrsLen(bits, blocks, inodes, use, i);
      KeptSelf(bits, blocks, inodes, use, i);
      StartWrite(bits, blocks, inodes, use, i, off, src);
      ghost var visited: nat, grabbed: nat, indirect: bool;
      tot, w, visited, grabbed, indirect := WriteLoop(i, off, src, fault, torn, b0, n0, u0);
      if |src| <= 3 * BSIZE {
        SpanBound(off, |src|);
      }
      MarksMore(bmapstart, old(bits), old(use), bits, use, logged, logged + {inodestart + i / IPB});
      CloseWrite(i, off, src, tot, w, bits0, b0, n0, u0, fault, torn);
    }

    /**
     Writes `src` at `off`.  The copy of chunk `fault`, if there is one, fails after changing `torn`
     bytes of the block without logging it; `w` counts all bytes changed.
     */
    method Writei(i: nat, off: nat, src: seq<byte>, fault: Option<nat>, torn: nat) returns (r: int, ghost w: nat)
      requires Ok() && NoneHeld() && i < |inodes| && off < 0x1_0000_0000 && |src| < 0x1_0000_0000
      modifies this
      ensures Ok() && NoneHeld() && |inodes| == |old(inodes)|
      ensures r == -1 <==> off > old(inodes[i].size) || off + |src| >= 0x1_0000_0000 || off + |src| > MAXFILE * BSIZE
      ensures r == -1 ==> unchanged(this)
      ensures r != -1 ==> 0 <= r <= w <= |src| && off <= old(inodes[i].size)
      ensures r != -1 ==> inodes[i].size == if off + r > old(inodes[i].size) then off + r else old(inodes[i].size)
      ensures r != -1 ==>
                Contents(blocks, inodes[i]) == Splice(old(Contents(blocks, inodes[i])), off, src[..w])[..inodes[i].size]
      ensures forall k :: 0 <= k < |inodes| && k != i ==>
                Contents(blocks, inodes[k]) == old(Contents(blocks, inodes[k]))
      ensures r != -1 ==> disk == old(disk)[i := inodes[i]]
      ensures forall k :: 0 <= k < |inodes| && k != i ==> inodes[k] == old(inodes[k])
      ensures inodes[i] == old(inodes[i]).(size := inodes[i].size, addrs := inodes[i].addrs)
      ensures r != -1 ==>
                Halted(off, |src|, fault, torn, r, w, old(Addr(blocks, inodes[i], SlotOf((off + r) / BSIZE))) != 0)
      ensures 0 <= r < |src| && (fault.None? || r != StartOf(off, fault.value)) ==>
                (forall k :: 0 <= k < |bits| ==> bits[k])
                && old(Addr(blocks, inodes[i], SlotOf((off + r) / BSIZE))) == 0
      ensures r != -1 ==>
                (SoFar(old(Contents(blocks, inodes[i])), Contents(blocks, inodes[i]), off, src, r) <==>
                 !Harms(old(Contents(blocks, inodes[i])), off, src, fault, torn))
      ensures 0 < r < |src| ==> (off + r) % BSIZE == 0
      ensures w == r ==> Through(old(blocks), blocks, logged)
      ensures r != -1 ==>
                exists a: nat, c: Block ::
                  Undone(old(blocks), old(Contents(blocks, inodes[i])), blocks, inodes[i], off, src, r, logged, a, c)
      ensures r != -1 ==> Marks(bmapstart, old(bits), old(use), bits, use, logged) && inodestart + i / IPB in logged
      ensures |src| <= 3 * BSIZE ==> |logged| <= |old(logged)| + 10
    {
      w := 0;
      if off > inodes[i].size || (off + |src|) % 0x1_0000_0000 < off {
        return -1, 0;
      }
      if (off + |src|) % 0x1_0000_0000 > MAXFILE * BSIZE {
        return -1, 0;
      }
      r, w := WriteInside(i, off, src, fault, torn);
    }

    /** The part of a file from `x` on that lies in one block, at most `left` bytes. */
    method ReadBlock(i: nat, x: nat, left: nat) returns (d: seq<byte>)
      requires Ok() && NoneHeld() && i < |inodes| && 0 < left && x + left <= inodes[i].size
      modifies this
      ensures unchanged(this) && |d| == Least(left, BSIZE - x % BSIZE) && d == Contents(blocks, inodes[i])[x..x + |d|]
    {
      AddrsLen(bits, blocks, inodes, use, i);
      BelowSize(bits, blocks, inodes, use, i, x);
      var addr, _, _ := Bmap(i, x / BSIZE);
      SlotUse(bits, blocks, inodes, use, i, SlotOf(x / BSIZE));
      var m := Least(left, BSIZE - x % BSIZE);
      ReadChunk(blocks, inodes[i], x, m, addr);
      d := blocks[addr][x % BSIZE..x % BSIZE + m];
    }

    /** The copying loop of `readi`: `want` bytes, all below the size, or as far as the chunk whose copy fails. */
    method ReadLoop(i: nat, off: nat, want: nat, fault: Option<nat>) returns (ok: bool, data: seq<byte>)
      requires Ok() && NoneHeld() && i < |inodes| && off + want <= inodes[i].size
      modifies this
      ensures unchanged(this) && (ok <==> !Stops(off, want, fault)) && off + |data| <= inodes[i].size
      ensures data == Contents(blocks, inodes[i])[off..off + |data|]
      ensures |data| == if ok then want else StartOf(off, fault.value)
    {
      data := [];
      ghost var whole := Contents(blocks, inodes[i]);
      var tot, chunk := 0, 0;
      while tot < want
        invariant tot <= want && unchanged(this) && |data| == tot && data == whole[off..off + tot]
        invariant AtChunk(off, want, chunk, tot, fault)
      {
        ghost var q := chunk + 1;
        AtChunkNext(off, want, chunk, tot, fault, q);
        var d := ReadBlock(i, off + tot, want - tot);
        if fault == Some(chunk) {
          return false, data;
        }
        Joined(whole, off, tot, |d|);
        data := data + d;
        tot, chunk := tot + |d|, chunk + 1;
      }
      AtEnd(off, want, chunk, fault);
      ok := true;
    }

    /**
     Reads up to `n` bytes from `off` on; -1 if there is a chunk `fault`, whose copy fails.  Nothing is ever
     allocated.
     */
    method Readi(i: nat, off: nat, n: nat, fault: Option<nat>) returns (r: int, data: seq<byte>)
      requires Ok() && NoneHeld() && i < |inodes| && off < 0x1_0000_0000 && n < 0x1_0000_0000
      modifies this
      ensures unchanged(this)
      ensures off > inodes[i].size || off + n >= 0x1_0000_0000 ==> r == 0 && data == []
      ensures r != -1 ==> r == |data|
      ensures r != -1 && off <= inodes[i].size && off + n < 0x1_0000_0000 ==>
                data == Contents(blocks, inodes[i])[off..off + Least(n, inodes[i].size - off)]
      ensures r == -1 <==> off <= inodes[i].size && off + n < 0x1_0000_0000
                           && Stops(off, Least(n, inodes[i].size - off), fault)
      ensures r == -1 ==> data == Contents(blocks, inodes[i])[off..off + StartOf(off, fault.value)]
    {
      data := [];
      if off > inodes[i].size || (off + n) % 0x1_0000_0000 < off {
        return 0, [];
      }
      var want := Least(n, inodes[i].size - off);
      var ok: bool;
      ok, data := ReadLoop(i, off, want, fault);
      r := if ok then want else -1;
    }

    /** Frees the block in direct slot `s`, if there is one. */
    method TruncSlot(i: nat, s: nat)
      requires Ok() && i < |inodes| && |inodes[i].addrs| == NDIRECT + 1 && inodes[i].size == 0 && s < NDIRECT
      modifies this
      ensures Ok() && blocks == old(blocks) && disk == old(disk)
      ensures inodes == old(inodes)[i := old(inodes)[i].(addrs := old(inodes)[i].addrs[s := 0])]
      ensures BitsThrough(bmapstart, old(bits), bits, logged) && BitmapOnly(bmapstart, |bits|, old(logged), logged)
      ensures old(inodes)[i].addrs[s] == 0 ==> use == old(use)
      ensures var a := old(inodes)[i].addrs[s]; a != 0 ==>
                a in old(use) && old(use)[a] == Slot(i, s) && use == old(use)[a := Held][a := Free]
    {
      var a := inodes[i].addrs[s];
      if a == 0 {
        assert inodes[i].addrs[s := 0] == inodes[i].addrs;
        return;
      }
      SlotUse(bits, blocks, inodes, use, i, s);
      var ino := inodes[i].(addrs := inodes[i].addrs[s := 0]);
      UnlinkSlot(bits, blocks, inodes, use, i, s, a, inodes[i := ino], use[a := Held]);
      HomeUse(inodestart, bmapstart, |inodes|, |bits|, use, logged, use[a := Held]);
      inodes, use := inodes[i := ino], use[a := Held];
      Bfree(a);
    }

    /** The direct half of `itrunc`. */
    method TruncDirect(i: nat)
      requires Ok() && i < |inodes| && |inodes[i].addrs| == NDIRECT + 1 && inodes[i].size == 0
      modifies this
      ensures Ok() && blocks == old(blocks) && disk == old(disk)
      ensures inodes == old(inodes)[i := Cleared(old(inodes)[i], NDIRECT)]
              && use == Change(old(use), i, 0, NDIRECT, Free)
      ensures BitsThrough(bmapstart, old(bits), bits, logged) && BitmapOnly(bmapstart, |bits|, old(logged), logged)
    {
      ghost var ino0, use0 := inodes[i], use;
      ChangeNone(use, i, 0, Free);
      ClearedNext(ino0, 0);
      var s := 0;
      while s < NDIRECT
        invariant 0 <= s <= NDIRECT && Ok() && blocks == old(blocks) && disk == old(disk) && |inodes| == |old(inodes)|
        invariant inodes == old(inodes)[i := Cleared(ino0, s)] && use == Change(use0, i, 0, s, Free)
        invariant BitsThrough(bmapstart, old(bits), bits, logged) && BitmapOnly(bmapstart, |bits|, old(logged), logged)
      {
        ClearedNext(ino0, s);
        SlotBlock(bits, blocks, inodes, use, i, s);
        ghost var a, bits1, l1 := inodes[i].addrs[s], bits, logged;
        TruncSlot(i, s);
        BitsTrans(bmapstart, old(bits), bits1, l1, bits, logged);
        if a == 0 {
          FreedNothing(use0, i, s);
        } else {
          FreedDirect(use0, i, s, a);
        }
        s := s + 1;
      }
    }

    /** Frees a block; all bits changed since `bits0` are still in the log. */
    method Release(b: nat, ghost bits0: seq<bool>)
      requires Ok() && b in use && use[b] == Held && BitsThrough(bmapstart, bits0, bits, logged)
      modifies this`bits, this`use, this`logged
      ensures Ok() && use == old(use)[b := Free] && BitsThrough(bmapstart, bits0, bits, logged)
      ensures BitmapOnly(bmapstart, |bits|, old(logged), logged)
    {
      ghost var bits1, l1 := bits, logged;
      Bfree(b);
      BitsTrans(bmapstart, bits0, bits1, l1, bits, logged);
    }

    /** The indirect half of `itrunc`: the listed blocks, then the indirect block. */
    method TruncIndirect(i: nat)
      requires Ok() && i < |inodes| && |inodes[i].addrs| == NDIRECT + 1 && inodes[i].size == 0
      modifies this
      ensures Ok() && blocks == old(blocks) && disk == old(disk)
      ensures inodes == old(inodes)[i := old(inodes)[i].(addrs := old(inodes)[i].addrs[NDIRECT := 0])]
      ensures use == Change(old(use), i, NDIRECT, SLOTS, Free)
      ensures BitsThrough(bmapstart, old(bits), bits, logged) && BitmapOnly(bmapstart, |bits|, old(logged), logged)
    {
      var ind := inodes[i].addrs[NDIRECT];
      if ind == 0 {
        NoIndirectPart(bits, blocks, inodes, use, i);
        assert inodes[i].addrs[NDIRECT := 0] == inodes[i].addrs;
        return;
      }
      SlotUse(bits, blocks, inodes, use, i, NDIRECT);
      SlotBlock(bits, blocks, inodes, use, i, NDIRECT);
      ghost var bits0, inodes0, use0 := bits, inodes, use;
      var a := blocks[ind];
      var ino := inodes[i].(addrs := inodes[i].addrs[NDIRECT := 0]);
      Unindirect(bits, blocks, inodes, use, i, inodes[i := ino], Detach(use, i));
      DrainStart(bits, blocks, inodes, use, i);
      HomeUse(inodestart, bmapstart, |inodes|, |bits|, use, logged, Detach(use, i));
      inodes, use := inodes[i := ino], Detach(use, i);
      var j := 0;
      while j < NINDIRECT
        invariant 0 <= j <= NINDIRECT && Ok() && blocks == old(blocks) && disk == old(disk)
                  && inodes == inodes0[i := ino]
        invariant use == Draining(use0, i, j) && BitsThrough(bmapstart, old(bits), bits, logged)
        invariant BitmapOnly(bmapstart, |bits|, old(logged), logged)
      {
        var x := Word(a, j);
        assert x == Addr(blocks, inodes0[i], NDIRECT + 1 + j);
        SlotBlock(bits0, blocks, inodes0, use0, i, NDIRECT + 1 + j);
        if x != 0 {
          SlotUse(bits0, blocks, inodes0, use0, i, NDIRECT + 1 + j);
          DrainNext(use0, i, j, x);
          Release(x, bits0);
        } else {
          DrainSkip(use0, i, j);
        }
        j := j + 1;
      }
      DrainEnd(use0, i, ind);
      Release(ind, bits0);
    }

    /** Discards a file's contents: all its blocks are free again, and only they. */
    method Itrunc(i: nat)
      requires Ok() && NoneHeld() && i < |inodes|
      modifies this
      ensures Ok() && NoneHeld() && blocks == old(blocks) && |inodes| == |old(inodes)|
              && disk == old(disk)[i := inodes[i]]
      ensures inodes == old(inodes)[i := Cleared(old(inodes)[i], NDIRECT + 1).(size := 0)]
      ensures use == Change(old(use), i, 0, SLOTS, Free)
      ensures BitsThrough(bmapstart, old(bits), bits, logged)
      ensures BitmapOnly(bmapstart, |bits|, old(logged) + {inodestart + i / IPB}, logged)
    {
      AddrsLen(bits, blocks, inodes, use, i);
      ghost var ino0, use0 := inodes[i], use;
      PutInode(bits, blocks, inodes, use, i, inodes[i].(size := 0), inodes[i := inodes[i].(size := 0)]);
      inodes := inodes[i := inodes[i].(size := 0)];
      TruncDirect(i);
      ghost var bits1, l1 := bits, logged;
      TruncIndirect(i);
      BitsTrans(bmapstart, old(bits), bits1, l1, bits, logged);
      ChangeTwice(use0, i);
      assert inodes[i].addrs == Cleared(ino0, NDIRECT + 1).addrs;
      Iupdate(i);
    }

    /** Between operations: memory and disk agree on every inode, and free inodes hold no blocks. */
    ghost predicate Valid() reads this {
      && Ok() && NoneHeld() && inodes == disk && Vacant(inodes)
    }

    /** Allocates an inode of the given type; 0 if there is none. */
    method Ialloc(kind: nat) returns (inum: nat)
      requires Valid() && kind != 0
      modifies this
      ensures Valid()
      ensures inum == 0 ==> unchanged(this) && forall k :: 1 <= k < |inodes| ==> inodes[k].kind != 0
      ensures inum != 0 ==>
                inum < |inodes| == |old(inodes)| && old(inodes)[inum].kind == 0 && blocks == old(blocks)
                && use == old(use)
      ensures inum != 0 ==> inodes == old(inodes)[inum := Inode(kind, 0, 0, seq(NDIRECT + 1, k => 0))]
      ensures inum != 0 ==> bits == old(bits) && logged == old(logged) + {inodestart + inum / IPB}
    {
      inum := 1;
      while inum < |disk|
        invariant 1 <= inum && unchanged(this) && forall k :: 1 <= k < inum && k < |inodes| ==> inodes[k].kind != 0
      {
        if disk[inum].kind == 0 {
          var ino := Inode(kind, 0, 0, seq(NDIRECT + 1, k => 0));
          AddrsLen(bits, blocks, inodes, use, inum);
          assert ino.addrs == inodes[inum].addrs;
          PutInode(bits, blocks, inodes, use, inum, ino, inodes[inum := ino]);
          HomeInode(inodestart, bmapstart, |inodes|, |bits|, use, logged, inum);
          disk := disk[inum := ino];
          logged := logged + {inodestart + inum / IPB};
          inodes := inodes[inum := ino];
          return;
        }
        inum := inum + 1;
      }
      return 0;
    }

    /** The last reference to an inode without links goes: its blocks and the inode itself are freed. */
    method IputLast(i: nat)
      requires Valid() && i < |inodes|
      modifies this
      ensures Valid() && |inodes| == |old(inodes)| && inodes[i].kind == 0 && inodes[i].nlink == old(inodes[i].nlink)
              && forall k :: 0 <= k < |inodes| && k != i ==> inodes[k] == old(inodes[k])
      ensures blocks == old(blocks) && use == Change(old(use), i, 0, SLOTS, Free)
      ensures BitsThrough(bmapstart, old(bits), bits, logged)
      ensures BitmapOnly(bmapstart, |bits|, old(logged) + {inodestart + i / IPB}, logged)
    {
      AddrsLen(bits, blocks, inodes, use, i);
      Itrunc(i);
      PutInode(bits, blocks, inodes, use, i, inodes[i].(kind := 0), inodes[i := inodes[i].(kind := 0)]);
      inodes := inodes[i := inodes[i].(kind := 0)];
      Iupdate(i);
    }

    /** At boot: frees every inode that is allocated but has no links. */
    method Ireclaim()
      requires Valid()
      modifies this
      ensures Valid() && |inodes| == |old(inodes)| && blocks == old(blocks)
      ensures forall k :: 1 <= k < |inodes| ==> inodes[k].kind == 0 || inodes[k].nlink != 0
      ensures forall k :: 0 <= k < |inodes| && (k == 0 || old(inodes[k]).kind == 0 || old(inodes[k]).nlink != 0) ==>
                inodes[k] == old(inodes[k])
      ensures forall b :: b in use ==> b in old(use) && (use[b] == old(use)[b] || use[b] == Free)
      ensures forall b :: b in use && use[b].Slot? && use[b].inum > 0 ==>
                use[b].inum < |inodes| && inodes[use[b].inum].kind != 0 && inodes[use[b].inum].nlink != 0
    {
      var inum := 1;
      while inum < |disk|
        invariant 1 <= inum && Valid() && |inodes| == |old(inodes)| && blocks == old(blocks)
        invariant forall k :: 1 <= k < inum && k < |inodes| ==> inodes[k].kind == 0 || inodes[k].nlink != 0
        invariant forall k ::
                    0 <= k < |inodes|
                    && (k == 0 || k >= inum || old(inodes[k]).kind == 0 || old(inodes[k]).nlink != 0) ==>
                    inodes[k] == old(inodes[k])
        invariant forall b :: b in use ==> b in old(use) && (use[b] == old(use)[b] || use[b] == Free)
      {
        if disk[inum].kind != 0 && disk[inum].nlink == 0 {
          IputLast(inum);
        }
        inum := inum + 1;
      }
      VacantUse(bits, blocks, inodes, use);
    }

    /** The counters of the `fsinfo` system call. */
    method Fsinfo() returns (total: nat, files: nat, dirs: nat, free: nat)
      ensures Counted(disk, |disk|, total, files, dirs)
      ensures free == FreeBits(bits, |bits|)
    {
      total, files, dirs, free := 0, 0, 0, 0;
      var nblocks := (|disk| + IPB - 1) / IPB;
      var b := 0;
      while b < nblocks
        invariant 0 <= b <= nblocks
        invariant Counted(disk, if b * IPB < |disk| then b * IPB else |disk|, total, files, dirs)
      {
        var i := 0;
        while i < IPB && b * IPB + i < |disk|
          invariant 0 <= i <= IPB
          invariant b * IPB + i <= |disk|
          invariant Counted(disk, b * IPB + i, total, files, dirs)
        {
          var inum := b * IPB + i;
          if disk[inum].kind != 0 {
            total := total + 1;
            if disk[inum].kind == T_FILE {
              files := files + 1;
            } else if disk[inum].kind == T_DIR {
              dirs := dirs + 1;
            }
          }
          i := i + 1;
        }
        b := b + 1;
      }
      b := 0;
      while b < |bits|
        invariant 0 <= b && b % BPB == 0
        invariant free == FreeBits(bits, if b < |bits| then b else |bits|)
      {
        var i := 0;
        while i < BPB && b + i < |bits|
          invariant 0 <= i <= BPB && b + i <= |bits|
          invariant free == FreeBits(bits, b + i)
        {
          if !bits[b + i] {
            free := free + 1;
          }
          i := i + 1;
        }
        b := b + BPB;
      }
    }

    /** A write in a transaction of its own, and what it leaves in the log. */
    method WriteLogged(i: nat, off: nat, d: seq<byte>, fault: Option<nat>, torn: nat) returns (r: int, ghost w: nat)
      requires Valid() && i < |inodes| && inodes[i].kind != 0 && off < 0x1_0000_0000 && |d| <= 3 * BSIZE
      modifies this
      ensures Valid() && OthersSame(old(blocks), old(inodes), blocks, inodes, i) && inodes[i].kind != 0
              && |logged| <= MAXOPBLOCKS
      ensures -1 <= r <= |d| && (r == -1 <==> off > old(inodes[i].size) || off + |d| > MAXFILE * BSIZE)
      ensures 0 <= r < |d| && (fault.None? || r != StartOf(off, fault.value)) ==>
                (forall k :: 0 <= k < |bits| ==> bits[k])
                && old(Addr(blocks, inodes[i], SlotOf((off + r) / BSIZE))) == 0
      ensures r == -1 ==> w == 0 && Contents(blocks, inodes[i]) == old(Contents(blocks, inodes[i]))
      ensures r >= 0 ==> r <= w <= |d| && off <= old(inodes[i].size)
      ensures r >= 0 ==>
                Contents(blocks, inodes[i]) == Splice(old(Contents(blocks, inodes[i])), off,
                                                      d[..w])[..Longer(old(inodes[i].size), off + r)]
      ensures r >= 0 ==>
                Halted(off, |d|, fault, torn, r, w, old(Addr(blocks, inodes[i], SlotOf((off + r) / BSIZE))) != 0)
      ensures r >= 0 ==>
                exists a: nat, c: Block ::
                  Undone(old(blocks), old(Contents(blocks, inodes[i])), blocks, inodes[i], off, d, r, logged, a, c)
      ensures w == r ==> Through(old(blocks), blocks, logged)
      ensures r >= 0 ==>
                Marks(bmapstart, old(bits), old(use), bits, use, logged) && disk == old(disk)[i := inodes[i]]
                && inodestart + i / IPB in logged
      ensures r == -1 ==> bits == old(bits) && blocks == old(blocks) && disk == old(disk) && use == old(use)
      ensures inodes[i] == old(inodes[i]).(size := inodes[i].size, addrs := inodes[i].addrs)
    {
      logged := {};
      r, w := Writei(i, off, d, fault, torn);
      if r == -1 {
        w := 0;
      }
    }

    /** One transaction of `filewrite`.  `w` bytes are in the file's blocks, of which `r` count. */
    method WriteTransaction(i: nat, off: nat, d: seq<byte>, fault: Option<nat>, torn: nat)
      returns (r: int, ghost w: nat)
      requires Valid() && i < |inodes| && inodes[i].kind != 0 && off < 0x1_0000_0000 && |d| <= 3 * BSIZE
      modifies this
      ensures Valid() && OthersSame(old(blocks), old(inodes), blocks, inodes, i) && inodes[i].kind != 0
              && |logged| <= MAXOPBLOCKS
      ensures -1 <= r <= |d| && (r == -1 <==> off > old(inodes[i].size) || off + |d| > MAXFILE * BSIZE)
      ensures 0 <= r < |d| && (fault.None? || r != StartOf(off, fault.value)) ==>
                (forall k :: 0 <= k < |bits| ==> bits[k])
                && old(Addr(blocks, inodes[i], SlotOf((off + r) / BSIZE))) == 0
      ensures r == -1 ==> w == 0 && Contents(blocks, inodes[i]) == old(Contents(blocks, inodes[i]))
      ensures r >= 0 ==> r <= w <= |d| && off <= old(inodes[i].size)
      ensures r >= 0 ==>
                Contents(blocks, inodes[i]) == Splice(old(Contents(blocks, inodes[i])), off,
                                                      d[..w])[..Longer(old(inodes[i].size), off + r)]
      ensures r >= 0 ==>
                Halted(off, |d|, fault, torn, r, w, old(Addr(blocks, inodes[i], SlotOf((off + r) / BSIZE))) != 0)
      ensures w == r || r == -1 ==> Through(old(blocks), blocks, logged)
    {
      r, w := WriteLogged(i, off, d, fault, torn);
    }

    /** A `filewrite` of `src` at `off` has written `done` bytes since the state `b0`, `n0`; `w` are in the blocks. */
    ghost predicate WritingFile(b0: map<nat, Block>, n0: seq<Inode>, i: nat, off: nat, src: seq<byte>, done: nat,
                                w: nat) reads this {
      && Valid() && i < |n0| && OthersSame(b0, n0, blocks, inodes, i) && inodes[i].kind != 0
      && off + done <= MAXFILE * BSIZE
      && TornSoFar(Contents(b0, n0[i]), Contents(blocks, inodes[i]), off, src, done, w)
    }

    /** One transaction of `filewrite`, from byte `j` on, at `x`. */
    method WriteNext(i: nat, off: nat, src: seq<byte>, j: nat, n1: nat, x: nat, fault: Option<nat>, torn: nat,
                     ghost b0: map<nat, Block>, ghost n0: seq<Inode>)
      returns (r: int, ghost done: nat, ghost w: nat, ghost wc: nat)
      requires WritingFile(b0, n0, i, off, src, j, j) && n1 <= SHARE && j + n1 <= |src| && x == off + j
      modifies this
      ensures -1 <= r <= n1 && done == (if r > 0 then j + r else j) && wc <= n1 && w == j + wc && done <= w
              && WritingFile(b0, n0, i, off, src, done, w) && |logged| <= MAXOPBLOCKS
      ensures r == -1 ==> wc == 0 && (x > old(inodes[i].size) || x + n1 > MAXFILE * BSIZE)
      ensures r >= 0 ==> x <= old(inodes[i].size) && x + n1 <= MAXFILE * BSIZE
      ensures r >= 0 ==>
                Halted(x, n1, fault, torn, r, wc, old(Addr(blocks, inodes[i], SlotOf((x + r) / BSIZE))) != 0)
      ensures x <= old(inodes[i].size) ==> off + done <= inodes[i].size
      ensures w == done ==> Through(old(blocks), blocks, logged)
      ensures 0 <= r < n1 && (fault.None? || r != StartOf(x, fault.value)) ==>
                (forall k :: 0 <= k < |bits| ==> bits[k])
                && old(Addr(blocks, inodes[i], SlotOf((x + r) / BSIZE))) == 0
    {
      ghost var was, now := Contents(b0, n0[i]), Contents(blocks, inodes[i]);
      var d := src[j..j + n1];
      r, wc := WriteTransaction(i, x, d, fault, torn);
      done, w := if r > 0 then j + r else j, j + wc;
      TornStep(was, now, Contents(blocks, inodes[i]), off, src, j, d, x, r, wc, done, w);
      AddrsLen(bits, blocks, inodes, use, i);
    }

    /**
     The same as transaction `t` of the call, none having stopped before, and which bytes it loses of the old
     file.
     */
    method WriteRound(i: nat, off: nat, src: seq<byte>, j: nat, n1: nat, t: nat, fault: nat -> Option<nat>,
                      torn: nat -> nat, ghost q: nat, ghost b0: map<nat, Block>, ghost n0: seq<Inode>, ghost size0: nat)
      returns (r: int, ghost done: nat, ghost w: nat)
      requires WritingFile(b0, n0, i, off, src, j, j) && size0 == |Contents(b0, n0[i])| && q == t + 1
      requires Reaches(|src|, t, j) && j < |src| && n1 == (if |src| - j > SHARE then SHARE else |src| - j)
      requires NoneStops(off, |src|, fault, t)
      modifies this
      ensures r <= n1 && done == (if r > 0 then j + r else j) && done <= w <= j + n1
              && WritingFile(b0, n0, i, off, src, done, w) && |logged| <= MAXOPBLOCKS
      ensures r == n1 ==> w == done && NoneStops(off, |src|, fault, q)
      ensures r != n1 ==> FileTorn(off, |src|, fault, torn, done, w, size0)
      ensures off + j <= old(inodes[i].size) ==> off + done <= inodes[i].size
      ensures w == done ==> Through(old(blocks), blocks, logged)
      ensures fault(t).None? && off + j <= old(inodes[i].size) && off + |src| <= MAXFILE * BSIZE && r != n1 ==>
                forall k :: 0 <= k < |bits| ==> bits[k]
    {
      ghost var bits1, b1, i1, u1 := bits, blocks, inodes, use;
      ghost var size, wc, room := inodes[i].size, 0, Room(off, size0);
      var x := off + j;
      AddrsLen(bits, blocks, inodes, use, i);
      assert KeyReach(0);
      ShareIs(off, |src|, fault, t, j, n1, x);
      r, done, w, wc := WriteNext(i, off, src, j, n1, x, fault(t), torn(t), b0, n0);
      if r >= 0 && x + r < size {
        BelowSize(bits1, b1, i1, u1, i, x + r);
      }
      ghost var mapped := r >= 0 && Addr(b1, i1[i], SlotOf((x + r) / BSIZE)) != 0;
      LostFrom(x, n1, fault(t), torn(t), r, wc, mapped, size, j, done, w, room);
      if r == n1 {
        NoneStopsNext(off, |src|, fault, t, q);
      } else {
        TornIn(off, |src|, fault, torn, t, j, n1, x, done, w, size0, room);
      }
    }

    /**
     Writes `src` at `off` in transactions of at most three blocks' worth of bytes; `fault` and `torn` say
     which copies fail, and after how many bytes.  `done` bytes are written and `newoff` is the file's new
     offset; `w` bytes are in the file's blocks, more than `done` if the last copy failed half way; `txns` are
     the blocks that each transaction logged.
     */
    method Filewrite(i: nat, off: nat, src: seq<byte>, fault: nat -> Option<nat>, torn: nat -> nat)
      returns (ret: int, newoff: nat, ghost done: nat, ghost w: nat, ghost txns: seq<set<nat>>)
      requires Valid() && i < |inodes| && inodes[i].kind != 0 && off <= MAXFILE * BSIZE
      modifies this
      ensures Valid() && OthersSame(old(blocks), old(inodes), blocks, inodes, i)
      ensures Accounted(old(blocks), blocks, txns, w == done)
              && |txns| == if ret == -1 then done / SHARE + 1 else Shares(|src|)
      ensures newoff == off + done && ret == (if done == |src| then |src| else -1) && (ret != -1 ==> w == done)
      ensures TornSoFar(old(Contents(blocks, inodes[i])), Contents(blocks, inodes[i]), off, src, done, w)
      ensures FileTorn(off, |src|, fault, torn, done, w, old(inodes[i].size))
      ensures SoFar(old(Contents(blocks, inodes[i])), Contents(blocks, inodes[i]), off, src, done) <==>
                !FileHarms(old(Contents(blocks, inodes[i])), off, src, fault, torn)
      ensures ret != -1 ==> NoneStops(off, |src|, fault, Shares(|src|))
      ensures ret == -1
              && (forall t :: fault(t).None?) && off <= old(inodes[i].size) && off + |src| <= MAXFILE * BSIZE ==>
                forall k :: 0 <= k < |bits| ==> bits[k]
    {
      var max := (MAXOPBLOCKS - 1 - 1 - 2) / 2 * BSIZE;
      ghost var b0, n0 := blocks, inodes;
      ghost var was := Contents(b0, n0[i]);
      newoff, done, w, txns, ret := off, 0, 0, [], 0;
      AccountedNone(blocks);
      var j, t := 0, 0;
      while j < |src|
        invariant done == w == j && newoff == off + j && WritingFile(b0, n0, i, off, src, j, j)
        invariant |txns| == t && Accounted(b0, blocks, txns, true)
        invariant off <= n0[i].size ==> off + j <= inodes[i].size
        invariant Reaches(|src|, t, j) && ret == 0
        invariant NoneStops(off, |src|, fault, t)
      {
        var n1 := if |src| - j > max then max else |src| - j;
        ghost var q := t + 1;
        ReachesNext(|src|, t, j, n1, q);
        var r: int;
        ghost var b1 := blocks;
        r, done, w := WriteRound(i, off, src, j, n1, t, fault, torn, q, b0, n0, |was|);
        AccountedNext(b0, b1, txns, blocks, logged, w == done);
        txns := txns + [logged];
        if r > 0 {
          newoff := newoff + r;
        }
        if r != n1 {
          ret := -1;
          InShare(|src|, t, j, n1, done);
          break;
        }
        t, j := t + 1, j + r;
      }
      if j == |src| {
        ReachesEnd(|src|, t);
        TornNowhere(off, |src|, fault, torn, t, |was|);
        ret := |src|;
      }
      FileJudge(was, Contents(blocks, inodes[i]), off, src, fault, torn, done, w);
    }
  }
}
