/**
 The transaction bound of `filewrite` is tight: a write of three blocks' worth of bytes that begins
 inside the last direct block, on a disk whose four free blocks lie under four bitmap blocks, logs
 all of the ten blocks a transaction may have.
 */
module WorstCase {
  import opened Common
  import opened Inodes
  import opened Files

  /** The free blocks are the four of `p`, each under a bitmap block of its own. */
  ghost predicate Scattered(bits: seq<bool>, p: seq<nat>) {
    && |p| == 4 && p[0] / BPB < p[1] / BPB < p[2] / BPB < p[3] / BPB
    && forall b :: 0 <= b < |bits| ==> (!bits[b] <==> b in p)
  }

  /** Inode blocks and bitmap blocks are metadata, and the bitmap comes after the inode of `i`. */
  ghost predicate Laid(fs: FileSystem, i: nat, p: seq<nat>)
    requires |p| == 4
    reads fs
  {
    && fs.inodestart + i / IPB < fs.bmapstart
    && (fs.inodestart + i / IPB in fs.use && fs.use[fs.inodestart + i / IPB] == Meta)
    && forall j :: 0 <= j < 4 ==> fs.bmapstart + p[j] / BPB in fs.use && fs.use[fs.bmapstart + p[j] / BPB] == Meta
  }

  /** A file that ends one byte into its last direct block. */
  ghost predicate Ready(fs: FileSystem, i: nat, p: seq<nat>, a: nat)
    reads fs
  {
    && fs.Ok() && fs.NoneHeld() && i < |fs.inodes| && Scattered(fs.bits, p) && Laid(fs, i, p) && fs.logged == {}
    && |fs.inodes[i].addrs| == NDIRECT + 1 && fs.inodes[i].size == (NDIRECT - 1) * BSIZE + 1
    && fs.inodes[i].addrs[NDIRECT] == 0
    && a == fs.inodes[i].addrs[NDIRECT - 1] != 0 && a in fs.blocks && (forall j :: 0 <= j < 4 ==> p[j] < |fs.bits|)
  }

  /**
   The four blocks with no address before are in use afterwards, or the disk is full: either way all of `p` is
   taken.
   */
  lemma AllTaken(bits0: seq<bool>, blocks0: map<nat, Block>, inodes0: seq<Inode>, u0: map<nat, Use>,
                 bits: seq<bool>, blocks: map<nat, Block>, inodes: seq<Inode>, use: map<nat, Use>, i: nat, p: seq<nat>,
                 start: nat, logged: set<nat>)
    requires FsOk(bits0, blocks0, inodes0, u0) && FsOk(bits, blocks, inodes, use) && i < |inodes0| == |inodes|
    requires Scattered(bits0, p)
             && (forall j :: 0 <= j < 4 ==> p[j] < |bits0|) && Marks(start, bits0, u0, bits, use, logged)
    requires forall s :: NDIRECT <= s <= NDIRECT + 3 ==>
               Addr(blocks0, inodes0[i], s) == 0 && Addr(blocks, inodes[i], s) != 0
    ensures forall j :: 0 <= j < 4 ==> bits[p[j]]
  {
    var a: seq<nat> := seq(4, j requires 0 <= j < 4 => Addr(blocks, inodes[i], NDIRECT + j));
    forall j | 0 <= j < 4
      ensures a[j] in p && a[j] < |bits| && bits[a[j]] && a[j] in use && use[a[j]] == Slot(i, NDIRECT + j) {
      NewlyTaken(bits0, blocks0, inodes0, u0, bits, blocks, inodes, use, i, NDIRECT + j, start, logged);
    }
    Four(p, a);
  }

  /** An address that is new is of a block that was free. */
  lemma NewlyTaken(bits0: seq<bool>, blocks0: map<nat, Block>, inodes0: seq<Inode>, u0: map<nat, Use>,
                   bits: seq<bool>, blocks: map<nat, Block>, inodes: seq<Inode>, use: map<nat, Use>, i: nat, s: nat,
                   start: nat, logged: set<nat>)
    requires FsOk(bits0, blocks0, inodes0, u0) && FsOk(bits, blocks, inodes, use) && i < |inodes0| == |inodes|
    requires Marks(start, bits0, u0, bits, use, logged) && Addr(blocks0, inodes0[i], s) == 0
             && Addr(blocks, inodes[i], s) != 0
    ensures var a := Addr(blocks, inodes[i], s); a < |bits| && !bits0[a] && bits[a] && a in use && use[a] == Slot(i, s)
  {
    var a := Addr(blocks, inodes[i], s);
    SlotUse(bits, blocks, inodes, use, i, s);
    assert KeyMarks(0) && KeyMark(0) && KeyOwn(0);
    assert use[a] == Slot(i, s);
  }

  /** Four different members of a list of four are all of it. */
  lemma Four(p: seq<nat>, a: seq<nat>)
    requires |p| == 4 && |a| == 4 && (forall j :: 0 <= j < 4 ==> a[j] in p)
             && (forall j, k :: 0 <= j < k < 4 ==> a[j] != a[k])
    ensures forall j :: 0 <= j < 4 ==> p[j] in a
  {
    assert a[0] in p && a[1] in p && a[2] in p && a[3] in p;
  }

  /** Ten different blocks. */
  lemma Ten(s: set<nat>, p: seq<nat>, q: seq<nat>, x: nat, y: nat)
    requires |p| == 4 && |q| == 4 && (forall j, k :: 0 <= j < k < 4 ==> p[j] != p[k] && q[j] != q[k])
    requires (forall j, k :: 0 <= j < 4 && 0 <= k < 4 ==> p[j] != q[k])
             && (forall j :: 0 <= j < 4 ==> p[j] in s && q[j] in s)
    requires x in s && y in s && x != y && x !in p && x !in q && y !in p && y !in q
    ensures |s| >= 10
  {
    var t := s - {x} - {y};
    Take4(t, p);
    var t' := t - {p[0]} - {p[1]} - {p[2]} - {p[3]};
    Take4(t', q);
  }

  lemma Take4(s: set<nat>, p: seq<nat>)
    requires |p| == 4 && (forall j, k :: 0 <= j < k < 4 ==> p[j] != p[k]) && (forall j :: 0 <= j < 4 ==> p[j] in s)
    ensures |s| == |s - {p[0]} - {p[1]} - {p[2]} - {p[3]}| + 4
  {
  }

  /** The byte written first lies in block `a`, which it changes. */
  lemma FirstByte(blocks: map<nat, Block>, ino: Inode, off: nat, x: byte, a: nat)
    requires off < ino.size && off / BSIZE == NDIRECT - 1 && |ino.addrs| == NDIRECT + 1
             && ino.addrs[NDIRECT - 1] == a != 0 && a in blocks
    requires Contents(blocks, ino)[off] == x
    ensures blocks[a][off % BSIZE] == x
  {
    assert Contents(blocks, ino)[off] == FileAt(blocks, ino, off);
  }

  /** The file reaches three blocks past the last direct one. */
  lemma Reached(bits: seq<bool>, blocks: map<nat, Block>, inodes: seq<Inode>, use: map<nat, Use>, i: nat)
    requires FsOk(bits, blocks, inodes, use) && i < |inodes| && inodes[i].size == (NDIRECT + 2) * BSIZE + 1
    ensures forall s :: NDIRECT <= s <= NDIRECT + 3 ==> Addr(blocks, inodes[i], s) != 0
  {
    assert KeyFull(0);
    assert NoHole(blocks, inodes[i]);
    assert Addr(blocks, inodes[i], SlotOf(NDIRECT)) != 0 && Addr(blocks, inodes[i], SlotOf(NDIRECT + 1)) != 0
        && Addr(blocks, inodes[i], SlotOf(NDIRECT + 2)) != 0;
  }

  /** A block that was free and no longer is has been logged with its bitmap block. */
  lemma TakenLogged(bits0: seq<bool>, u0: map<nat, Use>, blocks0: map<nat, Block>, bits: seq<bool>, use: map<nat, Use>,
                    blocks: map<nat, Block>,
                    p: seq<nat>, start: nat, logged: set<nat>)
    requires MarkedOk(bits0, blocks0, u0) && MarkedOk(bits, blocks, use) && Marks(start, bits0, u0, bits, use, logged)
    requires Scattered(bits0, p) && (forall j :: 0 <= j < 4 ==> p[j] < |bits0|)
             && (forall j :: 0 <= j < 4 ==> bits[p[j]])
    ensures forall j :: 0 <= j < 4 ==> p[j] in u0 && u0[p[j]] == Free && p[j] in logged && start + p[j] / BPB in logged
  {
    assert KeyMark(0) && KeyMarks(0);
    forall j | 0 <= j < 4 ensures p[j] in u0 && u0[p[j]] == Free && p[j] in logged && start + p[j] / BPB in logged {
      assert p[j] in p;
      assert !bits0[p[j]] && bits[p[j]];
      assert use[p[j]] != Free;
    }
  }

  /** The block of the first byte keeps its place in the file. */
  lemma SameBlock(bits0: seq<bool>, blocks0: map<nat, Block>, inodes0: seq<Inode>, u0: map<nat, Use>,
                  bits: seq<bool>, blocks: map<nat, Block>, inodes: seq<Inode>, use: map<nat, Use>, i: nat, s: nat,
                  a: nat, start: nat, logged: set<nat>)
    requires FsOk(bits0, blocks0, inodes0, u0) && FsOk(bits, blocks, inodes, use) && i < |inodes0| == |inodes|
    requires Marks(start, bits0, u0, bits, use, logged) && a == Addr(blocks0, inodes0[i], s) != 0
    ensures a in u0 && u0[a] == Slot(i, s) && a in blocks && Addr(blocks, inodes[i], s) == a
  {
    SlotUse(bits0, blocks0, inodes0, u0, i, s);
    assert KeyMarks(0) && KeyMark(0) && KeyOwn(0);
    assert use[a] == Slot(i, s);
  }

  lemma TenLogged(u0: map<nat, Use>, p: seq<nat>, a: nat, start: nat, x: nat, i: nat, s: nat, logged: set<nat>)
    requires |p| == 4 && p[0] / BPB < p[1] / BPB < p[2] / BPB < p[3] / BPB && x < start && x in u0 && u0[x] == Meta
    requires forall j :: 0 <= j < 4 ==> start + p[j] / BPB in u0 && u0[start + p[j] / BPB] == Meta
    requires forall j :: 0 <= j < 4 ==> p[j] in u0 && u0[p[j]] == Free && p[j] in logged && start + p[j] / BPB in logged
    requires a in u0 && u0[a] == Slot(i, s) && a in logged && x in logged
    ensures |logged| >= 10
  {
    var q: seq<nat> := [start + p[0] / BPB, start + p[1] / BPB, start + p[2] / BPB, start + p[3] / BPB];
    Ten(logged, p, q, x, a);
  }

  /** A write of three blocks' worth that logs ten blocks. */
  method LogsTen(fs: FileSystem, i: nat, src: seq<byte>, ghost p: seq<nat>, ghost a: nat)
    requires Ready(fs, i, p, a) && |src| == 3 * BSIZE && src[0] != fs.blocks[a][1]
    modifies fs
    ensures |fs.logged| == MAXOPBLOCKS
  {
    ghost var bits0, blocks0, inodes0, u0 := fs.bits, fs.blocks, fs.inodes, fs.use;
    var off := (NDIRECT - 1) * BSIZE + 1;
    var r, w := fs.Writei(i, off, src, None, 0);
    assert SlotOf((off + 0) / BSIZE) == NDIRECT - 1;
    SameBlock(bits0, blocks0, inodes0, u0, fs.bits, fs.blocks, fs.inodes, fs.use, i, NDIRECT - 1, a, fs.bmapstart,
              fs.logged);
    SpliceAt(Contents(blocks0, inodes0[i]), off, src[..w], off);
    AddrsLen(fs.bits, fs.blocks, fs.inodes, fs.use, i);
    FirstByte(fs.blocks, fs.inodes[i], off, src[0], a);
    assert a in fs.logged;
    if r == |src| {
      Reached(fs.bits, fs.blocks, fs.inodes, fs.use, i);
      AllTaken(bits0, blocks0, inodes0, u0, fs.bits, fs.blocks, fs.inodes, fs.use, i, p, fs.bmapstart, fs.logged);
    }
    TakenLogged(bits0, u0, blocks0, fs.bits, fs.use, fs.blocks, p, fs.bmapstart, fs.logged);
    TenLogged(u0, p, a, fs.bmapstart, fs.inodestart + i / IPB, i, NDIRECT - 1, fs.logged);
  }

  // ---- Such a disk exists ----

  const FIRST := 100
  const NBLOCKS := 32768

  function NoFile(): (r: Inode) { Inode(0, 0, 0, seq(NDIRECT + 1, s => 0)) }

  function OneFile(): (r: Inode) { Inode(T_FILE, 1, (NDIRECT - 1) * BSIZE + 1, seq(NDIRECT, s => FIRST + s) + [0]) }

  function Gaps(): (r: seq<nat>) { [200, 8192, 16384, 24576] }

  function UseOf(b: nat): (r: Use) {
    if b in Gaps() then Free else if FIRST <= b < FIRST + NDIRECT then Slot(1, b - FIRST) else Meta
  }

  function ContentOf(b: nat): (r: Block) { ZeroBlock() }

  function TheBits(): (r: seq<bool>) { seq(NBLOCKS, b => b !in Gaps()) }
  function TheBlocks(): (r: map<nat, Block>) { map b: nat | 0 <= b < NBLOCKS :: ContentOf(b) }
  ghost function TheUse(): (r: map<nat, Use>) { map b: nat | 0 <= b < NBLOCKS :: UseOf(b) }

  lemma OneFileAddr(blocks: map<nat, Block>, s: nat)
    ensures Addr(blocks, OneFile(), s) == if s < NDIRECT then FIRST + s else 0
  {
  }

  lemma DiskOk(bits: seq<bool>, blocks: map<nat, Block>, use: map<nat, Use>)
    requires |bits| == NBLOCKS && (forall b :: b in use <==> 0 <= b < NBLOCKS) && (forall b :: b in use ==> b in blocks)
    requires (forall b :: 0 <= b < NBLOCKS ==> bits[b] == (b !in Gaps()))
             && (forall b :: b in use ==> use[b] == UseOf(b))
    ensures FsOk(bits, blocks, [NoFile(), OneFile()], use)
  {
    forall s: nat ensures Addr(blocks, OneFile(), s) == if s < NDIRECT then FIRST + s else 0 {
      OneFileAddr(blocks, s);
    }
    Shut(bits, blocks, [NoFile(), OneFile()], use);
  }

  lemma TheDisk()
    ensures FsOk(TheBits(), TheBlocks(), [NoFile(), OneFile()], TheUse()) && Scattered(TheBits(), Gaps())
            && FIRST + NDIRECT - 1 in TheBlocks()
    ensures 32 in TheUse() && TheUse()[32] == Meta && forall b :: b in TheUse() ==> TheUse()[b] != Held
    ensures forall j :: 0 <= j < 4 ==>
              Gaps()[j] < |TheBits()| && 45 + Gaps()[j] / BPB in TheUse() && TheUse()[45 + Gaps()[j] / BPB] == Meta
  {
    DiskOk(TheBits(), TheBlocks(), TheUse());
  }

  /** A disk with one file, and all but four blocks in use. */
  method WorstDisk() returns (fs: FileSystem, ghost p: seq<nat>, ghost a: nat)
    ensures fresh(fs) && Ready(fs, 1, p, a)
  {
    TheDisk();
    var bits, blocks := TheBits(), TheBlocks();
    ghost var use := TheUse();
    fs := new FileSystem(32, 45, bits, blocks, [NoFile(), OneFile()], use);
    p, a := Gaps(), FIRST + NDIRECT - 1;
  }

  // ---- A copy that fails half way ----

  /** The first byte is copied before the copy fails. */
  lemma FirstLost(n: nat)
    requires 0 < n
    ensures FileLost(0, n, t => Some(0), t => 1, 0)
  {
  }

  /**
   A write to any file whose first byte differs, from a source that ends after one byte: `filewrite` reports
   that nothing was written and leaves the offset, but the file has changed.
   */
  method Tear(fs: FileSystem, i: nat, src: seq<byte>) returns (ret: int, newoff: nat)
    requires fs.Valid() && i < |fs.inodes| && fs.inodes[i].kind != 0 && 0 < |src| <= fs.inodes[i].size
    requires src[0] != Contents(fs.blocks, fs.inodes[i])[0]
    modifies fs
    ensures fs.Valid() && |fs.inodes| == |old(fs.inodes)| && ret == -1 && newoff == 0
    ensures |Contents(fs.blocks, fs.inodes[i])| > 0 && Contents(fs.blocks, fs.inodes[i])[0] == src[0]
    ensures !SoFar(old(Contents(fs.blocks, fs.inodes[i])), Contents(fs.blocks, fs.inodes[i]), 0, src, 0)
  {
    ghost var was := Contents(fs.blocks, fs.inodes[i]);
    ghost var done: nat, w: nat, txns: seq<set<nat>>;
    FirstLost(|src|);
    ret, newoff, done, w, txns := fs.Filewrite(i, 0, src, t => Some(0), t => 1);
    assert KeyTorn(0);
    assert FileLost(0, |src|, t => Some(0), t => 1, 0);
    assert done == 0 && w > 0;
    SpliceAt(was, 0, src[..w], 0);
  }

  /** On the disk with one file. */
  method TornHarm() returns (fs: FileSystem, ret: int, newoff: nat, ghost was: seq<byte>)
    ensures fresh(fs) && fs.Valid() && 1 < |fs.inodes| && ret == -1 && newoff == 0
    ensures !SoFar(was, Contents(fs.blocks, fs.inodes[1]), 0, [1, 1], 0)
  {
    TheDisk();
    var bits, blocks := TheBits(), TheBlocks();
    ghost var use := TheUse();
    fs := new FileSystem(32, 45, bits, blocks, [NoFile(), OneFile()], use);
    was := Contents(fs.blocks, fs.inodes[1]);
    OneFileAddr(fs.blocks, 0);
    assert was[0] == 0;
    ret, newoff := Tear(fs, 1, [1, 1]);
  }
}
