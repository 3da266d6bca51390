/**
 The file system as the blocks of a disk: inodes, sixteen to a block, the bitmap, and the data.  A
 disk stands for at most one state of the file system, a transaction changes only blocks it has
 logged, and so a power failure at any point leaves the state before the transaction or the state
 after it.
 */
module Layout {
  import opened Common
  import opened Inodes
  import opened Files
  import D = Disks
  import C = Crash

  /** Where things are, as the superblock says. */
  datatype Super = Super(size: nat, logstart: nat, inodestart: nat, bmapstart: nat, ninodes: nat)

  datatype Fs = Fs(bits: seq<bool>, blocks: map<nat, Block>, disk: seq<Inode>)

  function DataStart(sb: Super): (r: nat) { sb.bmapstart + sb.size / BPB + 1 }

  /** Boot block and superblock, log, inodes, bitmap, data. */
  predicate SuperOk(sb: Super) {
    && 2 <= sb.logstart && sb.logstart + D.LOGBLOCKS < sb.inodestart && sb.inodestart + sb.ninodes / IPB < sb.bmapstart
    && DataStart(sb) <= sb.size < 0x1_0000_0000
  }

  predicate InodeFits(ino: Inode) {
    && ino.kind < 0x1_0000 && ino.nlink < 0x1_0000 && ino.size < 0x1_0000_0000 && |ino.addrs| == NDIRECT + 1
    && forall s :: 0 <= s < |ino.addrs| ==> ino.addrs[s] < 0x1_0000_0000
  }

  ghost predicate Fits(sb: Super, fs: Fs) {
    && |fs.bits| == sb.size && |fs.disk| == sb.ninodes && (forall b :: 0 <= b < sb.size ==> b in fs.blocks)
    && forall i :: 0 <= i < |fs.disk| ==> InodeFits(fs.disk[i])
  }

  // ---- Blocks of words ----

  /**
   Word `w` of an inode: type and major number, minor number and link count, size, addresses.  Device numbers
   are not modelled.
   */
  function InodeWord(ino: Inode, w: nat): (r: D.Word) {
    if w == 0 then ino.kind % 0x1_0000
    else if w == 1 then ino.nlink % 0x1_0000 * 0x1_0000
    else if w == 2 then ino.size % 0x1_0000_0000
    else if w - 3 < |ino.addrs| then ino.addrs[w - 3] % 0x1_0000_0000
    else 0
  }

  /** Word `j` of inode block `k`. */
  function InodeBlockWord(disk: seq<Inode>, k: nat, j: nat): (r: D.Word) {
    var i := IPB * k + j / 16;
    if i < |disk| then InodeWord(disk[i], j % 16) else 0
  }

  /** Bits as a number, the first the least significant. */
  function Pack(s: seq<bool>): (r: nat) {
    if s == [] then 0 else (if s[0] then 1 else 0) + 2 * Pack(s[1..])
  }

  function Power2(n: nat): (r: nat)
    ensures r > 0
  {
    if n == 0 then 1 else 2 * Power2(n - 1)
  }

  lemma {:induction false} PackBound(s: seq<bool>, n: nat)
    requires |s| <= n
    ensures Pack(s) < Power2(n)
  {
    if s != [] {
      PackBound(s[1..], n - 1);
    } else if n > 0 {
      PackBound(s, n - 1);
    }
  }

  lemma Power32()
    ensures Power2(32) == 0x1_0000_0000
  {
    assert Power2(8) == 0x100;
    assert Power2(16) == 0x1_0000;
    assert Power2(24) == 0x100_0000;
  }

  /** The 32 bits from `lo` on, as far as there are any. */
  function Bits32(bits: seq<bool>, lo: nat): (r: seq<bool>)
    ensures |r| <= 32
  {
    if lo >= |bits| then [] else if lo + 32 > |bits| then bits[lo..] else bits[lo..lo + 32]
  }

  /** Word `j` of bitmap block `k`. */
  function BitmapWord(bits: seq<bool>, k: nat, j: nat): (r: D.Word) {
    PackBound(Bits32(bits, BPB * k + 32 * j), 32);
    Power32();
    Pack(Bits32(bits, BPB * k + 32 * j))
  }

  function DataWord(b: Block, j: nat): (r: D.Word) { if j < NINDIRECT then Word(b, j) else 0 }

  predicate IsInodeBlock(sb: Super, b: nat) { sb.inodestart <= b <= sb.inodestart + sb.ninodes / IPB }
  predicate IsBitmapBlock(sb: Super, b: nat) { sb.bmapstart <= b <= sb.bmapstart + sb.size / BPB }

  /** What block `b` holds, word by word. */
  function ContentWord(sb: Super, fs: Fs, b: nat, j: nat): (r: D.Word) {
    if IsInodeBlock(sb, b) then InodeBlockWord(fs.disk, b - sb.inodestart, j)
    else if IsBitmapBlock(sb, b) then BitmapWord(fs.bits, b - sb.bmapstart, j)
    else if b in fs.blocks then DataWord(fs.blocks[b], j)
    else 0
  }

  /** The first `n` words of block `b`. */
  function ContentWords(sb: Super, fs: Fs, b: nat, n: nat): (r: seq<D.Word>)
    ensures |r| == n && forall j :: 0 <= j < n ==> r[j] == ContentWord(sb, fs, b, j)
  {
    if n == 0 then [] else ContentWords(sb, fs, b, n - 1) + [ContentWord(sb, fs, b, n - 1)]
  }

  function Content(sb: Super, fs: Fs, b: nat): (r: D.Block)
    ensures forall j :: 0 <= j < D.WORDS ==> r[j] == ContentWord(sb, fs, b, j)
  {
    ContentWords(sb, fs, b, D.WORDS)
  }

  lemma ContentAt(sb: Super, fs: Fs, fs': Fs, b: nat, j: nat)
    requires Content(sb, fs, b) == Content(sb, fs', b) && j < D.WORDS
    ensures ContentWord(sb, fs, b, j) == ContentWord(sb, fs', b, j)
  {
    assert Content(sb, fs, b)[j] == Content(sb, fs', b)[j];
  }

  /** Every inode, bitmap and data block of the disk holds what the state says. */
  ghost predicate Stands(d: C.Image, sb: Super, fs: Fs) {
    forall b {:trigger d[b]} {:trigger Content(sb, fs, b)} :: sb.inodestart <= b < sb.size ==>
      b in d && d[b] == Content(sb, fs, b)
  }

  lemma StandsAt(d: C.Image, sb: Super, fs: Fs, fs': Fs, b: nat)
    requires Stands(d, sb, fs) && Stands(d, sb, fs') && sb.inodestart <= b < sb.size
    ensures Content(sb, fs, b) == Content(sb, fs', b)
  {
    var c := Content(sb, fs, b);
    assert d[b] == c;
  }

  // ---- A disk stands for one state ----

  lemma {:induction false} PackSame(s: seq<bool>, t: seq<bool>)
    requires |s| == |t| && Pack(s) == Pack(t)
    ensures s == t
  {
    if s != [] {
      PackSame(s[1..], t[1..]);
    }
  }

  lemma BitPlace(a: nat, k: nat, j: nat, size: nat)
    requires k == a / BPB && j == a % BPB / 32 && a < size
    ensures BPB * k + 32 * j + a % 32 == a && j < D.WORDS && k <= size / BPB
  {
  }

  lemma BitSame(sb: Super, fs: Fs, fs': Fs, a: nat, k: nat)
    requires SuperOk(sb) && Fits(sb, fs) && Fits(sb, fs') && a < sb.size && k == a / BPB
    requires Content(sb, fs, sb.bmapstart + k) == Content(sb, fs', sb.bmapstart + k)
    ensures fs.bits[a] == fs'.bits[a]
  {
    var j := a % BPB / 32;
    BitPlace(a, k, j, sb.size);
    ContentAt(sb, fs, fs', sb.bmapstart + k, j);
    BitmapTells(fs.bits, fs'.bits, k, j, a);
  }

  lemma BitmapTells(bits: seq<bool>, bits': seq<bool>, k: nat, j: nat, a: nat)
    requires |bits| == |bits'| && BitmapWord(bits, k, j) == BitmapWord(bits', k, j) && a == BPB * k + 32 * j + a % 32
             && a < |bits|
    ensures bits[a] == bits'[a]
  {
    var lo := BPB * k + 32 * j;
    PackSame(Bits32(bits, lo), Bits32(bits', lo));
    assert Bits32(bits, lo)[a % 32] == bits[a] && Bits32(bits', lo)[a % 32] == bits'[a];
  }

  lemma InodeWordsTell(ino: Inode, ino': Inode)
    requires InodeFits(ino) && InodeFits(ino') && forall w :: 0 <= w < 16 ==> InodeWord(ino, w) == InodeWord(ino', w)
    ensures ino == ino'
  {
    assert InodeWord(ino, 0) == InodeWord(ino', 0) && InodeWord(ino, 1) == InodeWord(ino', 1)
        && InodeWord(ino, 2) == InodeWord(ino', 2);
    forall s | 0 <= s < |ino.addrs| ensures ino.addrs[s] == ino'.addrs[s] {
      assert InodeWord(ino, s + 3) == InodeWord(ino', s + 3);
    }
    assert ino.addrs == ino'.addrs;
  }

  lemma InodePlace(i: nat, k: nat, w: nat, j: nat, n: nat)
    requires k == i / IPB && w < 16 && j == i % IPB * 16 + w && i < n
    ensures IPB * k + j / 16 == i && j % 16 == w && j < D.WORDS && k <= n / IPB
  {
  }

  lemma InodeSame(sb: Super, fs: Fs, fs': Fs, i: nat, k: nat)
    requires SuperOk(sb) && Fits(sb, fs) && Fits(sb, fs') && i < sb.ninodes && k == i / IPB
    requires Content(sb, fs, sb.inodestart + k) == Content(sb, fs', sb.inodestart + k)
    ensures fs.disk[i] == fs'.disk[i]
  {
    forall w | 0 <= w < 16 ensures InodeWord(fs.disk[i], w) == InodeWord(fs'.disk[i], w) {
      var j := i % IPB * 16 + w;
      InodePlace(i, k, w, j, sb.ninodes);
      ContentAt(sb, fs, fs', sb.inodestart + k, j);
    }
    InodeWordsTell(fs.disk[i], fs'.disk[i]);
  }

  /** The lowest byte of a number, and the rest. */
  lemma Lowest(w: nat, p: nat, t: nat)
    requires w == p + 0x100 * t && p < 0x100
    ensures p == w % 0x100 && t == w / 0x100
  {
  }

  lemma FourTell(w: nat, p: nat, q: nat, r: nat, s: nat)
    requires w == p + 0x100 * q + 0x1_0000 * r + 0x100_0000 * s && p < 0x100 && q < 0x100 && r < 0x100
    ensures p == w % 0x100 && q == w / 0x100 % 0x100 && r == w / 0x100 / 0x100 % 0x100 && s == w / 0x100 / 0x100 / 0x100
  {
    var t2: nat := r + 0x100 * s;
    var t1: nat := q + 0x100 * t2;
    Lowest(w, p, t1);
    Lowest(t1, q, t2);
    Lowest(t2, r, s);
  }

  /** A word tells its four bytes. */
  lemma WordTells(b: Block, c: Block, j: nat)
    requires j < NINDIRECT && Word(b, j) == Word(c, j)
    ensures b[4 * j] == c[4 * j] && b[4 * j + 1] == c[4 * j + 1] && b[4 * j + 2] == c[4 * j + 2]
            && b[4 * j + 3] == c[4 * j + 3]
  {
    FourTell(Word(b, j), b[4 * j], b[4 * j + 1], b[4 * j + 2], b[4 * j + 3]);
    FourTell(Word(c, j), c[4 * j], c[4 * j + 1], c[4 * j + 2], c[4 * j + 3]);
  }

  lemma DataSame(sb: Super, fs: Fs, fs': Fs, b: nat)
    requires SuperOk(sb) && Fits(sb, fs) && Fits(sb, fs') && DataStart(sb) <= b < sb.size
             && Content(sb, fs, b) == Content(sb, fs', b)
    ensures fs.blocks[b] == fs'.blocks[b]
  {
    var x, y := fs.blocks[b], fs'.blocks[b];
    forall q | 0 <= q < BSIZE ensures x[q] == y[q] {
      var j := q / 4;
      ContentAt(sb, fs, fs', b, j);
      WordTells(x, y, j);
    }
  }

  /** The same bitmap, inodes and data. */
  ghost predicate SameFs(sb: Super, fs: Fs, fs': Fs) {
    && fs.bits == fs'.bits && fs.disk == fs'.disk
    && forall b {:trigger fs.blocks[b]} {:trigger fs'.blocks[b]} :: DataStart(sb) <= b < sb.size ==>
      b in fs.blocks && b in fs'.blocks && fs.blocks[b] == fs'.blocks[b]
  }

  /** What is on the disk determines the bitmap, the inodes and the data. */
  lemma OneState(d: C.Image, sb: Super, fs: Fs, fs': Fs)
    requires SuperOk(sb) && Fits(sb, fs) && Fits(sb, fs') && Stands(d, sb, fs) && Stands(d, sb, fs')
    ensures SameFs(sb, fs, fs')
  {
    forall a | 0 <= a < sb.size ensures fs.bits[a] == fs'.bits[a] {
      StandsAt(d, sb, fs, fs', sb.bmapstart + a / BPB);
      BitSame(sb, fs, fs', a, a / BPB);
    }
    forall i | 0 <= i < sb.ninodes ensures fs.disk[i] == fs'.disk[i] {
      StandsAt(d, sb, fs, fs', sb.inodestart + i / IPB);
      InodeSame(sb, fs, fs', i, i / IPB);
    }
    forall b | DataStart(sb) <= b < sb.size ensures fs.blocks[b] == fs'.blocks[b] {
      StandsAt(d, sb, fs, fs', b);
      DataSame(sb, fs, fs', b);
    }
  }

  // ---- Reading the state off the disk ----

  /** Byte `q` of a block of words, the least significant byte of a word first. */
  function ByteOn(b: D.Block, q: nat): (r: nat)
    requires q < BSIZE
  {
    b[q / 4] / Power2(8 * (q % 4)) % 0x100
  }

  /** Bit `n` of a number. */
  function BitOf(x: nat, n: nat): (r: bool)
    decreases n
  {
    if n == 0 then x % 2 == 1 else BitOf(x / 2, n - 1)
  }

  lemma {:induction false} PackedBit(s: seq<bool>, e: nat)
    requires e < |s|
    ensures BitOf(Pack(s), e) == s[e]
    decreases e
  {
    if e > 0 {
      PackedBit(s[1..], e - 1);
    }
  }

  lemma Assoc(a: nat, x: nat)
    ensures 2 * a * x == 2 * (a * x)
  {
  }

  lemma {:induction false} PackCut(s: seq<bool>, n: nat)
    requires n <= |s|
    ensures Pack(s) == Pack(s[..n]) + Power2(n) * Pack(s[n..])
    decreases n
  {
    if n == 0 {
      assert s[0..] == s;
    } else {
      PackCut(s[1..], n - 1);
      Assoc(Power2(n - 1), Pack(s[n..]));
      assert s[1..][n - 1..] == s[n..] && s[..n][1..] == s[1..][..n - 1] && s[..n][0] == s[0];
    }
  }

  function Eight(s: seq<bool>): (r: seq<bool>) { if |s| < 8 then s else s[..8] }

  function Rest8(s: seq<bool>): (r: seq<bool>) { if |s| < 8 then [] else s[8..] }

  lemma Power8()
    ensures Power2(8) == 0x100
  {
    assert Power2(4) == 16;
  }

  /** A byte, and the bits above it. */
  lemma PackEight(s: seq<bool>)
    ensures Pack(s) == Pack(Eight(s)) + 0x100 * Pack(Rest8(s)) && Pack(Eight(s)) < 0x100
  {
    Power8();
    PackBound(Eight(s), 8);
    if |s| >= 8 {
      PackCut(s, 8);
    }
  }

  /** Byte `c` of packed bits. */
  lemma PackedByte(s: seq<bool>, c: nat, e: nat)
    requires |s| <= 32 && c < 4 && e < 8 && 8 * c + e < |s|
    ensures BitOf(Pack(s) / Power2(8 * c) % 0x100, e) == s[8 * c + e]
  {
    var s1 := Rest8(s);
    var s2 := Rest8(s1);
    var s3 := Rest8(s2);
    PackEight(s);
    PackEight(s1);
    PackEight(s2);
    PackEight(s3);
    WordByte(Pack(s), Pack(Eight(s)), Pack(Eight(s1)), Pack(Eight(s2)), Pack(Eight(s3)), c);
    PackedBit(if c == 0 then Eight(s) else if c == 1 then Eight(s1) else if c == 2 then Eight(s2) else Eight(s3), e);
  }

  lemma Place8(x: nat)
    ensures x / 8 / 4 == x / 32 && 8 * (x / 8 % 4) + x % 8 == x % 32
  {
  }

  lemma BitmapAt(d: C.Image, sb: Super, fs: Fs, k: nat, j: nat)
    requires SuperOk(sb) && Stands(d, sb, fs) && k <= sb.size / BPB && j < D.WORDS
    ensures sb.bmapstart + k in d && d[sb.bmapstart + k][j] == Pack(Bits32(fs.bits, BPB * k + 32 * j))
  {
    var c := Content(sb, fs, sb.bmapstart + k);
    assert d[sb.bmapstart + k] == c && c[j] == ContentWord(sb, fs, sb.bmapstart + k, j);
  }

  lemma BitIn(b: D.Block, bits: seq<bool>, k: nat, x: nat, j: nat, a: nat)
    requires j == x / 32 && x < BPB && a == BPB * k + x < |bits| && b[j] == Pack(Bits32(bits, BPB * k + 32 * j))
    ensures x / 8 < BSIZE && BitOf(ByteOn(b, x / 8), x % 8) == bits[a]
  {
    Place8(x);
    var s := Bits32(bits, BPB * k + 32 * j);
    assert s[x % 32] == bits[a];
    PackedByte(s, x / 8 % 4, x % 8);
  }

  /** Whether block `a` is in use is where the kernel looks: bit `x` of bitmap block `k`. */
  lemma BitReads(d: C.Image, sb: Super, fs: Fs, a: nat, k: nat, x: nat)
    requires SuperOk(sb) && Fits(sb, fs) && Stands(d, sb, fs) && a < sb.size && k == a / BPB && x == a % BPB
    ensures sb.bmapstart + k in d && x / 8 < BSIZE
            && BitOf(ByteOn(d[sb.bmapstart + k], x / 8), x % 8) == fs.bits[a]
  {
    var j := x / 32;
    BlockPlace(a, k, x, j, sb.size);
    BitmapAt(d, sb, fs, k, j);
    BitIn(d[sb.bmapstart + k], fs.bits, k, x, j, a);
  }

  lemma BlockPlace(a: nat, k: nat, x: nat, j: nat, size: nat)
    requires k == a / BPB && x == a % BPB && j == x / 32 && a < size
    ensures a == BPB * k + x && x < BPB && j < D.WORDS && k <= size / BPB
  {
  }

  lemma InodeAt(d: C.Image, sb: Super, fs: Fs, i: nat, k: nat, w: nat, j: nat)
    requires SuperOk(sb) && Fits(sb, fs) && Stands(d, sb, fs) && i < sb.ninodes && k == i / IPB && w < 16
             && j == i % IPB * 16 + w
    ensures sb.inodestart + k in d && j < D.WORDS && d[sb.inodestart + k][j] == InodeWord(fs.disk[i], w)
  {
    InodePlace(i, k, w, j, sb.ninodes);
    var c := Content(sb, fs, sb.inodestart + k);
    assert d[sb.inodestart + k] == c && c[j] == ContentWord(sb, fs, sb.inodestart + k, j);
  }

  /** The words of a block from `j` on are those of an inode: type, link count, size and addresses. */
  predicate Dinode(b: D.Block, j: nat, ino: Inode) {
    && j + 16 <= D.WORDS && |ino.addrs| == NDIRECT + 1
    && b[j] % 0x1_0000 == ino.kind && b[j + 1] / 0x1_0000 == ino.nlink && b[j + 2] == ino.size
    && forall s :: 0 <= s <= NDIRECT ==> b[j + 3 + s] == ino.addrs[s]
  }

  lemma DinodeIs(b: D.Block, j: nat, ino: Inode)
    requires j + 16 <= D.WORDS && InodeFits(ino)
    requires forall w {:trigger InodeWord(ino, w)} :: 0 <= w < 16 ==> b[j + w] == InodeWord(ino, w)
    ensures Dinode(b, j, ino)
  {
    assert InodeWord(ino, 0) == b[j + 0] && InodeWord(ino, 1) == b[j + 1] && InodeWord(ino, 2) == b[j + 2];
    forall s | 0 <= s <= NDIRECT ensures b[j + 3 + s] == ino.addrs[s] {
      assert InodeWord(ino, 3 + s) == b[j + (3 + s)];
    }
  }

  /** Inode `i` is where the kernel looks: at its place in its inode block. */
  lemma InodeReads(d: C.Image, sb: Super, fs: Fs, i: nat)
    requires SuperOk(sb) && Fits(sb, fs) && Stands(d, sb, fs) && i < sb.ninodes
    ensures sb.inodestart + i / IPB in d && Dinode(d[sb.inodestart + i / IPB], i % IPB * 16, fs.disk[i])
  {
    var k, j := i / IPB, i % IPB * 16;
    InodeAt(d, sb, fs, i, k, 15, j + 15);
    var b := d[sb.inodestart + k];
    forall w | 0 <= w < 16 ensures b[j + w] == InodeWord(fs.disk[i], w) {
      InodeAt(d, sb, fs, i, k, w, j + w);
    }
    DinodeIs(b, j, fs.disk[i]);
  }

  lemma DivTwice(w: nat)
    ensures w / 0x100 / 0x100 == w / 0x1_0000 && w / 0x100 / 0x100 / 0x100 == w / 0x100_0000
  {
  }

  lemma Powers()
    ensures Power2(0) == 1 && Power2(8) == 0x100 && Power2(16) == 0x1_0000 && Power2(24) == 0x100_0000
  {
    Power8();
    assert Power2(12) == 0x1000;
    assert Power2(16) == 0x1_0000;
    assert Power2(20) == 0x10_0000;
  }

  lemma WordByte(w: nat, p: nat, q: nat, r: nat, s: nat, k: nat)
    requires w == p + 0x100 * q + 0x1_0000 * r + 0x100_0000 * s && p < 0x100 && q < 0x100 && r < 0x100 && s < 0x100
             && k < 4
    ensures w / Power2(8 * k) % 0x100 == if k == 0 then p else if k == 1 then q else if k == 2 then r else s
  {
    FourTell(w, p, q, r, s);
    DivTwice(w);
    Powers();
  }

  /** The bytes of a data block are those of the block. */
  lemma ByteReads(d: C.Image, sb: Super, fs: Fs, b: nat, q: nat)
    requires SuperOk(sb) && Fits(sb, fs) && Stands(d, sb, fs) && DataStart(sb) <= b < sb.size && q < BSIZE
    ensures b in d && ByteOn(d[b], q) == fs.blocks[b][q]
  {
    var c, j, x := Content(sb, fs, b), q / 4, fs.blocks[b];
    assert d[b] == c && c[j] == ContentWord(sb, fs, b, j);
    WordByte(Word(x, j), x[4 * j], x[4 * j + 1], x[4 * j + 2], x[4 * j + 3], q % 4);
  }

  // ---- Only logged blocks change ----

  predicate KeySteady(u: int) { true }

  /** Whatever differs between two states is in a logged block. */
  ghost predicate Steady(sb: Super, fs: Fs, fs': Fs, logged: set<nat>) {
    forall u {:trigger KeySteady(u)} :: KeySteady(u) ==>
      && BitsThrough(sb.bmapstart, fs.bits, fs'.bits, logged) && |fs'.disk| == |fs.disk|
      && (forall i {:trigger fs'.disk[i]} :: 0 <= i < |fs.disk| && fs'.disk[i] != fs.disk[i] ==>
          sb.inodestart + i / IPB in logged)
      && Through(fs.blocks, fs'.blocks, logged)
  }

  lemma InodeWordPlace(k: nat, j: nat, i: nat)
    requires i == IPB * k + j / 16 && j < D.WORDS
    ensures i / IPB == k
  {
  }

  lemma SteadyInodes(sb: Super, fs: Fs, fs': Fs, logged: set<nat>, k: nat, j: nat)
    requires Steady(sb, fs, fs', logged) && sb.inodestart + k !in logged && j < D.WORDS
    ensures InodeBlockWord(fs.disk, k, j) == InodeBlockWord(fs'.disk, k, j)
  {
    assert KeySteady(0);
    var i := IPB * k + j / 16;
    InodeWordPlace(k, j, i);
    if i < |fs.disk| {
      assert fs'.disk[i] == fs.disk[i];
    }
  }

  lemma SteadyBits(sb: Super, fs: Fs, fs': Fs, logged: set<nat>, k: nat, j: nat)
    requires Steady(sb, fs, fs', logged) && sb.bmapstart + k !in logged && j < D.WORDS
    ensures BitmapWord(fs.bits, k, j) == BitmapWord(fs'.bits, k, j)
  {
    assert KeySteady(0);
    var lo := BPB * k + 32 * j;
    var s, t := Bits32(fs.bits, lo), Bits32(fs'.bits, lo);
    forall q | 0 <= q < |s| ensures |s| == |t| && s[q] == t[q] {
      assert (lo + q) / BPB == k;
      assert fs'.bits[lo + q] == fs.bits[lo + q];
    }
    assert s == t;
  }

  /** A block that was not logged holds what it held. */
  lemma OnlyLogged(sb: Super, fs: Fs, fs': Fs, logged: set<nat>, b: nat)
    requires Steady(sb, fs, fs', logged) && Fits(sb, fs) && b < sb.size && b !in logged
    ensures Content(sb, fs, b) == Content(sb, fs', b)
  {
    forall j | 0 <= j < D.WORDS ensures ContentWord(sb, fs, b, j) == ContentWord(sb, fs', b, j) {
      if IsInodeBlock(sb, b) {
        SteadyInodes(sb, fs, fs', logged, b - sb.inodestart, j);
      } else if IsBitmapBlock(sb, b) {
        SteadyBits(sb, fs, fs', logged, b - sb.bmapstart, j);
      } else {
        assert KeySteady(0);
      }
    }
  }

  // ---- A transaction and a crash ----

  /** The blocks of a transaction, in the order of the log, each once. */
  ghost predicate Order(sb: Super, order: seq<D.Word>, logged: set<nat>) {
    && Distinct(order) && |order| <= D.LOGBLOCKS && (forall b :: b in order <==> b in logged)
    && forall b :: b in logged ==> sb.inodestart <= b < sb.size
  }

  /** What the log writes for them. */
  function Datas(sb: Super, fs: Fs, order: seq<D.Word>): (r: seq<D.Block>)
    ensures |r| == |order| && forall i :: 0 <= i < |order| ==> r[i] == Content(sb, fs, order[i])
  {
    if order == [] then [] else Datas(sb, fs, order[..|order| - 1]) + [Content(sb, fs, order[|order| - 1])]
  }

  lemma TxnFits(d: C.Image, sb: Super, fs: Fs, fs': Fs, order: seq<D.Word>, logged: set<nat>)
    requires SuperOk(sb) && Stands(d, sb, fs) && Order(sb, order, logged)
    ensures C.TxnOk(sb.logstart, d, order, Datas(sb, fs', order))
  {
    forall i | 0 <= i < |order| ensures order[i] in d && !C.InLog(sb.logstart, order[i]) {
      assert order[i] in order;
      var c := Content(sb, fs, order[i]);
      assert d[order[i]] == c;
    }
  }

  /** Installing a transaction takes a disk from one state to the next. */
  lemma Installed(d: C.Image, sb: Super, fs: Fs, fs': Fs, order: seq<D.Word>, logged: set<nat>)
    requires SuperOk(sb) && Fits(sb, fs) && Stands(d, sb, fs) && Steady(sb, fs, fs', logged) && Order(sb, order, logged)
    ensures Stands(C.Install(d, order, Datas(sb, fs', order)), sb, fs')
  {
    var datas := Datas(sb, fs', order);
    var e := C.Install(d, order, datas);
    var all := C.InstallWrites(order, datas);
    assert all[..|order|] == all;
    forall b | sb.inodestart <= b < sb.size ensures b in e && e[b] == Content(sb, fs', b) {
      var c := Content(sb, fs, b);
      assert d[b] == c;
      if b in order {
        var i :| 0 <= i < |order| && order[i] == b;
        C.InstallAt(d, order, datas, i, |order|);
      } else {
        C.InstallKeeps(d, order, datas, |order|, b);
        OnlyLogged(sb, fs, fs', logged, b);
      }
    }
  }

  lemma SameStands(d: C.Image, e: C.Image, sb: Super, fs: Fs)
    requires SuperOk(sb) && C.SameHome(sb.logstart, e, d) && Stands(d, sb, fs)
    ensures Stands(e, sb, fs)
  {
    forall b | sb.inodestart <= b < sb.size ensures b in e && e[b] == Content(sb, fs, b) {
      var c := Content(sb, fs, b);
      assert d[b] == c;
    }
  }

  /**
   Power fails after `k` writes of the commit, then during any number of recoveries: the disk that a
   last recovery leaves stands for the state after the transaction if the header was written, and for
   the state before it if not.
   */
  lemma CrashLeavesOne(d: C.Image, sb: Super, fs: Fs, fs': Fs, order: seq<D.Word>, logged: set<nat>, k: nat,
                       ks: seq<nat>)
    requires SuperOk(sb) && Fits(sb, fs) && C.Quiescent(sb.logstart, d) && Stands(d, sb, fs)
             && Steady(sb, fs, fs', logged) && Order(sb, order, logged)
    requires k <= |C.CommitWrites(sb.logstart, d[sb.logstart], order, Datas(sb, fs', order))|
    ensures C.TxnOk(sb.logstart, d, order, Datas(sb, fs', order))
    ensures C.Quiescent(sb.logstart, C.CrashedCommit(sb.logstart, d, order, Datas(sb, fs', order), k, ks))
    ensures Stands(C.CrashedCommit(sb.logstart, d, order, Datas(sb, fs', order), k, ks), sb, if k > |order| then fs'
                   else fs)
  {
    TxnFits(d, sb, fs, fs', order, logged);
    Installed(d, sb, fs, fs', order, logged);
    var datas := Datas(sb, fs', order);
    C.CrashAtomicity(sb.logstart, d, order, datas, k, ks);
    var r := C.CrashedCommit(sb.logstart, d, order, datas, k, ks);
    if k > |order| {
      SameStands(C.Install(d, order, datas), r, sb, fs');
    } else {
      SameStands(d, r, sb, fs);
    }
  }

  // ---- Whole runs ----

  /** One transaction of a run, which would leave the state `after`: it commits, or power fails during its commit. */
  datatype Txn = Txn(after: Fs, order: seq<D.Word>, logged: set<nat>, fate: Fate)
  datatype Fate = Lands | Fails(k: nat, ks: seq<nat>)

  ghost predicate TxnValid(sb: Super, fs: Fs, t: Txn) {
    && Fits(sb, fs) && Steady(sb, fs, t.after, t.logged) && Order(sb, t.order, t.logged)
    && (t.fate.Fails? ==> t.fate.k <= if |t.order| == 0 then 0 else 2 * |t.order| + 2)
  }

  /** The transaction takes effect if its header is written. */
  function FsStep(fs: Fs, t: Txn): (r: Fs) { if t.fate.Lands? || t.fate.k > |t.order| then t.after else fs }

  /** Every transaction starts from the state that survives so far. */
  ghost predicate RunValid(sb: Super, fs: Fs, ts: seq<Txn>)
    decreases |ts|
  {
    ts == [] || (TxnValid(sb, fs, ts[0]) && RunValid(sb, FsStep(fs, ts[0]), ts[1..]))
  }

  function FsRun(fs: Fs, ts: seq<Txn>): (r: Fs)
    decreases |ts|
  {
    if ts == [] then fs else FsRun(FsStep(fs, ts[0]), ts[1..])
  }

  function EventOf(sb: Super, t: Txn): (r: C.Event) {
    var datas := Datas(sb, t.after, t.order);
    match t.fate
    case Lands => C.Committed(t.order, datas)
    case Fails(k, ks) => C.PowerLost(t.order, datas, k, ks)
  }

  /** The disk the machine really has after a run. */
  ghost function DiskRun(d: C.Image, sb: Super, fs: Fs, ts: seq<Txn>): (r: C.Image)
    requires SuperOk(sb) && C.Quiescent(sb.logstart, d) && Stands(d, sb, fs) && RunValid(sb, fs, ts)
    decreases |ts|
  {
    if ts == [] then d
    else
      StepStands(d, sb, fs, ts[0]);
      DiskRun(C.Step(sb.logstart, d, EventOf(sb, ts[0])), sb, FsStep(fs, ts[0]), ts[1..])
  }

  lemma StepStands(d: C.Image, sb: Super, fs: Fs, t: Txn)
    requires SuperOk(sb) && C.Quiescent(sb.logstart, d) && Stands(d, sb, fs) && TxnValid(sb, fs, t)
    ensures C.EventOk(sb.logstart, d, EventOf(sb, t))
    ensures C.Quiescent(sb.logstart, C.Step(sb.logstart, d, EventOf(sb, t)))
            && Stands(C.Step(sb.logstart, d, EventOf(sb, t)), sb, FsStep(fs, t))
  {
    TxnFits(d, sb, fs, t.after, t.order, t.logged);
    Installed(d, sb, fs, t.after, t.order, t.logged);
    var e := EventOf(sb, t);
    C.StepRefines(sb.logstart, d, d, e);
    SameStands(C.SpecStep(d, e), C.Step(sb.logstart, d, e), sb, FsStep(fs, t));
  }

  /**
   Over every run of transactions and power failures, the disk stands for the state that the transactions
   whose headers were written give.
   */
  lemma {:induction false} FilesSurvive(d: C.Image, sb: Super, fs: Fs, ts: seq<Txn>)
    requires SuperOk(sb) && C.Quiescent(sb.logstart, d) && Stands(d, sb, fs) && RunValid(sb, fs, ts)
    ensures C.Quiescent(sb.logstart, DiskRun(d, sb, fs, ts)) && Stands(DiskRun(d, sb, fs, ts), sb, FsRun(fs, ts))
    decreases |ts|
  {
    if ts != [] {
      StepStands(d, sb, fs, ts[0]);
      FilesSurvive(C.Step(sb.logstart, d, EventOf(sb, ts[0])), sb, FsStep(fs, ts[0]), ts[1..]);
    }
  }

  /** Transactions that commit together are one: what either of them changed is in the log. */
  lemma GroupCommit(sb: Super, a: Fs, b: Fs, c: Fs, l: set<nat>, m: set<nat>)
    requires Steady(sb, a, b, l) && Steady(sb, b, c, m)
    ensures Steady(sb, a, c, l + m)
  {
    assert KeySteady(0);
    BitsTrans(sb.bmapstart, a.bits, b.bits, l, c.bits, l + m);
    ThroughTrans(a.blocks, b.blocks, l, c.blocks, l + m);
    forall i | 0 <= i < |a.disk| && c.disk[i] != a.disk[i] ensures sb.inodestart + i / IPB in l + m {
      assert b.disk[i] != a.disk[i] || c.disk[i] != b.disk[i];
    }
  }

  /** Whatever was logged, if it fits the log there is an order to commit it in. */
  lemma {:induction false} SomeOrder(sb: Super, logged: set<nat>) returns (order: seq<D.Word>)
    requires SuperOk(sb) && |logged| <= D.LOGBLOCKS && forall b :: b in logged ==> sb.inodestart <= b < sb.size
    ensures Order(sb, order, logged) && |order| == |logged|
    decreases logged
  {
    order := [];
    if b :| b in logged {
      order := SomeOrder(sb, logged - {b});
      order := order + [b];
    }
  }

  /** So a transaction of the inode layer is one that a run may hold. */
  lemma MayRun(sb: Super, fs: Fs, fs': Fs, logged: set<nat>, fate: Fate) returns (t: Txn)
    requires SuperOk(sb) && Fits(sb, fs) && Steady(sb, fs, fs', logged) && |logged| <= D.LOGBLOCKS
    requires forall b :: b in logged ==> sb.inodestart <= b < sb.size
    requires fate.Fails? ==> fate.k <= if logged == {} then 0 else 2 * |logged| + 2
    ensures TxnValid(sb, fs, t) && t.after == fs' && t.logged == logged && t.fate == fate
  {
    var order := SomeOrder(sb, logged);
    t := Txn(fs', order, logged, fate);
  }

  // ---- The transactions of the inode layer ----

  ghost function Now(f: FileSystem): (r: Fs) reads f { Fs(f.bits, f.blocks, f.disk) }

  /** The file system is laid out as the superblock says, and its numbers fit their fields. */
  ghost predicate LaidOut(f: FileSystem, sb: Super) reads f {
    && f.Valid() && SuperOk(sb) && sb.inodestart == f.inodestart && sb.bmapstart == f.bmapstart && |f.bits| == sb.size
    && |f.disk| == sb.ninodes
    && MetaBelow(f.use, DataStart(sb)) && Shorts(f.disk)
  }

  /** The blocks below `n` are metadata, and no others are. */
  ghost predicate MetaBelow(use: map<nat, Use>, n: nat) {
    && (forall b {:trigger b in use} {:trigger use[b]} :: 0 <= b < n ==> b in use && use[b] == Meta)
    && (forall b {:trigger use[b]} :: b in use && use[b] == Meta ==> b < n)
  }

  ghost predicate Shorts(disk: seq<Inode>) {
    forall i {:trigger disk[i]} :: 0 <= i < |disk| ==> disk[i].kind < 0x1_0000 && disk[i].nlink < 0x1_0000
  }

  lemma AddrFits(bits: seq<bool>, blocks: map<nat, Block>, inodes: seq<Inode>, use: map<nat, Use>, i: nat, s: nat)
    requires FsOk(bits, blocks, inodes, use) && i < |inodes| && s < NDIRECT + 1
    ensures |inodes[i].addrs| == NDIRECT + 1 && inodes[i].addrs[s] < 0x1_0000_0000 && inodes[i].size < 0x1_0000_0000
  {
    AddrsLen(bits, blocks, inodes, use, i);
    assert Addr(blocks, inodes[i], s) == inodes[i].addrs[s];
    if inodes[i].addrs[s] != 0 {
      SlotUse(bits, blocks, inodes, use, i, s);
      assert KeyMark(0);
    }
  }

  lemma NowFits(f: FileSystem, sb: Super)
    requires LaidOut(f, sb)
    ensures Fits(sb, Now(f))
  {
    assert KeyMark(0);
    forall i | 0 <= i < |f.disk| ensures InodeFits(f.disk[i]) {
      AddrsLen(f.bits, f.blocks, f.inodes, f.use, i);
      forall s | 0 <= s < |f.disk[i].addrs| ensures f.disk[i].addrs[s] < 0x1_0000_0000 {
        AddrFits(f.bits, f.blocks, f.inodes, f.use, i, s);
      }
    }
  }

  /** The number of data blocks, as the superblock has it. */
  function DataCount(sb: Super): (r: nat)
    requires SuperOk(sb)
  {
    sb.size - DataStart(sb)
  }

  /** What `fsinfo` reports as free is that number less the blocks that some inode owns. */
  lemma FreeOnDisk(f: FileSystem, sb: Super)
    requires LaidOut(f, sb)
    ensures FreeBits(f.bits, |f.bits|) == DataCount(sb) - |OwnedBlocks(f.use)|
  {
    assert KeyMark(0);
    FreeBlocks(f.bits, f.blocks, f.inodes, f.use);
    var all := Range(DataStart(sb), sb.size);
    forall b: nat ensures b in DataBlocks(f.use) <==> b in all {
      assert b in f.use ==> (f.use[b] == Meta <==> b < DataStart(sb));
    }
    assert DataBlocks(f.use) == all;
  }

  /** The log holds home blocks only. */
  lemma LoggedInside(f: FileSystem, sb: Super)
    requires LaidOut(f, sb)
    ensures forall b :: b in f.logged ==> sb.inodestart <= b < sb.size
  {
    assert KeyHome(0) && KeyMark(0);
    forall b | b in f.logged ensures sb.inodestart <= b < sb.size {
      assert b in f.use && f.use[b] != Meta ==> b >= DataStart(sb);
    }
  }

  /**
   Whenever power fails, the disk that recovery leaves stands for one of two states: `fs'` if the header was
   written, else `fs`.
   */
  ghost predicate AllOrNothing(d: C.Image, sb: Super, fs: Fs, fs': Fs, logged: set<nat>) {
    forall order, k: nat, ks {:trigger C.CrashedCommit(sb.logstart, d, order, Datas(sb, fs', order), k, ks)} ::
      C.Quiescent(sb.logstart, d) && Order(sb, order, logged) && C.TxnOk(sb.logstart, d, order, Datas(sb, fs', order))
      && k <= |C.CommitWrites(sb.logstart, d[sb.logstart], order, Datas(sb, fs', order))| ==>
        Stands(C.CrashedCommit(sb.logstart, d, order, Datas(sb, fs', order), k, ks), sb, if k > |order| then fs'
               else fs)
  }

  lemma AtomicStep(d: C.Image, sb: Super, fs: Fs, fs': Fs, logged: set<nat>)
    requires SuperOk(sb) && Fits(sb, fs) && C.Quiescent(sb.logstart, d) && Stands(d, sb, fs)
             && Steady(sb, fs, fs', logged)
    ensures AllOrNothing(d, sb, fs, fs', logged)
  {
    forall order, k: nat, ks | Order(sb, order, logged) && C.TxnOk(sb.logstart, d, order, Datas(sb, fs', order))
                          && k <= |C.CommitWrites(sb.logstart, d[sb.logstart], order, Datas(sb, fs', order))|
      ensures Stands(C.CrashedCommit(sb.logstart, d, order, Datas(sb, fs', order), k, ks), sb, if k > |order| then fs'
                     else fs)
    {
      CrashLeavesOne(d, sb, fs, fs', order, logged, k, ks);
    }
  }

  lemma MarksBits(start: nat, bits0: seq<bool>, u0: map<nat, Use>, bits: seq<bool>, use: map<nat, Use>,
                  logged: set<nat>, n: nat)
    requires Marks(start, bits0, u0, bits, use, logged) && MetaBelow(u0, n)
    ensures BitsThrough(start, bits0, bits, logged) && MetaBelow(use, n)
  {
    assert KeyMarks(0);
    forall b | 0 <= b < n ensures b in use && use[b] == Meta {
      assert b in u0 && u0[b] == Meta;
      assert b in use;
    }
    forall b | b in use && use[b] == Meta ensures b < n {
      assert b in u0 && u0[b] == Meta;
    }
  }

  /** A transaction that changed one inode, and logged it. */
  lemma OneInode(sb: Super, fs: Fs, fs': Fs, logged: set<nat>, i: nat)
    requires BitsThrough(sb.bmapstart, fs.bits, fs'.bits, logged) && Through(fs.blocks, fs'.blocks, logged)
    requires |fs'.disk| == |fs.disk|
             && (forall k {:trigger fs'.disk[k]} :: 0 <= k < |fs.disk| && k != i ==> fs'.disk[k] == fs.disk[k])
    requires i < |fs.disk| && (fs'.disk[i] == fs.disk[i] || sb.inodestart + i / IPB in logged)
    ensures Steady(sb, fs, fs', logged)
  {
  }

  /** Both states have the same contents for every block of the log. */
  ghost predicate SameLogged(sb: Super, fs: Fs, fs': Fs, logged: set<nat>) {
    forall b :: b in logged ==> Content(sb, fs, b) == Content(sb, fs', b)
  }

  /** A data block that is not logged, put back: what the log holds is the same. */
  lemma PutBack(sb: Super, fs: Fs, fs': Fs, a: nat, c: Block, logged: set<nat>)
    requires a !in logged && a in fs.blocks && fs' == fs.(blocks := fs.blocks[a := c])
    ensures SameLogged(sb, fs, fs', logged)
  {
    forall b | b in logged ensures Content(sb, fs, b) == Content(sb, fs', b) {
      forall j | 0 <= j < D.WORDS ensures ContentWord(sb, fs, b, j) == ContentWord(sb, fs', b, j) {
      }
    }
  }

  /**
   A write transaction on a disk that stands for the file system: after a crash the file has all of its new
   contents or all of its old, and every other file its own.  `kept` is the state that the log makes durable:
   the one in memory, but for a block that a failed copy has torn, which is not logged unless something else
   logged it.  Without it the file holds just the bytes that count.
   */
  method WriteDurably(f: FileSystem, sb: Super, i: nat, off: nat, d: seq<byte>, fault: Option<nat>, torn: nat,
                      ghost disk: C.Image)
    returns (r: int, ghost w: nat, ghost kept: Fs)
    requires LaidOut(f, sb) && C.Quiescent(sb.logstart, disk) && Stands(disk, sb, Now(f))
    requires i < |f.inodes| && f.inodes[i].kind != 0 && off < 0x1_0000_0000 && |d| <= 3 * BSIZE
    modifies f
    ensures LaidOut(f, sb) && |f.logged| <= MAXOPBLOCKS
            && (forall b :: b in f.logged ==> sb.inodestart <= b < sb.size)
    ensures Steady(sb, old(Now(f)), kept, f.logged) && AllOrNothing(disk, sb, old(Now(f)), kept, f.logged)
    ensures SameLogged(sb, Now(f), kept, f.logged) && kept.disk == f.disk && kept.bits == f.bits
    ensures || kept == Now(f)
            || (r >= 0 && SoFar(old(Contents(f.blocks, f.disk[i])), Contents(kept.blocks, f.disk[i]), off, d, r))
    ensures w == r || r == -1 ==> kept == Now(f)
    ensures r >= 0 ==> r <= w <= |d| && off <= old(f.disk[i].size) == |old(Contents(f.blocks, f.disk[i]))|
    ensures r >= 0 ==>
              Contents(f.blocks, f.disk[i]) == Splice(old(Contents(f.blocks, f.disk[i])), off,
                                                      d[..w])[..Longer(old(f.disk[i].size), off + r)]
    ensures r >= 0 ==>
              Halted(off, |d|, fault, torn, r, w,
                     old(Addr(f.blocks, f.disk[i], SlotOf((off + r) / BSIZE))) != 0)
    ensures OthersSame(old(f.blocks), old(f.disk), f.blocks, f.disk, i)
  {
    ghost var fs, u0 := Now(f), f.use;
    NowFits(f, sb);
    r, w := f.WriteLogged(i, off, d, fault, torn);
    if r >= 0 {
      MarksBits(sb.bmapstart, fs.bits, u0, f.bits, f.use, f.logged, DataStart(sb));
    }
    LoggedInside(f, sb);
    kept := Now(f);
    if w != r && r >= 0 {
      ghost var a: nat, c: Block :|
        Undone(fs.blocks, Contents(fs.blocks, fs.disk[i]), f.blocks, f.disk[i], off, d, r, f.logged, a, c);
      if a in f.logged {
        ThroughAnyway(fs.blocks, f.blocks, f.logged, a, c);
      } else {
        kept := kept.(blocks := kept.blocks[a := c]);
        PutBack(sb, Now(f), kept, a, c, f.logged);
      }
    }
    OneInode(sb, fs, kept, f.logged, i);
    AtomicStep(disk, sb, fs, kept, f.logged);
  }

  lemma ThroughAnyway(b0: map<nat, Block>, blocks: map<nat, Block>, logged: set<nat>, a: nat, c: Block)
    requires a in blocks && Through(b0, blocks[a := c], logged) && a in logged
    ensures Through(b0, blocks, logged)
  {
    forall b | b in b0 && b in blocks && blocks[b] != b0[b] ensures b in logged {
      assert b != a ==> blocks[a := c][b] == blocks[b];
    }
  }

  /** One inode block and bitmap blocks: no more than there are. */
  lemma FewLogged(start: nat, size: nat, x: nat, logged: set<nat>)
    requires BitmapOnly(start, size, {x}, logged)
    ensures |logged| <= size / BPB + 2
  {
    var r := Range(start, start + size / BPB + 1);
    SmallerSet(logged, r + {x});
    AddOne(r, x);
  }

  /**
   The last reference to a file without links goes: after a crash the file is there with all its blocks, or
   not at all.  The blocks logged fit the log on every disk of up to twenty-nine bitmap blocks; on a larger
   one they may not, and then there is no order in which the log could commit them.
   */
  method DeleteDurably(f: FileSystem, sb: Super, i: nat, ghost disk: C.Image)
    requires LaidOut(f, sb) && C.Quiescent(sb.logstart, disk) && Stands(disk, sb, Now(f)) && i < |f.inodes|
    modifies f
    ensures LaidOut(f, sb)
            && (forall b :: b in f.logged ==> sb.inodestart <= b < sb.size)
            && Steady(sb, old(Now(f)), Now(f), f.logged) && AllOrNothing(disk, sb, old(Now(f)), Now(f), f.logged)
    ensures |f.logged| <= sb.size / BPB + 2
    ensures f.inodes[i].kind == 0 && f.blocks == old(f.blocks) && f.use == Change(old(f.use), i, 0, SLOTS, Free)
    ensures forall k :: 0 <= k < |f.disk| && k != i ==> f.disk[k] == old(f.disk)[k]
  {
    ghost var fs, u0 := Now(f), f.use;
    NowFits(f, sb);
    f.logged := {};
    f.IputLast(i);
    FewLogged(sb.bmapstart, sb.size, sb.inodestart + i / IPB, f.logged);
    assert MetaBelow(f.use, DataStart(sb)) by {
      assert forall b {:trigger b in f.use} :: 0 <= b < DataStart(sb) ==> b in u0 && u0[b] == Meta;
      assert forall b {:trigger f.use[b]} :: b in f.use && f.use[b] == Meta ==> u0[b] == Meta;
    }
    LoggedInside(f, sb);
    OneInode(sb, fs, Now(f), f.logged, i);
    AtomicStep(disk, sb, fs, Now(f), f.logged);
  }

  /** A new inode: after a crash it is allocated or free. */
  method AllocDurably(f: FileSystem, sb: Super, kind: nat, ghost disk: C.Image) returns (inum: nat)
    requires LaidOut(f, sb) && C.Quiescent(sb.logstart, disk) && Stands(disk, sb, Now(f)) && 0 < kind < 0x1_0000
    modifies f
    ensures LaidOut(f, sb)
            && (forall b :: b in f.logged ==> sb.inodestart <= b < sb.size)
            && |f.logged| <= 1
            && Steady(sb, old(Now(f)), Now(f), f.logged) && AllOrNothing(disk, sb, old(Now(f)), Now(f), f.logged)
    ensures inum == 0 ==> Now(f) == old(Now(f)) && forall k :: 1 <= k < |f.disk| ==> f.disk[k].kind != 0
    ensures inum != 0 ==>
              inum < |f.disk| == |old(f.disk)| && old(f.disk)[inum].kind == 0
              && f.disk == old(f.disk)[inum := Inode(kind, 0, 0, seq(NDIRECT + 1, k => 0))]
  {
    ghost var fs := Now(f);
    NowFits(f, sb);
    f.logged := {};
    inum := f.Ialloc(kind);
    LoggedInside(f, sb);
    if |f.disk| > 0 {
      OneInode(sb, fs, Now(f), f.logged, inum);
    }
    AtomicStep(disk, sb, fs, Now(f), f.logged);
  }
}
