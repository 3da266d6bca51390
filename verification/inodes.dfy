/**
 The on-disk structures of the file system as values: blocks of bytes, the bitmap, inodes with
 twelve direct addresses and one indirect block, and the invariant that ties them together.
 */
module Inodes {
  import opened Common

  const BSIZE := 1024
  const NDIRECT := 12
  const NINDIRECT := 256
  const MAXFILE := 268
  /** Addresses of an inode: direct ones, the indirect block's, and the ones in that block. */
  const SLOTS := 269
  const BPB := 8192
  const IPB := 16

  type Block = b: seq<byte> | |b| == BSIZE witness seq(BSIZE, i => 0)

  /** A 32-bit word of a block, least significant byte first. */
  function Word(b: Block, i: nat): (r: nat)
    requires i < NINDIRECT
    ensures r < 0x1_0000_0000
  {
    (b[4 * i] as int) + 0x100 * (b[4 * i + 1] as int) + 0x1_0000 * (b[4 * i + 2] as int)
    + 0x100_0000 * (b[4 * i + 3] as int)
  }

  function SetWord(b: Block, i: nat, x: nat): (r: Block)
    requires i < NINDIRECT && x < 0x1_0000_0000
  {
    b[4 * i := x % 0x100][4 * i + 1 := x / 0x100 % 0x100][4 * i + 2 := x / 0x1_0000 % 0x100][4 * i + 3 :=
            x / 0x100_0000]
  }

  lemma Bytes4(x: nat)
    requires x < 0x1_0000_0000
    ensures x % 0x100 + 0x100 * (x / 0x100 % 0x100) + 0x1_0000 * (x / 0x1_0000 % 0x100)
            + 0x100_0000 * (x / 0x100_0000) == x
  {
    var a := x / 0x100;
    var b := a / 0x100;
    assert b == x / 0x1_0000;
    assert b / 0x100 == x / 0x100_0000;
  }

  lemma WordSet(b: Block, i: nat, x: nat, j: nat)
    requires i < NINDIRECT && x < 0x1_0000_0000 && j < NINDIRECT
    ensures Word(SetWord(b, i, x), j) == if i == j then x else Word(b, j)
  {
    if i == j {
      Bytes4(x);
    }
  }

  function ZeroBlock(): (r: Block) { seq(BSIZE, i => 0) }

  datatype Inode = Inode(kind: nat, nlink: nat, size: nat, addrs: seq<nat>)

  /** What a block is used for; `Held` is a block in the hand of the code that allocated it. */
  datatype Use = Meta | Free | Held | Slot(inum: nat, slot: nat)

  /** The address in slot `s`, 0 if there is none. */
  function Addr(blocks: map<nat, Block>, ino: Inode, s: nat): (r: nat)
  {
    if |ino.addrs| != NDIRECT + 1 || s >= SLOTS then 0
    else if s <= NDIRECT then ino.addrs[s]
    else if ino.addrs[NDIRECT] == 0 || ino.addrs[NDIRECT] !in blocks then 0
    else Word(blocks[ino.addrs[NDIRECT]], s - NDIRECT - 1)
  }

  /** The slot of the `bn`th block of a file. */
  function SlotOf(bn: nat): (r: nat) { if bn < NDIRECT then bn else bn + 1 }

  /** Every address in an inode is of a block that belongs to that slot, and to it alone. */
  ghost predicate Owned(blocks: map<nat, Block>, inodes: seq<Inode>, use: map<nat, Use>) {
    && (forall i, s {:trigger Addr(blocks, inodes[i], s)} :: 0 <= i < |inodes| && Addr(blocks, inodes[i], s) != 0 ==>
          Addr(blocks, inodes[i], s) in use && use[Addr(blocks, inodes[i], s)] == Slot(i, s))
    && (forall b {:trigger use[b]} :: b in use && use[b].Slot? ==>
          use[b].inum < |inodes| && b != 0 && Addr(blocks, inodes[use[b].inum], use[b].slot) == b)
  }

  /** The bitmap marks exactly the blocks in use. */
  ghost predicate Marked(bits: seq<bool>, blocks: map<nat, Block>, use: map<nat, Use>) {
    && (forall b :: b in use <==> 0 <= b < |bits|)
    && (forall b :: b in use ==> b in blocks)
    && (forall b {:trigger use[b]} {:trigger bits[b]} :: 0 <= b < |bits| ==> (bits[b] <==> use[b] != Free))
    && |bits| < 0x1_0000_0000 && 0 in use && use[0] == Meta
  }

  function Blocks(size: nat): (r: nat)
    ensures r * BSIZE < size + BSIZE && size <= r * BSIZE
  {
    (size + BSIZE - 1) / BSIZE
  }

  /** No unmapped block below a file's size. */
  ghost predicate NoHole(blocks: map<nat, Block>, ino: Inode) {
    && |ino.addrs| == NDIRECT + 1 && ino.size <= MAXFILE * BSIZE
    && forall bn :: 0 <= bn < Blocks(ino.size) ==> Addr(blocks, ino, SlotOf(bn)) != 0
  }

  ghost predicate NoHoles(blocks: map<nat, Block>, inodes: seq<Inode>) {
    forall i {:trigger inodes[i]} :: 0 <= i < |inodes| ==> NoHole(blocks, inodes[i])
  }

  predicate KeyOwn(u: int) { true }
  predicate KeyMark(u: int) { true }
  predicate KeyFull(u: int) { true }

  ghost predicate OwnedOk(blocks: map<nat, Block>, inodes: seq<Inode>, use: map<nat, Use>) {
    forall u {:trigger KeyOwn(u)} :: KeyOwn(u) ==> Owned(blocks, inodes, use)
  }

  ghost predicate MarkedOk(bits: seq<bool>, blocks: map<nat, Block>, use: map<nat, Use>) {
    forall u {:trigger KeyMark(u)} :: KeyMark(u) ==> Marked(bits, blocks, use)
  }

  ghost predicate NoHolesOk(blocks: map<nat, Block>, inodes: seq<Inode>) {
    forall u {:trigger KeyFull(u)} :: KeyFull(u) ==> NoHoles(blocks, inodes)
  }

  /** The file system between operations, and between the steps of one. */
  ghost predicate FsOk(bits: seq<bool>, blocks: map<nat, Block>, inodes: seq<Inode>, use: map<nat, Use>) {
    OwnedOk(blocks, inodes, use) && MarkedOk(bits, blocks, use) && NoHolesOk(blocks, inodes)
  }

  // ---- Looking things up ----

  lemma SlotUse(bits: seq<bool>, blocks: map<nat, Block>, inodes: seq<Inode>, use: map<nat, Use>, i: nat, s: nat)
    requires FsOk(bits, blocks, inodes, use) && i < |inodes| && Addr(blocks, inodes[i], s) != 0
    ensures var a := Addr(blocks, inodes[i], s);
            a in use && use[a] == Slot(i, s) && a < |bits| && bits[a] && a in blocks && s < SLOTS
  {
    assert KeyOwn(0) && KeyMark(0);
  }

  lemma AddrsLen(bits: seq<bool>, blocks: map<nat, Block>, inodes: seq<Inode>, use: map<nat, Use>, i: nat)
    requires FsOk(bits, blocks, inodes, use) && i < |inodes|
    ensures |inodes[i].addrs| == NDIRECT + 1 && inodes[i].size <= MAXFILE * BSIZE
  {
    assert KeyFull(0);
  }

  // ---- Single changes ----

  predicate IsIndirect(u: Use) { u.Slot? && u.slot == NDIRECT }

  lemma Shut(bits: seq<bool>, blocks: map<nat, Block>, inodes: seq<Inode>, use: map<nat, Use>)
    requires Owned(blocks, inodes, use) && Marked(bits, blocks, use) && NoHoles(blocks, inodes)
    ensures FsOk(bits, blocks, inodes, use)
  {
  }

  /** All addresses of all inodes are the same, but for slot `s` of inode `i`, which is now `a`. */
  ghost predicate Readdressed(blocks: map<nat, Block>, inodes: seq<Inode>, blocks': map<nat, Block>,
                              inodes': seq<Inode>, i: nat, s: nat, a: nat) {
    && |inodes'| == |inodes|
    && forall k, t {:trigger Addr(blocks', inodes'[k], t)} {:trigger Addr(blocks, inodes[k], t)} ::
      0 <= k < |inodes| && 0 <= t ==>
         Addr(blocks', inodes'[k], t) == if k == i && t == s then a else Addr(blocks, inodes[k], t)
  }

  ghost predicate SameAddrs(blocks: map<nat, Block>, inodes: seq<Inode>, blocks': map<nat, Block>) {
    forall k, t {:trigger Addr(blocks', inodes[k], t)} {:trigger Addr(blocks, inodes[k], t)} ::
      0 <= k < |inodes| && 0 <= t ==>
      Addr(blocks', inodes[k], t) == Addr(blocks, inodes[k], t)
  }

  lemma OwnedSame(blocks: map<nat, Block>, inodes: seq<Inode>, use: map<nat, Use>, blocks': map<nat, Block>,
                  use': map<nat, Use>)
    requires Owned(blocks, inodes, use) && SameAddrs(blocks, inodes, blocks') && use'.Keys == use.Keys
    requires forall b {:trigger use[b]} {:trigger use'[b]} :: b in use && (use[b].Slot? || use'[b].Slot?) ==>
               use'[b] == use[b]
    ensures Owned(blocks', inodes, use')
  {
  }

  lemma OwnedLink(blocks: map<nat, Block>, inodes: seq<Inode>, use: map<nat, Use>, blocks': map<nat, Block>,
                  inodes': seq<Inode>, i: nat, s: nat, a: nat)
    requires Owned(blocks, inodes, use) && Readdressed(blocks, inodes, blocks', inodes', i, s, a)
    requires i < |inodes| && Addr(blocks, inodes[i], s) == 0 && a != 0 && a in use && use[a] == Held
    ensures Owned(blocks', inodes', use[a := Slot(i, s)])
  {
  }

  lemma OwnedUnlink(blocks: map<nat, Block>, inodes: seq<Inode>, use: map<nat, Use>, blocks': map<nat, Block>,
                    inodes': seq<Inode>, i: nat, s: nat, a: nat)
    requires Owned(blocks, inodes, use) && Readdressed(blocks, inodes, blocks', inodes', i, s, 0)
    requires i < |inodes| && Addr(blocks, inodes[i], s) == a != 0
    ensures a in use && Owned(blocks', inodes', use[a := Held])
  {
  }

  /** A block that is not an indirect block may change without changing any address. */
  lemma NotIndirect(blocks: map<nat, Block>, inodes: seq<Inode>, use: map<nat, Use>, b: nat, c: Block)
    requires Owned(blocks, inodes, use) && b in use && b in blocks && !IsIndirect(use[b])
    ensures SameAddrs(blocks, inodes, blocks[b := c])
  {
    forall k, t | 0 <= k < |inodes| && 0 <= t ensures Addr(blocks[b := c], inodes[k], t) == Addr(blocks, inodes[k], t) {
      assert Addr(blocks, inodes[k], NDIRECT) != b || b == 0;
    }
  }

  lemma NoHolesSame(blocks: map<nat, Block>, inodes: seq<Inode>, blocks': map<nat, Block>)
    requires NoHoles(blocks, inodes) && SameAddrs(blocks, inodes, blocks')
    ensures NoHoles(blocks', inodes)
  {
  }

  /** Writing a block that is not an indirect block. */
  lemma PutData(bits: seq<bool>, blocks: map<nat, Block>, inodes: seq<Inode>, use: map<nat, Use>, b: nat, c: Block)
    requires FsOk(bits, blocks, inodes, use) && b in use && !IsIndirect(use[b])
    ensures b in blocks && FsOk(bits, blocks[b := c], inodes, use) && SameAddrs(blocks, inodes, blocks[b := c])
  {
    assert KeyOwn(0) && KeyMark(0) && KeyFull(0);
    NotIndirect(blocks, inodes, use, b, c);
    OwnedSame(blocks, inodes, use, blocks[b := c], use);
    NoHolesSame(blocks, inodes, blocks[b := c]);
    Shut(bits, blocks[b := c], inodes, use);
  }

  /** Marking a free block as used and clearing it. */
  lemma TakeBlock(bits: seq<bool>, blocks: map<nat, Block>, inodes: seq<Inode>, use: map<nat, Use>, b: nat,
                  bits': seq<bool>, blocks': map<nat, Block>, use': map<nat, Use>)
    requires FsOk(bits, blocks, inodes, use) && b < |bits| && !bits[b]
    requires bits' == bits[b := true] && blocks' == blocks[b := ZeroBlock()] && use' == use[b := Held]
    ensures FsOk(bits', blocks', inodes, use') && SameAddrs(blocks, inodes, blocks') && b in use && use[b] == Free
            && b != 0
  {
    assert KeyOwn(0) && KeyMark(0) && KeyFull(0);
    NotIndirect(blocks, inodes, use, b, ZeroBlock());
    OwnedSame(blocks, inodes, use, blocks', use');
    NoHolesSame(blocks, inodes, blocks');
    Shut(bits', blocks', inodes, use');
  }

  lemma GiveBlock(bits: seq<bool>, blocks: map<nat, Block>, inodes: seq<Inode>, use: map<nat, Use>, b: nat,
                  bits': seq<bool>, use': map<nat, Use>)
    requires FsOk(bits, blocks, inodes, use) && b in use && use[b] == Held && b < |bits|
    requires bits' == bits[b := false] && use' == use[b := Free]
    ensures bits[b] && FsOk(bits', blocks, inodes, use')
  {
    assert KeyOwn(0) && KeyMark(0) && KeyFull(0);
    OwnedSame(blocks, inodes, use, blocks, use');
    Shut(bits', blocks, inodes, use');
  }

  lemma ZeroWord(j: nat)
    requires j < NINDIRECT
    ensures Word(ZeroBlock(), j) == 0
  {
  }

  /** Storing an address in the inode itself. */
  lemma SlotReaddressed(blocks: map<nat, Block>, inodes: seq<Inode>, i: nat, s: nat, a: nat, inodes': seq<Inode>)
    requires i < |inodes| && |inodes[i].addrs| == NDIRECT + 1 && s <= NDIRECT
    requires inodes' == inodes[i := inodes[i].(addrs := inodes[i].addrs[s := a])]
    requires s == NDIRECT ==> inodes[i].addrs[s] == 0 && a in blocks && blocks[a] == ZeroBlock()
    ensures Readdressed(blocks, inodes, blocks, inodes', i, s, a)
  {
    forall k, t | 0 <= k < |inodes| && 0 <= t
      ensures Addr(blocks, inodes'[k], t) == if k == i && t == s then a else Addr(blocks, inodes[k], t) {
      if k == i && s == NDIRECT < t < SLOTS {
        ZeroWord(t - NDIRECT - 1);
      }
    }
  }

  /** More addresses make no holes. */
  lemma NoHolesMore(blocks: map<nat, Block>, inodes: seq<Inode>, blocks': map<nat, Block>, inodes': seq<Inode>, i: nat,
                    s: nat, a: nat)
    requires NoHoles(blocks, inodes) && Readdressed(blocks, inodes, blocks', inodes', i, s, a) && a != 0
    requires forall k :: 0 <= k < |inodes| ==>
               inodes'[k].size == inodes[k].size && |inodes'[k].addrs| == |inodes[k].addrs|
    ensures NoHoles(blocks', inodes')
  {
    forall k | 0 <= k < |inodes'| ensures NoHole(blocks', inodes'[k]) {
      assert NoHole(blocks, inodes[k]);
      forall bn | 0 <= bn < Blocks(inodes'[k].size) ensures Addr(blocks', inodes'[k], SlotOf(bn)) != 0 {
        assert Addr(blocks, inodes[k], SlotOf(bn)) != 0;
      }
    }
  }

  lemma LinkSlot(bits: seq<bool>, blocks: map<nat, Block>, inodes: seq<Inode>, use: map<nat, Use>, i: nat, s: nat,
                 a: nat,
                 inodes': seq<Inode>, use': map<nat, Use>)
    requires FsOk(bits, blocks, inodes, use) && i < |inodes| && |inodes[i].addrs| == NDIRECT + 1 && s <= NDIRECT
             && inodes[i].addrs[s] == 0
    requires a in use && use[a] == Held && a != 0 && (s == NDIRECT ==> a in blocks && blocks[a] == ZeroBlock())
    requires inodes' == inodes[i := inodes[i].(addrs := inodes[i].addrs[s := a])] && use' == use[a := Slot(i, s)]
    ensures FsOk(bits, blocks, inodes', use') && Readdressed(blocks, inodes, blocks, inodes', i, s, a)
  {
    assert KeyOwn(0) && KeyMark(0) && KeyFull(0);
    SlotReaddressed(blocks, inodes, i, s, a, inodes');
    OwnedLink(blocks, inodes, use, blocks, inodes', i, s, a);
    NoHolesMore(blocks, inodes, blocks, inodes', i, s, a);
    Shut(bits, blocks, inodes', use');
  }

  /** Storing an address in the indirect block of inode `i`, which is its alone. */
  lemma EntryReaddressed(blocks: map<nat, Block>, inodes: seq<Inode>, use: map<nat, Use>, i: nat, j: nat, a: nat,
                         b: nat, blocks': map<nat, Block>)
    requires Owned(blocks, inodes, use) && i < |inodes| && |inodes[i].addrs| == NDIRECT + 1
             && inodes[i].addrs[NDIRECT] == b != 0 && b in blocks
    requires j < NINDIRECT && a < 0x1_0000_0000 && blocks' == blocks[b := SetWord(blocks[b], j, a)]
    ensures Readdressed(blocks, inodes, blocks', inodes, i, NDIRECT + 1 + j, a)
  {
    forall k, t | 0 <= k < |inodes| && 0 <= t
      ensures Addr(blocks', inodes[k], t) == if k == i && t == NDIRECT + 1 + j then a else Addr(blocks, inodes[k], t) {
      assert Addr(blocks, inodes[i], NDIRECT) == b;
      assert Addr(blocks, inodes[k], NDIRECT) == b ==> k == i;
      if k == i && NDIRECT < t < SLOTS {
        WordSet(blocks[b], j, a, t - NDIRECT - 1);
      }
    }
  }

  lemma LinkEntry(bits: seq<bool>, blocks: map<nat, Block>, inodes: seq<Inode>, use: map<nat, Use>, i: nat, j: nat,
                  a: nat, b: nat, s: nat,
                  blocks': map<nat, Block>, use': map<nat, Use>)
    requires FsOk(bits, blocks, inodes, use) && i < |inodes| && |inodes[i].addrs| == NDIRECT + 1
             && inodes[i].addrs[NDIRECT] == b != 0
    requires j < NINDIRECT && s == NDIRECT + 1 + j && Addr(blocks, inodes[i], s) == 0 && b in blocks
    requires a in use && use[a] == Held && a != 0 && a < 0x1_0000_0000
    requires blocks' == blocks[b := SetWord(blocks[b], j, a)] && use' == use[a := Slot(i, s)]
    ensures FsOk(bits, blocks', inodes, use') && Readdressed(blocks, inodes, blocks', inodes, i, s, a)
  {
    assert KeyOwn(0) && KeyMark(0) && KeyFull(0);
    EntryReaddressed(blocks, inodes, use, i, j, a, b, blocks');
    OwnedLink(blocks, inodes, use, blocks', inodes, i, s, a);
    NoHolesMore(blocks, inodes, blocks', inodes, i, s, a);
    Shut(bits, blocks', inodes, use');
  }

  /** Inode `i` changes other than in its addresses. */
  lemma PutInode(bits: seq<bool>, blocks: map<nat, Block>, inodes: seq<Inode>, use: map<nat, Use>, i: nat, ino: Inode,
                 inodes': seq<Inode>)
    requires FsOk(bits, blocks, inodes, use) && i < |inodes| && ino.addrs == inodes[i].addrs && NoHole(blocks, ino)
    requires inodes' == inodes[i := ino]
    ensures FsOk(bits, blocks, inodes', use)
    ensures forall k, t {:trigger Addr(blocks, inodes'[k], t)} :: 0 <= k < |inodes| && 0 <= t ==>
              Addr(blocks, inodes'[k], t) == Addr(blocks, inodes[k], t)
  {
    assert KeyOwn(0) && KeyMark(0) && KeyFull(0);
    forall k, t {:trigger Addr(blocks, inodes'[k], t)} | 0 <= k < |inodes| && 0 <= t
      ensures Addr(blocks, inodes'[k], t) == Addr(blocks, inodes[k], t) {
    }
    assert Owned(blocks, inodes', use);
    Shut(bits, blocks, inodes', use);
  }

  /** Clearing a direct slot of an empty file leaves its block in hand. */
  lemma UnlinkSlot(bits: seq<bool>, blocks: map<nat, Block>, inodes: seq<Inode>, use: map<nat, Use>, i: nat, s: nat,
                   a: nat,
                   inodes': seq<Inode>, use': map<nat, Use>)
    requires FsOk(bits, blocks, inodes, use) && i < |inodes| && |inodes[i].addrs| == NDIRECT + 1 && s < NDIRECT
    requires inodes[i].addrs[s] == a != 0 && inodes[i].size == 0
    requires inodes' == inodes[i := inodes[i].(addrs := inodes[i].addrs[s := 0])] && use' == use[a := Held]
    ensures a in use && FsOk(bits, blocks, inodes', use') && Readdressed(blocks, inodes, blocks, inodes', i, s, 0)
  {
    assert KeyOwn(0) && KeyMark(0) && KeyFull(0);
    SlotReaddressed(blocks, inodes, i, s, 0, inodes');
    assert Addr(blocks, inodes[i], s) == a;
    OwnedUnlink(blocks, inodes, use, blocks, inodes', i, s, a);
    forall k | 0 <= k < |inodes'| ensures NoHole(blocks, inodes'[k]) {
      assert NoHole(blocks, inodes[k]);
    }
    Shut(bits, blocks, inodes', use');
  }

  /** The indirect block of inode `i` and the blocks listed in it, all in hand. */
  ghost function Detach(use: map<nat, Use>, i: nat): (r: map<nat, Use>) {
    map b | b in use :: if use[b].Slot? && use[b].inum == i && use[b].slot >= NDIRECT then Held else use[b]
  }

  lemma Unindirect(bits: seq<bool>, blocks: map<nat, Block>, inodes: seq<Inode>, use: map<nat, Use>, i: nat,
                   inodes': seq<Inode>, use': map<nat, Use>)
    requires FsOk(bits, blocks, inodes, use) && i < |inodes| && |inodes[i].addrs| == NDIRECT + 1 && inodes[i].size == 0
    requires inodes' == inodes[i := inodes[i].(addrs := inodes[i].addrs[NDIRECT := 0])] && use' == Detach(use, i)
    ensures FsOk(bits, blocks, inodes', use')
  {
    assert KeyOwn(0) && KeyMark(0) && KeyFull(0);
    forall k, t {:trigger Addr(blocks, inodes'[k], t)} | 0 <= k < |inodes| && 0 <= t
      ensures Addr(blocks, inodes'[k], t) == if k == i && t >= NDIRECT then 0 else Addr(blocks, inodes[k], t) {
    }
    assert Owned(blocks, inodes', use');
    forall k | 0 <= k < |inodes'| ensures NoHole(blocks, inodes'[k]) {
      assert NoHole(blocks, inodes[k]);
    }
    Shut(bits, blocks, inodes', use');
  }

  // ---- File contents ----

  /** Byte `p` of a file. */
  function FileAt(blocks: map<nat, Block>, ino: Inode, p: nat): (r: byte) {
    var a := Addr(blocks, ino, SlotOf(p / BSIZE));
    if a != 0 && a in blocks then blocks[a][p % BSIZE] else 0
  }

  /** The bytes of a file. */
  function Contents(blocks: map<nat, Block>, ino: Inode): (r: seq<byte>)
    ensures |r| == ino.size
  {
    seq(ino.size, p requires 0 <= p => FileAt(blocks, ino, p))
  }

  predicate KeyKept(u: int) { true }

  /** Addresses are only added, and no file but `x` has a data block changed. */
  ghost predicate Kept(blocks: map<nat, Block>, inodes: seq<Inode>, use: map<nat, Use>,
                       blocks': map<nat, Block>, inodes': seq<Inode>, use': map<nat, Use>, x: nat)
  {
    && |inodes'| == |inodes|
    && (forall k :: 0 <= k < |inodes| ==> inodes'[k].size == inodes[k].size)
    && (forall k, t {:trigger Addr(blocks, inodes[k], t)} {:trigger Addr(blocks', inodes'[k], t)} ::
        0 <= k < |inodes| && Addr(blocks, inodes[k], t) != 0 ==>
          Addr(blocks', inodes'[k], t) == Addr(blocks, inodes[k], t))
    && (forall b {:trigger use[b]} {:trigger blocks[b]} {:trigger blocks'[b]} :: b in use && use[b].Slot? ==>
          && b in use' && use'[b] == use[b] && b in blocks && b in blocks'
          && (use[b].slot != NDIRECT && use[b].inum != x ==> blocks'[b] == blocks[b]))
  }

  ghost predicate KeptOk(blocks: map<nat, Block>, inodes: seq<Inode>, use: map<nat, Use>,
                         blocks': map<nat, Block>, inodes': seq<Inode>, use': map<nat, Use>, x: nat)
  {
    && |inodes'| == |inodes| && (forall k :: 0 <= k < |inodes| ==> inodes'[k].size == inodes[k].size)
    && forall u {:trigger KeyKept(u)} :: KeyKept(u) ==> Kept(blocks, inodes, use, blocks', inodes', use', x)
  }

  /** An address that is there stays. */
  lemma StillAddr(b1: map<nat, Block>, n1: seq<Inode>, u1: map<nat, Use>, b2: map<nat, Block>, n2: seq<Inode>,
                  u2: map<nat, Use>, x: nat, k: nat, s: nat)
    requires KeptOk(b1, n1, u1, b2, n2, u2, x) && k < |n1|
    ensures Addr(b1, n1[k], s) != 0 ==> Addr(b2, n2[k], s) == Addr(b1, n1[k], s)
  {
    assert KeyKept(0);
  }

  lemma KeptSelf(bits: seq<bool>, blocks: map<nat, Block>, inodes: seq<Inode>, use: map<nat, Use>, x: nat)
    requires FsOk(bits, blocks, inodes, use)
    ensures KeptOk(blocks, inodes, use, blocks, inodes, use, x)
  {
    assert KeyMark(0);
  }

  lemma KeptTrans(b1: map<nat, Block>, n1: seq<Inode>, u1: map<nat, Use>, b2: map<nat, Block>, n2: seq<Inode>,
                  u2: map<nat, Use>,
                  b3: map<nat, Block>, n3: seq<Inode>, u3: map<nat, Use>, x: nat)
    requires KeptOk(b1, n1, u1, b2, n2, u2, x) && KeptOk(b2, n2, u2, b3, n3, u3, x)
    ensures KeptOk(b1, n1, u1, b3, n3, u3, x)
  {
    assert KeyKept(0);
  }

  lemma KeptWiden(b1: map<nat, Block>, n1: seq<Inode>, u1: map<nat, Use>, b2: map<nat, Block>, n2: seq<Inode>,
                  u2: map<nat, Use>, x: nat)
    requires KeptOk(b1, n1, u1, b2, n2, u2, |n1|) && OwnedOk(b1, n1, u1)
    ensures KeptOk(b1, n1, u1, b2, n2, u2, x)
  {
    assert KeyKept(0) && KeyOwn(0);
  }

  /** A mapped byte of a file that no one wrote to. */
  lemma KeptByte(bits: seq<bool>, b1: map<nat, Block>, n1: seq<Inode>, u1: map<nat, Use>, b2: map<nat, Block>,
                 n2: seq<Inode>, u2: map<nat, Use>,
                 x: nat, k: nat, p: nat)
    requires FsOk(bits, b1, n1, u1) && KeptOk(b1, n1, u1, b2, n2, u2, x) && k < |n1| && k != x
             && Addr(b1, n1[k], SlotOf(p / BSIZE)) != 0
    ensures FileAt(b2, n2[k], p) == FileAt(b1, n1[k], p)
  {
    SlotUse(bits, b1, n1, u1, k, SlotOf(p / BSIZE));
    assert KeyKept(0);
  }

  lemma BelowSize(bits: seq<bool>, blocks: map<nat, Block>, inodes: seq<Inode>, use: map<nat, Use>, k: nat, p: nat)
    requires FsOk(bits, blocks, inodes, use) && k < |inodes| && p < inodes[k].size
    ensures Addr(blocks, inodes[k], SlotOf(p / BSIZE)) != 0
  {
    assert KeyFull(0);
  }

  /** Whole files that no one wrote to. */
  lemma KeptFile(bits: seq<bool>, b1: map<nat, Block>, n1: seq<Inode>, u1: map<nat, Use>, b2: map<nat, Block>,
                 n2: seq<Inode>, u2: map<nat, Use>,
                 x: nat, k: nat)
    requires FsOk(bits, b1, n1, u1) && KeptOk(b1, n1, u1, b2, n2, u2, x) && k < |n1| && k != x
    ensures Contents(b2, n2[k]) == Contents(b1, n1[k])
  {
    forall p | 0 <= p < n1[k].size ensures FileAt(b2, n2[k], p) == FileAt(b1, n1[k], p) {
      BelowSize(bits, b1, n1, u1, k, p);
      KeptByte(bits, b1, n1, u1, b2, n2, u2, x, k, p);
    }
  }

  // The single changes, seen from the files.

  lemma PutKept(bits: seq<bool>, blocks: map<nat, Block>, inodes: seq<Inode>, use: map<nat, Use>, b: nat, c: Block,
                i: nat)
    requires FsOk(bits, blocks, inodes, use) && b in use && use[b].Slot? && use[b].inum == i && use[b].slot != NDIRECT
    ensures KeptOk(blocks, inodes, use, blocks[b := c], inodes, use, i)
  {
    PutData(bits, blocks, inodes, use, b, c);
    assert KeyMark(0);
  }

  lemma TakeKept(bits: seq<bool>, blocks: map<nat, Block>, inodes: seq<Inode>, use: map<nat, Use>, b: nat, x: nat,
                 bits': seq<bool>, blocks': map<nat, Block>, use': map<nat, Use>)
    requires FsOk(bits, blocks, inodes, use) && b < |bits| && !bits[b]
    requires bits' == bits[b := true] && blocks' == blocks[b := ZeroBlock()] && use' == use[b := Held]
    ensures KeptOk(blocks, inodes, use, blocks', inodes, use', x)
  {
    TakeBlock(bits, blocks, inodes, use, b, bits', blocks', use');
    assert KeyMark(0);
  }

  lemma LinkKept(bits: seq<bool>, blocks: map<nat, Block>, inodes: seq<Inode>, use: map<nat, Use>,
                 blocks': map<nat, Block>, inodes': seq<Inode>,
                 i: nat, s: nat, a: nat, x: nat)
    requires FsOk(bits, blocks, inodes, use) && Readdressed(blocks, inodes, blocks', inodes', i, s, a) && i < |inodes|
             && Addr(blocks, inodes[i], s) == 0
    requires a in use && use[a] == Held
    requires forall k :: 0 <= k < |inodes| ==> inodes'[k].size == inodes[k].size
    requires blocks.Keys <= blocks'.Keys
             && forall b :: b in use && use[b].Slot? && use[b].slot != NDIRECT && b in blocks ==>
               blocks'[b] == blocks[b]
    ensures KeptOk(blocks, inodes, use, blocks', inodes', use[a := Slot(i, s)], x)
  {
    assert KeyMark(0);
  }

  // ---- Writing into a block of a file ----

  function Splice(s: seq<byte>, o: nat, d: seq<byte>): (r: seq<byte>)
    requires o <= |s|
    ensures |r| == if o + |d| <= |s| then |s| else o + |d|
  {
    s[..o] + d + if o + |d| <= |s| then s[o + |d|..] else []
  }

  lemma SpliceAt(s: seq<byte>, o: nat, d: seq<byte>, q: nat)
    requires o <= |s| && q < |Splice(s, o, d)|
    ensures Splice(s, o, d)[q] == if o <= q < o + |d| then d[q - o] else s[q]
  {
  }

  /** Writing `d` at offset `o` of file block `bn` changes those bytes of that file only. */
  lemma BlockWritten(bits: seq<bool>, blocks: map<nat, Block>, inodes: seq<Inode>, use: map<nat, Use>, i: nat, bn: nat,
                     a: nat, o: nat, d: seq<byte>,
                     c: Block, p: nat)
    requires FsOk(bits, blocks, inodes, use) && i < |inodes| && a == Addr(blocks, inodes[i], SlotOf(bn)) != 0
             && a in blocks
    requires o + |d| <= BSIZE && c == Splice(blocks[a], o, d)
    ensures FileAt(blocks[a := c], inodes[i], p) == if p / BSIZE == bn && o <= p % BSIZE < o + |d| then d[p % BSIZE - o]
            else FileAt(blocks, inodes[i], p)
  {
    SlotUse(bits, blocks, inodes, use, i, SlotOf(bn));
    PutData(bits, blocks, inodes, use, a, c);
    var s := SlotOf(p / BSIZE);
    if Addr(blocks, inodes[i], s) != 0 {
      SlotUse(bits, blocks, inodes, use, i, s);
    }
    SpliceAt(blocks[a], o, d, p % BSIZE);
  }

  /** All blocks of a file below `n` are there. */
  ghost predicate Mapped(blocks: map<nat, Block>, ino: Inode, n: nat) {
    forall bn :: 0 <= bn < n ==> Addr(blocks, ino, SlotOf(bn)) != 0
  }

  /** The state of a write of `src` at `off` after `tot` bytes: where the file stands against what it was. */
  ghost predicate Written(b0: map<nat, Block>, ino0: Inode, blocks: map<nat, Block>, ino: Inode, off: nat,
                          src: seq<byte>, tot: nat)
    requires tot <= |src|
  {
    && (forall p {:trigger FileAt(blocks, ino, p)} :: off <= p < off + tot ==> FileAt(blocks, ino, p) == src[p - off])
    && (forall p {:trigger FileAt(blocks, ino, p)} :: 0 <= p < ino0.size && !(off <= p < off + tot) ==>
        FileAt(blocks, ino, p) == FileAt(b0, ino0, p))
  }

  /** Allocation between two chunks of a write changes nothing yet written. */
  lemma WrittenKept(bits: seq<bool>, b0: map<nat, Block>, ino0: Inode, b1: map<nat, Block>, n1: seq<Inode>,
                    u1: map<nat, Use>,
                    b2: map<nat, Block>, n2: seq<Inode>, u2: map<nat, Use>, i: nat, off: nat, src: seq<byte>, tot: nat)
    requires FsOk(bits, b1, n1, u1) && KeptOk(b1, n1, u1, b2, n2, u2, |n1|) && i < |n1| && tot <= |src|
    requires Written(b0, ino0, b1, n1[i], off, src, tot) && Mapped(b1, n1[i], Blocks(ino0.size))
             && Mapped(b1, n1[i], Blocks(off + tot))
    ensures Written(b0, ino0, b2, n2[i], off, src, tot)
    ensures Mapped(b2, n2[i], Blocks(ino0.size)) && Mapped(b2, n2[i], Blocks(off + tot))
  {
    forall p | 0 <= p < ino0.size || off <= p < off + tot ensures FileAt(b2, n2[i], p) == FileAt(b1, n1[i], p) {
      assert Addr(b1, n1[i], SlotOf(p / BSIZE)) != 0;
      KeptByte(bits, b1, n1, u1, b2, n2, u2, |n1|, i, p);
    }
    assert KeyKept(0);
  }

  /** One more chunk: `m` bytes of `src` at the current offset, inside one block. */
  lemma WrittenNext(bits: seq<bool>, b0: map<nat, Block>, ino0: Inode, blocks: map<nat, Block>, inodes: seq<Inode>,
                    use: map<nat, Use>,
                    i: nat, off: nat, src: seq<byte>, tot: nat, m: nat, a: nat, c: Block)
    requires FsOk(bits, blocks, inodes, use) && i < |inodes| && tot + m <= |src|
    requires Written(b0, ino0, blocks, inodes[i], off, src, tot)
    requires a == Addr(blocks, inodes[i], SlotOf((off + tot) / BSIZE)) != 0 && a in blocks
             && (off + tot) % BSIZE + m <= BSIZE
    requires c == Splice(blocks[a], (off + tot) % BSIZE, src[tot..tot + m])
    ensures Written(b0, ino0, blocks[a := c], inodes[i], off, src, tot + m)
  {
    var o, d := (off + tot) % BSIZE, src[tot..tot + m];
    var blocks' := blocks[a := c];
    forall p: nat {:trigger FileAt(blocks', inodes[i], p)}
      ensures FileAt(blocks', inodes[i], p) == if off + tot <= p < off + tot + m then src[p - off]
              else FileAt(blocks, inodes[i], p) {
      BlockWritten(bits, blocks, inodes, use, i, (off + tot) / BSIZE, a, o, d, c, p);
      InBlock(off + tot, m, p);
    }
  }

  lemma InBlock(x: nat, m: nat, p: nat)
    requires x % BSIZE + m <= BSIZE
    ensures (p / BSIZE == x / BSIZE && x % BSIZE <= p % BSIZE < x % BSIZE + m) <==> x <= p < x + m
    ensures x <= p < x + m ==> p % BSIZE - x % BSIZE == p - x
  {
  }

  lemma MappedNext(blocks: map<nat, Block>, ino: Inode, blocks': map<nat, Block>, x: nat, m: nat)
    requires Mapped(blocks, ino, Blocks(x)) && Addr(blocks, ino, SlotOf(x / BSIZE)) != 0 && x % BSIZE + m <= BSIZE
    requires forall s :: 0 <= s ==> Addr(blocks', ino, s) == Addr(blocks, ino, s)
    ensures Mapped(blocks', ino, Blocks(x + m))
  {
    forall bn | 0 <= bn < Blocks(x + m) ensures Addr(blocks', ino, SlotOf(bn)) != 0 {
      assert bn < Blocks(x) || bn == x / BSIZE;
    }
  }

  lemma StillIndirect(b1: map<nat, Block>, n1: seq<Inode>, u1: map<nat, Use>, b2: map<nat, Block>, n2: seq<Inode>,
                      u2: map<nat, Use>, i: nat)
    requires KeptOk(b1, n1, u1, b2, n2, u2, |n1|) && i < |n1|
    ensures Addr(b1, n1[i], NDIRECT) != 0 ==> Addr(b2, n2[i], NDIRECT) == Addr(b1, n1[i], NDIRECT)
  {
    assert KeyKept(0);
  }

  predicate KeyWrite(u: int) { true }

  /** The same, with all blocks below the old size and below the current offset there, and only addresses changed. */
  ghost predicate WrittenAll(b0: map<nat, Block>, n0: seq<Inode>, blocks: map<nat, Block>, inodes: seq<Inode>, i: nat,
                             off: nat, src: seq<byte>, tot: nat)
    requires tot <= |src| && i < |n0| == |inodes|
  {
    && Written(b0, n0[i], blocks, inodes[i], off, src, tot)
    && Mapped(blocks, inodes[i], Blocks(n0[i].size)) && Mapped(blocks, inodes[i], Blocks(off + tot))
    && (forall k :: 0 <= k < |inodes| ==> inodes[k] == if k == i then n0[k].(addrs := inodes[k].addrs) else n0[k])
  }

  ghost predicate WrittenOk(b0: map<nat, Block>, n0: seq<Inode>, blocks: map<nat, Block>, inodes: seq<Inode>, i: nat,
                            off: nat, src: seq<byte>, tot: nat) {
    && tot <= |src| && i < |n0| == |inodes|
    && forall u {:trigger KeyWrite(u)} :: KeyWrite(u) ==> WrittenAll(b0, n0, blocks, inodes, i, off, src, tot)
  }

  lemma WrittenOkKept(bits: seq<bool>, b0: map<nat, Block>, n0: seq<Inode>, b1: map<nat, Block>, n1: seq<Inode>,
                      u1: map<nat, Use>,
                      b2: map<nat, Block>, n2: seq<Inode>, u2: map<nat, Use>, i: nat, off: nat, src: seq<byte>,
                      tot: nat)
    requires FsOk(bits, b1, n1, u1) && KeptOk(b1, n1, u1, b2, n2, u2, |n1|)
             && WrittenOk(b0, n0, b1, n1, i, off, src, tot)
    requires forall k :: 0 <= k < |n2| ==> n2[k] == if k == i then n1[k].(addrs := n2[k].addrs) else n1[k]
    ensures WrittenOk(b0, n0, b2, n2, i, off, src, tot)
  {
    assert KeyWrite(0);
    WrittenKept(bits, b0, n0[i], b1, n1, u1, b2, n2, u2, i, off, src, tot);
  }

  lemma WrittenOkNext(bits: seq<bool>, b0: map<nat, Block>, n0: seq<Inode>, blocks: map<nat, Block>, inodes: seq<Inode>,
                      use: map<nat, Use>,
                      i: nat, off: nat, src: seq<byte>, tot: nat, m: nat, next: nat, a: nat, c: Block)
    requires FsOk(bits, blocks, inodes, use) && WrittenOk(b0, n0, blocks, inodes, i, off, src, tot)
             && tot + m == next <= |src|
    requires a == Addr(blocks, inodes[i], SlotOf((off + tot) / BSIZE)) != 0 && a in blocks
             && (off + tot) % BSIZE + m <= BSIZE
    requires c == Splice(blocks[a], (off + tot) % BSIZE, src[tot..tot + m])
    ensures WrittenOk(b0, n0, blocks[a := c], inodes, i, off, src, next)
  {
    assert KeyWrite(0);
    SlotUse(bits, blocks, inodes, use, i, SlotOf((off + tot) / BSIZE));
    WrittenNext(bits, b0, n0[i], blocks, inodes, use, i, off, src, tot, m, a, c);
    PutData(bits, blocks, inodes, use, a, c);
    MappedNext(blocks, inodes[i], blocks[a := c], off + tot, m);
  }

  /** The inode after a write that ends at `end`. */
  function Resized(ino: Inode, end: nat): (r: Inode) { if end > ino.size then ino.(size := end) else ino }

  lemma SameFileAt(blocks: map<nat, Block>, ino: Inode, ino2: Inode, p: nat)
    requires ino2.addrs == ino.addrs
    ensures FileAt(blocks, ino2, p) == FileAt(blocks, ino, p)
  {
  }

  /** A finished write: `w` bytes changed, of which the first `tot` count for the size. */
  lemma WriteDone(b0: map<nat, Block>, n0: seq<Inode>, blocks: map<nat, Block>, inodes: seq<Inode>, i: nat, off: nat,
                  src: seq<byte>, tot: nat, w: nat)
    requires WrittenOk(b0, n0, blocks, inodes, i, off, src, w) && tot <= w && off <= n0[i].size <= MAXFILE * BSIZE
    requires off + tot <= MAXFILE * BSIZE && |inodes[i].addrs| == NDIRECT + 1
    ensures var ino := Resized(inodes[i], off + tot);
            NoHole(blocks, ino) && ino == Resized(n0[i], off + tot).(addrs := ino.addrs)
            && (forall k :: 0 <= k < |inodes| && k != i ==> inodes[k] == n0[k]) &&
            Contents(blocks, ino) == Splice(Contents(b0, n0[i]), off, src[..w])[..ino.size]
  {
    assert KeyWrite(0);
    var ino, was := Resized(inodes[i], off + tot), Splice(Contents(b0, n0[i]), off, src[..w]);
    forall p | 0 <= p < ino.size ensures FileAt(blocks, ino, p) == was[p] {
      SameFileAt(blocks, inodes[i], ino, p);
      SpliceAt(Contents(b0, n0[i]), off, src[..w], p);
    }
    forall bn | 0 <= bn < Blocks(ino.size) ensures Addr(blocks, ino, SlotOf(bn)) != 0 {
      assert Addr(blocks, ino, SlotOf(bn)) == Addr(blocks, inodes[i], SlotOf(bn));
      assert bn < Blocks(n0[i].size) || bn < Blocks(off + w);
    }
  }

  lemma StartWrite(bits: seq<bool>, blocks: map<nat, Block>, inodes: seq<Inode>, use: map<nat, Use>, i: nat, off: nat,
                   src: seq<byte>)
    requires FsOk(bits, blocks, inodes, use) && i < |inodes| && off <= inodes[i].size
    ensures WrittenOk(blocks, inodes, blocks, inodes, i, off, src, 0)
  {
    assert KeyFull(0);
    assert NoHole(blocks, inodes[i]);
  }

  /** Bytes read from one block are the file's. */
  lemma ReadChunk(blocks: map<nat, Block>, ino: Inode, x: nat, m: nat, a: nat)
    requires a == Addr(blocks, ino, SlotOf(x / BSIZE)) != 0 && a in blocks && x % BSIZE + m <= BSIZE
             && x + m <= ino.size
    ensures blocks[a][x % BSIZE..x % BSIZE + m] == Contents(blocks, ino)[x..x + m]
  {
    var d, e := blocks[a][x % BSIZE..x % BSIZE + m], Contents(blocks, ino)[x..x + m];
    forall q | 0 <= q < m ensures d[q] == e[q] {
      InBlock(x, m, x + q);
      assert Contents(blocks, ino)[x + q] == FileAt(blocks, ino, x + q);
    }
  }

  // ---- Truncation ----

  predicate OwnSlot(u: Use, i: nat, lo: nat, hi: nat) { u.Slot? && u.inum == i && lo <= u.slot < hi }

  /** The blocks in the slots [lo, hi) of inode `i` changed to `v`. */
  ghost function Change(use: map<nat, Use>, i: nat, lo: nat, hi: nat, v: Use): (r: map<nat, Use>) {
    map b | b in use :: if OwnSlot(use[b], i, lo, hi) then v else use[b]
  }

  lemma ChangeNone(use: map<nat, Use>, i: nat, lo: nat, v: Use)
    ensures Change(use, i, lo, lo, v) == use
  {
  }

  /** The direct slots below `s` are freed; now slot `s`, which holds `a`. */
  lemma FreedDirect(use0: map<nat, Use>, i: nat, s: nat, a: nat)
    requires a in use0 && use0[a] == Slot(i, s) && forall b :: b in use0 && use0[b] == Slot(i, s) ==> b == a
    ensures Change(use0, i, 0, s, Free)[a := Held][a := Free] == Change(use0, i, 0, s + 1, Free)
  {
  }

  lemma FreedNothing(use0: map<nat, Use>, i: nat, s: nat)
    requires forall b :: b in use0 ==> use0[b] != Slot(i, s)
    ensures Change(use0, i, 0, s, Free) == Change(use0, i, 0, s + 1, Free)
  {
  }

  /** The blocks of the indirect part: those in entries below `j` are free, the others in hand. */
  ghost function Draining(use: map<nat, Use>, i: nat, j: nat): (r: map<nat, Use>) {
    map b | b in use ::
      if OwnSlot(use[b], i, NDIRECT + 1, NDIRECT + 1 + j) then Free else if OwnSlot(use[b], i, NDIRECT, SLOTS) then Held
        else use[b]
  }

  lemma DrainStart(bits: seq<bool>, blocks: map<nat, Block>, inodes: seq<Inode>, use: map<nat, Use>, i: nat)
    requires FsOk(bits, blocks, inodes, use)
    ensures Draining(use, i, 0) == Detach(use, i)
  {
    assert KeyOwn(0);
  }

  lemma DrainNext(use: map<nat, Use>, i: nat, j: nat, a: nat)
    requires j < NINDIRECT && a in use && use[a] == Slot(i, NDIRECT + 1 + j)
             && forall b :: b in use && use[b] == Slot(i, NDIRECT + 1 + j) ==> b == a
    ensures a in Draining(use, i, j) && Draining(use, i, j)[a] == Held
            && Draining(use, i, j)[a := Free] == Draining(use, i, j + 1)
  {
  }

  lemma DrainSkip(use: map<nat, Use>, i: nat, j: nat)
    requires forall b :: b in use ==> use[b] != Slot(i, NDIRECT + 1 + j)
    ensures Draining(use, i, j + 1) == Draining(use, i, j)
  {
  }

  lemma DrainEnd(use: map<nat, Use>, i: nat, a: nat)
    requires a in use && use[a] == Slot(i, NDIRECT) && forall b :: b in use && use[b] == Slot(i, NDIRECT) ==> b == a
    ensures a in Draining(use, i, NINDIRECT) && Draining(use, i, NINDIRECT)[a] == Held
    ensures Draining(use, i, NINDIRECT)[a := Free] == Change(use, i, NDIRECT, SLOTS, Free)
  {
  }

  /** At most one block is in a given slot: the one whose address is there. */
  lemma SlotBlock(bits: seq<bool>, blocks: map<nat, Block>, inodes: seq<Inode>, use: map<nat, Use>, i: nat, s: nat)
    requires FsOk(bits, blocks, inodes, use) && i < |inodes|
    ensures forall b :: b in use && use[b] == Slot(i, s) ==> b == Addr(blocks, inodes[i], s) && b != 0
  {
    assert KeyOwn(0);
  }

  lemma ChangeTwice(use: map<nat, Use>, i: nat)
    ensures Change(Change(use, i, 0, NDIRECT, Free), i, NDIRECT, SLOTS, Free) == Change(use, i, 0, SLOTS, Free)
  {
  }

  lemma NoIndirectPart(bits: seq<bool>, blocks: map<nat, Block>, inodes: seq<Inode>, use: map<nat, Use>, i: nat)
    requires FsOk(bits, blocks, inodes, use) && i < |inodes| && |inodes[i].addrs| == NDIRECT + 1
             && inodes[i].addrs[NDIRECT] == 0
    ensures Change(use, i, NDIRECT, SLOTS, Free) == use
  {
    assert KeyOwn(0);
    forall b | b in use ensures !OwnSlot(use[b], i, NDIRECT, SLOTS) {
    }
  }

  /** The inode with its first `s` direct addresses cleared. */
  function Cleared(ino: Inode, s: nat): (r: Inode) {
    ino.(addrs := seq(|ino.addrs|, k requires 0 <= k < |ino.addrs| => if k < s then 0 else ino.addrs[k]))
  }

  lemma ClearedNext(ino: Inode, s: nat)
    requires s < |ino.addrs|
    ensures Cleared(ino, s).(addrs := Cleared(ino, s).addrs[s := 0]) == Cleared(ino, s + 1)
    ensures ino.addrs[s] == 0 ==> Cleared(ino, s) == Cleared(ino, s + 1)
    ensures Cleared(ino, 0) == ino && |Cleared(ino, s).addrs| == |ino.addrs| && Cleared(ino, s).addrs[s] == ino.addrs[s]
  {
  }

  /** Free inodes have no addresses. */
  ghost predicate Vacant(inodes: seq<Inode>) {
    forall k {:trigger inodes[k]} :: 0 <= k < |inodes| && inodes[k].kind == 0 ==> forall s ::
      0 <= s < |inodes[k].addrs| ==> inodes[k].addrs[s] == 0
  }

  /** So every block in use belongs to an inode that is allocated. */
  lemma VacantUse(bits: seq<bool>, blocks: map<nat, Block>, inodes: seq<Inode>, use: map<nat, Use>)
    requires FsOk(bits, blocks, inodes, use) && Vacant(inodes)
    ensures forall b {:trigger use[b]} :: b in use && use[b].Slot? ==>
              use[b].inum < |inodes| && inodes[use[b].inum].kind != 0
  {
    assert KeyOwn(0);
  }
}
