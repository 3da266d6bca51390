/**
 The disk as the kernel sees it: numbered blocks, each written atomically.  `Disk.writes` is a
 ghost record of every block write since the machine was switched on, so a power failure between
 two writes is a prefix of it.
 */
module Disks {
  import opened Common

  const LOGBLOCKS: nat := MAXOPBLOCKS * 3
  const NBUF: nat := MAXOPBLOCKS * 3
  const ROOTDEV: nat := 1

  /** A 1024-byte block is 256 words of 32 bits; the log header uses it word by word. */
  const WORDS: nat := 256
  type Word = w: nat | w < 0x1_0000_0000
  type Block = b: seq<Word> | |b| == WORDS witness seq(WORDS, _ => 0)

  /** Blocks by number.  What a block's contents are does not matter to the disk or the cache. */
  type Blocks<B> = map<nat, B>

  datatype DiskWrite<B> = DiskWrite(blockno: nat, data: B)

  /** The platter after a list of block writes. */
  function Apply<B>(d: Blocks<B>, ws: seq<DiskWrite<B>>): (r: Blocks<B>)
  {
    if ws == [] then d
    else
      var last := ws[|ws| - 1];
      Apply(d, ws[..|ws| - 1])[last.blockno := last.data]
  }

  predicate WritesInside<B>(d: Blocks<B>, ws: seq<DiskWrite<B>>) {
    forall i :: 0 <= i < |ws| ==> ws[i].blockno in d
  }

  predicate DistinctTargets<B>(ws: seq<DiskWrite<B>>) {
    forall i, j :: 0 <= i < j < |ws| ==> ws[i].blockno != ws[j].blockno
  }

  lemma {:induction false} ApplyConcat<B>(d: Blocks<B>, ws: seq<DiskWrite<B>>, vs: seq<DiskWrite<B>>)
    ensures Apply(d, ws + vs) == Apply(Apply(d, ws), vs)
    decreases |vs|
  {
    if vs == [] {
      assert ws + vs == ws;
    } else {
      ApplyConcat(d, ws, vs[..|vs| - 1]);
      assert (ws + vs)[..|ws + vs| - 1] == ws + vs[..|vs| - 1];
    }
  }

  lemma ApplyNext<B>(d: Blocks<B>, ws: seq<DiskWrite<B>>, k: nat)
    requires k < |ws|
    ensures ws[..k + 1] == ws[..k] + [ws[k]]
    ensures Apply(d, ws[..k + 1]) == Apply(d, ws[..k])[ws[k].blockno := ws[k].data]
  {
    assert ws[..k + 1][..k] == ws[..k];
  }

  lemma {:induction false} ApplyKeys<B>(d: Blocks<B>, ws: seq<DiskWrite<B>>)
    requires WritesInside(d, ws)
    ensures Apply(d, ws).Keys == d.Keys
    decreases |ws|
  {
    if ws != [] {
      ApplyKeys(d, ws[..|ws| - 1]);
      assert ws[|ws| - 1].blockno in d;
    }
  }

  /** A block no write names keeps its contents. */
  lemma {:induction false} ApplyFrame<B>(d: Blocks<B>, ws: seq<DiskWrite<B>>, b: nat)
    requires b in d
    requires forall i :: 0 <= i < |ws| ==> ws[i].blockno != b
    ensures b in Apply(d, ws) && Apply(d, ws)[b] == d[b]
    decreases |ws|
  {
    if ws != [] {
      ApplyFrame(d, ws[..|ws| - 1], b);
      assert ws[|ws| - 1].blockno != b;
    }
  }

  /** A block exactly one write names holds that write's data. */
  lemma {:induction false} ApplyHit<B>(d: Blocks<B>, ws: seq<DiskWrite<B>>, i: nat)
    requires i < |ws|
    requires DistinctTargets(ws)
    ensures ws[i].blockno in Apply(d, ws) && Apply(d, ws)[ws[i].blockno] == ws[i].data
    decreases |ws|
  {
    if i < |ws| - 1 {
      ApplyHit(d, ws[..|ws| - 1], i);
      assert ws[|ws| - 1].blockno != ws[i].blockno;
    }
  }

  class Disk<B> {
    var blocks: Blocks<B>
    /** What the platter held when the machine was switched on, and every write since. */
    ghost const image: Blocks<B>
    ghost var writes: seq<DiskWrite<B>>

    ghost predicate Ok()
      reads this
    {
      blocks == Apply(image, writes)
    }

    constructor (image: Blocks<B>)
      ensures Ok() && blocks == image && writes == []
    {
      blocks := image;
      this.image := image;
      writes := [];
    }

    /** One block write, atomic with respect to power failure. */
    method Write(b: nat, data: B)
      modifies this
      ensures blocks == old(blocks)[b := data]
      ensures writes == old(writes) + [DiskWrite(b, data)]
      ensures old(Ok()) ==> Ok()
    {
      blocks := blocks[b := data];
      writes := writes + [DiskWrite(b, data)];
      assert writes[..|writes| - 1] == old(writes);
    }
  }
}
