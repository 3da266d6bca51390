/**
 The buffer cache: NBUF buffers on a doubly linked ring ordered by how recently they were
 released, with reference counts, pins and valid bits.  Pointers are indices; the list head is
 index HEAD.  `logical` is what a plain, uncached block store would hold.
 */
module Caches {
  import opened Common
  import opened Disks

  const HEAD: nat := NBUF

  datatype Buf<B> = Buf(valid: bool, dev: nat, blockno: Word, locked: bool, refcnt: nat, data: B)

  /** The `prev` or `next` pointer of every buffer and of the head. */
  type Links = s: seq<nat> | |s| == NBUF + 1 && forall i :: 0 <= i < |s| ==> s[i] <= HEAD
    witness seq(NBUF + 1, _ => HEAD)

  // ---- The ring ----

  /** The ring read from the head and back to it. */
  function Cycle(order: seq<nat>): (r: seq<nat>) { [HEAD] + order + [HEAD] }

  predicate InRange(s: seq<nat>) {
    forall i :: 0 <= i < |s| ==> s[i] < NBUF
  }

  /** `prev` and `next` are inverse along the ring that visits `order`. */
  ghost predicate Linked(prev: Links, next: Links, order: seq<nat>) {
    && Distinct(order) && InRange(order)
    && (forall i {:trigger next[Cycle(order)[i]]} :: 0 <= i <= |order| ==> next[Cycle(order)[i]] == Cycle(order)[i + 1])
    && (forall i {:trigger prev[Cycle(order)[i]]} :: 1 <= i <= |order| + 1 ==>
        prev[Cycle(order)[i]] == Cycle(order)[i - 1])
  }

  predicate OnRing(order: seq<nat>, b: nat) { b in order }

  predicate Fresher(order: seq<nat>, stamp: seq<nat>, i: nat, j: nat)
    requires InRange(order) && |stamp| == NBUF && i < |order| && j < |order|
  {
    stamp[order[i]] > stamp[order[j]]
  }

  /** Every buffer is on the ring, most recently released first. */
  ghost predicate Recency(order: seq<nat>, stamp: seq<nat>, clock: nat) {
    && |order| == NBUF == |stamp|
    && InRange(order)
    && (forall b {:trigger OnRing(order, b)} :: 0 <= b < NBUF ==> OnRing(order, b))
    && (forall i, j {:trigger Fresher(order, stamp, i, j)} :: 0 <= i < j < NBUF ==> Fresher(order, stamp, i, j))
    && (forall b :: 0 <= b < NBUF ==> stamp[b] < clock)
  }

  predicate UnsealRing(u: int) { true }

  /** The ring's invariant, unfolded only where a proof mentions `UnsealRing`. */
  ghost predicate RingOk(prev: Links, next: Links, order: seq<nat>, stamp: seq<nat>, clock: nat) {
    && |stamp| == NBUF
    && (forall b {:trigger OnRing(order, b)} :: 0 <= b < NBUF ==> OnRing(order, b))
    && forall u {:trigger UnsealRing(u)} :: UnsealRing(u) ==> Linked(prev, next, order) && Recency(order, stamp, clock)
  }

  function Without(order: seq<nat>, p: nat): (r: seq<nat>) requires p < |order| { order[..p] + order[p + 1..] }

  /** Taking the buffer at position `p` out of the ring. */
  lemma UnlinkOk(prev: Links, next: Links, order: seq<nat>, p: nat)
    requires Linked(prev, next, order) && p < |order|
    ensures var b := order[p];
            Linked(prev[next[b] := prev[b]], next[prev[b] := next[b]], Without(order, p))
  {
    var b := order[p];
    var c, c' := Cycle(order), Cycle(Without(order, p));
    assert c[p + 1] == b;
    assert next[c[p]] == b && prev[b] == c[p];
    assert next[c[p + 1]] == c[p + 2] && prev[c[p + 2]] == c[p + 1];
    var prev', next' := prev[next[b] := prev[b]], next[prev[b] := next[b]];
    forall i | 0 <= i <= |order| - 1 ensures next'[c'[i]] == c'[i + 1] {
      if i < p {
        assert c'[i] == c[i] && c'[i + 1] == c[i + 1] == next[c[i]];
      } else if i == p {
        assert c'[i] == c[p] && c'[i + 1] == c[p + 2];
      } else {
        assert c'[i] == c[i + 1] && c'[i + 1] == c[i + 2] == next[c[i + 1]];
      }
    }
    forall i | 1 <= i <= |order| ensures prev'[c'[i]] == c'[i - 1] {
      if i <= p {
        assert c'[i] == c[i] && c'[i - 1] == c[i - 1] == prev[c[i]];
      } else if i == p + 1 {
        assert c'[i] == c[p + 2] && c'[i - 1] == c[p];
      } else {
        assert c'[i] == c[i + 1] && c'[i - 1] == c[i] == prev[c[i + 1]];
      }
    }
  }

  /** Putting a buffer that is not on the ring right after the head. */
  lemma LinkFrontOk(prev: Links, next: Links, order: seq<nat>, b: nat)
    requires Linked(prev, next, order) && b < NBUF && b !in order
    ensures Linked(prev[b := HEAD][next[HEAD] := b], next[b := next[HEAD]][HEAD := b], [b] + order)
  {
    var c, c' := Cycle(order), Cycle([b] + order);
    assert c[0] == HEAD && next[HEAD] == c[1];
    var prev', next' := prev[b := HEAD][next[HEAD] := b], next[b := next[HEAD]][HEAD := b];
    forall i | 0 <= i <= |order| + 1 ensures next'[c'[i]] == c'[i + 1] {
      if i >= 2 {
        assert c'[i] == c[i - 1] && c'[i + 1] == c[i] == next[c[i - 1]];
      }
    }
    forall i | 1 <= i <= |order| + 2 ensures prev'[c'[i]] == c'[i - 1] {
      if i >= 3 {
        assert c'[i] == c[i - 1] && c'[i - 1] == c[i - 2] == prev[c[i - 1]];
      }
    }
  }

  ghost function Position(order: seq<nat>, b: nat): (p: nat)
    requires OnRing(order, b)
    ensures p < |order| && order[p] == b
  {
    var p :| 0 <= p < |order| && order[p] == b;
    p
  }

  /** The order after releasing the buffer at position `p` for the last time. */
  function ToFront(order: seq<nat>, p: nat): (r: seq<nat>) requires p < |order| { [order[p]] + Without(order, p) }

  ghost function Front(order: seq<nat>, b: nat): (r: seq<nat>) {
    if OnRing(order, b) then ToFront(order, Position(order, b)) else order
  }

  lemma ToFrontOk(order: seq<nat>, stamp: seq<nat>, clock: nat, p: nat)
    requires Recency(order, stamp, clock) && Distinct(order) && p < NBUF
    ensures Recency(ToFront(order, p), stamp[order[p] := clock], clock + 1)
  {
    var order', stamp' := ToFront(order, p), stamp[order[p] := clock];
    forall b | 0 <= b < NBUF ensures b in order' {
      var i := Position(order, b);
      assert order'[if i < p then i + 1 else if i == p then 0 else i] == b;
    }
    forall i, j | 0 <= i < j < NBUF
      ensures Fresher(order', stamp', i, j)
    {
      var j' := if j <= p then j - 1 else j;
      assert order'[j] == order[j'];
      if i > 0 {
        var i' := if i <= p then i - 1 else i;
        assert order'[i] == order[i'] && Fresher(order, stamp, i', j');
      }
    }
  }

  // ---- What the cache promises ----

  predicate Holds<B>(b: Buf<B>, dev: nat, blockno: nat) {
    b.dev == dev && b.blockno == blockno
  }

  /** A block of a real device is cached at most once (all buffers start as block 0 of device 0). */
  ghost predicate Unique<B>(buf: seq<Buf<B>>) {
    && |buf| == NBUF
    && forall i, j :: 0 <= i < j < NBUF && buf[i].dev != 0 ==> !Holds(buf[j], buf[i].dev, buf[i].blockno)
  }

  /** A reference is a caller of `bget` that has not released the buffer yet, or a pin. */
  ghost predicate CountsOk<B>(buf: seq<Buf<B>>, held: seq<nat>, pins: seq<nat>) {
    && |held| == |pins| == |buf| == NBUF
    && forall i :: 0 <= i < NBUF ==> buf[i].refcnt == held[i] + pins[i] && (buf[i].locked ==> held[i] >= 1)
  }

  /** Cached blocks agree with `logical`, and so do uncached ones on disk: nothing is lost. */
  ghost predicate Coherent<B>(buf: seq<Buf<B>>, pins: seq<nat>, disk: Blocks<B>, logical: Blocks<B>,
                              dirty: map<nat, nat>) {
    && |pins| == |buf| == NBUF
    && logical.Keys == disk.Keys
    && (forall i :: 0 <= i < NBUF && buf[i].dev == ROOTDEV && buf[i].valid ==>
          buf[i].blockno in logical && buf[i].data == logical[buf[i].blockno])
    && (forall b {:trigger disk[b]} :: b in logical && b !in dirty ==> disk[b] == logical[b])
    && (forall b {:trigger dirty[b]} {:trigger b in dirty} :: b in dirty ==>
          && b in logical && dirty[b] < NBUF
          && Holds(buf[dirty[b]], ROOTDEV, b) && buf[dirty[b]].valid
          && (buf[dirty[b]].locked || pins[dirty[b]] > 0))
  }

  predicate Unseal(u: int) { true }

  /** The cache's promise, unfolded only where a proof mentions `Unseal`. */
  ghost predicate Consistent<B>(buf: seq<Buf<B>>, pins: seq<nat>, disk: Blocks<B>, logical: Blocks<B>,
                                dirty: map<nat, nat>) {
    && |buf| == |pins| == NBUF
    && logical.Keys == disk.Keys
    && forall u {:trigger Unseal(u)} :: Unseal(u) ==> Unique(buf) && Coherent(buf, pins, disk, logical, dirty)
  }

  // ---- One lemma for each change to a buffer ----

  lemma SameBuffer<B>(buf: seq<Buf<B>>, pins: seq<nat>, disk: Blocks<B>, logical: Blocks<B>, dirty: map<nat, nat>,
                      i: nat, j: nat)
    requires Consistent(buf, pins, disk, logical, dirty) && i < NBUF && j < NBUF
    requires buf[i].dev != 0 && Holds(buf[j], buf[i].dev, buf[i].blockno)
    ensures i == j
  {
    assert Unseal(0);
  }

  lemma CachedData<B>(buf: seq<Buf<B>>, pins: seq<nat>, disk: Blocks<B>, logical: Blocks<B>, dirty: map<nat, nat>,
                      b: nat)
    requires Consistent(buf, pins, disk, logical, dirty) && b < NBUF && buf[b].dev == ROOTDEV && buf[b].valid
    ensures buf[b].blockno in logical && buf[b].data == logical[buf[b].blockno]
  {
    assert Unseal(0);
  }

  /** Nothing depends on a buffer's reference count, nor on locking it. */
  lemma ReferenceOk<B>(buf: seq<Buf<B>>, pins: seq<nat>, disk: Blocks<B>, logical: Blocks<B>, dirty: map<nat, nat>,
                       b: nat, r: nat, l: bool)
    requires Consistent(buf, pins, disk, logical, dirty) && b < NBUF && (buf[b].locked ==> l)
    ensures Consistent(buf[b := buf[b].(refcnt := r, locked := l)], pins, disk, logical, dirty)
  {
    assert Unseal(0);
  }

  lemma HitOk<B>(buf: seq<Buf<B>>, held: seq<nat>, pins: seq<nat>, disk: Blocks<B>, logical: Blocks<B>,
                 dirty: map<nat, nat>, b: nat)
    requires Consistent(buf, pins, disk, logical, dirty) && CountsOk(buf, held, pins) && b < NBUF
    ensures Consistent(buf[b := buf[b].(refcnt := buf[b].refcnt + 1)], pins, disk, logical, dirty)
    ensures CountsOk(buf[b := buf[b].(refcnt := buf[b].refcnt + 1)], held[b := held[b] + 1], pins)
  {
    ReferenceOk(buf, pins, disk, logical, dirty, b, buf[b].refcnt + 1, buf[b].locked);
  }

  /** Recycling an unreferenced buffer drops nothing: changed blocks are locked or pinned. */
  lemma RecycleOk<B>(buf: seq<Buf<B>>, held: seq<nat>, pins: seq<nat>, disk: Blocks<B>, logical: Blocks<B>,
                     dirty: map<nat, nat>,
                     b: nat, dev: nat, blockno: Word)
    requires Consistent(buf, pins, disk, logical, dirty) && CountsOk(buf, held, pins)
    requires b < NBUF && buf[b].refcnt == 0
    requires forall i :: 0 <= i < NBUF ==> !Holds(buf[i], dev, blockno)
    ensures Consistent(buf[b := buf[b].(dev := dev, blockno := blockno, valid := false, refcnt := 1)], pins, disk,
                       logical, dirty)
    ensures CountsOk(buf[b := buf[b].(dev := dev, blockno := blockno, valid := false, refcnt := 1)], held[b := 1], pins)
  {
    assert Unseal(0);
  }

  /** A block without a valid buffer is up to date on disk. */
  lemma FillOk<B>(buf: seq<Buf<B>>, pins: seq<nat>, disk: Blocks<B>, logical: Blocks<B>, dirty: map<nat, nat>, b: nat)
    requires Consistent(buf, pins, disk, logical, dirty)
    requires b < NBUF && buf[b].dev == ROOTDEV && !buf[b].valid && buf[b].blockno in disk
    ensures disk[buf[b].blockno] == logical[buf[b].blockno]
    ensures Consistent(buf[b := buf[b].(valid := true, data := disk[buf[b].blockno])], pins, disk, logical, dirty)
  {
    assert Unseal(0);
  }

  lemma ModifyOk<B>(buf: seq<Buf<B>>, pins: seq<nat>, disk: Blocks<B>, logical: Blocks<B>, dirty: map<nat, nat>, b: nat,
                    data: B)
    requires Consistent(buf, pins, disk, logical, dirty)
    requires b < NBUF && buf[b].locked && buf[b].valid && buf[b].dev == ROOTDEV
    ensures Consistent(buf[b := buf[b].(data := data)], pins, disk, logical[buf[b].blockno := data],
                       dirty[buf[b].blockno := b])
  {
    assert Unseal(0);
  }

  lemma WriteOk<B>(buf: seq<Buf<B>>, pins: seq<nat>, disk: Blocks<B>, logical: Blocks<B>, dirty: map<nat, nat>, b: nat)
    requires Consistent(buf, pins, disk, logical, dirty) && b < NBUF && buf[b].valid && buf[b].dev == ROOTDEV
    ensures Consistent(buf, pins, disk[buf[b].blockno := buf[b].data], logical, dirty - {buf[b].blockno})
  {
    assert Unseal(0);
  }

  /** Dropping the lock and a reference is safe if a changed block stays pinned. */
  lemma ReleaseOk<B>(buf: seq<Buf<B>>, held: seq<nat>, pins: seq<nat>, disk: Blocks<B>, logical: Blocks<B>,
                     dirty: map<nat, nat>, b: nat,
                     buf': seq<Buf<B>>, held': seq<nat>)
    requires Consistent(buf, pins, disk, logical, dirty) && CountsOk(buf, held, pins) && b < NBUF && buf[b].locked
    requires buf[b].dev == ROOTDEV && buf[b].blockno in dirty ==> pins[b] > 0
    requires buf[b].refcnt > 0 && held[b] > 0
    requires buf' == buf[b := buf[b].(locked := false, refcnt := buf[b].refcnt - 1)] && held' == held[b := held[b] - 1]
    ensures Consistent(buf', pins, disk, logical, dirty) && CountsOk(buf', held', pins)
  {
    assert Unseal(0);
  }

  /** Changing the number of pins is safe if a changed block stays locked or pinned. */
  lemma PinOk<B>(buf: seq<Buf<B>>, held: seq<nat>, pins: seq<nat>, disk: Blocks<B>, logical: Blocks<B>,
                 dirty: map<nat, nat>,
                 b: nat, r: nat, p: nat, buf': seq<Buf<B>>, pins': seq<nat>)
    requires Consistent(buf, pins, disk, logical, dirty) && CountsOk(buf, held, pins) && b < NBUF
    requires r + pins[b] == buf[b].refcnt + p && buf' == buf[b := buf[b].(refcnt := r)] && pins' == pins[b := p]
    requires buf[b].dev == ROOTDEV && buf[b].blockno in dirty ==> buf[b].locked || p > 0
    ensures Consistent(buf', pins', disk, logical, dirty) && CountsOk(buf', held, pins')
  {
    assert Unseal(0);
  }

  predicate UnsealCache(u: int) { true }

  function Pred(x: nat): (r: nat) { if x == 0 then 0 else x - 1 }

  class Cache<B> {
    const disk: Disk<B>
    var buf: seq<Buf<B>>
    var prev: Links
    var next: Links

    ghost var order: seq<nat>
    ghost var stamp: seq<nat>
    ghost var clock: nat
    ghost var held: seq<nat>
    ghost var pins: seq<nat>
    ghost var logical: Blocks<B>
    /** Blocks whose newest contents are only in memory, and the buffer that has them. */
    ghost var dirty: map<nat, nat>

    /** The invariant, unfolded only where a proof mentions `UnsealCache`. */
    ghost predicate Valid()
      reads this, disk
    {
      && |buf| == |held| == |pins| == |stamp| == NBUF
      && logical.Keys == disk.blocks.Keys
      && forall u {:trigger UnsealCache(u)} :: UnsealCache(u) ==>
           && disk.Ok()
           && RingOk(prev, next, order, stamp, clock)
           && CountsOk(buf, held, pins)
           && Consistent(buf, pins, disk.blocks, logical, dirty)
    }

    lemma Unfold()
      requires Valid()
      ensures disk.Ok() && RingOk(prev, next, order, stamp, clock) && CountsOk(buf, held, pins)
      ensures Consistent(buf, pins, disk.blocks, logical, dirty)
    {
      assert UnsealCache(0);
    }

    lemma Fold()
      requires disk.Ok() && RingOk(prev, next, order, stamp, clock) && CountsOk(buf, held, pins)
      requires Consistent(buf, pins, disk.blocks, logical, dirty)
      ensures Valid()
    {
    }

    lemma Counts(i: nat)
      requires Valid() && i < NBUF
      ensures buf[i].refcnt == held[i] + pins[i] && (buf[i].locked ==> held[i] >= 1)
    {
      assert UnsealCache(0);
    }

    /** With nothing waiting to be written, the disk holds what readers see. */
    lemma Clean()
      requires Valid() && dirty == map[]
      ensures disk.blocks == logical
    {
      assert UnsealCache(0) && Unseal(0);
    }

    lemma OneBuffer(i: nat, j: nat)
      requires Valid() && i < NBUF && j < NBUF
      requires buf[i].dev != 0 && Holds(buf[j], buf[i].dev, buf[i].blockno)
      ensures i == j
    {
      assert UnsealCache(0);
      SameBuffer(buf, pins, disk.blocks, logical, dirty, i, j);
    }

    /** Some buffer caches the block. */
    ghost predicate Cached(dev: nat, blockno: nat)
      requires |buf| == NBUF
      reads this
    {
      exists i :: 0 <= i < NBUF && Holds(buf[i], dev, blockno)
    }

    ghost predicate AllReferenced()
      requires |buf| == NBUF
      reads this
    {
      forall i :: 0 <= i < NBUF ==> buf[i].refcnt > 0
    }

    /** `binit`, on a machine that has just been switched on. */
    constructor (disk: Disk<B>, zero: B)
      requires disk.Ok()
      ensures Valid() && this.disk == disk
      ensures logical == disk.blocks && dirty == map[]
      ensures buf == seq(NBUF, _ => Buf(false, 0, 0, false, 0, zero))
      ensures pins == seq(NBUF, _ => 0) && held == pins
    {
      var pv: Links, nx: Links := seq(NBUF + 1, _ => HEAD), seq(NBUF + 1, _ => HEAD);
      ghost var ord: seq<nat> := [];
      var b := 0;
      while b < NBUF
        invariant 0 <= b <= NBUF && |ord| == b
        invariant Linked(pv, nx, ord)
        invariant forall i :: 0 <= i < b ==> ord[i] == b - 1 - i
      {
        LinkFrontOk(pv, nx, ord, b);
        nx := nx[b := nx[HEAD]];
        pv := pv[b := HEAD];
        pv := pv[nx[HEAD] := b];
        nx := nx[HEAD := b];
        ord := [b] + ord;
        b := b + 1;
      }
      forall x | 0 <= x < NBUF ensures x in ord {
        assert ord[NBUF - 1 - x] == x;
      }
      this.disk := disk;
      buf, prev, next := seq(NBUF, _ => Buf(false, 0, 0, false, 0, zero)), pv, nx;
      order, stamp, clock := ord, seq(NBUF, i => i), NBUF;
      held, pins := seq(NBUF, _ => 0), seq(NBUF, _ => 0);
      logical, dirty := disk.blocks, map[];
    }

    /** The first loop of `bget`: search the ring from the head for a block. */
    method Search(dev: nat, blockno: Word) returns (b: nat)
      requires Valid()
      ensures b < NBUF ==> Holds(buf[b], dev, blockno)
      ensures b <= HEAD && (b == HEAD <==> !Cached(dev, blockno))
    {
      Unfold();
      assert UnsealRing(0);
      ghost var c := Cycle(order);
      assert c[0] == HEAD;
      b := next[HEAD];
      ghost var k := 0;
      while b != HEAD
        invariant 0 <= k <= NBUF && b == c[k + 1]
        invariant forall i :: 0 <= i < k ==> !Holds(buf[order[i]], dev, blockno)
        decreases NBUF - k
      {
        assert b == order[k];
        if buf[b].dev == dev && buf[b].blockno == blockno {
          return;
        }
        k := k + 1;
        assert next[c[k]] == c[k + 1];
        b := next[b];
      }
      assert k == NBUF;
      forall i | 0 <= i < NBUF ensures !Holds(buf[i], dev, blockno) {
        assert order[Position(order, i)] == i;
      }
    }

    /** The second loop of `bget`: the least recently released unreferenced buffer, or HEAD. */
    method Victim() returns (b: nat)
      requires Valid()
      ensures b < NBUF ==> buf[b].refcnt == 0
                           && forall i :: 0 <= i < NBUF && buf[i].refcnt == 0 ==> stamp[b] <= stamp[i]
      ensures b <= HEAD && (b == HEAD <==> AllReferenced())
    {
      Unfold();
      assert UnsealRing(0);
      ghost var c := Cycle(order);
      assert c[NBUF + 1] == HEAD && prev[c[NBUF + 1]] == c[NBUF];
      b := prev[HEAD];
      ghost var k := NBUF;
      while b != HEAD
        invariant 0 <= k <= NBUF && b == c[k]
        invariant forall i :: k <= i < NBUF ==> buf[order[i]].refcnt > 0
        decreases k
      {
        assert b == order[k - 1];
        if buf[b].refcnt == 0 {
          forall i | 0 <= i < NBUF && buf[i].refcnt == 0 ensures stamp[b] <= stamp[i] {
            assert Position(order, i) == k - 1 || Fresher(order, stamp, Position(order, i), k - 1);
          }
          return;
        }
        assert prev[c[k]] == c[k - 1];
        b := prev[b];
        k := k - 1;
      }
      assert k == 0;
      forall i | 0 <= i < NBUF ensures buf[i].refcnt > 0 {
        assert order[Position(order, i)] == i;
      }
    }

    method Hit(b: nat)
      requires Valid() && b < NBUF
      modifies this`buf, this`held
      ensures Valid() && held == old(held)[b := old(held)[b] + 1]
      ensures buf == old(buf)[b := old(buf)[b].(refcnt := old(buf)[b].refcnt + 1)]
    {
      Unfold();
      HitOk(buf, held, pins, disk.blocks, logical, dirty, b);
      buf, held := buf[b := buf[b].(refcnt := buf[b].refcnt + 1)], held[b := held[b] + 1];
      Fold();
    }

    method Recycle(b: nat, dev: nat, blockno: Word)
      requires Valid() && b < NBUF && buf[b].refcnt == 0 && !Cached(dev, blockno)
      modifies this`buf, this`held
      ensures Valid() && held == old(held)[b := 1]
      ensures buf == old(buf)[b := old(buf)[b].(dev := dev, blockno := blockno, valid := false, refcnt := 1)]
    {
      Unfold();
      RecycleOk(buf, held, pins, disk.blocks, logical, dirty, b, dev, blockno);
      buf, held := buf[b := buf[b].(dev := dev, blockno := blockno, valid := false, refcnt := 1)], held[b := 1];
      Fold();
    }

    /**
     `bget` up to the release of bcache.lock: reference the buffer of a block, recycling the least
     recently released unreferenced buffer on a miss.  None is the panic "bget: no buffers".
     */
    method Reference(dev: nat, blockno: Word) returns (r: Option<nat>)
      requires Valid() && dev != 0
      modifies this`buf, this`held
      ensures Valid()
      ensures r == None <==> !old(Cached(dev, blockno)) && old(AllReferenced())
      ensures r == None ==> buf == old(buf) && held == old(held)
      ensures r.Some? ==>
                var b := r.value;
                && b < NBUF && Holds(buf[b], dev, blockno)
                && held == old(held)[b := old(held)[b] + 1]
                && buf == old(buf)[b := buf[b]]
                && buf[b].refcnt == old(buf)[b].refcnt + 1
                && buf[b].locked == old(buf)[b].locked
                && (if old(Cached(dev, blockno))
                    then buf[b] == old(buf)[b].(refcnt := old(buf)[b].refcnt + 1)
                    else !buf[b].valid && old(buf)[b].refcnt == 0
                         && forall i :: 0 <= i < NBUF && old(buf)[i].refcnt == 0 ==> stamp[b] <= stamp[i])
    {
      var b := Search(dev, blockno);
      if b != HEAD {
        Hit(b);
        return Some(b);
      }
      b := Victim();
      if b == HEAD {
        return None;
      }
      Recycle(b, dev, blockno);
      return Some(b);
    }

    /** `acquiresleep` on a referenced buffer, at the moment its wait ends. */
    method Lock(b: nat)
      requires Valid() && b < NBUF && held[b] > 0 && !buf[b].locked
      modifies this`buf
      ensures Valid() && buf == old(buf)[b := old(buf)[b].(locked := true)]
    {
      Unfold();
      ReferenceOk(buf, pins, disk.blocks, logical, dirty, b, buf[b].refcnt, true);
      buf := buf[b := buf[b].(locked := true)];
      Fold();
    }

    /** The rest of `bread`: fill a locked buffer that is not valid from the disk. */
    method Fill(b: nat)
      requires Valid() && b < NBUF && buf[b].locked && buf[b].dev == ROOTDEV && buf[b].blockno in disk.blocks
      modifies this`buf
      ensures Valid()
      ensures buf == old(buf)[b := old(buf)[b].(valid := true, data := logical[old(buf)[b].blockno])]
    {
      Unfold();
      if !buf[b].valid {
        FillOk(buf, pins, disk.blocks, logical, dirty, b);
        buf := buf[b := buf[b].(data := disk.blocks[buf[b].blockno], valid := true)];
      } else {
        CachedData(buf, pins, disk.blocks, logical, dirty, b);
      }
      Fold();
    }

    /**
     `bread` of a block whose buffer nobody has locked: the locked buffer with the contents last
     written to the block, whether they are in memory or on disk.
     */
    method Bread(blockno: Word) returns (r: Option<nat>)
      requires Valid() && blockno in disk.blocks
      requires forall i :: 0 <= i < NBUF && Holds(buf[i], ROOTDEV, blockno) ==> !buf[i].locked
      modifies this`buf, this`held
      ensures Valid()
      ensures r == None <==> !old(Cached(ROOTDEV, blockno)) && old(AllReferenced())
      ensures r == None ==> buf == old(buf) && held == old(held)
      ensures r.Some? ==>
                var b := r.value;
                && b < NBUF
                && held == old(held)[b := old(held)[b] + 1]
                && buf == old(buf)[b := Buf(true, ROOTDEV, blockno, true, old(buf)[b].refcnt + 1, logical[blockno])]
                && (old(Cached(ROOTDEV, blockno)) || old(buf)[b].refcnt > 0 ==> Holds(old(buf)[b], ROOTDEV, blockno))
                && !old(buf)[b].locked
    {
      forall i | 0 <= i < NBUF && buf[i].locked ensures buf[i].refcnt > 0 {
        Counts(i);
      }
      r := Reference(ROOTDEV, blockno);
      if r.Some? {
        Lock(r.value);
        Fill(r.value);
      }
    }

    /** The holder of a buffer's lock changes its contents. */
    method Modify(b: nat, data: B)
      requires Valid() && b < NBUF && buf[b].locked && buf[b].valid && buf[b].dev == ROOTDEV
      modifies this`buf, this`logical, this`dirty
      ensures Valid() && buf == old(buf)[b := old(buf)[b].(data := data)]
      ensures logical == old(logical)[old(buf)[b].blockno := data]
      ensures dirty == old(dirty)[old(buf)[b].blockno := b]
    {
      Unfold();
      ModifyOk(buf, pins, disk.blocks, logical, dirty, b, data);
      logical, dirty := logical[buf[b].blockno := data], dirty[buf[b].blockno := b];
      buf := buf[b := buf[b].(data := data)];
      Fold();
    }

    /** `bwrite`. */
    method Bwrite(b: nat)
      requires Valid() && b < NBUF && buf[b].locked && buf[b].valid && buf[b].dev == ROOTDEV
      modifies this`dirty, disk
      ensures Valid()
      ensures disk.blocks == old(disk.blocks)[buf[b].blockno := buf[b].data]
      ensures disk.writes == old(disk.writes) + [DiskWrite(buf[b].blockno, buf[b].data)]
      ensures dirty == old(dirty) - {buf[b].blockno}
    {
      Unfold();
      WriteOk(buf, pins, disk.blocks, logical, dirty, b);
      disk.Write(buf[b].blockno, buf[b].data);
      dirty := dirty - {buf[b].blockno};
      Fold();
    }

    /** Change a locked buffer and `bwrite` it at once, as the log does. */
    method Overwrite(b: nat, data: B)
      requires Valid() && b < NBUF && buf[b].locked && buf[b].valid && buf[b].dev == ROOTDEV
      modifies this`buf, this`logical, this`dirty, disk
      ensures Valid() && buf == old(buf)[b := old(buf)[b].(data := data)]
      ensures logical == old(logical)[old(buf)[b].blockno := data]
      ensures dirty == old(dirty) - {old(buf)[b].blockno}
      ensures disk.blocks == old(disk.blocks)[old(buf)[b].blockno := data]
      ensures disk.writes == old(disk.writes) + [DiskWrite(old(buf)[b].blockno, data)]
    {
      Modify(b, data);
      Bwrite(b);
    }

    /** The pointer updates of `brelse`: unlink a buffer and link it after the head. */
    method MoveToFront(b: nat)
      requires RingOk(prev, next, order, stamp, clock) && b < NBUF
      modifies this`prev, this`next, this`order, this`stamp, this`clock
      ensures RingOk(prev, next, order, stamp, clock)
      ensures order == Front(old(order), b)
      ensures stamp == old(stamp)[b := old(clock)] && clock == old(clock) + 1
    {
      assert UnsealRing(0);
      ghost var p := Position(order, b);
      UnlinkOk(prev, next, order, p);
      ToFrontOk(order, stamp, clock, p);
      prev := prev[next[b] := prev[b]];
      next := next[prev[b] := next[b]];
      LinkFrontOk(prev, next, Without(order, p), b);
      next := next[b := next[HEAD]];
      prev := prev[b := HEAD];
      prev := prev[next[HEAD] := b];
      next := next[HEAD := b];
      order, stamp, clock := ToFront(order, p), stamp[b := clock], clock + 1;
    }

    /**
     `brelse`.  A changed buffer must have been written or logged (pinned) first; the last
     reference moves the buffer to the front of the ring.
     */
    method Brelse(b: nat)
      requires Valid() && b < NBUF && buf[b].locked
      requires buf[b].dev == ROOTDEV && buf[b].blockno in dirty ==> pins[b] > 0
      modifies this`buf, this`held, this`prev, this`next, this`order, this`stamp, this`clock
      ensures Valid()
      ensures held == old(held)[b := Pred(old(held)[b])]
      ensures buf == old(buf)[b := old(buf)[b].(locked := false, refcnt := Pred(old(buf)[b].refcnt))]
      ensures order == if buf[b].refcnt == 0 then Front(old(order), b) else old(order)
    {
      Counts(b);
      Unfold();
      ghost var buf0, held0 := buf, held;
      buf, held := buf[b := buf[b].(locked := false, refcnt := buf[b].refcnt - 1)], held[b := held[b] - 1];
      ReleaseOk(buf0, held0, pins, disk.blocks, logical, dirty, b, buf, held);
      if buf[b].refcnt == 0 {
        MoveToFront(b);
      }
      Fold();
    }

    /** Change a locked buffer, `bwrite` it and `brelse` it. */
    method OverwriteRelease(b: nat, data: B)
      requires Valid() && b < NBUF && buf[b].locked && buf[b].valid && buf[b].dev == ROOTDEV
      modifies this, disk
      ensures Valid() && pins == old(pins)
      ensures buf == old(buf)[b := old(buf)[b].(locked := false, refcnt := Pred(old(buf)[b].refcnt), data := data)]
      ensures logical == old(logical)[old(buf)[b].blockno := data]
      ensures dirty == old(dirty) - {old(buf)[b].blockno}
      ensures disk.writes == old(disk.writes) + [DiskWrite(old(buf)[b].blockno, data)]
    {
      Overwrite(b, data);
      Brelse(b);
    }

    method Bpin(b: nat)
      requires Valid() && b < NBUF
      modifies this`buf, this`pins
      ensures Valid() && buf == old(buf)[b := old(buf)[b].(refcnt := old(buf)[b].refcnt + 1)]
      ensures pins == old(pins)[b := old(pins)[b] + 1]
    {
      Unfold();
      ghost var buf0, pins0 := buf, pins;
      buf, pins := buf[b := buf[b].(refcnt := buf[b].refcnt + 1)], pins[b := pins[b] + 1];
      PinOk(buf0, held, pins0, disk.blocks, logical, dirty, b, buf0[b].refcnt + 1, pins0[b] + 1, buf, pins);
      Fold();
    }

    method Bunpin(b: nat)
      requires Valid() && b < NBUF && pins[b] > 0
      requires buf[b].dev == ROOTDEV && buf[b].blockno in dirty ==> buf[b].locked || pins[b] > 1
      modifies this`buf, this`pins
      ensures Valid() && buf == old(buf)[b := old(buf)[b].(refcnt := Pred(old(buf)[b].refcnt))]
      ensures pins == old(pins)[b := old(pins)[b] - 1]
    {
      Counts(b);
      Unfold();
      ghost var buf0, pins0 := buf, pins;
      buf, pins := buf[b := buf[b].(refcnt := buf[b].refcnt - 1)], pins[b := pins[b] - 1];
      PinOk(buf0, held, pins0, disk.blocks, logical, dirty, b, buf0[b].refcnt - 1, pins0[b] - 1, buf, pins);
      Fold();
    }

    /**
     `bread` of a log block, whose buffer nobody references, and then of a home block, which buffer
     `s` keeps pinned.  Only the first can fail.
     */
    method BreadPair(log: Word, home: Word, ghost s: nat) returns (r: Option<(nat, nat)>)
      requires Valid() && log != home && log in disk.blocks && home in disk.blocks
      requires s < NBUF && Holds(buf[s], ROOTDEV, home) && buf[s].valid && !buf[s].locked && pins[s] > 0
      requires forall i :: 0 <= i < NBUF && Holds(buf[i], ROOTDEV, log) ==> buf[i].refcnt == 0
      modifies this`buf, this`held
      ensures Valid()
      ensures r.Some? <==> !old(AllReferenced())
      ensures r == None ==> buf == old(buf) && held == old(held)
      ensures r.Some? ==> Fetched(old(buf), old(held), r.value.0, r.value.1, log, home) && r.value.1 == s
    {
      Counts(s);
      forall i | 0 <= i < NBUF && buf[i].locked ensures buf[i].refcnt > 0 {
        Counts(i);
      }
      var l := Bread(log);
      if l == None {
        return None;
      }
      forall i | 0 <= i < NBUF && Holds(buf[i], ROOTDEV, home) ensures i == s {
        OneBuffer(i, s);
      }
      assert Holds(buf[s], ROOTDEV, home);
      var h := Bread(home);
      r := Some((l.value, h.value));
    }

    /** The same at boot, when nothing is referenced. */
    method BreadBoot(log: Word, home: Word) returns (r: Option<(nat, nat)>)
      requires Valid() && log != home && log in disk.blocks && home in disk.blocks
      requires forall i :: 0 <= i < NBUF ==> buf[i].refcnt == 0
      modifies this`buf, this`held
      ensures Valid()
      ensures r.Some? && Fetched(old(buf), old(held), r.value.0, r.value.1, log, home)
              && old(buf)[r.value.1].refcnt == 0
    {
      forall i | 0 <= i < NBUF ensures !buf[i].locked {
        Counts(i);
      }
      assert buf[0].refcnt == 0;
      var l := Bread(log);
      assert !AllReferenced() by {
        assert buf[if l.value == 0 then 1 else 0].refcnt == 0;
      }
      var h := Bread(home);
      r := Some((l.value, h.value));
    }

    /** `bread`, look at the contents, `brelse`, at boot. */
    method PeekBoot(blockno: Word) returns (data: B)
      requires Valid() && blockno in disk.blocks && blockno !in dirty
      requires forall i :: 0 <= i < NBUF ==> buf[i].refcnt == 0
      modifies this
      ensures Valid() && logical == old(logical) && dirty == old(dirty)
      ensures data == logical[blockno]
      ensures forall i :: 0 <= i < NBUF ==> buf[i].refcnt == 0
    {
      forall i | 0 <= i < NBUF ensures !buf[i].locked {
        Counts(i);
      }
      assert buf[0].refcnt == 0;
      var b := Bread(blockno);
      data := buf[b.value].data;
      Brelse(b.value);
    }

    /** Buffers `t` and `h` have been referenced and locked, and hold `log` and `home`. */
    ghost predicate Fetched(buf0: seq<Buf<B>>, held0: seq<nat>, t: nat, h: nat, log: Word, home: Word)
      requires |buf0| == |held0| == |buf| == |held| == NBUF && log in logical && home in logical
      reads this
    {
      && t < NBUF && h < NBUF && t != h && buf0[t].refcnt == 0
      && (forall i :: 0 <= i < NBUF ==> held[i] == if i == t || i == h then held0[i] + 1 else held0[i])
      && (forall i :: 0 <= i < NBUF ==>
            buf[i] == if i == t then Buf(true, ROOTDEV, log, true, 1, logical[log])
                      else if i == h then Buf(true, ROOTDEV, home, true, buf0[h].refcnt + 1, logical[home])
                      else buf0[i])
    }

    /** Two `brelse` calls. */
    method BrelsePair(a: nat, b: nat)
      requires Valid() && a < NBUF && b < NBUF && a != b && buf[a].locked && buf[b].locked
      requires buf[a].dev == ROOTDEV && buf[a].blockno in dirty ==> pins[a] > 0
      requires buf[b].dev == ROOTDEV && buf[b].blockno in dirty ==> pins[b] > 0
      modifies this`buf, this`held, this`prev, this`next, this`order, this`stamp, this`clock
      ensures Valid()
      ensures forall i :: 0 <= i < NBUF ==> held[i] == if i == a || i == b then Pred(old(held)[i]) else old(held)[i]
      ensures forall i :: 0 <= i < NBUF ==>
                buf[i] == if i == a || i == b then old(buf)[i].(locked := false, refcnt := Pred(old(buf)[i].refcnt))
                  else old(buf)[i]
    {
      Brelse(a);
      Brelse(b);
    }

    /**
     One round of `write_log`: copy the pinned block `home` over the unreferenced block `log` and
     write it to disk.  `t` is the buffer used for `log`.
     */
    method WriteRound(log: Word, home: Word, ghost s: nat) returns (ok: bool, ghost t: nat)
      requires Valid() && log != home && log in disk.blocks && home in disk.blocks && log !in dirty
      requires s < NBUF && Holds(buf[s], ROOTDEV, home) && buf[s].valid && !buf[s].locked && pins[s] > 0
      requires forall i :: 0 <= i < NBUF && Holds(buf[i], ROOTDEV, log) ==> buf[i].refcnt == 0
      modifies this, disk
      ensures Valid() && pins == old(pins) && dirty == old(dirty)
      ensures forall i :: 0 <= i < NBUF ==> held[i] == old(held)[i]
      ensures ok <==> !old(AllReferenced())
      ensures !ok ==> buf == old(buf) && logical == old(logical) && unchanged(disk)
      ensures ok ==>
                && t < NBUF && t != s && old(buf)[t].refcnt == 0
                && (forall i :: 0 <= i < NBUF ==>
                      buf[i] == if i == t then Buf(true, ROOTDEV, log, false, 0, old(logical)[home])
                                else if i == s then old(buf)[i].(data := old(logical)[home])
                                else old(buf)[i])
                && logical == old(logical)[log := old(logical)[home]]
                && disk.blocks == old(disk.blocks)[log := old(logical)[home]]
                && disk.writes == old(disk.writes) + [DiskWrite(log, old(logical)[home])]
    {
      var r := BreadPair(log, home, s);
      if r == None {
        return false, 0;
      }
      var (to, from) := r.value;
      Overwrite(to, buf[from].data);
      assert dirty == old(dirty);
      BrelsePair(from, to);
      ok, t := true, to;
    }

    /**
     One round of `install_trans`: copy a log block over its home block and write that to disk;
     after a commit the home block's buffer `s` is also unpinned.
     */
    method InstallRound(log: Word, home: Word, recovering: bool, ghost s: nat)
      returns (ok: bool, ghost t: nat, ghost h: nat)
      requires Valid() && log != home && log in disk.blocks && home in disk.blocks && log !in dirty
      requires !recovering ==> s < NBUF && Holds(buf[s], ROOTDEV, home) && buf[s].valid && !buf[s].locked && pins[s] > 0
      requires recovering ==> forall i :: 0 <= i < NBUF ==> buf[i].refcnt == 0
      requires forall i :: 0 <= i < NBUF && Holds(buf[i], ROOTDEV, log) ==> buf[i].refcnt == 0
      modifies this, disk
      ensures Valid()
      ensures forall i :: 0 <= i < NBUF ==> held[i] == old(held)[i]
      ensures ok <==> !old(AllReferenced())
      ensures !ok ==>
                buf == old(buf) && logical == old(logical) && dirty == old(dirty) && pins == old(pins)
                && unchanged(disk)
      ensures ok ==>
                && t < NBUF && h < NBUF && t != h && old(buf)[t].refcnt == 0
                && (if recovering then old(buf)[h].refcnt == 0 else h == s)
                && pins == (if recovering then old(pins) else old(pins)[s := old(pins)[s] - 1])
                && (forall i :: 0 <= i < NBUF ==>
                      buf[i] == if i == t then Buf(true, ROOTDEV, log, false, 0, old(logical)[log])
                                else if i == h then Buf(true, ROOTDEV, home, false, if recovering then 0
                                                        else Pred(old(buf)[h].refcnt), old(logical)[log])
                                else old(buf)[i])
                && logical == old(logical)[home := old(logical)[log]]
                && dirty == old(dirty) - {home}
                && disk.blocks == old(disk.blocks)[home := old(logical)[log]]
                && disk.writes == old(disk.writes) + [DiskWrite(home, old(logical)[log])]
    {
      var r;
      if recovering {
        assert buf[0].refcnt == 0;
        r := BreadBoot(log, home);
      } else {
        r := BreadPair(log, home, s);
      }
      if r == None {
        return false, 0, 0;
      }
      var (lbuf, dbuf) := r.value;
      Overwrite(dbuf, buf[lbuf].data);
      if !recovering {
        Bunpin(dbuf);
      }
      BrelsePair(lbuf, dbuf);
      ok, t, h := true, lbuf, dbuf;
    }
  }
}
