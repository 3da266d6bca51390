/**
 The redo log on top of the buffer cache: `log_write` absorbs repeated writes and pins buffers,
 `commit` moves a transaction to the log and then home, `recover_from_log` redoes it after a crash.
 Every method states the exact block writes it issues, which the `Crash` module reasons about.
 */
module Logs {
  import opened Common
  import opened Disks
  import opened Caches
  import opened Crash
  import A = LogLocks
  import S = SleepWakeup

  predicate UnsealLog(u: int) { true }

  /** Nobody references log blocks, and none is changed in memory only. */
  ghost predicate LogAreaIdle(start: nat, buf: seq<Buf<Block>>, dirty: map<nat, nat>)
    requires |buf| == NBUF
  {
    && (forall i :: 0 <= i < NBUF && buf[i].dev == ROOTDEV && InLog(start, buf[i].blockno) ==> buf[i].refcnt == 0)
    && (forall b :: b in dirty ==> !InLog(start, b))
  }

  /**
   Logged blocks from position `from` on are in valid, once-pinned buffers, which nobody has locked
   if `idle`; nothing else is pinned.
   */
  ghost predicate InSlots(buf: seq<Buf<Block>>, pins: seq<nat>, slot: seq<nat>, blocks: seq<Word>, from: nat,
                          idle: bool)
    requires |buf| == |pins| == NBUF && |slot| == |blocks|
  {
    && (forall j :: from <= j < |blocks| ==>
          slot[j] < NBUF && Holds(buf[slot[j]], ROOTDEV, blocks[j]) && buf[slot[j]].valid
          && (idle ==> !buf[slot[j]].locked) && pins[slot[j]] == 1 && buf[slot[j]].refcnt > 0)
    && (forall i :: 0 <= i < NBUF && pins[i] != 0 ==> exists j :: from <= j < |blocks| && slot[j] == i)
  }

  /** Every block changed in memory only is logged, at position `from` or later. */
  ghost predicate AllLogged(dirty: map<nat, nat>, blocks: seq<Word>, from: nat) {
    forall b :: b in dirty ==> exists j :: from <= j < |blocks| && blocks[j] == b
  }

  /** All of the above (the last only if `idle`), unfolded only where a proof mentions `UnsealLog`. */
  ghost predicate Pinned(start: nat, buf: seq<Buf<Block>>, pins: seq<nat>, dirty: map<nat, nat>, slot: seq<nat>,
                         blocks: seq<Word>, from: nat, idle: bool) {
    && |buf| == |pins| == NBUF && |slot| == |blocks| && from <= |blocks|
    && forall u {:trigger UnsealLog(u)} :: UnsealLog(u) ==>
         LogAreaIdle(start, buf, dirty) && Distinct(blocks) && InSlots(buf, pins, slot, blocks, from, idle)
         && (idle ==> AllLogged(dirty, blocks, from))
  }

  /** `buf'` differs from `buf` at most in data and at one buffer that is unreferenced in both. */
  ghost predicate Touched(buf: seq<Buf<Block>>, buf': seq<Buf<Block>>, t: nat) {
    && |buf| == |buf'| == NBUF && t < NBUF
    && buf[t].refcnt == 0 && buf'[t].refcnt == 0 && !buf'[t].locked
    && forall i :: 0 <= i < NBUF && i != t ==> buf'[i] == buf[i].(data := buf'[i].data)
  }

  lemma TouchOk(start: nat, buf: seq<Buf<Block>>, buf': seq<Buf<Block>>, pins: seq<nat>, dirty: map<nat, nat>,
                slot: seq<nat>, blocks: seq<Word>, from: nat, idle: bool, t: nat)
    requires Pinned(start, buf, pins, dirty, slot, blocks, from, idle) && Touched(buf, buf', t)
    ensures Pinned(start, buf', pins, dirty, slot, blocks, from, idle)
  {
    assert UnsealLog(0);
  }

  lemma DirtyOk(start: nat, buf: seq<Buf<Block>>, pins: seq<nat>, dirty: map<nat, nat>, slot: seq<nat>,
                blocks: seq<Word>, from: nat, idle: bool, b: nat)
    requires Pinned(start, buf, pins, dirty, slot, blocks, from, idle)
    ensures Pinned(start, buf, pins, dirty - {b}, slot, blocks, from, idle)
  {
    assert UnsealLog(0);
  }

  /** Unpinning the next logged block after it has been installed. */
  lemma UnpinOk(start: nat, buf: seq<Buf<Block>>, buf': seq<Buf<Block>>, pins: seq<nat>, dirty: map<nat, nat>,
                slot: seq<nat>, blocks: seq<Word>, from: nat, idle: bool)
    requires Pinned(start, buf, pins, dirty, slot, blocks, from, idle) && from < |blocks| && slot[from] < NBUF
             && |buf'| == NBUF
    requires Holds(buf'[slot[from]], ROOTDEV, blocks[from]) && !InLog(start, blocks[from])
    requires forall i :: 0 <= i < NBUF && i != slot[from] ==> buf'[i] == buf[i]
    ensures Pinned(start, buf', pins[slot[from] := 0], dirty - {blocks[from]}, slot, blocks, from + 1, idle)
  {
    assert UnsealLog(0);
    forall i | 0 <= i < NBUF && i != slot[from] && pins[i] != 0
      ensures exists j :: from + 1 <= j < |blocks| && slot[j] == i
    {
      var j :| from <= j < |blocks| && slot[j] == i;
    }
    if idle {
      forall b | b in dirty - {blocks[from]} ensures exists j :: from + 1 <= j < |blocks| && blocks[j] == b {
        var j :| from <= j < |blocks| && blocks[j] == b;
      }
    }
  }

  /** Logging one more block. */
  lemma AppendOk(start: nat, buf: seq<Buf<Block>>, pins: seq<nat>, dirty: map<nat, nat>, slot: seq<nat>,
                 blocks: seq<Word>, b: nat)
    requires Pinned(start, buf, pins, dirty, slot, blocks, 0, false) && b < NBUF
    requires buf[b].dev == ROOTDEV && buf[b].valid && !InLog(start, buf[b].blockno) && buf[b].blockno !in blocks
    ensures Pinned(start, buf[b := buf[b].(refcnt := buf[b].refcnt + 1)], pins[b := pins[b] + 1], dirty,
                   slot + [b], blocks + [buf[b].blockno], 0, false)
  {
    assert UnsealLog(0);
    var slot', blocks', pins' := slot + [b], blocks + [buf[b].blockno], pins[b := pins[b] + 1];
    forall j | 0 <= j < |blocks| ensures slot[j] != b {
      assert blocks[j] in blocks;
    }
    forall i | 0 <= i < NBUF && pins'[i] != 0 ensures exists j :: 0 <= j < |blocks'| && slot'[j] == i {
      if i == b {
        assert slot'[|slot|] == i;
      } else {
        var j :| 0 <= j < |blocks| && slot[j] == i;
        assert slot'[j] == i;
      }
    }
  }

  /** A home block is read: its buffer is referenced once more, or an unreferenced one is taken over. */
  lemma FetchOk(start: nat, buf: seq<Buf<Block>>, pins: seq<nat>, dirty: map<nat, nat>, slot: seq<nat>,
                blocks: seq<Word>, b: nat, x: Buf<Block>, buf': seq<Buf<Block>>)
    requires Pinned(start, buf, pins, dirty, slot, blocks, 0, false) && b < NBUF && buf' == buf[b := x]
    requires x.dev == ROOTDEV && x.valid && !InLog(start, x.blockno) && x.refcnt > 0
             && (buf[b].refcnt > 0 ==> Holds(buf[b], ROOTDEV, x.blockno))
    ensures Pinned(start, buf', pins, dirty, slot, blocks, 0, false)
  {
    assert UnsealLog(0);
  }

  /** A buffer of a home block changes its contents or its lock, or loses a reference that is not a pin. */
  lemma KeepOk(start: nat, buf: seq<Buf<Block>>, pins: seq<nat>, dirty: map<nat, nat>, slot: seq<nat>,
               blocks: seq<Word>, b: nat, x: Buf<Block>, buf': seq<Buf<Block>>,
               dirty': map<nat, nat>)
    requires Pinned(start, buf, pins, dirty, slot, blocks, 0, false) && b < NBUF && buf' == buf[b := x]
    requires x.dev == buf[b].dev && x.blockno == buf[b].blockno && x.valid == buf[b].valid
             && (pins[b] > 0 ==> x.refcnt > 0) && (buf[b].refcnt == 0 ==> x.refcnt == 0)
    requires dirty' == dirty || (dirty' == dirty[x.blockno := b] && !InLog(start, x.blockno))
    ensures Pinned(start, buf', pins, dirty', slot, blocks, 0, false)
  {
    assert UnsealLog(0);
  }

  /** At boot nothing is referenced, so any list of distinct blocks may be redone. */
  lemma BootOk(start: nat, buf: seq<Buf<Block>>, held: seq<nat>, pins: seq<nat>, slot: seq<nat>, blocks: seq<Word>)
    requires CountsOk(buf, held, pins) && (forall i :: 0 <= i < NBUF ==> buf[i].refcnt == 0)
    requires Distinct(blocks) && |slot| == |blocks|
    ensures Pinned(start, buf, pins, map[], slot, blocks, |blocks|, true)
  {
    assert UnsealLog(0);
  }

  lemma IdleOk(start: nat, buf: seq<Buf<Block>>, pins: seq<nat>, dirty: map<nat, nat>, slot: seq<nat>,
               blocks: seq<Word>)
    requires Pinned(start, buf, pins, dirty, slot, blocks, 0, true)
    ensures Pinned(start, buf, pins, dirty, slot, blocks, 0, false) && Distinct(blocks)
  {
    assert UnsealLog(0);
  }

  /** If no changed or logged block is locked, the log is complete and ready to commit. */
  lemma QuietOk(start: nat, buf: seq<Buf<Block>>, pins: seq<nat>, disk: Image, logical: Image, dirty: map<nat, nat>,
                slot: seq<nat>, blocks: seq<Word>)
    requires Pinned(start, buf, pins, dirty, slot, blocks, 0, false) && Consistent(buf, pins, disk, logical, dirty)
    requires forall i :: 0 <= i < NBUF && buf[i].dev == ROOTDEV && buf[i].locked ==>
               buf[i].blockno !in dirty && buf[i].blockno !in blocks
    ensures Pinned(start, buf, pins, dirty, slot, blocks, 0, true) && Distinct(blocks)
  {
    assert UnsealLog(0) && Unseal(0);
    forall b | b in dirty ensures exists j :: 0 <= j < |blocks| && blocks[j] == b {
      assert pins[dirty[b]] > 0;
      var j :| 0 <= j < |blocks| && slot[j] == dirty[b];
      assert blocks[j] == b;
    }
    forall j | 0 <= j < |blocks| ensures !buf[slot[j]].locked {
      assert blocks[j] in blocks;
    }
  }

  /** The logged contents on top of the disk are the newest contents of every home block. */
  lemma LoggedIsAll(start: nat, buf: seq<Buf<Block>>, pins: seq<nat>, disk: Image, logical: Image, dirty: map<nat, nat>,
                    slot: seq<nat>, blocks: seq<Word>, datas: seq<Block>)
    requires Pinned(start, buf, pins, dirty, slot, blocks, 0, true) && Consistent(buf, pins, disk, logical, dirty)
    requires TxnOk(start, disk, blocks, datas)
    requires forall j :: 0 <= j < |blocks| ==> blocks[j] in logical && datas[j] == logical[blocks[j]]
    ensures SameHome(start, Install(disk, blocks, datas), logical)
    ensures forall b :: b in disk && InLog(start, b) ==> disk[b] == logical[b]
  {
    assert UnsealLog(0) && Unseal(0);
    InstallSameHome(start, disk, disk, blocks, datas);
    var ws := InstallWrites(blocks, datas);
    assert ws[..|blocks|] == ws;
    forall b | b in disk && !InLog(start, b) ensures Install(disk, blocks, datas)[b] == logical[b] {
      if j :| 0 <= j < |blocks| && blocks[j] == b {
        InstallAt(disk, blocks, datas, j, |blocks|);
      } else {
        InstallKeeps(disk, blocks, datas, |blocks|, b);
        assert b !in dirty;
      }
    }
  }

  /** When everything is installed and unpinned the log can be emptied. */
  lemma ClearOk(start: nat, buf: seq<Buf<Block>>, pins: seq<nat>, dirty: map<nat, nat>, slot: seq<nat>,
                blocks: seq<Word>)
    requires Pinned(start, buf, pins, dirty, slot, blocks, |blocks|, true)
    ensures Pinned(start, buf, pins, dirty, [], [], 0, true)
    ensures dirty == map[]
  {
    assert UnsealLog(0);
  }

  ghost function Newest(logical: Image, blocks: seq<Word>): (r: seq<Block>)
    requires forall j :: 0 <= j < |blocks| ==> blocks[j] in logical
  {
    seq(|blocks|, j requires 0 <= j < |blocks| => logical[blocks[j]])
  }

  class Log {
    const cache: Cache<Block>
    const start: nat
    var outstanding: nat
    var committing: bool
    var n: nat
    var block: seq<Word>
    /** The pinned buffer of each logged block. */
    ghost var slot: seq<nat>
    /** For each operation in progress, how many blocks it may still add to the log. */
    ghost var budget: seq<nat>

    constructor (cache: Cache<Block>, start: nat)
      ensures this.cache == cache && this.start == start
      ensures n == 0 && block == seq(LOGBLOCKS, _ => 0) && slot == [] && outstanding == 0 && !committing && budget == []
    {
      this.cache, this.start := cache, start;
      n, block, slot, outstanding, committing, budget := 0, seq(LOGBLOCKS, _ => 0), [], 0, false, [];
    }

    ghost function Logged(): (r: seq<Word>)
      requires n <= |block|
      reads this
    {
      block[..n]
    }

    /** The newest contents of the logged blocks. */
    ghost function Contents(): (r: seq<Block>)
      requires n <= |block| && forall j :: 0 <= j < n ==> block[j] in cache.logical
      reads this, cache
    {
      Newest(cache.logical, block[..n])
    }

    /** A log area exists, and logged blocks are outside it. */
    ghost predicate Shape()
      reads this, cache, cache.disk
    {
      && cache.Valid()
      && start + LOGBLOCKS < 0x1_0000_0000
      && HasLog(start, cache.disk.blocks)
      && |block| == LOGBLOCKS && n <= LOGBLOCKS
      && (forall j :: 0 <= j < n ==> block[j] in cache.logical && !InLog(start, block[j]))
    }

    /** The state of a commit that has installed `from` blocks. */
    ghost predicate Ready(from: nat)
      reads this, cache, cache.disk
    {
      Shape() && Pinned(start, cache.buf, cache.pins, cache.dirty, slot, Logged(), from, true)
    }

    lemma SlotAt(from: nat, j: nat)
      requires Ready(from) && from <= j < n
      ensures slot[j] < NBUF && Holds(cache.buf[slot[j]], ROOTDEV, block[j]) && cache.buf[slot[j]].valid
      ensures !cache.buf[slot[j]].locked && cache.pins[slot[j]] == 1 && cache.buf[slot[j]].refcnt > 0
    {
      assert UnsealLog(0);
      assert Logged()[j] == block[j];
    }

    /** A log block is not changed in memory, and its buffer, if any, is unreferenced and unlocked. */
    lemma LogIdle(from: nat, b: nat)
      requires Ready(from) && InLog(start, b)
      ensures b !in cache.dirty
      ensures forall i :: 0 <= i < NBUF && Holds(cache.buf[i], ROOTDEV, b) ==>
                cache.buf[i].refcnt == 0 && !cache.buf[i].locked
    {
      assert UnsealLog(0);
      forall i | 0 <= i < NBUF && Holds(cache.buf[i], ROOTDEV, b)
        ensures cache.buf[i].refcnt == 0 && !cache.buf[i].locked
      {
        cache.Counts(i);
      }
    }

    /** One round of `write_log`. */
    method WriteLogStep(tail: nat) returns (ok: bool)
      requires Ready(0) && tail < n
      modifies cache, cache.disk
      ensures Ready(0)
      ensures ok <==> !old(cache.AllReferenced())
      ensures ok <==> !cache.AllReferenced()
      ensures !ok ==> cache.disk.writes == old(cache.disk.writes)
      ensures ok ==>
                var data := old(cache.logical)[block[tail]];
                && cache.logical == old(cache.logical)[start + 1 + tail := data]
                && cache.disk.writes == old(cache.disk.writes) + [DiskWrite(start + 1 + tail, data)]
    {
      assert InLog(start, start + 1 + tail);
      SlotAt(0, tail);
      LogIdle(0, start + 1 + tail);
      ghost var t;
      ok, t := cache.WriteRound(start + 1 + tail, block[tail], slot[tail]);
      if ok {
        TouchOk(start, old(cache.buf), cache.buf, cache.pins, cache.dirty, slot, Logged(), 0, true, t);
        assert cache.buf[t].refcnt == 0;
      }
    }

    /** The same, in terms of the whole list of log writes. */
    method WriteLogRound(tail: nat, ghost base: Image, ghost datas: seq<Block>) returns (ok: bool)
      requires Ready(0) && tail < n == |datas|
      requires forall j :: 0 <= j < n ==> block[j] in base && base[block[j]] == datas[j]
      requires cache.logical == Apply(base, LogWrites(start, datas)[..tail])
      modifies cache, cache.disk
      ensures Ready(0)
      ensures ok <==> !old(cache.AllReferenced())
      ensures ok <==> !cache.AllReferenced()
      ensures !ok ==> cache.disk.writes == old(cache.disk.writes)
      ensures ok ==>
                && cache.logical == Apply(base, LogWrites(start, datas)[..tail + 1])
                && cache.disk.writes == old(cache.disk.writes) + [LogWrites(start, datas)[tail]]
                && LogWrites(start, datas)[..tail + 1] == LogWrites(start,
                                                                    datas)[..tail] + [LogWrites(start, datas)[tail]]
    {
      LogWriteNext(start, base, cache.logical, datas, tail, block[tail]);
      ok := WriteLogStep(tail);
    }

    /** Copy modified blocks from the cache to the log.  Not ok is the panic "bget: no buffers". */
    method WriteLog() returns (ok: bool)
      requires Ready(0)
      modifies cache, cache.disk
      ensures Ready(0)
      ensures ok <==> n == 0 || !old(cache.AllReferenced())
      ensures ok && n > 0 ==> !cache.AllReferenced()
      ensures !ok ==> cache.disk.writes == old(cache.disk.writes)
      ensures ok ==>
                var ws := LogWrites(start, old(Contents()));
                && cache.logical == Apply(old(cache.logical), ws)
                && cache.disk.writes == old(cache.disk.writes) + ws
    {
      ghost var datas := Contents();
      ghost var ws := LogWrites(start, datas);
      var tail := 0;
      while tail < n
        invariant 0 <= tail <= n
        invariant Ready(0)
        invariant tail == 0 ==> cache.AllReferenced() == old(cache.AllReferenced())
        invariant tail > 0 ==> !old(cache.AllReferenced()) && !cache.AllReferenced()
        invariant cache.logical == Apply(old(cache.logical), ws[..tail])
        invariant cache.disk.writes == old(cache.disk.writes) + ws[..tail]
      {
        var step := WriteLogRound(tail, old(cache.logical), datas);
        if !step {
          return false;
        }
        tail := tail + 1;
      }
      assert ws[..n] == ws;
      return true;
    }

    /** The header block `write_head` builds in its buffer. */
    method BuildHeader(prev: Block) returns (h: Block)
      requires |block| == LOGBLOCKS && n <= LOGBLOCKS
      ensures h == EncodeHeader(prev, Logged())
    {
      h := prev[0 := n];
      var i := 0;
      while i < n
        invariant 0 <= i <= n
        invariant h == [n] + block[..i] + prev[1 + i..]
      {
        h := h[1 + i := block[i]];
        i := i + 1;
      }
    }

    /** Write the in-memory header to disk. */
    method WriteHead() returns (ok: bool)
      requires Ready(0)
      modifies cache, cache.disk
      ensures Ready(0)
      ensures ok <==> !old(cache.AllReferenced())
      ensures ok <==> !cache.AllReferenced()
      ensures !ok ==> cache.disk.writes == old(cache.disk.writes)
      ensures start in old(cache.logical)
      ensures ok ==>
                var h := EncodeHeader(old(cache.logical)[start], Logged());
                && cache.logical == old(cache.logical)[start := h]
                && cache.disk.writes == old(cache.disk.writes) + [DiskWrite(start, h)]
    {
      assert InLog(start, start);
      LogIdle(0, start);
      var buf := cache.Bread(start);
      if buf == None {
        return false;
      }
      var h := BuildHeader(cache.buf[buf.value].data);
      cache.OverwriteRelease(buf.value, h);
      TouchOk(start, old(cache.buf), cache.buf, cache.pins, old(cache.dirty), slot, Logged(), 0, true, buf.value);
      DirtyOk(start, cache.buf, cache.pins, old(cache.dirty), slot, Logged(), 0, true, start);
      assert cache.buf[buf.value].refcnt == 0;
      return true;
    }

    /** One round of `install_trans`. */
    method InstallStep(recovering: bool, tail: nat)
      requires Ready(if recovering then n else tail) && tail < n && !cache.AllReferenced()
      requires recovering ==> forall i :: 0 <= i < NBUF ==> cache.buf[i].refcnt == 0
      modifies cache, cache.disk
      ensures Ready(if recovering then n else tail + 1) && !cache.AllReferenced()
      ensures recovering ==> forall i :: 0 <= i < NBUF ==> cache.buf[i].refcnt == 0
      ensures start + 1 + tail in old(cache.logical)
      ensures var data := old(cache.logical)[start + 1 + tail];
              && cache.logical == old(cache.logical)[block[tail] := data]
              && cache.disk.writes == old(cache.disk.writes) + [DiskWrite(block[tail], data)]
    {
      assert InLog(start, start + 1 + tail);
      LogIdle(if recovering then n else tail, start + 1 + tail);
      if !recovering {
        SlotAt(tail, tail);
      }
      var ok;
      ghost var t, h;
      ok, t, h := cache.InstallRound(start + 1 + tail, block[tail], recovering, if recovering then 0 else slot[tail]);
      assert cache.buf[t].refcnt == 0;
      InstallKept(recovering, tail, old(cache.buf), old(cache.pins), old(cache.dirty), t, h);
    }

    /** Whatever one round of `install_trans` did to the cache, it left the log ready for the next. */
    lemma InstallKept(recovering: bool, tail: nat, buf: seq<Buf<Block>>, pins: seq<nat>, dirty: map<nat, nat>, t: nat,
                      h: nat)
      requires Shape() && tail < n
      requires Pinned(start, buf, pins, dirty, slot, Logged(), if recovering then n else tail, true)
      requires |cache.buf| == NBUF && t < NBUF && h < NBUF && t != h
      requires buf[t].refcnt == 0 && cache.buf[t].refcnt == 0 && !cache.buf[t].locked
      requires cache.dirty == dirty - {block[tail]}
      requires if recovering then cache.pins == pins && buf[h].refcnt == 0 && cache.buf[h].refcnt == 0
               && !cache.buf[h].locked
               else h == slot[tail] && cache.pins == pins[h := 0]
      requires Holds(cache.buf[h], ROOTDEV, block[tail])
      requires forall i :: 0 <= i < NBUF && i != t && i != h ==> cache.buf[i] == buf[i]
      ensures Ready(if recovering then n else tail + 1)
    {
      var mid := buf[t := cache.buf[t]];
      TouchOk(start, buf, mid, pins, dirty, slot, Logged(), if recovering then n else tail, true, t);
      if recovering {
        TouchOk(start, mid, cache.buf, pins, dirty, slot, Logged(), n, true, h);
        DirtyOk(start, cache.buf, pins, dirty, slot, Logged(), n, true, block[tail]);
      } else {
        UnpinOk(start, mid, cache.buf, pins, dirty, slot, Logged(), tail, true);
      }
    }

    /** One round of `install_trans`, in terms of the whole list of home writes. */
    method InstallNext(recovering: bool, tail: nat, ghost base: Image, ghost datas: seq<Block>)
      requires Ready(if recovering then n else tail) && tail < n == |datas| && !cache.AllReferenced()
      requires recovering ==> forall i :: 0 <= i < NBUF ==> cache.buf[i].refcnt == 0
      requires HasLog(start, base) && LoggedData(start, base, n) == datas
      requires cache.logical == Apply(base, InstallWrites(Logged(), datas)[..tail])
      modifies cache, cache.disk
      ensures Ready(if recovering then n else tail + 1) && !cache.AllReferenced()
      ensures recovering ==> forall i :: 0 <= i < NBUF ==> cache.buf[i].refcnt == 0
      ensures cache.logical == Apply(base, InstallWrites(Logged(), datas)[..tail + 1])
      ensures cache.disk.writes == old(cache.disk.writes) + [InstallWrites(Logged(), datas)[tail]]
      ensures InstallWrites(Logged(), datas)[..tail + 1]
           == InstallWrites(Logged(), datas)[..tail] + [InstallWrites(Logged(), datas)[tail]]
    {
      InstallWriteNext(start, base, cache.logical, Logged(), tail);
      InstallStep(recovering, tail);
    }

    /** Copy committed blocks from the log to their home locations. */
    method InstallTrans(recovering: bool)
      requires Ready(if recovering then n else 0) && (n > 0 ==> !cache.AllReferenced())
      requires recovering ==> forall i :: 0 <= i < NBUF ==> cache.buf[i].refcnt == 0
      modifies cache, cache.disk
      ensures Ready(n) && (n > 0 ==> !cache.AllReferenced())
      ensures recovering ==> forall i :: 0 <= i < NBUF ==> cache.buf[i].refcnt == 0
      ensures old(HasLog(start, cache.logical))
      ensures var ws := InstallWrites(Logged(), LoggedData(start, old(cache.logical), n));
              && cache.logical == Apply(old(cache.logical), ws)
              && cache.disk.writes == old(cache.disk.writes) + ws
    {
      ghost var base := cache.logical;
      ghost var datas := LoggedData(start, base, n);
      ghost var ws := InstallWrites(Logged(), datas);
      var tail := 0;
      while tail < n
        invariant 0 <= tail <= n
        invariant Ready(if recovering then n else tail) && (n > 0 ==> !cache.AllReferenced())
        invariant recovering ==> forall i :: 0 <= i < NBUF ==> cache.buf[i].refcnt == 0
        invariant cache.logical == Apply(base, ws[..tail])
        invariant cache.disk.writes == old(cache.disk.writes) + ws[..tail]
      {
        InstallNext(recovering, tail, base, datas);
        tail := tail + 1;
      }
      assert ws[..n] == ws;
    }

    lemma NothingDirty()
      requires Ready(n)
      ensures cache.dirty == map[]
    {
      ClearOk(start, cache.buf, cache.pins, cache.dirty, slot, Logged());
    }

    /** `log.lh.n = 0` once everything is installed. */
    method Clear()
      requires Ready(n)
      modifies this`n, this`slot
      ensures Ready(0) && n == 0 && Logged() == [] && cache.dirty == map[]
    {
      ClearOk(start, cache.buf, cache.pins, cache.dirty, slot, Logged());
      n, slot := 0, [];
      assert Logged() == [];
    }

    /** Empty the log, in memory and on disk. */
    method Erase()
      requires Ready(n) && !cache.AllReferenced()
      modifies this`n, this`slot, cache, cache.disk
      ensures Ready(0) && n == 0 && cache.dirty == map[]
      ensures old(start in cache.logical)
      ensures var cleared := EncodeHeader(old(cache.logical)[start], []);
              && cache.logical == old(cache.logical)[start := cleared]
              && cache.disk.writes == old(cache.disk.writes) + [DiskWrite(start, cleared)]
    {
      assert InLog(start, start);
      Clear();
      var ok := WriteHead();
      NothingDirty();
    }

    /** The first half of `commit`, up to and including the header write that makes it durable. */
    method CommitToLog() returns (ok: bool)
      requires Ready(0) && n > 0
      modifies cache, cache.disk
      ensures ok <==> !old(cache.AllReferenced())
      ensures !ok ==> cache.disk.writes == old(cache.disk.writes)
      ensures old(start in cache.logical)
      ensures ok ==>
                && Ready(0) && !cache.AllReferenced()
                && cache.logical == AtHeader(start, old(cache.logical), Logged(), old(Contents()))
                && cache.disk.writes == old(cache.disk.writes) + LogWrites(start, old(Contents()))
                                        + [DiskWrite(start, EncodeHeader(old(cache.logical)[start], Logged()))]
    {
      assert InLog(start, start);
      HeaderAfterLog(start, cache.logical, Contents());
      ok := WriteLog();
      if ok {
        ok := WriteHead();
      }
    }

    /** The second half of `commit`: install the blocks and erase the transaction from the log. */
    method CommitToHome(ghost d: Image, ghost datas: seq<Block>)
      requires Ready(0) && n > 0 && !cache.AllReferenced()
      requires Quiescent(start, d) && TxnOk(start, d, Logged(), datas)
      requires cache.logical == AtHeader(start, d, Logged(), datas)
      modifies this`n, this`slot, cache, cache.disk
      ensures Ready(0) && n == 0 && cache.dirty == map[]
      ensures var cleared := EncodeHeader(EncodeHeader(d[start], old(Logged())), []);
              && cache.logical == Install(AtHeader(start, d, old(Logged()), datas), old(Logged()),
                                          datas)[start := cleared]
              && cache.disk.writes == old(cache.disk.writes) + InstallWrites(old(Logged()),
                      datas) + [DiskWrite(start, cleared)]
    {
      CommitPoint(start, d, Logged(), datas);
      HeaderAfterInstall(start, d, Logged(), datas);
      InstallTrans(false);
      Erase();
    }

    /**
     Commit the logged blocks: exactly the writes of `CommitWrites`, after which nothing is pinned
     or newer in memory than on disk.  It panics for lack of buffers exactly when there is work
     to do and every buffer is referenced.
     */
    method Commit() returns (ok: bool)
      requires Ready(0) && Quiescent(start, cache.logical) && Distinct(Logged())
      modifies this`n, this`slot, cache, cache.disk
      ensures ok <==> old(n) == 0 || !old(cache.AllReferenced())
      ensures !ok ==> cache.disk.writes == old(cache.disk.writes)
      ensures ok ==>
                var ws := CommitWrites(start, old(cache.logical)[start], old(Logged()), old(Contents()));
                && Ready(0) && n == 0 && cache.dirty == map[]
                && cache.logical == Apply(old(cache.logical), ws)
                && cache.disk.writes == old(cache.disk.writes) + ws
    {
      if n > 0 {
        ghost var d, blocks, datas := cache.logical, Logged(), Contents();
        assert TxnOk(start, d, blocks, datas);
        CommitTotal(start, d, blocks, datas);
        CommitWritesParts(start, d[start], blocks, datas, cache.disk.writes);
        ok := CommitToLog();
        if ok {
          CommitToHome(d, datas);
        }
      } else {
        assert Logged() == [];
        Clear();
        ok := true;
      }
    }

    method LoadHeader(lh: Block)
      requires HeaderCount(lh) <= LOGBLOCKS == |block|
      modifies this`n, this`block
      ensures n == HeaderCount(lh) && |block| == LOGBLOCKS && Logged() == HeaderBlocks(lh)
    {
      n := lh[0];
      var i := 0;
      while i < n
        invariant 0 <= i <= n == HeaderCount(lh) && |block| == LOGBLOCKS
        invariant forall j :: 0 <= j < i ==> block[j] == lh[1 + j]
      {
        block := block[i := lh[1 + i]];
        i := i + 1;
      }
    }

    /** Read the on-disk header into the in-memory one, at boot. */
    method ReadHead()
      requires cache.Valid() && cache.dirty == map[] && |block| == LOGBLOCKS && start + LOGBLOCKS < 0x1_0000_0000
      requires LogOk(start, cache.logical)
      requires forall i :: 0 <= i < NBUF ==> cache.buf[i].refcnt == 0
      modifies this`n, this`block, this`slot, cache
      ensures Ready(n) && cache.logical == old(cache.logical)
      ensures forall i :: 0 <= i < NBUF ==> cache.buf[i].refcnt == 0
      ensures start in cache.logical && n == HeaderCount(cache.logical[start])
      ensures Logged() == HeaderBlocks(cache.logical[start])
    {
      assert InLog(start, start);
      var lh := cache.PeekBoot(start);
      LoadHeader(lh);
      slot := seq(n, _ => 0);
      cache.Unfold();
      BootOk(start, cache.buf, cache.held, cache.pins, slot, Logged());
    }

    /** `recover_from_log`, at boot: exactly the writes of `RecoverWrites`. */
    method RecoverFromLog()
      requires cache.Valid() && cache.dirty == map[] && |block| == LOGBLOCKS && start + LOGBLOCKS < 0x1_0000_0000
      requires LogOk(start, cache.logical)
      requires forall i :: 0 <= i < NBUF ==> cache.buf[i].refcnt == 0
      modifies this`n, this`block, this`slot, cache, cache.disk
      ensures Ready(0) && n == 0 && cache.dirty == map[]
      ensures var ws := RecoverWrites(start, old(cache.logical));
              && cache.logical == Apply(old(cache.logical), ws)
              && cache.disk.writes == old(cache.disk.writes) + ws
    {
      ghost var d := cache.logical;
      RecoverTotal(start, d);
      ReadHead();
      assert cache.buf[0].refcnt == 0;
      InstallTrans(true);
      assert !cache.AllReferenced() by {
        assert cache.buf[0].refcnt == 0;
      }
      Erase();
    }

    /** The invariant between operations. */
    ghost predicate Valid()
      reads this, cache, cache.disk
    {
      && Shape()
      && Pinned(start, cache.buf, cache.pins, cache.dirty, slot, Logged(), 0, false)
      && Quiescent(start, cache.logical)
      && Reserved()
    }

    /** What is in the log and what operations in progress may still add fits in it. */
    ghost predicate Reserved()
      reads this
    {
      |budget| == outstanding && A.Reserved(Sight())
    }

    /** What the sections under the log's lock look at. */
    ghost function Sight(): (r: A.View)
      reads this
    {
      A.View(n, budget, committing)
    }

    /** One pass of `begin_op`'s loop; not admitted means the caller sleeps and tries again. */
    method BeginOp() returns (admitted: bool)
      requires Valid()
      modifies this`outstanding, this`budget
      ensures Valid()
      ensures admitted <==> !committing && n + (old(outstanding) + 1) * MAXOPBLOCKS <= LOGBLOCKS
      ensures if admitted then outstanding == old(outstanding) + 1 && budget == old(budget) + [MAXOPBLOCKS]
              else outstanding == old(outstanding) && budget == old(budget)
      ensures A.Section(old(Sight()), Sight(), [], if admitted then S.Return else S.Sleep(A.CHANNEL))
    {
      if committing {
        return false;
      } else if n + (outstanding + 1) * MAXOPBLOCKS > LOGBLOCKS {
        return false;
      } else {
        outstanding := outstanding + 1;
        budget := budget + [MAXOPBLOCKS];
        A.ReservedBegin(old(Sight()), Sight(), S.Return);
        return true;
      }
    }

    /**
     `log_write` by operation `op` of a locked buffer it has changed.  Not ok is a panic.  An
     operation that keeps to its budget can always add a block; re-logging a block already in the
     log needs no space but still panics when the log is full.
     */
    method LogWrite(b: nat, ghost op: nat) returns (ok: bool)
      requires Valid() && b < NBUF && cache.buf[b].locked && cache.buf[b].valid && cache.buf[b].dev == ROOTDEV
      requires cache.buf[b].blockno in cache.logical && !InLog(start, cache.buf[b].blockno)
      requires outstanding >= 1 ==> op < |budget| && (cache.buf[b].blockno !in Logged() ==> budget[op] > 0)
      modifies this`n, this`block, this`slot, this`budget, cache`buf, cache`pins
      ensures ok <==> old(n) < LOGBLOCKS && old(outstanding) >= 1
      ensures outstanding >= 1 && old(cache.buf)[b].blockno !in old(Logged()) ==> ok
      ensures !ok ==> unchanged(this) && unchanged(cache)
      ensures ok ==>
                var bn := old(cache.buf)[b].blockno;
                && Valid()
                && Logged() == old(Logged()) + (if bn in old(Logged()) then [] else [bn])
                && budget == old(budget)[op := if bn in old(Logged()) then old(budget)[op] else old(budget)[op] - 1]
                && (if bn in old(Logged()) then unchanged(cache) && slot == old(slot)
                    else
                      && slot == old(slot) + [b]
                      && cache.buf == old(cache.buf)[b := old(cache.buf)[b].(refcnt := old(cache.buf)[b].refcnt + 1)]
                      && cache.pins == old(cache.pins)[b := old(cache.pins)[b] + 1])
                && A.Section(old(Sight()), Sight(), [], S.Return)
    {
      if op < |budget| {
        A.SumUpdate(budget, op, 0);
      }
      if n >= LOGBLOCKS {
        return false;
      }
      if outstanding < 1 {
        return false;
      }
      var bn := cache.buf[b].blockno;
      var i := 0;
      while i < n
        invariant 0 <= i <= n
        invariant bn !in block[..i]
      {
        if block[i] == bn {
          break;
        }
        i := i + 1;
      }
      if i < n {
        assert Logged()[i] == bn;
        block := block[i := bn];
        assert block == old(block);
        assert A.Adds(old(Sight()), Sight(), op);
      } else {
        Append(b, op);
      }
      return true;
    }

    /** The part of `log_write` that adds a new block. */
    method Append(b: nat, ghost op: nat)
      requires Valid() && b < NBUF && cache.buf[b].valid && cache.buf[b].dev == ROOTDEV && n < LOGBLOCKS
      requires cache.buf[b].blockno in cache.logical && !InLog(start, cache.buf[b].blockno)
      requires cache.buf[b].blockno !in Logged() && op < |budget| && budget[op] > 0
      modifies this`n, this`block, this`slot, this`budget, cache`buf, cache`pins
      ensures Valid()
      ensures Logged() == old(Logged()) + [old(cache.buf)[b].blockno]
      ensures budget == old(budget)[op := old(budget)[op] - 1] && A.Adds(old(Sight()), Sight(), op)
      ensures slot == old(slot) + [b]
              && cache.buf == old(cache.buf)[b := old(cache.buf)[b].(refcnt := old(cache.buf)[b].refcnt + 1)]
      ensures cache.pins == old(cache.pins)[b := old(cache.pins)[b] + 1]
    {
      AppendOk(start, cache.buf, cache.pins, cache.dirty, slot, Logged(), b);
      block := block[n := cache.buf[b].blockno];
      cache.Bpin(b);
      n, slot, budget := n + 1, slot + [b], budget[op := budget[op] - 1];
      A.ReservedAdd(old(Sight()), Sight(), op);
      assert Logged() == old(Logged()) + [old(cache.buf)[b].blockno];
    }

    /** `bread` of a home block by any process. */
    method Bread(blockno: Word) returns (r: Option<nat>)
      requires Valid() && blockno in cache.disk.blocks && !InLog(start, blockno)
      requires forall i :: 0 <= i < NBUF && Holds(cache.buf[i], ROOTDEV, blockno) ==> !cache.buf[i].locked
      modifies cache`buf, cache`held
      ensures Valid() && (r == None <==> !old(cache.Cached(ROOTDEV, blockno)) && old(cache.AllReferenced()))
      ensures r == None ==> cache.buf == old(cache.buf)
      ensures r.Some? ==>
                var b := r.value;
                && b < NBUF && !old(cache.buf)[b].locked
                && cache.buf ==
                  old(cache.buf)[b := Buf(true, ROOTDEV, blockno, true, old(cache.buf)[b].refcnt + 1,
                                          cache.logical[blockno])]
                && (old(cache.buf)[b].refcnt > 0 ==> Holds(old(cache.buf)[b], ROOTDEV, blockno))
    {
      ghost var buf0 := cache.buf;
      r := cache.Bread(blockno);
      if r.Some? {
        FetchOk(start, buf0, cache.pins, cache.dirty, slot, Logged(), r.value, cache.buf[r.value], cache.buf);
      }
    }

    /** A process changes a buffer of a home block that it has locked. */
    method Modify(b: nat, data: Block)
      requires Valid() && b < NBUF && cache.buf[b].locked && cache.buf[b].valid && cache.buf[b].dev == ROOTDEV
               && !InLog(start, cache.buf[b].blockno)
      modifies cache`buf, cache`logical, cache`dirty
      ensures Valid() && cache.buf == old(cache.buf)[b := old(cache.buf)[b].(data := data)] && Logged() == old(Logged())
      ensures cache.logical == old(cache.logical)[old(cache.buf)[b].blockno := data]
              && cache.dirty == old(cache.dirty)[old(cache.buf)[b].blockno := b]
    {
      ghost var buf0, dirty0 := cache.buf, cache.dirty;
      cache.Counts(b);
      cache.Modify(b, data);
      KeepOk(start, buf0, cache.pins, dirty0, slot, Logged(), b, cache.buf[b], cache.buf, cache.dirty);
    }

    /** `brelse` by a process that has logged what it changed. */
    method Brelse(b: nat)
      requires Valid() && b < NBUF && cache.buf[b].locked
               && (cache.buf[b].dev == ROOTDEV && cache.buf[b].blockno in cache.dirty ==> cache.pins[b] > 0)
      modifies cache`buf, cache`held, cache`prev, cache`next, cache`order, cache`stamp, cache`clock
      ensures Valid()
              && cache.buf ==
              old(cache.buf)[b := old(cache.buf)[b].(locked := false, refcnt := Pred(old(cache.buf)[b].refcnt))]
    {
      ghost var buf0 := cache.buf;
      cache.Counts(b);
      cache.Brelse(b);
      KeepOk(start, buf0, cache.pins, cache.dirty, slot, Logged(), b, cache.buf[b], cache.buf, cache.dirty);
    }

    /** Nobody is using a block that is logged or changed. */
    ghost predicate Quiet()
      requires |cache.buf| == NBUF && n <= |block|
      reads this, cache
    {
      forall i :: 0 <= i < NBUF && cache.buf[i].dev == ROOTDEV && cache.buf[i].locked ==>
        cache.buf[i].blockno !in cache.dirty && cache.buf[i].blockno !in Logged()
    }

    /** Between operations, when all is quiet, the log is ready to commit. */
    lemma QuietReady()
      requires Valid() && Quiet()
      ensures Ready(0) && Distinct(Logged())
    {
      cache.Unfold();
      QuietOk(start, cache.buf, cache.pins, cache.disk.blocks, cache.logical, cache.dirty, slot, Logged());
    }

    /**
     What a commit is about to do, seen from the disk: a legal transaction whose effect is the
     contents every reader of the cache already sees.
     */
    lemma CommitIsDurable()
      requires Valid() && Quiet()
      ensures Quiescent(start, cache.disk.blocks) && TxnOk(start, cache.disk.blocks, Logged(), Contents())
      ensures cache.disk.blocks[start] == cache.logical[start]
      ensures SameHome(start, Install(cache.disk.blocks, Logged(), Contents()), cache.logical)
    {
      QuietReady();
      cache.Unfold();
      assert InLog(start, start);
      LoggedIsAll(start, cache.buf, cache.pins, cache.disk.blocks, cache.logical, cache.dirty, slot, Logged(),
                  Contents());
    }

    /**
     `end_op` of operation `op`.  The last one commits, and the disk then goes through exactly the
     states of `CommitWrites`; the others only give back their unused budget.
     */
    method EndOp(ghost op: nat) returns (ok: bool, ghost wakes: seq<nat>)
      requires Valid() && op < |budget| && (outstanding == 1 ==> Quiet())
      modifies this, cache, cache.disk
      ensures outstanding == old(outstanding) - 1
      ensures ok ==> !committing && wakes == [A.CHANNEL]
      ensures old(outstanding) > 1 ==>
                && ok && Valid() && unchanged(cache) && unchanged(cache.disk)
                && Logged() == old(Logged()) && budget == old(budget)[..op] + old(budget)[op + 1..]
      ensures old(outstanding) == 1 ==> (ok <==> old(n) == 0 || !old(cache.AllReferenced()))
      ensures old(outstanding) == 1 && old(n) == LOGBLOCKS ==> !ok
      ensures !ok ==> cache.disk.writes == old(cache.disk.writes)
      ensures ok && old(outstanding) == 1 ==>
                && Valid() && n == 0 && cache.dirty == map[]
                && cache.disk.writes == old(cache.disk.writes)
                     + CommitWrites(start, old(cache.logical)[start], old(Logged()), old(Contents()))
                && SameHome(start, old(cache.logical), cache.logical) && cache.disk.blocks == cache.logical
    {
      if n == LOGBLOCKS {
        FullReferenced();
      }
      var last := Leave(op);
      ok, wakes := true, [A.CHANNEL];
      if last {
        ok := CommitNow();
        wakes := [];
        if ok {
          wakes := Done();
        }
      }
    }

    /** The first section of `end_op`; its panic "log.committing" cannot happen. */
    method Leave(ghost op: nat) returns (last: bool)
      requires Valid() && op < |budget|
      modifies this`outstanding, this`budget, this`committing
      ensures Valid() && (last <==> old(outstanding) == 1) && committing == last && !old(committing)
      ensures outstanding == old(outstanding) - 1 && budget == old(budget)[..op] + old(budget)[op + 1..]
      ensures A.Section(old(Sight()), Sight(), if last then [] else [A.CHANNEL], S.Return)
    {
      outstanding, budget := outstanding - 1, budget[..op] + budget[op + 1..];
      if outstanding == 0 {
        last, committing := true, true;
      } else {
        last := false;
      }
      assert A.Ends(old(Sight()), Sight(), op, if last then [] else [A.CHANNEL]);
      A.ReservedEnd(old(Sight()), Sight(), op, if last then [] else [A.CHANNEL]);
    }

    /** The commit, which runs without the lock while `committing` keeps new operations out. */
    method CommitNow() returns (ok: bool)
      requires Valid() && committing && Quiet()
      modifies this`n, this`slot, cache, cache.disk
      ensures ok <==> old(n) == 0 || !old(cache.AllReferenced())
      ensures !ok ==> cache.disk.writes == old(cache.disk.writes)
      ensures ok ==>
                && Valid() && n == 0 && cache.dirty == map[] && A.Commits(old(Sight()), Sight())
                && cache.disk.writes == old(cache.disk.writes)
                     + CommitWrites(start, old(cache.logical)[start], old(Logged()), old(Contents()))
                && SameHome(start, old(cache.logical), cache.logical) && cache.disk.blocks == cache.logical
    {
      ghost var d, blocks, datas := cache.logical, Logged(), Contents();
      QuietReady();
      assert TxnOk(start, d, blocks, datas);
      CommitLeavesQuiescent(start, d, blocks, datas);
      CommitIsInvisible(start, d, blocks, datas);
      ok := Commit();
      if ok {
        cache.Clean();
        IdleOk(start, cache.buf, cache.pins, cache.dirty, slot, Logged());
      }
    }

    /** The second section of `end_op`. */
    method Done() returns (ghost wakes: seq<nat>)
      requires Valid() && committing && n == 0
      modifies this`committing
      ensures Valid() && !committing && wakes == [A.CHANNEL] && A.Section(old(Sight()), Sight(), wakes, S.Return)
    {
      committing := false;
      wakes := [A.CHANNEL];
    }

    /** A full log has every buffer pinned, since there are as many buffers as log blocks. */
    lemma FullReferenced()
      requires Valid() && n == LOGBLOCKS
      ensures cache.AllReferenced()
    {
      assert UnsealLog(0);
      forall j | 0 <= j < n
        ensures slot[j] < NBUF && cache.pins[slot[j]] > 0 && cache.buf[slot[j]].dev == ROOTDEV
          && cache.buf[slot[j]].blockno == block[j] {
        assert Logged()[j] == block[j];
      }
      forall i, j | 0 <= i < j < n ensures slot[i] != slot[j] {
        assert Logged()[i] == block[i] && Logged()[j] == block[j];
      }
      forall i | 0 <= i < NBUF ensures cache.buf[i].refcnt > 0 {
        if i !in slot {
          Fewer(slot, i, NBUF);
        }
        cache.Counts(i);
      }
    }

    /**
     The promise of the log: if power fails after any number of the writes of this commit, and then
     any number of times during recovery, the home blocks end up as every reader saw them just
     before the commit, if the header was written, and as they were on disk, if it was not.
     */
    lemma AllOrNothing(k: nat, ks: seq<nat>)
      requires Valid() && Quiet()
      requires k <= |CommitWrites(start, cache.logical[start], Logged(), Contents())|
      ensures Quiescent(start, cache.disk.blocks) && TxnOk(start, cache.disk.blocks, Logged(), Contents())
      ensures cache.disk.blocks[start] == cache.logical[start]
      ensures var r := CrashedCommit(start, cache.disk.blocks, Logged(), Contents(), k, ks);
              && Quiescent(start, r)
              && SameHome(start, r, if k > n then cache.logical else cache.disk.blocks)
    {
      CommitIsDurable();
      CrashAtomicity(start, cache.disk.blocks, Logged(), Contents(), k, ks);
    }
  }
}
