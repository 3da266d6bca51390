/**
 Switching the machine on: a cache and a log over whatever disk the last power failure left, then
 recovery.  The log is ready for operations, and readers see an all-or-nothing disk.
 */
module Boots {
  import opened Common
  import opened Disks
  import opened Caches
  import opened Crash
  import opened Logs

  /** `initlog` on a disk that any run of the kernel may have left. */
  method Boot(disk: Disk<Block>, start: nat, zero: Block) returns (log: Log)
    requires disk.Ok() && LogOk(start, disk.blocks) && start + LOGBLOCKS < 0x1_0000_0000
    modifies disk
    ensures fresh(log) && fresh(log.cache) && log.cache.disk == disk && log.start == start
    ensures log.Valid() && log.outstanding == 0 && log.n == 0 && !log.committing && log.cache.dirty == map[]
    ensures SameHome(start, log.cache.logical, Meaning(start, old(disk.blocks))) && disk.blocks == log.cache.logical
  {
    ghost var d := disk.blocks;
    var cache := new Cache(disk, zero);
    log := new Log(cache, start);
    log.RecoverFromLog();
    RecoverMeaning(start, d, |RecoverWrites(start, d)|);
    assert RecoverWrites(start, d)[..|RecoverWrites(start, d)|] == RecoverWrites(start, d);
    cache.Clean();
    IdleOk(start, cache.buf, cache.pins, cache.dirty, log.slot, log.Logged());
  }

  /**
   Power fails after the first `k` writes of a commit and then after `ks[0]`, `ks[1]`, ... writes of
   recoveries; then the machine comes up.
   */
  method Reboot(start: nat, d: Image, blocks: seq<Word>, datas: seq<Block>, k: nat, ks: seq<nat>, zero: Block)
    returns (log: Log)
    requires Quiescent(start, d) && TxnOk(start, d, blocks, datas)
             && k <= |CommitWrites(start, d[start], blocks, datas)|
    requires start + LOGBLOCKS < 0x1_0000_0000
    ensures fresh(log) && fresh(log.cache) && fresh(log.cache.disk) && log.start == start && log.Valid()
            && log.outstanding == 0
    ensures SameHome(start, log.cache.logical, if k > |blocks| then Install(d, blocks, datas) else d)
    ensures log.cache.disk.blocks == log.cache.logical
  {
    CommitMeaning(start, d, blocks, datas, k);
    var p := CommitCrash(start, d, blocks, datas, k);
    FailedRecoveriesMeaning(start, p, ks);
    var disk := new Disk(FailedRecoveries(start, p, ks));
    log := Boot(disk, start, zero);
  }

  /**
   The same for a running kernel about to commit, `last`: `disk` is what it left.  Afterwards readers see
   what they saw before the commit, if its header was written, and what was on disk, if it was not.
   */
  method PowerUp(ghost last: Log, disk: Disk<Block>, start: nat, ghost k: nat, ghost ks: seq<nat>, zero: Block)
    returns (log: Log)
    requires last.Valid() && last.Quiet() && start == last.start && disk != last.cache.disk
    requires k <= |CommitWrites(start, last.cache.logical[start], last.Logged(), last.Contents())|
    requires disk.Ok() && LeftBehind(last, k, ks, disk.blocks)
    modifies disk
    ensures log.start == start && log.Valid() && log.outstanding == 0 && log.cache.disk == disk
            && disk.blocks == log.cache.logical
    ensures SameHome(start, log.cache.logical, if k > last.n then last.cache.logical else last.cache.disk.blocks)
  {
    last.CommitIsDurable();
    ghost var d, blocks, datas := last.cache.disk.blocks, last.Logged(), last.Contents();
    CommitMeaning(start, d, blocks, datas, k);
    FailedRecoveriesMeaning(start, CommitCrash(start, d, blocks, datas, k), ks);
    log := Boot(disk, start, zero);
  }

  /** What a kernel about to commit leaves when power fails after `k` writes, and then in recoveries. */
  ghost predicate LeftBehind(last: Log, k: nat, ks: seq<nat>, image: Image)
    requires last.Valid() && last.Quiet()
    requires k <= |CommitWrites(last.start, last.cache.logical[last.start], last.Logged(), last.Contents())|
    reads last, last.cache, last.cache.disk
  {
    last.CommitIsDurable();
    var d, blocks, datas := last.cache.disk.blocks, last.Logged(), last.Contents();
    CommitMeaning(last.start, d, blocks, datas, k);
    image == FailedRecoveries(last.start, CommitCrash(last.start, d, blocks, datas, k), ks)
  }

  // ---- A transaction that cannot commit ----

  /** Nothing is locked, and only buffers of logged blocks are referenced. */
  ghost predicate Resting(buf: seq<Buf<Block>>, slot: seq<nat>) {
    |buf| == NBUF && forall i :: 0 <= i < NBUF ==> !buf[i].locked && (buf[i].refcnt > 0 ==> i in slot)
  }

  lemma {:induction false} Missing(s: seq<nat>, n: nat) returns (i: nat)
    requires |s| < n
    ensures i < n && i !in s
    decreases n
  {
    i := n - 1;
    if n - 1 in s {
      var j :| 0 <= j < |s| && s[j] == n - 1;
      var rest := s[..j] + s[j + 1..];
      i := Missing(rest, n - 1);
      forall k | 0 <= k < |s| ensures s[k] != i {
        assert k != j ==> s[k] == rest[if k < j then k else k - 1];
      }
    }
  }

  /** While the log has room some buffer is unreferenced. */
  lemma SomeFree(log: Log)
    requires log.Valid() && Resting(log.cache.buf, log.slot) && log.n < LOGBLOCKS
    ensures !log.cache.AllReferenced()
  {
    var i := Missing(log.slot, NBUF);
    assert log.cache.buf[i].refcnt == 0;
  }

  /** Operation `op` reads, changes, logs and releases a block that is not in the log yet. */
  method WriteOne(log: Log, blockno: Word, data: Block, ghost op: nat)
    requires log.Valid() && Resting(log.cache.buf, log.slot) && log.n < LOGBLOCKS && op < |log.budget|
             && log.budget[op] > 0
    requires blockno in log.cache.logical && !InLog(log.start, blockno) && blockno !in log.Logged()
    modifies log, log.cache
    ensures log.Valid() && Resting(log.cache.buf, log.slot) && log.n == old(log.n) + 1
            && log.Logged() == old(log.Logged()) + [blockno]
    ensures log.budget == old(log.budget)[op := old(log.budget)[op] - 1]
            && log.cache.logical == old(log.cache.logical)[blockno := data] && log.committing == old(log.committing)
  {
    SomeFree(log);
    ghost var slot0 := log.slot;
    var r := log.Bread(blockno);
    var b := r.value;
    log.Modify(b, data);
    var ok := log.LogWrite(b, op);
    log.cache.Counts(b);
    log.Brelse(b);
    assert log.slot[|slot0|] == b;
    forall i | 0 <= i < NBUF ensures !log.cache.buf[i].locked && (log.cache.buf[i].refcnt > 0 ==> i in log.slot) {
      if i != b && log.cache.buf[i].refcnt > 0 {
        assert i in slot0;
      }
    }
  }

  /** Ten blocks by operation `op`. */
  method WriteTen(log: Log, blocks: seq<Word>, k: nat, data: Block, ghost op: nat)
    requires log.Valid() && Resting(log.cache.buf, log.slot) && k + MAXOPBLOCKS <= |blocks| == LOGBLOCKS
             && op < |log.budget| && log.budget[op] == MAXOPBLOCKS
    requires Distinct(blocks)
             && (forall j :: 0 <= j < |blocks| ==> blocks[j] in log.cache.logical && !InLog(log.start, blocks[j]))
    requires log.n == k && log.Logged() == blocks[..k]
    modifies log, log.cache
    ensures log.Valid() && Resting(log.cache.buf, log.slot) && log.n == k + MAXOPBLOCKS
            && log.Logged() == blocks[..k + MAXOPBLOCKS]
    ensures log.budget == old(log.budget)[op := 0] && log.cache.logical.Keys == old(log.cache.logical.Keys)
            && log.committing == old(log.committing)
  {
    var i := 0;
    while i < MAXOPBLOCKS
      invariant 0 <= i <= MAXOPBLOCKS && log.Valid() && Resting(log.cache.buf, log.slot) && log.n == k + i
                && log.Logged() == blocks[..k + i]
      invariant log.budget == old(log.budget)[op := MAXOPBLOCKS - i]
                && log.cache.logical.Keys == old(log.cache.logical.Keys) && log.committing == old(log.committing)
    {
      assert blocks[k + i] !in blocks[..k + i];
      WriteOne(log, blocks[k + i], data, op);
      assert blocks[..k + i] + [blocks[k + i]] == blocks[..k + (i + 1)];
      i := i + 1;
    }
  }

  /** Three operations that keep to their budgets log thirty different blocks. */
  method WriteThirty(log: Log, blocks: seq<Word>, data: Block)
    requires log.Valid() && Resting(log.cache.buf, []) && log.outstanding == 0 && !log.committing
             && |blocks| == LOGBLOCKS
    requires Distinct(blocks)
             && (forall j :: 0 <= j < |blocks| ==> blocks[j] in log.cache.logical && !InLog(log.start, blocks[j]))
    modifies log, log.cache
    ensures log.Valid() && Resting(log.cache.buf, log.slot) && log.n == LOGBLOCKS && log.Logged() == blocks
    ensures log.budget == [0, 0, 0] && log.cache.logical.Keys == old(log.cache.logical.Keys)
  {
    BeginThree(log);
    WriteTen(log, blocks, 0, data, 0);
    WriteTen(log, blocks, MAXOPBLOCKS, data, 1);
    WriteTen(log, blocks, 2 * MAXOPBLOCKS, data, 2);
    assert blocks[..LOGBLOCKS] == blocks;
  }

  /** Each of the three is admitted and each ends, but the commit panics, because every buffer is pinned. */
  method FillLog(log: Log, blocks: seq<Word>, data: Block) returns (ok1: bool, ok2: bool, ok3: bool)
    requires log.Valid() && Resting(log.cache.buf, []) && log.outstanding == 0 && !log.committing
             && |blocks| == LOGBLOCKS
    requires Distinct(blocks)
             && (forall j :: 0 <= j < |blocks| ==> blocks[j] in log.cache.logical && !InLog(log.start, blocks[j]))
    modifies log, log.cache, log.cache.disk
    ensures ok1 && ok2 && !ok3 && log.outstanding == 0 && log.cache.disk.writes == old(log.cache.disk.writes)
  {
    WriteThirty(log, blocks, data);
    ok1, ok2, ok3 := EndThree(log);
  }

  /** Before that, any of them that logs a block a second time panics, though this would add nothing to the log. */
  method RelogFails(log: Log, blocks: seq<Word>, data: Block, k: nat, again: Block) returns (ok: bool)
    requires log.Valid() && Resting(log.cache.buf, []) && log.outstanding == 0 && !log.committing
             && |blocks| == LOGBLOCKS && k < |blocks|
    requires Distinct(blocks)
             && (forall j :: 0 <= j < |blocks| ==> blocks[j] in log.cache.logical && !InLog(log.start, blocks[j]))
    modifies log, log.cache
    ensures log.Valid() && blocks[k] in log.Logged() && log.outstanding == 3 && !ok
            && blocks[k] in log.cache.logical && log.cache.logical[blocks[k]] == again
  {
    WriteThirty(log, blocks, data);
    assert log.Logged()[k] == blocks[k];
    var r := Reread(log, blocks[k], k);
    log.Modify(r, again);
    ok := log.LogWrite(r, k / MAXOPBLOCKS);
  }

  /** A logged block is cached, so it can be read even when every buffer is referenced. */
  method Reread(log: Log, blockno: Word, ghost k: nat) returns (b: nat)
    requires log.Valid() && Resting(log.cache.buf, log.slot) && k < log.n && log.Logged()[k] == blockno
    modifies log.cache`buf, log.cache`held
    ensures log.Valid() && b < NBUF && log.cache.buf[b].locked && log.cache.buf[b].valid
            && log.cache.buf[b].dev == ROOTDEV && log.cache.buf[b].blockno == blockno
  {
    assert UnsealLog(0);
    var r := log.Bread(blockno);
    b := r.value;
  }

  /** An idle log admits three operations. */
  method BeginThree(log: Log)
    requires log.Valid() && log.outstanding == 0 && !log.committing
    modifies log`outstanding, log`budget
    ensures log.Valid() && log.n == 0 && log.slot == [] && log.Logged() == []
            && log.budget == [MAXOPBLOCKS, MAXOPBLOCKS, MAXOPBLOCKS]
  {
    BeginOne(log);
    BeginOne(log);
    BeginOne(log);
  }

  method BeginOne(log: Log)
    requires log.Valid() && log.outstanding < 3 && log.n == 0 && !log.committing
    modifies log`outstanding, log`budget
    ensures log.Valid() && log.outstanding == old(log.outstanding) + 1 && log.budget == old(log.budget) + [MAXOPBLOCKS]
  {
    var a := log.BeginOp();
  }

  /** Three operations that have filled the log end. */
  method EndThree(log: Log) returns (ok1: bool, ok2: bool, ok3: bool)
    requires log.Valid() && Resting(log.cache.buf, log.slot) && |log.budget| == 3 && log.n == LOGBLOCKS
    modifies log, log.cache, log.cache.disk
    ensures ok1 && ok2 && !ok3 && log.outstanding == 0 && log.cache.disk.writes == old(log.cache.disk.writes)
  {
    ghost var wakes;
    ok1, wakes := log.EndOp(0);
    ok2, wakes := log.EndOp(0);
    ok3, wakes := log.EndOp(0);
  }
}
