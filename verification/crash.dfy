/**
 Crash safety of the redo log, stated on the disk alone.  `CommitWrites` and `RecoverWrites` are
 the exact block writes the log issues (the `Log` class is proved to issue them, in this order);
 a power failure leaves the effect of some prefix of them.
 */
module Crash {
  import opened Common
  import opened Disks

  type Image = Blocks<Block>

  predicate InLog(start: nat, b: nat) {
    start <= b <= start + LOGBLOCKS
  }

  function HeaderCount(h: Block): nat { h[0] }

  function HeaderBlocks(h: Block): (r: seq<Word>)
    requires HeaderCount(h) <= LOGBLOCKS
  {
    h[1..1 + HeaderCount(h)]
  }

  /** The header block after `write_head`: only the count and the first entries are overwritten. */
  function EncodeHeader(prev: Block, blocks: seq<Word>): (r: Block)
    requires |blocks| <= LOGBLOCKS
    ensures HeaderCount(r) == |blocks| && HeaderBlocks(r) == blocks
  {
    [|blocks|] + blocks + prev[1 + |blocks|..]
  }

  /** A transaction: distinct home blocks on the disk, and their new contents. */
  predicate TxnOk(start: nat, d: Image, blocks: seq<Word>, datas: seq<Block>) {
    && |blocks| == |datas| <= LOGBLOCKS
    && Distinct(blocks)
    && forall i :: 0 <= i < |blocks| ==> blocks[i] in d && !InLog(start, blocks[i])
  }

  /** The disk has a log area. */
  predicate HasLog(start: nat, d: Image) {
    forall b :: start <= b <= start + LOGBLOCKS ==> b in d
  }

  function LoggedData(start: nat, d: Image, n: nat): (r: seq<Block>)
    requires HasLog(start, d) && n <= LOGBLOCKS
  {
    seq(n, i requires 0 <= i < n => assert InLog(start, start + 1 + i); d[start + 1 + i])
  }

  /** What every disk the kernel can leave behind satisfies. */
  predicate LogOk(start: nat, d: Image) {
    && HasLog(start, d)
    && assert InLog(start, start); HeaderCount(d[start]) <= LOGBLOCKS
    && TxnOk(start, d, HeaderBlocks(d[start]), LoggedData(start, d, HeaderCount(d[start])))
  }

  predicate Quiescent(start: nat, d: Image) {
    HasLog(start, d) && assert InLog(start, start); HeaderCount(d[start]) == 0
  }

  function LogWrites(start: nat, datas: seq<Block>): (ws: seq<DiskWrite<Block>>) {
    seq(|datas|, i requires 0 <= i < |datas| => DiskWrite(start + 1 + i, datas[i]))
  }

  function InstallWrites(blocks: seq<Word>, datas: seq<Block>): (ws: seq<DiskWrite<Block>>)
    requires |blocks| == |datas|
  {
    seq(|datas|, i requires 0 <= i < |datas| => DiskWrite(blocks[i], datas[i]))
  }

  /** The writes of `commit`, in order; `header` is what the header block held before. */
  function CommitWrites(start: nat, header: Block, blocks: seq<Word>, datas: seq<Block>): (ws: seq<DiskWrite<Block>>)
    requires |blocks| == |datas| <= LOGBLOCKS
  {
    if |blocks| == 0 then []
    else
      var committed := EncodeHeader(header, blocks);
      LogWrites(start, datas) + [DiskWrite(start, committed)]
      + (InstallWrites(blocks, datas) + [DiskWrite(start, EncodeHeader(committed, []))])
  }

  /** The writes of `recover_from_log` on a disk. */
  function RecoverWrites(start: nat, d: Image): (ws: seq<DiskWrite<Block>>)
    requires LogOk(start, d)
  {
    assert InLog(start, start);
    InstallWrites(HeaderBlocks(d[start]), LoggedData(start, d, HeaderCount(d[start])))
    + [DiskWrite(start, EncodeHeader(d[start], []))]
  }

  /** The disk with a transaction's blocks in place. */
  function Install(d: Image, blocks: seq<Word>, datas: seq<Block>): (r: Image)
    requires |blocks| == |datas|
  {
    Apply(d, InstallWrites(blocks, datas))
  }

  /** Equal outside the log area. */
  predicate SameHome(start: nat, d: Image, e: Image) {
    && d.Keys == e.Keys
    && forall b :: b in d && !InLog(start, b) ==> d[b] == e[b]
  }

  /** The file-system contents a disk stands for: home blocks with the committed log on top. */
  function Meaning(start: nat, d: Image): (r: Image)
    requires LogOk(start, d)
  {
    assert InLog(start, start);
    Install(d, HeaderBlocks(d[start]), LoggedData(start, d, HeaderCount(d[start])))
  }

  // ---- Installing a transaction ----

  lemma InstallAt(d: Image, blocks: seq<Word>, datas: seq<Block>, i: nat, j: nat)
    requires |blocks| == |datas| && Distinct(blocks) && i < j <= |blocks|
    ensures blocks[i] in Apply(d, InstallWrites(blocks, datas)[..j])
    ensures Apply(d, InstallWrites(blocks, datas)[..j])[blocks[i]] == datas[i]
  {
    ApplyHit(d, InstallWrites(blocks, datas)[..j], i);
  }

  lemma InstallKeeps(d: Image, blocks: seq<Word>, datas: seq<Block>, j: nat, b: nat)
    requires |blocks| == |datas| && j <= |blocks| && b in d
    requires forall i :: 0 <= i < j ==> blocks[i] != b
    ensures b in Apply(d, InstallWrites(blocks, datas)[..j])
    ensures Apply(d, InstallWrites(blocks, datas)[..j])[b] == d[b]
  {
    ApplyFrame(d, InstallWrites(blocks, datas)[..j], b);
  }

  /** Installing onto a disk where the transaction is already partly in place changes nothing more. */
  lemma InstallAgain(start: nat, d: Image, blocks: seq<Word>, datas: seq<Block>, j: nat)
    requires TxnOk(start, d, blocks, datas) && j <= |blocks|
    ensures var p := Apply(d, InstallWrites(blocks, datas)[..j]);
            && p.Keys == d.Keys
            && (forall b :: b in d && InLog(start, b) ==> p[b] == d[b])
            && SameHome(start, Install(p, blocks, datas), Install(d, blocks, datas))
  {
    var ws := InstallWrites(blocks, datas);
    var p := Apply(d, ws[..j]);
    ApplyKeys(d, ws[..j]);
    ApplyKeys(d, ws);
    ApplyKeys(p, ws);
    assert ws[..|ws|] == ws;
    forall b | b in d && InLog(start, b) ensures p[b] == d[b] {
      InstallKeeps(d, blocks, datas, j, b);
    }
    forall b | b in d && !InLog(start, b)
      ensures Install(p, blocks, datas)[b] == Install(d, blocks, datas)[b]
    {
      if i :| 0 <= i < |blocks| && blocks[i] == b {
        InstallAt(d, blocks, datas, i, |blocks|);
        InstallAt(p, blocks, datas, i, |blocks|);
      } else {
        InstallKeeps(d, blocks, datas, j, b);
        InstallKeeps(p, blocks, datas, |blocks|, b);
        InstallKeeps(d, blocks, datas, |blocks|, b);
      }
    }
  }

  /** `Install` depends only on home blocks, as long as its targets are home blocks. */
  lemma InstallSameHome(start: nat, d: Image, e: Image, blocks: seq<Word>, datas: seq<Block>)
    requires TxnOk(start, d, blocks, datas) && SameHome(start, d, e)
    ensures SameHome(start, Install(d, blocks, datas), Install(e, blocks, datas))
    ensures Install(d, blocks, datas).Keys == d.Keys
  {
    var ws := InstallWrites(blocks, datas);
    ApplyKeys(d, ws);
    ApplyKeys(e, ws);
    assert ws[..|ws|] == ws;
    forall b | b in d && !InLog(start, b)
      ensures Install(d, blocks, datas)[b] == Install(e, blocks, datas)[b]
    {
      if i :| 0 <= i < |blocks| && blocks[i] == b {
        InstallAt(d, blocks, datas, i, |blocks|);
        InstallAt(e, blocks, datas, i, |blocks|);
      } else {
        InstallKeeps(d, blocks, datas, |blocks|, b);
        InstallKeeps(e, blocks, datas, |blocks|, b);
      }
    }
  }

  /** `Install` leaves the log area alone. */
  lemma InstallKeepsLog(start: nat, d: Image, blocks: seq<Word>, datas: seq<Block>)
    requires TxnOk(start, d, blocks, datas)
    ensures forall b :: b in d && InLog(start, b) ==>
              b in Install(d, blocks, datas) && Install(d, blocks, datas)[b] == d[b]
  {
    InstallAgain(start, d, blocks, datas, |blocks|);
    assert InstallWrites(blocks, datas)[..|blocks|] == InstallWrites(blocks, datas);
  }

  // ---- Writing the log ----

  lemma LogWritesKeepHome(start: nat, d: Image, datas: seq<Block>, k: nat, b: nat)
    requires k <= |datas| <= LOGBLOCKS && b in d && !InLog(start, b)
    ensures b in Apply(d, LogWrites(start, datas)[..k]) && Apply(d, LogWrites(start, datas)[..k])[b] == d[b]
  {
    ApplyFrame(d, LogWrites(start, datas)[..k], b);
  }

  /** The effect of the next log write. */
  lemma LogWriteNext(start: nat, d: Image, p: Image, datas: seq<Block>, k: nat, b: nat)
    requires k < |datas| <= LOGBLOCKS && b in d && !InLog(start, b)
    requires p == Apply(d, LogWrites(start, datas)[..k])
    ensures b in p && p[b] == d[b]
    ensures LogWrites(start, datas)[k] == DiskWrite(start + 1 + k, datas[k])
    ensures LogWrites(start, datas)[..k + 1] == LogWrites(start, datas)[..k] + [LogWrites(start, datas)[k]]
    ensures Apply(d, LogWrites(start, datas)[..k + 1]) == p[start + 1 + k := datas[k]]
  {
    LogWritesKeepHome(start, d, datas, k, b);
    ApplyNext(d, LogWrites(start, datas), k);
  }

  /** The effect of the next home write. */
  lemma InstallWriteNext(start: nat, d: Image, p: Image, blocks: seq<Word>, k: nat)
    requires HasLog(start, d) && k < |blocks| <= LOGBLOCKS
    requires forall j :: 0 <= j < |blocks| ==> !InLog(start, blocks[j])
    requires p == Apply(d, InstallWrites(blocks, LoggedData(start, d, |blocks|))[..k])
    ensures var datas := LoggedData(start, d, |blocks|);
            var ws := InstallWrites(blocks, datas);
            && start + 1 + k in p && p[start + 1 + k] == datas[k]
            && ws[k] == DiskWrite(blocks[k], datas[k])
            && ws[..k + 1] == ws[..k] + [ws[k]]
            && Apply(d, ws[..k + 1]) == p[blocks[k] := datas[k]]
  {
    var datas := LoggedData(start, d, |blocks|);
    assert InLog(start, start + 1 + k);
    InstallKeeps(d, blocks, datas, k, start + 1 + k);
    ApplyNext(d, InstallWrites(blocks, datas), k);
  }

  /** While the log blocks are being written, the header and every home block stay as they were. */
  lemma LogPhase(start: nat, d: Image, datas: seq<Block>, k: nat)
    requires HasLog(start, d) && k <= |datas| <= LOGBLOCKS
    ensures var p := Apply(d, LogWrites(start, datas)[..k]);
            && SameHome(start, d, p) && HasLog(start, p) && start in p && p[start] == d[start]
            && forall i :: 0 <= i < k ==> start + 1 + i in p && p[start + 1 + i] == datas[i]
  {
    var ws := LogWrites(start, datas)[..k];
    var p := Apply(d, ws);
    assert InLog(start, start);
    forall i | 0 <= i < |ws| ensures ws[i].blockno in d {
      assert InLog(start, start + 1 + i);
    }
    ApplyKeys(d, ws);
    ApplyFrame(d, ws, start);
    forall b | b in d && !InLog(start, b) ensures d[b] == p[b] {
      ApplyFrame(d, ws, b);
    }
    forall i | 0 <= i < k ensures start + 1 + i in p && p[start + 1 + i] == datas[i] {
      ApplyHit(d, ws, i);
    }
  }

  /** The disk at the instant the non-empty header reaches it stands for the new contents. */
  lemma CommitPoint(start: nat, d: Image, blocks: seq<Word>, datas: seq<Block>)
    requires Quiescent(start, d) && TxnOk(start, d, blocks, datas)
    ensures var p := Apply(d, LogWrites(start, datas))[start := EncodeHeader(d[start], blocks)];
            && LogOk(start, p)
            && p[start] == EncodeHeader(d[start], blocks)
            && HeaderBlocks(p[start]) == blocks
            && LoggedData(start, p, |blocks|) == datas
            && SameHome(start, d, p)
  {
    LogPhase(start, d, datas, |datas|);
    var ws := LogWrites(start, datas);
    assert ws[..|datas|] == ws;
    var p := Apply(d, ws)[start := EncodeHeader(d[start], blocks)];
    assert InLog(start, start);
    assert p.Keys == d.Keys;
    assert HasLog(start, p);
    forall i | 0 <= i < |datas| ensures LoggedData(start, p, |blocks|)[i] == datas[i] {
      assert InLog(start, start + 1 + i);
    }
    assert LoggedData(start, p, |blocks|) == datas;
  }

  // ---- A crash at any point of commit ----

  /** The disk after the first `k` writes of `commit`. */
  function CommitCrash(start: nat, d: Image, blocks: seq<Word>, datas: seq<Block>, k: nat): (r: Image)
    requires Quiescent(start, d) && TxnOk(start, d, blocks, datas)
    requires k <= |CommitWrites(start, d[start], blocks, datas)|
  {
    Apply(d, CommitWrites(start, d[start], blocks, datas)[..k])
  }

  /** The same, phase by phase. */
  lemma CommitPhases(start: nat, d: Image, blocks: seq<Word>, datas: seq<Block>, k: nat)
    requires Quiescent(start, d) && TxnOk(start, d, blocks, datas) && |blocks| > 0
    requires k <= 2 * |blocks| + 2
    ensures var n := |blocks|;
            var ws := CommitWrites(start, d[start], blocks, datas);
            var mid := Apply(d, LogWrites(start, datas))[start := EncodeHeader(d[start], blocks)];
            && |ws| == 2 * n + 2
            && (k <= n ==> Apply(d, ws[..k]) == Apply(d, LogWrites(start, datas)[..k]))
            && (n < k <= 2 * n + 1 ==> Apply(d, ws[..k]) == Apply(mid, InstallWrites(blocks, datas)[..k - n - 1]))
            && (k == 2 * n + 2 ==>
                  Apply(d, ws[..k]) == Install(mid, blocks,
                                               datas)[start := EncodeHeader(EncodeHeader(d[start], blocks), [])])
  {
    var n := |blocks|;
    var lw, iw := LogWrites(start, datas), InstallWrites(blocks, datas);
    var committed := EncodeHeader(d[start], blocks);
    var hw := DiskWrite(start, committed);
    var cw := DiskWrite(start, EncodeHeader(committed, []));
    var ws := CommitWrites(start, d[start], blocks, datas);
    var mid := Apply(d, lw)[start := committed];
    assert ws == lw + [hw] + (iw + [cw]);
    assert (lw + [hw])[..n] == lw;
    assert Apply(d, lw + [hw]) == mid;
    if k <= n {
      assert ws[..k] == lw[..k];
    } else if k <= 2 * n + 1 {
      assert ws[..k] == (lw + [hw]) + iw[..k - n - 1];
      ApplyConcat(d, lw + [hw], iw[..k - n - 1]);
    } else {
      assert ws[..k] == (lw + [hw]) + (iw + [cw]);
      ApplyConcat(d, lw + [hw], iw + [cw]);
      assert (iw + [cw])[..n] == iw;
    }
  }

  /** With an empty log the disk stands for its own home blocks. */
  lemma QuiescentMeaning(start: nat, d: Image)
    requires Quiescent(start, d)
    ensures LogOk(start, d) && Meaning(start, d) == d
  {
    assert InLog(start, start);
    assert HeaderBlocks(d[start]) == [];
  }

  /** What the log area holds is all that says which transaction a disk carries. */
  lemma SameLog(start: nat, p: Image, q: Image)
    requires LogOk(start, p) && q.Keys == p.Keys && forall b :: b in p && InLog(start, b) ==> q[b] == p[b]
    ensures LogOk(start, q) && q[start] == p[start]
    ensures Meaning(start, q) == Install(q, HeaderBlocks(p[start]), LoggedData(start, p, HeaderCount(p[start])))
  {
    assert InLog(start, start);
    var n := HeaderCount(p[start]);
    forall i | 0 <= i < n ensures LoggedData(start, q, n)[i] == LoggedData(start, p, n)[i] {
      assert InLog(start, start + 1 + i);
    }
    assert LoggedData(start, q, n) == LoggedData(start, p, n);
  }

  /** Part of the install does not disturb the log, so the disk still stands for all of it. */
  lemma InstallPhase(start: nat, p: Image, j: nat)
    requires LogOk(start, p) && j <= HeaderCount(p[start])
    ensures var q := Apply(p, InstallWrites(HeaderBlocks(p[start]), LoggedData(start, p, HeaderCount(p[start])))[..j]);
            && LogOk(start, q)
            && q[start] == p[start]
            && SameHome(start, Meaning(start, q), Meaning(start, p))
  {
    var blocks, datas := HeaderBlocks(p[start]), LoggedData(start, p, HeaderCount(p[start]));
    var q := Apply(p, InstallWrites(blocks, datas)[..j]);
    InstallAgain(start, p, blocks, datas, j);
    SameLog(start, p, q);
  }

  /** Once everything is installed the header can be cleared. */
  lemma ErasePhase(start: nat, p: Image)
    requires LogOk(start, p)
    ensures var q := Meaning(start, p)[start := EncodeHeader(p[start], [])];
            && Quiescent(start, q)
            && SameHome(start, q, Meaning(start, p))
  {
    assert InLog(start, start);
    InstallSameHome(start, p, p, HeaderBlocks(p[start]), LoggedData(start, p, HeaderCount(p[start])));
  }

  /** The disk right after the header write of `commit`. */
  function AtHeader(start: nat, d: Image, blocks: seq<Word>, datas: seq<Block>): (r: Image)
    requires start in d && |blocks| == |datas| <= LOGBLOCKS
  {
    Apply(d, LogWrites(start, datas))[start := EncodeHeader(d[start], blocks)]
  }

  lemma HeaderAfterLog(start: nat, d: Image, datas: seq<Block>)
    requires HasLog(start, d) && |datas| <= LOGBLOCKS
    ensures start in Apply(d, LogWrites(start, datas)) && Apply(d, LogWrites(start, datas))[start] == d[start]
  {
    LogPhase(start, d, datas, |datas|);
    assert LogWrites(start, datas)[..|datas|] == LogWrites(start, datas);
  }

  lemma HeaderAfterInstall(start: nat, d: Image, blocks: seq<Word>, datas: seq<Block>)
    requires Quiescent(start, d) && TxnOk(start, d, blocks, datas)
    ensures var p := Install(AtHeader(start, d, blocks, datas), blocks, datas);
            start in p && p[start] == EncodeHeader(d[start], blocks)
  {
    CommitPoint(start, d, blocks, datas);
    assert InLog(start, start);
    InstallKeepsLog(start, AtHeader(start, d, blocks, datas), blocks, datas);
  }

  /** The phases of `commit` add up to `CommitWrites`. */
  lemma CommitTotal(start: nat, d: Image, blocks: seq<Word>, datas: seq<Block>)
    requires Quiescent(start, d) && TxnOk(start, d, blocks, datas) && |blocks| > 0
    ensures Apply(d, CommitWrites(start, d[start], blocks, datas))
         == Install(AtHeader(start, d, blocks, datas), blocks,
                    datas)[start := EncodeHeader(EncodeHeader(d[start], blocks), [])]
  {
    var n := |blocks|;
    CommitPhases(start, d, blocks, datas, 2 * n + 2);
    var ws := CommitWrites(start, d[start], blocks, datas);
    assert ws[..2 * n + 2] == ws;
  }

  lemma CommitWritesParts(start: nat, h: Block, blocks: seq<Word>, datas: seq<Block>, w: seq<DiskWrite<Block>>)
    requires 0 < |blocks| == |datas| <= LOGBLOCKS
    ensures var c := EncodeHeader(h, blocks);
            w + LogWrites(start, datas) + [DiskWrite(start, c)] + InstallWrites(blocks,
                    datas) + [DiskWrite(start, EncodeHeader(c, []))]
            == w + CommitWrites(start, h, blocks, datas)
  {
  }

  lemma BeforeHeader(start: nat, d: Image, blocks: seq<Word>, datas: seq<Block>, k: nat)
    requires Quiescent(start, d) && TxnOk(start, d, blocks, datas) && k <= |blocks|
    requires k <= |CommitWrites(start, d[start], blocks, datas)|
    ensures var p := CommitCrash(start, d, blocks, datas, k);
            LogOk(start, p) && SameHome(start, Meaning(start, p), d)
  {
    var p := CommitCrash(start, d, blocks, datas, k);
    if |blocks| > 0 {
      CommitPhases(start, d, blocks, datas, k);
    }
    LogPhase(start, d, datas, k);
    assert |blocks| == 0 ==> LogWrites(start, datas)[..k] == [];
    QuiescentMeaning(start, p);
  }

  lemma AfterHeader(start: nat, d: Image, blocks: seq<Word>, datas: seq<Block>, k: nat)
    requires Quiescent(start, d) && TxnOk(start, d, blocks, datas) && |blocks| < k
    requires k <= |CommitWrites(start, d[start], blocks, datas)|
    ensures var p := CommitCrash(start, d, blocks, datas, k);
            && LogOk(start, p)
            && SameHome(start, Meaning(start, p), Install(d, blocks, datas))
            && (k > 2 * |blocks| + 1 ==> Quiescent(start, p))
  {
    var n := |blocks|;
    var mid := Apply(d, LogWrites(start, datas))[start := EncodeHeader(d[start], blocks)];
    CommitPhases(start, d, blocks, datas, k);
    CommitPoint(start, d, blocks, datas);
    InstallSameHome(start, d, mid, blocks, datas);
    if k <= 2 * n + 1 {
      InstallPhase(start, mid, k - n - 1);
    } else {
      ErasePhase(start, mid);
      QuiescentMeaning(start, CommitCrash(start, d, blocks, datas, k));
    }
  }

  /**
   Commit is atomic at its header write: a disk left by a failure before it stands for the old
   contents, and one left by a failure at or after it stands for the new contents.
   */
  lemma CommitMeaning(start: nat, d: Image, blocks: seq<Word>, datas: seq<Block>, k: nat)
    requires Quiescent(start, d) && TxnOk(start, d, blocks, datas)
    requires k <= |CommitWrites(start, d[start], blocks, datas)|
    ensures var p := CommitCrash(start, d, blocks, datas, k);
            && LogOk(start, p)
            && SameHome(start, Meaning(start, p), if k > |blocks| then Install(d, blocks, datas) else d)
            && (k > 2 * |blocks| + 1 ==> Quiescent(start, p))
  {
    if k <= |blocks| {
      BeforeHeader(start, d, blocks, datas, k);
    } else {
      AfterHeader(start, d, blocks, datas, k);
    }
  }

  lemma CommitLeavesQuiescent(start: nat, d: Image, blocks: seq<Word>, datas: seq<Block>)
    requires Quiescent(start, d) && TxnOk(start, d, blocks, datas)
    ensures Quiescent(start, Apply(d, CommitWrites(start, d[start], blocks, datas)))
  {
    var ws := CommitWrites(start, d[start], blocks, datas);
    assert ws[..|ws|] == ws;
    if |blocks| > 0 {
      CommitMeaning(start, d, blocks, datas, |ws|);
    }
  }

  /** Installing what is there already changes nothing. */
  lemma InstallOwn(start: nat, d: Image, blocks: seq<Word>, datas: seq<Block>)
    requires TxnOk(start, d, blocks, datas) && forall j :: 0 <= j < |blocks| ==> datas[j] == d[blocks[j]]
    ensures SameHome(start, Install(d, blocks, datas), d)
  {
    var ws := InstallWrites(blocks, datas);
    ApplyKeys(d, ws);
    assert ws[..|ws|] == ws;
    forall b | b in d && !InLog(start, b) ensures Install(d, blocks, datas)[b] == d[b] {
      if j :| 0 <= j < |blocks| && blocks[j] == b {
        InstallAt(d, blocks, datas, j, |blocks|);
      } else {
        InstallKeeps(d, blocks, datas, |blocks|, b);
      }
    }
  }

  /** A commit of what readers see changes no home block for them. */
  lemma CommitIsInvisible(start: nat, d: Image, blocks: seq<Word>, datas: seq<Block>)
    requires Quiescent(start, d) && TxnOk(start, d, blocks, datas)
             && forall j :: 0 <= j < |blocks| ==> datas[j] == d[blocks[j]]
    ensures SameHome(start, d, Apply(d, CommitWrites(start, d[start], blocks, datas)))
  {
    var ws := CommitWrites(start, d[start], blocks, datas);
    assert ws[..|ws|] == ws;
    if |blocks| > 0 {
      CommitMeaning(start, d, blocks, datas, |ws|);
      QuiescentMeaning(start, Apply(d, ws));
      InstallOwn(start, d, blocks, datas);
    }
  }

  // ---- A crash at any point of recovery ----

  /** The disk after the first `k` writes of `recover_from_log`. */
  function RecoverCrash(start: nat, d: Image, k: nat): (r: Image)
    requires LogOk(start, d) && k <= |RecoverWrites(start, d)|
  {
    Apply(d, RecoverWrites(start, d)[..k])
  }

  /** Recovery never changes what the disk stands for; when complete, the log is empty. */
  lemma RecoverMeaning(start: nat, d: Image, k: nat)
    requires LogOk(start, d) && k <= |RecoverWrites(start, d)|
    ensures var p := RecoverCrash(start, d, k);
            && LogOk(start, p)
            && SameHome(start, Meaning(start, p), Meaning(start, d))
            && (k == |RecoverWrites(start, d)| ==> Quiescent(start, p) && SameHome(start, p, Meaning(start, d)))
  {
    assert InLog(start, start);
    var n := HeaderCount(d[start]);
    var iw := InstallWrites(HeaderBlocks(d[start]), LoggedData(start, d, n));
    var ws := RecoverWrites(start, d);
    if k <= n {
      assert ws[..k] == iw[..k];
      InstallPhase(start, d, k);
    } else {
      assert ws[..k] == ws && ws[..n] == iw;
      ErasePhase(start, d);
      QuiescentMeaning(start, RecoverCrash(start, d, k));
    }
  }

  /** The phases of `recover_from_log` add up to `RecoverWrites`. */
  lemma RecoverTotal(start: nat, d: Image)
    requires LogOk(start, d)
    ensures start in Meaning(start, d) && Meaning(start, d)[start] == d[start]
    ensures Apply(d, RecoverWrites(start, d)) == Meaning(start, d)[start := EncodeHeader(d[start], [])]
  {
    assert InLog(start, start);
    var n := HeaderCount(d[start]);
    var iw := InstallWrites(HeaderBlocks(d[start]), LoggedData(start, d, n));
    InstallKeepsLog(start, d, HeaderBlocks(d[start]), LoggedData(start, d, n));
    assert RecoverWrites(start, d)[..n] == iw;
  }

  /** Recoveries that fail after `ks[0]`, `ks[1]`, ... writes, one after another. */
  function FailedRecoveries(start: nat, d: Image, ks: seq<nat>): (r: Image)
    requires LogOk(start, d)
    decreases |ks|
  {
    if ks == [] then d
    else
      var k := if ks[0] <= |RecoverWrites(start, d)| then ks[0] else |RecoverWrites(start, d)|;
      RecoverMeaning(start, d, k);
      FailedRecoveries(start, RecoverCrash(start, d, k), ks[1..])
  }

  lemma {:induction false} FailedRecoveriesMeaning(start: nat, d: Image, ks: seq<nat>)
    requires LogOk(start, d)
    ensures var p := FailedRecoveries(start, d, ks);
            LogOk(start, p) && SameHome(start, Meaning(start, p), Meaning(start, d))
    decreases |ks|
  {
    if ks != [] {
      var k := if ks[0] <= |RecoverWrites(start, d)| then ks[0] else |RecoverWrites(start, d)|;
      RecoverMeaning(start, d, k);
      FailedRecoveriesMeaning(start, RecoverCrash(start, d, k), ks[1..]);
    }
  }

  /** Failure in commit, then any number of failures in recovery, then a recovery that completes. */
  function CrashedCommit(start: nat, d: Image, blocks: seq<Word>, datas: seq<Block>, k: nat, ks: seq<nat>): (r: Image)
    requires Quiescent(start, d) && TxnOk(start, d, blocks, datas)
    requires k <= |CommitWrites(start, d[start], blocks, datas)|
  {
    CommitMeaning(start, d, blocks, datas, k);
    var p := CommitCrash(start, d, blocks, datas, k);
    FailedRecoveriesMeaning(start, p, ks);
    var q := FailedRecoveries(start, p, ks);
    RecoverCrash(start, q, |RecoverWrites(start, q)|)
  }

  /** All or nothing: the home blocks end all new exactly when the header write was reached. */
  lemma CrashAtomicity(start: nat, d: Image, blocks: seq<Word>, datas: seq<Block>, k: nat, ks: seq<nat>)
    requires Quiescent(start, d) && TxnOk(start, d, blocks, datas)
    requires k <= |CommitWrites(start, d[start], blocks, datas)|
    ensures var r := CrashedCommit(start, d, blocks, datas, k, ks);
            && Quiescent(start, r)
            && SameHome(start, r, if k > |blocks| then Install(d, blocks, datas) else d)
  {
    CommitMeaning(start, d, blocks, datas, k);
    var p := CommitCrash(start, d, blocks, datas, k);
    FailedRecoveriesMeaning(start, p, ks);
    var q := FailedRecoveries(start, p, ks);
    RecoverMeaning(start, q, |RecoverWrites(start, q)|);
  }

  // ---- Whole runs of the machine ----

  /** One transaction of a run: it commits, or power fails after `k` writes of its commit. */
  datatype Event =
    | Committed(blocks: seq<Word>, datas: seq<Block>)
    | PowerLost(blocks: seq<Word>, datas: seq<Block>, k: nat, ks: seq<nat>)

  /** Transactions name home blocks of the disk; a failure falls inside the commit's writes. */
  predicate EventOk(start: nat, d: Image, e: Event) {
    && TxnOk(start, d, e.blocks, e.datas)
    && (e.PowerLost? ==> e.k <= if |e.blocks| == 0 then 0 else 2 * |e.blocks| + 2)
  }

  /** The disk the machine really has after the event. */
  function Step(start: nat, d: Image, e: Event): (r: Image)
    requires Quiescent(start, d) && EventOk(start, d, e)
  {
    var total := |CommitWrites(start, d[start], e.blocks, e.datas)|;
    match e
    case Committed(blocks, datas) => CommitCrash(start, d, blocks, datas, total)
    case PowerLost(blocks, datas, k, ks) => CrashedCommit(start, d, blocks, datas, k, ks)
  }

  /** The contents a reader of the specification expects: no log, transactions in one step. */
  function SpecStep(contents: Image, e: Event): (r: Image)
    requires |e.blocks| == |e.datas|
  {
    if e.Committed? || e.k > |e.blocks| then Install(contents, e.blocks, e.datas) else contents
  }

  predicate EventsOk(start: nat, d: Image, es: seq<Event>) {
    forall i :: 0 <= i < |es| ==> EventOk(start, d, es[i])
  }

  lemma StepRefines(start: nat, d: Image, contents: Image, e: Event)
    requires Quiescent(start, d) && EventOk(start, d, e) && SameHome(start, d, contents)
    ensures Quiescent(start, Step(start, d, e))
    ensures SameHome(start, Step(start, d, e), SpecStep(contents, e))
    ensures Step(start, d, e).Keys == d.Keys
  {
    InstallSameHome(start, d, contents, e.blocks, e.datas);
    match e
    case Committed(blocks, datas) =>
      var total := |CommitWrites(start, d[start], blocks, datas)|;
      CommitMeaning(start, d, blocks, datas, total);
      var p := CommitCrash(start, d, blocks, datas, total);
      assert HeaderBlocks(p[start]) == [];
      if |blocks| == 0 {
        assert InstallWrites(blocks, datas) == [];
      }
    case PowerLost(blocks, datas, k, ks) =>
      CrashAtomicity(start, d, blocks, datas, k, ks);
  }

  function Run(start: nat, d: Image, es: seq<Event>): (r: Image)
    requires Quiescent(start, d) && EventsOk(start, d, es)
    decreases |es|
  {
    if es == [] then d
    else
      StepRefines(start, d, d, es[0]);
      Run(start, Step(start, d, es[0]), es[1..])
  }

  function SpecRun(contents: Image, es: seq<Event>): (r: Image)
    requires forall i :: 0 <= i < |es| ==> |es[i].blocks| == |es[i].datas|
    decreases |es|
  {
    if es == [] then contents else SpecRun(SpecStep(contents, es[0]), es[1..])
  }

  /**
   Over every run of transactions, power failures and failed recoveries, the file system holds
   exactly the transactions whose header write was reached, each whole and in order.
   */
  lemma {:induction false} RunRefines(start: nat, d: Image, contents: Image, es: seq<Event>)
    requires Quiescent(start, d) && EventsOk(start, d, es) && SameHome(start, d, contents)
    ensures Quiescent(start, Run(start, d, es))
    ensures SameHome(start, Run(start, d, es), SpecRun(contents, es))
    decreases |es|
  {
    if es != [] {
      StepRefines(start, d, d, es[0]);
      StepRefines(start, d, contents, es[0]);
      RunRefines(start, Step(start, d, es[0]), SpecStep(contents, es[0]), es[1..]);
    }
  }
}
