/**
 The virtio block driver and a device that completes requests in any order (sections 2.6 and 5.2 of
 VIRTIO 1.1).  The driver's functions run under `vdisk_lock`, so each is a step; the device fetches
 and completes requests in steps of its own.
 */
module Virtq {
  import opened Common
  import L = DiskLocks
  import S = SleepWakeup

  const NUM := 8
  /** Ring indices are 16-bit counters. */
  const WRAP := 0x1_0000

  /** What a descriptor's address points to. */
  datatype Target = Null | Op(head: nat) | DataOf(buf: nat) | StatusOf(head: nat)
  datatype Desc = Desc(addr: Target, len: nat, next: Option<nat>, deviceWrites: bool)
  datatype Request = Request(write: bool, sector: nat)

  /** The driver's note about a chain, kept with its first descriptor. */
  datatype Info = Info(b: Option<nat>, status: nat)

  const EMPTY := Desc(Null, 0, None, false)

  /** A request's three descriptors are `head`, `mid` and `tail`. */
  datatype Phase = Built | Posted | Taken | Done | Seen
  datatype Chain = Chain(mid: nat, tail: nat, buf: nat, req: Request, phase: Phase)

  /** Which chain a descriptor belongs to, and as what. */
  datatype Role = Idle | InHand | First(h: nat) | Second(h: nat) | Third(h: nat)

  /** A chain's descriptors know it. */
  ghost predicate ChainRoles(role: seq<Role>, h: nat, c: Chain) {
    && |role| == NUM && h < NUM && c.mid < NUM && c.tail < NUM
    && role[h] == First(h) && role[c.mid] == Second(h) && role[c.tail] == Third(h)
  }

  /** A descriptor's chain knows it. */
  ghost predicate RoleChain(r: Role, d: nat, chains: map<nat, Chain>) {
    match r
    case Idle => true
    case InHand => true
    case First(h) => h == d && h in chains
    case Second(h) => h in chains && chains[h].mid == d
    case Third(h) => h in chains && chains[h].tail == d
  }

  /** Every descriptor is free or in exactly one place of one chain. */
  ghost predicate Roles(free: seq<bool>, role: seq<Role>, chains: map<nat, Chain>) {
    && |free| == NUM && |role| == NUM
    && (forall d {:trigger role[d]} {:trigger free[d]} :: 0 <= d < NUM ==> (free[d] <==> role[d] == Idle))
    && (forall d {:trigger role[d]} :: 0 <= d < NUM ==> RoleChain(role[d], d, chains))
    && (forall h {:trigger chains[h]} :: h in chains ==> ChainRoles(role, h, chains[h]))
  }

  // The parts of the invariant are unfolded only where a proof mentions a key.

  predicate KeyRole(u: int) { true }
  predicate KeyV(u: int) { true }

  ghost predicate RolesOk(free: seq<bool>, role: seq<Role>, chains: map<nat, Chain>) {
    && |free| == NUM && |role| == NUM
    && forall u {:trigger KeyRole(u)} :: KeyRole(u) ==> Roles(free, role, chains)
  }

  /** The descriptors of a chain describe its request. */
  ghost predicate Formatted(desc: seq<Desc>, ops: seq<Request>, info: seq<Info>, h: nat, c: Chain) {
    && |desc| == NUM && |ops| == NUM && |info| == NUM && h < NUM && c.mid < NUM && c.tail < NUM
    && desc[h] == Desc(Op(h), 16, Some(c.mid), false) && ops[h] == c.req
    && desc[c.mid] == Desc(DataOf(c.buf), 1024, Some(c.tail), !c.req.write)
    && desc[c.tail] == Desc(StatusOf(h), 1, None, true)
    && info[h].b == Some(c.buf)
  }

  ghost predicate FormatsAll(desc: seq<Desc>, ops: seq<Request>, info: seq<Info>, chains: map<nat, Chain>) {
    && |desc| == NUM && |ops| == NUM && |info| == NUM
    && forall h {:trigger chains[h]} :: h in chains ==> Formatted(desc, ops, info, h, chains[h])
  }

  ghost predicate Formats(desc: seq<Desc>, ops: seq<Request>, info: seq<Info>, chains: map<nat, Chain>) {
    && |desc| == NUM && |ops| == NUM && |info| == NUM
    && forall u {:trigger KeyV(u)} :: KeyV(u) ==> FormatsAll(desc, ops, info, chains)
  }

  /** A ring read up to `base`: the unread entries are `q`, in order. */
  ghost predicate RingAll(ring: seq<nat>, q: seq<nat>, base: nat) {
    |ring| == NUM && |q| <= NUM && forall i :: 0 <= i < |q| ==> ring[(base + i) % NUM] == q[i]
  }

  ghost predicate Ring(ring: seq<nat>, q: seq<nat>, base: nat) {
    && |ring| == NUM && |q| <= NUM
    && forall u {:trigger KeyV(u)} :: KeyV(u) ==> RingAll(ring, q, base)
  }

  /** Unread entries are the chains in one phase, each once. */
  ghost predicate QueueAll(q: seq<nat>, chains: map<nat, Chain>, p: Phase) {
    && Distinct(q)
    && (forall i :: 0 <= i < |q| ==> q[i] in chains && chains[q[i]].phase == p)
    && (forall h {:trigger chains[h]} :: h in chains && chains[h].phase == p ==> h in q)
  }

  ghost predicate Queue(q: seq<nat>, chains: map<nat, Chain>, p: Phase) {
    forall u {:trigger KeyV(u)} :: KeyV(u) ==> QueueAll(q, chains, p)
  }

  /** A buffer's flag is up while its request is not yet seen to be complete; no two requests share a buffer. */
  ghost predicate FlagsAll(flag: set<nat>, chains: map<nat, Chain>) {
    && (forall h {:trigger chains[h]} :: h in chains ==> (chains[h].buf in flag <==> chains[h].phase != Seen))
    && (forall h, g {:trigger chains[h], chains[g]} :: h in chains && g in chains && chains[h].buf == chains[g].buf ==>
        h == g)
    && (forall b :: b in flag ==> exists h :: h in chains && chains[h].buf == b)
  }

  ghost predicate Flags(flag: set<nat>, chains: map<nat, Chain>) {
    forall u {:trigger KeyV(u)} :: KeyV(u) ==> FlagsAll(flag, chains)
  }

  /** Adding an entry overwrites none that is still unread, also when the 16-bit index wraps. */
  lemma Push(ring: seq<nat>, q: seq<nat>, base: nat, idx: nat, h: nat)
    requires Ring(ring, q, base) && |q| < NUM && idx == (base + |q|) % WRAP
    ensures Ring(ring[idx % NUM := h], q + [h], base)
  {
    assert KeyV(0);
    WrapSlot(base + |q|);
    var ring', q', n := ring[idx % NUM := h], q + [h], |q|;
    forall i | 0 <= i < |q'| ensures ring'[(base + i) % NUM] == q'[i] {
      if i < n {
        OtherSlot(base, i, n);
        assert ring[(base + i) % NUM] == q[i];
      }
    }
    assert RingAll(ring', q', base);
  }

  /** A wrapped index names the same slot, since NUM divides the wrap. */
  lemma WrapSlot(x: nat)
    ensures x % WRAP % NUM == x % NUM
  {
  }

  lemma OtherSlot(base: nat, i: nat, n: nat)
    requires i < n < NUM
    ensures (base + i) % NUM != (base + n) % NUM
  {
  }

  lemma PushAt(ring: seq<nat>, q: seq<nat>, base: nat, idx: nat, h: nat, ring': seq<nat>, q': seq<nat>, idx': nat)
    requires Ring(ring, q, base) && |q| < NUM && idx == (base + |q|) % WRAP
    requires ring' == ring[idx % NUM := h] && q' == q + [h] && idx' == (idx + 1) % WRAP
    ensures Ring(ring', q', base) && idx' == (base + |q'|) % WRAP
  {
    Push(ring, q, base, idx, h);
  }

  lemma Pop(ring: seq<nat>, q: seq<nat>, base: nat, idx: nat)
    requires Ring(ring, q, base) && |q| > 0 && idx == base % WRAP
    ensures ring[idx % NUM] == q[0] && Ring(ring, q[1..], base + 1)
  {
    assert KeyV(0);
    WrapSlot(base);
    forall i | 0 <= i < |q| - 1 ensures ring[(base + 1 + i) % NUM] == q[1..][i] {
      assert ring[(base + (i + 1)) % NUM] == q[i + 1];
    }
  }

  /** Equal indices mean nothing is unread. */
  lemma SameIndex(base: nat, n: nat)
    requires n <= NUM
    ensures base % WRAP == (base + n) % WRAP <==> n == 0
  {
  }

  // ---- Changes to the chains ----

  function WithPhase(c: Chain, p: Phase): (r: Chain) { c.(phase := p) }

  lemma RolesPhase(free: seq<bool>, role: seq<Role>, chains: map<nat, Chain>, h: nat, p: Phase)
    requires RolesOk(free, role, chains) && h in chains
    ensures RolesOk(free, role, chains[h := WithPhase(chains[h], p)])
  {
    assert KeyRole(0);
    var chains' := chains[h := WithPhase(chains[h], p)];
    forall g | g in chains' ensures ChainRoles(role, g, chains'[g]) {
      assert ChainRoles(role, g, chains[g]);
    }
    forall d | 0 <= d < NUM ensures RoleChain(role[d], d, chains') {
      assert RoleChain(role[d], d, chains);
    }
  }

  /** Three descriptors change role, to `a`, `b` and `c`. */
  ghost predicate Recast(role: seq<Role>, role': seq<Role>, h: nat, m: nat, t: nat, a: Role, b: Role, c: Role) {
    && |role| == |role'| == NUM && h < NUM && m < NUM && t < NUM && h != m && h != t && m != t
    && role'[h] == a && role'[m] == b && role'[t] == c
    && forall d {:trigger role'[d]} :: 0 <= d < NUM && d != h && d != m && d != t ==> role'[d] == role[d]
  }

  ghost function Cast(role: seq<Role>, h: nat, m: nat, t: nat, a: Role, b: Role, c: Role): (r: seq<Role>)
    requires |role| == NUM && h < NUM && m < NUM && t < NUM && h != m && h != t && m != t
    ensures Recast(role, r, h, m, t, a, b, c)
  {
    role[h := a][m := b][t := c]
  }

  lemma RolesAdd(free: seq<bool>, role: seq<Role>, chains: map<nat, Chain>, h: nat, c: Chain, role': seq<Role>)
    requires RolesOk(free, role, chains) && Recast(role, role', h, c.mid, c.tail, First(h), Second(h), Third(h))
    requires role[h] == InHand && role[c.mid] == InHand && role[c.tail] == InHand
    ensures h !in chains && RolesOk(free, role', chains[h := c])
  {
    assert KeyRole(0);
    NotInChain(free, role, chains, h);
    NotInChain(free, role, chains, c.mid);
    NotInChain(free, role, chains, c.tail);
    forall g | g in chains ensures ChainRoles(role', g, chains[g]) {
      assert ChainRoles(role, g, chains[g]);
    }
    forall d | 0 <= d < NUM ensures RoleChain(role'[d], d, chains[h := c]) && (free[d] <==> role'[d] == Idle) {
      assert RoleChain(role[d], d, chains);
    }
  }

  lemma ChainDistinct(free: seq<bool>, role: seq<Role>, chains: map<nat, Chain>, h: nat)
    requires RolesOk(free, role, chains) && h in chains
    ensures ChainRoles(role, h, chains[h])
  {
    assert KeyRole(0);
  }

  lemma RolesDrop(free: seq<bool>, role: seq<Role>, chains: map<nat, Chain>, h: nat, m: nat, t: nat, role': seq<Role>)
    requires RolesOk(free, role, chains) && h in chains && m == chains[h].mid && t == chains[h].tail
    requires Recast(role, role', h, m, t, InHand, InHand, InHand)
    ensures RolesOk(free, role', chains - {h})
  {
    assert KeyRole(0);
    assert ChainRoles(role, h, chains[h]);
    forall g | g in chains && g != h ensures ChainRoles(role', g, chains[g]) {
      assert ChainRoles(role, g, chains[g]);
    }
    forall d | 0 <= d < NUM ensures RoleChain(role'[d], d, chains - {h}) && (free[d] <==> role'[d] == Idle) {
      assert RoleChain(role[d], d, chains);
    }
  }

  lemma IdleIff(free: seq<bool>, role: seq<Role>, chains: map<nat, Chain>, d: nat)
    requires RolesOk(free, role, chains) && d < NUM
    ensures free[d] <==> role[d] == Idle
  {
    assert KeyRole(0);
  }

  lemma RolesOne(free: seq<bool>, role: seq<Role>, chains: map<nat, Chain>, d: nat, f: bool, r: Role)
    requires RolesOk(free, role, chains) && d < NUM && (role[d] == Idle || role[d] == InHand)
    requires (f && r == Idle) || (!f && r == InHand)
    ensures (free[d] <==> role[d] == Idle) && RolesOk(free[d := f], role[d := r], chains)
  {
    assert KeyRole(0);
    forall g | g in chains ensures ChainRoles(role[d := r], g, chains[g]) {
      assert ChainRoles(role, g, chains[g]);
    }
    var role' := role[d := r];
    forall e | 0 <= e < NUM ensures RoleChain(role'[e], e, chains) {
      assert RoleChain(role[e], e, chains);
    }
  }

  lemma QueueOther(q: seq<nat>, chains: map<nat, Chain>, p: Phase, h: nat, c: Chain)
    requires Queue(q, chains, p) && c.phase != p && (h in chains ==> chains[h].phase != p)
    ensures Queue(q, chains[h := c], p)
  {
    assert KeyV(0);
  }

  lemma QueuePush(q: seq<nat>, chains: map<nat, Chain>, p: Phase, h: nat, c: Chain)
    requires Queue(q, chains, p) && c.phase == p && (h in chains ==> chains[h].phase != p)
    ensures h !in q && Queue(q + [h], chains[h := c], p)
  {
    assert KeyV(0);
    var q' := q + [h];
    forall x | x in chains[h := c] && chains[h := c][x].phase == p ensures x in q' {
      if x != h {
        assert x in q;
      } else {
        assert q'[|q|] == h;
      }
    }
  }

  lemma QueuePop(q: seq<nat>, chains: map<nat, Chain>, p: Phase, c: Chain)
    requires Queue(q, chains, p) && |q| > 0 && c.phase != p
    ensures q[0] in chains && chains[q[0]].phase == p && Queue(q[1..], chains[q[0] := c], p)
  {
    assert KeyV(0);
    var h, chains' := q[0], chains[q[0] := c];
    forall x | x in chains' && chains'[x].phase == p ensures x in q[1..] {
      assert x in q;
      var i :| 0 <= i < |q| && q[i] == x;
      assert q[1..][i - 1] == x;
    }
  }

  /** A descriptor in hand is in no chain. */
  lemma NotInChain(free: seq<bool>, role: seq<Role>, chains: map<nat, Chain>, d: nat)
    requires RolesOk(free, role, chains) && d < NUM && role[d] == InHand
    ensures forall h :: h in chains ==> h != d && chains[h].mid != d && chains[h].tail != d
  {
    assert KeyRole(0);
    forall h | h in chains ensures h != d && chains[h].mid != d && chains[h].tail != d {
      assert ChainRoles(role, h, chains[h]);
    }
  }

  /** Its contents do not matter to the chains. */
  lemma FormatsOther(free: seq<bool>, role: seq<Role>, desc: seq<Desc>, ops: seq<Request>, info: seq<Info>,
                     chains: map<nat, Chain>,
                     d: nat, x: Desc)
    requires RolesOk(free, role, chains) && Formats(desc, ops, info, chains) && d < NUM && role[d] == InHand
    ensures Formats(desc[d := x], ops, info, chains)
  {
    assert KeyV(0);
    NotInChain(free, role, chains, d);
    forall h | h in chains ensures Formatted(desc[d := x], ops, info, h, chains[h]) {
      assert Formatted(desc, ops, info, h, chains[h]);
    }
  }

  /**
   What a fetched request says, as the device holds it: may it write `into` the buffer, and may it report in the
   status byte?
   */
  datatype Work = Work(req: Request, buf: nat, into: bool, status: nat, reports: bool)

  /** What it says of a chain: the device may write into a buffer that the driver wants read, and only there. */
  function WorkOf(c: Chain, h: nat): (r: Work) { Work(c.req, c.buf, !c.req.write, h, true) }

  ghost predicate WorksAll(work: map<nat, Work>, info: seq<Info>, chains: map<nat, Chain>) {
    && |info| == NUM
    && (forall h {:trigger chains[h]} :: h in chains && chains[h].phase == Taken ==>
        h in work && work[h] == WorkOf(chains[h], h))
    && (forall h {:trigger work[h]} :: h in work ==> h in chains && chains[h].phase == Taken)
    && (forall h {:trigger chains[h]} :: h in chains && (chains[h].phase == Done || chains[h].phase == Seen) ==>
        h < NUM && info[h].status == 0)
  }

  ghost predicate Works(work: map<nat, Work>, info: seq<Info>, chains: map<nat, Chain>) {
    && |info| == NUM
    && forall u {:trigger KeyV(u)} :: KeyV(u) ==> WorksAll(work, info, chains)
  }

  // ---- The parts of the invariant, change by change ----

  lemma HeadsBelow(free: seq<bool>, role: seq<Role>, chains: map<nat, Chain>)
    requires RolesOk(free, role, chains)
    ensures forall h :: h in chains ==> h < NUM
  {
    assert KeyRole(0);
  }

  lemma WorksAdd(work: map<nat, Work>, info: seq<Info>, chains: map<nat, Chain>, h: nat, c: Chain, x: Info)
    requires Works(work, info, chains) && h !in chains && c.phase == Built && h < NUM
    ensures Works(work, info[h := x], chains[h := c])
  {
    assert KeyV(0);
  }

  lemma QueueShort(q: seq<nat>, chains: map<nat, Chain>, p: Phase, h: nat)
    requires Queue(q, chains, p) && h !in q && h < NUM && forall g :: g in chains ==> g < NUM
    ensures |q| < NUM
  {
    assert KeyV(0);
    Fewer(q, h, NUM);
  }

  lemma BuildQueues(posted: seq<nat>, done: seq<nat>, chains: map<nat, Chain>, h: nat, c: Chain)
    requires Queue(posted, chains, Posted) && Queue(done, chains, Done) && h !in chains && c.phase == Built
    ensures Queue(posted, chains[h := c], Posted) && Queue(done, chains[h := c], Done)
  {
    QueueOther(posted, chains, Posted, h, c);
    QueueOther(done, chains, Done, h, c);
  }

  lemma PostQueues(free: seq<bool>, role: seq<Role>, posted: seq<nat>, done: seq<nat>, chains: map<nat, Chain>, h: nat,
                   posted': seq<nat>, chains': map<nat, Chain>)
    requires Queue(posted, chains, Posted) && Queue(done, chains, Done) && h in chains && chains[h].phase == Built
    requires RolesOk(free, role, chains) && posted' == posted + [h]
             && chains' == chains[h := WithPhase(chains[h], Posted)]
    ensures |posted| < NUM && Queue(posted', chains', Posted) && Queue(done, chains', Done)
  {
    QueuePush(posted, chains, Posted, h, WithPhase(chains[h], Posted));
    QueueOther(done, chains, Done, h, WithPhase(chains[h], Posted));
    HeadsBelow(free, role, chains);
    QueueShort(posted, chains, Posted, h);
  }

  lemma DoneQueues(free: seq<bool>, role: seq<Role>, posted: seq<nat>, done: seq<nat>, chains: map<nat, Chain>, h: nat,
                   done': seq<nat>, chains': map<nat, Chain>)
    requires Queue(posted, chains, Posted) && Queue(done, chains, Done) && h in chains && chains[h].phase == Taken
    requires RolesOk(free, role, chains) && done' == done + [h] && chains' == chains[h := WithPhase(chains[h], Done)]
    ensures |done| < NUM && Queue(done', chains', Done) && Queue(posted, chains', Posted)
  {
    QueuePush(done, chains, Done, h, WithPhase(chains[h], Done));
    QueueOther(posted, chains, Posted, h, WithPhase(chains[h], Done));
    HeadsBelow(free, role, chains);
    QueueShort(done, chains, Done, h);
  }

  /** A change of phase, seen by everything but the rings. */
  lemma ChainsPhase(free: seq<bool>, role: seq<Role>, desc: seq<Desc>, ops: seq<Request>, info: seq<Info>,
                    chains: map<nat, Chain>, h: nat, p: Phase,
                    chains': map<nat, Chain>)
    requires RolesOk(free, role, chains) && Formats(desc, ops, info, chains) && h in chains
             && chains' == chains[h := WithPhase(chains[h], p)]
    ensures RolesOk(free, role, chains') && Formats(desc, ops, info, chains')
  {
    RolesPhase(free, role, chains, h, p);
    FormatsPhase(desc, ops, info, chains, h, p);
  }

  lemma WorksPost(work: map<nat, Work>, info: seq<Info>, chains: map<nat, Chain>, h: nat, chains': map<nat, Chain>)
    requires Works(work, info, chains) && h in chains && chains[h].phase == Built
             && chains' == chains[h := WithPhase(chains[h], Posted)]
    ensures Works(work, info, chains')
  {
    assert KeyV(0);
  }

  /** The three descriptors of a request: its header, its data and its status byte. */
  function Describe(desc: seq<Desc>, h: nat, m: nat, t: nat, b: nat, write: bool): (r: seq<Desc>)
    requires |desc| == NUM && h < NUM && m < NUM && t < NUM
    ensures |r| == NUM
  {
    desc[h := Desc(Op(h), 16, Some(m), false)][m := Desc(DataOf(b), 1024, Some(t), !write)][t := Desc(StatusOf(h), 1,
            None, true)]
  }

  lemma FormatsAdd(free: seq<bool>, role: seq<Role>, desc: seq<Desc>, ops: seq<Request>, info: seq<Info>,
                   chains: map<nat, Chain>, h: nat, c: Chain,
                   desc': seq<Desc>, ops': seq<Request>, info': seq<Info>)
    requires RolesOk(free, role, chains) && Formats(desc, ops, info, chains) && h < NUM && c.mid < NUM && c.tail < NUM
    requires h != c.mid && h != c.tail && c.mid != c.tail && role[h] == InHand && role[c.mid] == InHand
             && role[c.tail] == InHand
    requires desc' == Describe(desc, h, c.mid, c.tail, c.buf, c.req.write)
    requires ops' == ops[h := c.req] && info' == info[h := Info(Some(c.buf), 0xff)]
    ensures Formats(desc', ops', info', chains[h := c])
  {
    assert KeyV(0);
    NotInChain(free, role, chains, h);
    NotInChain(free, role, chains, c.mid);
    NotInChain(free, role, chains, c.tail);
    assert Formatted(desc', ops', info', h, c);
    forall g | g in chains && g != h ensures Formatted(desc', ops', info', g, chains[g]) {
      assert Formatted(desc, ops, info, g, chains[g]);
    }
  }

  lemma FormatsPhase(desc: seq<Desc>, ops: seq<Request>, info: seq<Info>, chains: map<nat, Chain>, h: nat, p: Phase)
    requires Formats(desc, ops, info, chains) && h in chains
    ensures Formats(desc, ops, info, chains[h := WithPhase(chains[h], p)])
  {
    assert KeyV(0);
    assert Formatted(desc, ops, info, h, chains[h]);
  }

  lemma FormatsStatus(desc: seq<Desc>, ops: seq<Request>, info: seq<Info>, chains: map<nat, Chain>, h: nat)
    requires Formats(desc, ops, info, chains) && h < NUM
    ensures Formats(desc, ops, info[h := info[h].(status := 0)], chains)
  {
    assert KeyV(0);
    forall g | g in chains ensures Formatted(desc, ops, info[h := info[h].(status := 0)], g, chains[g]) {
      assert Formatted(desc, ops, info, g, chains[g]);
    }
  }

  lemma FormatsDrop(desc: seq<Desc>, ops: seq<Request>, info: seq<Info>, chains: map<nat, Chain>, h: nat)
    requires Formats(desc, ops, info, chains) && h in chains && h < NUM
    ensures Formats(desc, ops, info[h := info[h].(b := None)], chains - {h})
  {
    assert KeyV(0);
    forall g | g in chains && g != h ensures Formatted(desc, ops, info[h := info[h].(b := None)], g, chains[g]) {
      assert Formatted(desc, ops, info, g, chains[g]);
    }
  }

  lemma FlagsAdd(flag: set<nat>, chains: map<nat, Chain>, h: nat, c: Chain)
    requires Flags(flag, chains) && h !in chains && c.phase != Seen
             && forall g :: g in chains ==> chains[g].buf != c.buf
    ensures Flags(flag + {c.buf}, chains[h := c])
  {
    assert KeyV(0);
    var chains' := chains[h := c];
    forall b | b in flag + {c.buf} ensures exists g :: g in chains' && chains'[g].buf == b {
      if b == c.buf {
        assert chains'[h].buf == b;
      } else {
        var g :| g in chains && chains[g].buf == b;
        assert chains'[g].buf == b;
      }
    }
  }

  lemma FlagsPhase(flag: set<nat>, chains: map<nat, Chain>, h: nat, p: Phase)
    requires Flags(flag, chains) && h in chains && chains[h].phase != Seen
    ensures Flags(if p == Seen then flag - {chains[h].buf} else flag, chains[h := WithPhase(chains[h], p)])
  {
    assert KeyV(0);
    var chains' := chains[h := WithPhase(chains[h], p)];
    forall b | b in flag ensures exists g :: g in chains' && chains'[g].buf == b {
      var g :| g in chains && chains[g].buf == b;
      assert chains'[g].buf == b;
    }
  }

  lemma FlagsSee(flag: set<nat>, chains: map<nat, Chain>, h: nat, flag': set<nat>, chains': map<nat, Chain>)
    requires Flags(flag, chains) && h in chains && chains[h].phase != Seen && flag' == flag - {chains[h].buf}
             && chains' == chains[h := WithPhase(chains[h], Seen)]
    ensures Flags(flag', chains')
  {
    FlagsPhase(flag, chains, h, Seen);
  }

  lemma FlagsKeep(flag: set<nat>, chains: map<nat, Chain>, h: nat, p: Phase, chains': map<nat, Chain>)
    requires Flags(flag, chains) && h in chains && chains[h].phase != Seen && p != Seen
             && chains' == chains[h := WithPhase(chains[h], p)]
    ensures Flags(flag, chains')
  {
    FlagsPhase(flag, chains, h, p);
  }

  lemma FlagsDrop(flag: set<nat>, chains: map<nat, Chain>, h: nat)
    requires Flags(flag, chains) && h in chains && chains[h].phase == Seen
    ensures Flags(flag, chains - {h})
  {
    assert KeyV(0);
    forall b | b in flag ensures exists g :: g in chains - {h} && (chains - {h})[g].buf == b {
      var g :| g in chains && chains[g].buf == b;
      assert g in chains - {h};
    }
  }

  /** Compared to `free0` and `role0`, the descriptors in `got` have been taken. */
  ghost predicate Taking(free0: seq<bool>, role0: seq<Role>, free: seq<bool>, role: seq<Role>, got: seq<nat>) {
    && |free0| == NUM && |role0| == NUM && |free| == NUM && |role| == NUM
    && (forall k :: 0 <= k < |got| ==>
        got[k] < NUM && role0[got[k]] == Idle && role[got[k]] == InHand && free0[got[k]] && !free[got[k]])
    && (forall d :: 0 <= d < NUM && d !in got ==> free[d] == free0[d] && role[d] == role0[d])
  }

  ghost function FreeSet(free: seq<bool>): (r: set<nat>) { set d | 0 <= d < |free| && free[d] }

  ghost function Members(s: seq<nat>): (r: set<nat>) { set k | 0 <= k < |s| :: s[k] }

  lemma {:induction false} FewMembers(s: seq<nat>)
    ensures |Members(s)| <= |s|
  {
    if s != [] {
      var init := s[..|s| - 1];
      FewMembers(init);
      assert forall k :: 0 <= k < |init| ==> init[k] == s[k];
      assert Members(s) == Members(init) + {s[|s| - 1]};
    }
  }

  /** When nothing is left, what was free is what was taken. */
  lemma NoneLeft(free0: seq<bool>, role0: seq<Role>, free: seq<bool>, role: seq<Role>, got: seq<nat>)
    requires Taking(free0, role0, free, role, got) && forall k :: 0 <= k < NUM ==> !free[k]
    ensures |FreeSet(free0)| <= |got|
  {
    assert forall d :: d in FreeSet(free0) ==> d in got;
    assert FreeSet(free0) <= Members(got);
    FewMembers(got);
    SmallerSet(FreeSet(free0), Members(got));
  }

  /** Buffer `b` is that of one of the first `k` unread completions. */
  ghost predicate Answered(g: Ledger, k: nat, b: nat) {
    exists j :: 0 <= j < k && j < |g.done| && g.done[j] in g.chains && g.chains[g.done[j]].buf == b
  }

  /** Since `flag0`, `g0`, the driver has read `k` completions, and cleared the flags of just their buffers. */
  ghost predicate Seeing(flag0: set<nat>, g0: Ledger, flag: set<nat>, g: Ledger, k: nat) {
    && k <= |g0.done| && g.done == g0.done[k..] && g.posted == g0.posted && g.chains.Keys == g0.chains.Keys
    && (forall b :: b in flag <==> b in flag0 && !Answered(g0, k, b))
    && (forall h :: h in g0.chains ==>
        g.chains[h] == if h in g0.done[..k] then WithPhase(g0.chains[h], Seen) else g0.chains[h])
  }

  lemma SeeingNext(flag0: set<nat>, g0: Ledger, flag: set<nat>, g: Ledger, k: nat, h: nat, flag': set<nat>, g': Ledger)
    requires Seeing(flag0, g0, flag, g, k) && g.done != [] && h == g.done[0] && h in g.chains
             && flag' == flag - {g.chains[h].buf}
    requires g'.done == g.done[1..] && g'.posted == g.posted && g'.chains == g.chains[h := WithPhase(g.chains[h], Seen)]
    ensures Seeing(flag0, g0, flag', g', k + 1)
  {
    assert h == g0.done[k] && g0.done[..k + 1] == g0.done[..k] + [h];
    forall b ensures Answered(g0, k + 1, b) <==> Answered(g0, k, b) || b == g0.chains[h].buf {
      if b == g0.chains[h].buf {
        assert g0.done[k] in g0.chains && g0.chains[g0.done[k]].buf == b;
      }
    }
  }

  lemma TakingNext(free0: seq<bool>, role0: seq<Role>, free: seq<bool>, role: seq<Role>, got: seq<nat>, d: nat)
    requires Taking(free0, role0, free, role, got) && Distinct(got) && d < NUM && role[d] == Idle && free[d]
    ensures Distinct(got + [d]) && Taking(free0, role0, free[d := false], role[d := InHand], got + [d])
  {
    assert d !in got;
    var got' := got + [d];
    forall e | 0 <= e < NUM && e !in got' ensures e !in got && e != d {
      assert got'[|got|] == d;
      assert forall k :: 0 <= k < |got| ==> got'[k] == got[k];
    }
  }

  lemma WorksTake(work: map<nat, Work>, info: seq<Info>, chains: map<nat, Chain>, h: nat, work': map<nat, Work>,
                  chains': map<nat, Chain>)
    requires Works(work, info, chains) && h in chains && chains' == chains[h := WithPhase(chains[h], Taken)]
    requires work' == work[h := WorkOf(chains[h], h)]
    ensures Works(work', info, chains')
  {
    assert KeyV(0);
  }

  lemma WorksTaken(work: map<nat, Work>, info: seq<Info>, chains: map<nat, Chain>, h: nat)
    requires Works(work, info, chains) && h in work
    ensures h in chains && chains[h].phase == Taken && work[h] == WorkOf(chains[h], h)
  {
    assert KeyV(0);
  }

  lemma WorksComplete(work: map<nat, Work>, info: seq<Info>, chains: map<nat, Chain>, h: nat, work': map<nat, Work>,
                      info': seq<Info>, chains': map<nat, Chain>)
    requires Works(work, info, chains) && h in chains && h < NUM && info' == info[h := info[h].(status := 0)]
             && work' == work - {h}
    requires chains' == chains[h := WithPhase(chains[h], Done)]
    ensures Works(work', info', chains')
  {
    assert KeyV(0);
  }

  lemma WorksSee(work: map<nat, Work>, info: seq<Info>, chains: map<nat, Chain>, h: nat, chains': map<nat, Chain>)
    requires Works(work, info, chains) && h in chains && chains[h].phase == Done
             && chains' == chains[h := WithPhase(chains[h], Seen)]
    ensures Works(work, info, chains')
  {
    assert KeyV(0);
  }

  lemma WorksDrop(work: map<nat, Work>, info: seq<Info>, chains: map<nat, Chain>, h: nat, info': seq<Info>,
                  chains': map<nat, Chain>)
    requires Works(work, info, chains) && h in chains && h < NUM && chains[h].phase == Seen && chains' == chains - {h}
             && info' == info[h := info[h].(b := None)]
    ensures Works(work, info', chains')
  {
    assert KeyV(0);
  }

  lemma QueueDrop(q: seq<nat>, chains: map<nat, Chain>, p: Phase, h: nat, chains': map<nat, Chain>)
    requires Queue(q, chains, p) && h in chains && chains[h].phase != p && chains' == chains - {h}
    ensures Queue(q, chains', p)
  {
    assert KeyV(0);
  }

  /** One request moves on from the first queue; the other queue does not notice. */
  lemma QueuesPop(q: seq<nat>, r: seq<nat>, chains: map<nat, Chain>, p: Phase, o: Phase, h: nat, c: Chain, q': seq<nat>,
                  chains': map<nat, Chain>)
    requires Queue(q, chains, p) && Queue(r, chains, o) && p != o && |q| > 0 && h == q[0] && c.phase != p
             && c.phase != o
    requires q' == q[1..] && chains' == chains[h := c]
    ensures h in chains && chains[h].phase == p && Queue(q', chains', p) && Queue(r, chains', o)
  {
    QueuePop(q, chains, p, c);
    QueueOther(r, chains, o, h, c);
  }

  lemma QueueFirst(q: seq<nat>, chains: map<nat, Chain>, p: Phase)
    requires Queue(q, chains, p)
    ensures q != [] ==> q[0] in chains
  {
    assert KeyV(0);
  }

  // ---- The whole invariant ----

  /**
   What the proof knows and the code does not: each descriptor's role, the chains, the unread entries
   of the two rings and how many were read before them.
   */
  datatype Ledger = Ledger(role: seq<Role>, chains: map<nat, Chain>, posted: seq<nat>, done: seq<nat>, taken: nat,
                           acked: nat)

  predicate KeyGood(u: int) { true }

  /** Descriptors, requests, flags and queues agree. */
  ghost predicate Good(desc: seq<Desc>, free: seq<bool>, ops: seq<Request>, info: seq<Info>, flag: set<nat>,
                       work: map<nat, Work>, g: Ledger)
  {
    && |desc| == NUM && |free| == NUM && |ops| == NUM && |info| == NUM && |g.role| == NUM
    && forall u {:trigger KeyGood(u)} :: KeyGood(u) ==>
         && RolesOk(free, g.role, g.chains) && Formats(desc, ops, info, g.chains) && Flags(flag, g.chains)
         && Works(work, info, g.chains)
         && Queue(g.posted, g.chains, Posted) && Queue(g.done, g.chains, Done)
  }

  predicate KeyRings(u: int) { true }

  /** A ring read up to `base` holds the queue `q`; the 16-bit indices say how far it has been read and written. */
  ghost predicate RingOk(ring: seq<nat>, read: nat, write: nat, q: seq<nat>, base: nat) {
    && |ring| == NUM && write < WRAP && read < WRAP
    && forall u {:trigger KeyRings(u)} :: KeyRings(u) ==>
      Ring(ring, q, base) && write == (base + |q|) % WRAP && read == base % WRAP
  }

  lemma RingPush(ring: seq<nat>, read: nat, write: nat, q: seq<nat>, base: nat, h: nat, ring': seq<nat>, write': nat,
                 q': seq<nat>)
    requires RingOk(ring, read, write, q, base) && |q| < NUM
    requires ring' == ring[write % NUM := h] && q' == q + [h] && write' == (write + 1) % WRAP
    ensures RingOk(ring', read, write', q', base)
  {
    assert KeyRings(0);
    PushAt(ring, q, base, write, h, ring', q', write');
  }

  /** Reading is possible exactly when the indices differ, and yields the queue's first entry. */
  lemma RingPop(ring: seq<nat>, read: nat, write: nat, q: seq<nat>, base: nat)
    requires RingOk(ring, read, write, q, base)
    ensures read == write <==> q == []
    ensures q != [] ==> ring[read % NUM] == q[0] && RingOk(ring, (read + 1) % WRAP, write, q[1..], base + 1)
  {
    assert KeyRings(0);
    SameIndex(base, |q|);
    if q != [] {
      Pop(ring, q, base, read);
    }
  }

  lemma GoodOne(desc: seq<Desc>, free: seq<bool>, ops: seq<Request>, info: seq<Info>, flag: set<nat>,
                work: map<nat, Work>, g: Ledger, d: nat, f: bool, r: Role)
    requires Good(desc, free, ops, info, flag, work, g) && d < NUM
    requires (free[d] && !f && r == InHand) || (g.role[d] == InHand && f && r == Idle)
    ensures g.role[d] == (if f then InHand else Idle) && free[d] == !f
    ensures Good(if f then desc[d := EMPTY] else desc, free[d := f], ops, info, flag, work, g.(role := g.role[d := r]))
  {
    assert KeyGood(0);
    IdleIff(free, g.role, g.chains, d);
    if f {
      FormatsOther(free, g.role, desc, ops, info, g.chains, d, EMPTY);
    }
    RolesOne(free, g.role, g.chains, d, f, r);
  }

  lemma GoodBuild(desc: seq<Desc>, free: seq<bool>, ops: seq<Request>, info: seq<Info>, flag: set<nat>,
                  work: map<nat, Work>, g: Ledger, h: nat, c: Chain,
                  desc': seq<Desc>, ops': seq<Request>, info': seq<Info>, flag': set<nat>, g': Ledger)
    requires Good(desc, free, ops, info, flag, work, g)
    requires c.phase == Built && Recast(g.role, g'.role, h, c.mid, c.tail, First(h), Second(h), Third(h))
    requires g.role[h] == InHand && g.role[c.mid] == InHand && g.role[c.tail] == InHand
             && forall x :: x in g.chains ==> g.chains[x].buf != c.buf
    requires desc' == Describe(desc, h, c.mid, c.tail, c.buf, c.req.write) && ops' == ops[h := c.req]
             && info' == info[h := Info(Some(c.buf), 0xff)]
    requires flag' == flag + {c.buf} && g' == g.(role := g'.role, chains := g.chains[h := c])
    ensures h !in g.chains && Good(desc', free, ops', info', flag', work, g')
  {
    assert KeyGood(0);
    RolesAdd(free, g.role, g.chains, h, c, g'.role);
    BuildQueues(g.posted, g.done, g.chains, h, c);
    FlagsAdd(flag, g.chains, h, c);
    WorksAdd(work, info, g.chains, h, c, Info(Some(c.buf), 0xff));
    FormatsAdd(free, g.role, desc, ops, info, g.chains, h, c, desc', ops', info');
  }

  lemma GoodPost(desc: seq<Desc>, free: seq<bool>, ops: seq<Request>, info: seq<Info>, flag: set<nat>,
                 work: map<nat, Work>, g: Ledger, h: nat, g': Ledger)
    requires Good(desc, free, ops, info, flag, work, g) && h in g.chains && g.chains[h].phase == Built
    requires g' == g.(posted := g.posted + [h], chains := g.chains[h := WithPhase(g.chains[h], Posted)])
    ensures |g.posted| < NUM && h < NUM && Good(desc, free, ops, info, flag, work, g')
  {
    assert KeyGood(0);
    PostQueues(free, g.role, g.posted, g.done, g.chains, h, g'.posted, g'.chains);
    ChainsPhase(free, g.role, desc, ops, info, g.chains, h, Posted, g'.chains);
    FlagsKeep(flag, g.chains, h, Posted, g'.chains);
    WorksPost(work, info, g.chains, h, g'.chains);
    HeadsBelow(free, g.role, g.chains);
  }

  lemma PostedFormat(desc: seq<Desc>, free: seq<bool>, ops: seq<Request>, info: seq<Info>, flag: set<nat>,
                     work: map<nat, Work>, g: Ledger)
    requires Good(desc, free, ops, info, flag, work, g) && |g.posted| > 0
    ensures g.posted[0] in g.chains && g.chains[g.posted[0]].phase == Posted
            && Formatted(desc, ops, info, g.posted[0], g.chains[g.posted[0]])
  {
    assert KeyGood(0) && KeyV(0);
  }

  /** The device takes the first posted request. */
  lemma GoodTake(desc: seq<Desc>, free: seq<bool>, ops: seq<Request>, info: seq<Info>, flag: set<nat>,
                 work: map<nat, Work>, g: Ledger, h: nat, g': Ledger, work': map<nat, Work>)
    requires Good(desc, free, ops, info, flag, work, g) && |g.posted| > 0 && h == g.posted[0] && h in g.chains
    requires g' == g.(posted := g.posted[1..], taken := g.taken + 1,
                      chains := g.chains[h := WithPhase(g.chains[h], Taken)])
    requires work' == work[h := WorkOf(g.chains[h], h)]
    ensures Good(desc, free, ops, info, flag, work', g')
  {
    assert KeyGood(0);
    QueuesPop(g.posted, g.done, g.chains, Posted, Done, h, WithPhase(g.chains[h], Taken), g'.posted, g'.chains);
    ChainsPhase(free, g.role, desc, ops, info, g.chains, h, Taken, g'.chains);
    FlagsKeep(flag, g.chains, h, Taken, g'.chains);
    WorksTake(work, info, g.chains, h, work', g'.chains);
  }

  lemma TakenWork(desc: seq<Desc>, free: seq<bool>, ops: seq<Request>, info: seq<Info>, flag: set<nat>,
                  work: map<nat, Work>, g: Ledger, h: nat)
    requires Good(desc, free, ops, info, flag, work, g) && h in work
    ensures h in g.chains && g.chains[h].phase == Taken && h < NUM
            && work[h] == WorkOf(g.chains[h], h) && g.chains[h].buf in flag
  {
    assert KeyGood(0) && KeyV(0);
    HeadsBelow(free, g.role, g.chains);
  }

  /** The device finishes a request it had taken. */
  lemma GoodComplete(desc: seq<Desc>, free: seq<bool>, ops: seq<Request>, info: seq<Info>, flag: set<nat>,
                     work: map<nat, Work>, g: Ledger, h: nat, info': seq<Info>, work': map<nat, Work>, g': Ledger)
    requires Good(desc, free, ops, info, flag, work, g) && h in work && h in g.chains && h < NUM
    requires info' == info[h := info[h].(status := 0)] && work' == work - {h}
    requires g' == g.(done := g.done + [h], chains := g.chains[h := WithPhase(g.chains[h], Done)])
    ensures |g.done| < NUM && Good(desc, free, ops, info', flag, work', g')
  {
    assert KeyGood(0);
    WorksTaken(work, info, g.chains, h);
    DoneQueues(free, g.role, g.posted, g.done, g.chains, h, g'.done, g'.chains);
    ChainsPhase(free, g.role, desc, ops, info, g.chains, h, Done, g'.chains);
    FlagsKeep(flag, g.chains, h, Done, g'.chains);
    WorksComplete(work, info, g.chains, h, work', info', g'.chains);
    FormatsStatus(desc, ops, info, g'.chains, h);
  }

  lemma DoneFacts(desc: seq<Desc>, free: seq<bool>, ops: seq<Request>, info: seq<Info>, flag: set<nat>,
                  work: map<nat, Work>, g: Ledger)
    requires Good(desc, free, ops, info, flag, work, g) && |g.done| > 0
    ensures var h := g.done[0];
            h < NUM && h in g.chains && g.chains[h].phase == Done && info[h] == Info(Some(g.chains[h].buf), 0)
            && g.chains[h].buf in flag
  {
    assert KeyGood(0) && KeyV(0);
    assert Formatted(desc, ops, info, g.done[0], g.chains[g.done[0]]);
  }

  /** The driver sees a completion: it clears the flag of the buffer that asked, and of no other. */
  lemma GoodSee(desc: seq<Desc>, free: seq<bool>, ops: seq<Request>, info: seq<Info>, flag: set<nat>,
                work: map<nat, Work>, g: Ledger, h: nat, b: nat, flag': set<nat>, g': Ledger)
    requires Good(desc, free, ops, info, flag, work, g) && |g.done| > 0 && h == g.done[0] && h in g.chains
             && b == g.chains[h].buf
    requires flag' == flag - {b}
             && g' == g.(done := g.done[1..], acked := g.acked + 1,
                         chains := g.chains[h := WithPhase(g.chains[h], Seen)])
    ensures Good(desc, free, ops, info, flag', work, g')
  {
    assert KeyGood(0);
    QueuesPop(g.done, g.posted, g.chains, Done, Posted, h, WithPhase(g.chains[h], Seen), g'.done, g'.chains);
    ChainsPhase(free, g.role, desc, ops, info, g.chains, h, Seen, g'.chains);
    FlagsSee(flag, g.chains, h, flag', g'.chains);
    WorksSee(work, info, g.chains, h, g'.chains);
  }

  lemma ChainFacts(desc: seq<Desc>, free: seq<bool>, ops: seq<Request>, info: seq<Info>, flag: set<nat>,
                   work: map<nat, Work>, g: Ledger, h: nat)
    requires Good(desc, free, ops, info, flag, work, g) && h in g.chains
    ensures ChainRoles(g.role, h, g.chains[h]) && Formatted(desc, ops, info, h, g.chains[h])
  {
    assert KeyGood(0) && KeyV(0);
    ChainDistinct(free, g.role, g.chains, h);
  }

  /** The waiting process takes its finished chain apart. */
  lemma GoodDrop(desc: seq<Desc>, free: seq<bool>, ops: seq<Request>, info: seq<Info>, flag: set<nat>,
                 work: map<nat, Work>, g: Ledger, h: nat, info': seq<Info>, g': Ledger)
    requires Good(desc, free, ops, info, flag, work, g) && h in g.chains && g.chains[h].phase == Seen && h < NUM
    requires Recast(g.role, g'.role, h, g.chains[h].mid, g.chains[h].tail, InHand, InHand, InHand)
             && info' == info[h := info[h].(b := None)]
    requires g' == g.(role := g'.role, chains := g.chains - {h})
    ensures Good(desc, free, ops, info', flag, work, g')
  {
    assert KeyGood(0);
    RolesDrop(free, g.role, g.chains, h, g.chains[h].mid, g.chains[h].tail, g'.role);
    FormatsDrop(desc, ops, info, g.chains, h);
    FlagsDrop(flag, g.chains, h);
    WorksDrop(work, info, g.chains, h, info', g'.chains);
    QueueDrop(g.posted, g.chains, Posted, h, g'.chains);
    QueueDrop(g.done, g.chains, Done, h, g'.chains);
  }

  lemma SeenIff(desc: seq<Desc>, free: seq<bool>, ops: seq<Request>, info: seq<Info>, flag: set<nat>,
                work: map<nat, Work>, g: Ledger, h: nat)
    requires Good(desc, free, ops, info, flag, work, g) && h in g.chains
    ensures g.chains[h].buf in flag <==> g.chains[h].phase != Seen
  {
    assert KeyGood(0) && KeyV(0);
  }

  // ---- Between calls ----

  /** No descriptor is in the hand of the driver: each is free or in a chain. */
  ghost predicate NoneInHand(role: seq<Role>) {
    |role| == NUM && forall d {:trigger role[d]} :: 0 <= d < NUM ==> role[d] != InHand
  }

  predicate KeyServed(u: int) { true }

  /** Every request is for a buffer and a sector that exist. */
  ghost predicate Served(chains: map<nat, Chain>, bufs: set<nat>, sectors: set<nat>) {
    forall u {:trigger KeyServed(u)} :: KeyServed(u) ==>
      forall h {:trigger chains[h]} :: h in chains ==> chains[h].buf in bufs && chains[h].req.sector in sectors
  }

  lemma ServedAt(chains: map<nat, Chain>, bufs: set<nat>, sectors: set<nat>, h: nat)
    requires Served(chains, bufs, sectors) && h in chains
    ensures chains[h].buf in bufs && chains[h].req.sector in sectors
  {
    assert KeyServed(0);
  }

  lemma ServedAdd(chains: map<nat, Chain>, bufs: set<nat>, sectors: set<nat>, h: nat, c: Chain)
    requires Served(chains, bufs, sectors) && c.buf in bufs && c.req.sector in sectors
    ensures Served(chains[h := c], bufs, sectors)
  {
    assert KeyServed(0);
  }

  lemma ServedPhase(chains: map<nat, Chain>, bufs: set<nat>, sectors: set<nat>, h: nat, p: Phase)
    requires Served(chains, bufs, sectors) && h in chains
    ensures Served(chains[h := WithPhase(chains[h], p)], bufs, sectors)
  {
    assert KeyServed(0);
  }

  lemma ServedDrop(chains: map<nat, Chain>, bufs: set<nat>, sectors: set<nat>, h: nat)
    requires Served(chains, bufs, sectors)
    ensures Served(chains - {h}, bufs, sectors)
  {
    assert KeyServed(0);
  }

  /** Three descriptors taken and put in a chain leave none in hand. */
  lemma ChainedNone(free0: seq<bool>, role0: seq<Role>, free: seq<bool>, role1: seq<Role>, role: seq<Role>, h: nat,
                    m: nat, t: nat)
    requires Taking(free0, role0, free, role1, [h, m, t]) && NoneInHand(role0)
    requires Recast(role1, role, h, m, t, First(h), Second(h), Third(h))
    ensures NoneInHand(role)
  {
    forall d | 0 <= d < NUM ensures role[d] != InHand {
      if d != h && d != m && d != t {
        assert d !in [h, m, t];
        assert role0[d] != InHand;
      }
    }
  }

  lemma FreedNone(role0: seq<Role>, role1: seq<Role>, role: seq<Role>, h: nat, m: nat, t: nat)
    requires NoneInHand(role0) && Recast(role0, role1, h, m, t, InHand, InHand, InHand)
             && Recast(role1, role, h, m, t, Idle, Idle, Idle)
    ensures NoneInHand(role)
  {
    forall d | 0 <= d < NUM ensures role[d] != InHand {
      if d != h && d != m && d != t {
        assert role1[d] == role0[d];
      }
    }
  }

  lemma TookThree(free0: seq<bool>, role0: seq<Role>, free: seq<bool>, role: seq<Role>, h: nat, m: nat, t: nat)
    requires Taking(free0, role0, free, role, [h, m, t])
    ensures h < NUM && m < NUM && t < NUM && free == free0[h := false][m := false][t := false] && free0[h] && free0[m]
            && free0[t]
    ensures role[h] == InHand && role[m] == InHand && role[t] == InHand
  {
    var got := [h, m, t];
    assert got[0] < NUM && got[1] < NUM && got[2] < NUM;
    assert !free[got[0]] && !free[got[1]] && !free[got[2]] && free0[got[0]] && free0[got[1]] && free0[got[2]];
    assert role[got[0]] == InHand && role[got[1]] == InHand && role[got[2]] == InHand;
    forall d | 0 <= d < NUM ensures free[d] == free0[h := false][m := false][t := false][d] {
      assert d !in got ==> free[d] == free0[d];
    }
  }

  // ---- Conservation ----

  /** The first, second or third descriptor of a chain. */
  ghost function Place(chains: map<nat, Chain>, h: nat, k: nat): (r: nat)
    requires h in chains
  {
    if k == 0 then h else if k == 1 then chains[h].mid else chains[h].tail
  }

  ghost function Part(chains: map<nat, Chain>, s: set<nat>, k: nat): (r: set<nat>)
    requires s <= chains.Keys
  {
    set h | h in s :: Place(chains, h, k)
  }

  /** A place tells its chain and which place it is. */
  lemma PlaceRole(free: seq<bool>, role: seq<Role>, chains: map<nat, Chain>, h: nat, k: nat)
    requires RolesOk(free, role, chains) && h in chains && k < 3
    ensures var d := Place(chains, h, k);
            d < NUM && !free[d] && role[d] == if k == 0 then First(h) else if k == 1 then Second(h) else Third(h)
  {
    assert KeyRole(0);
    assert ChainRoles(role, h, chains[h]);
  }

  /** A descriptor has one role, so chains do not share theirs. */
  lemma {:induction false} PartSize(free: seq<bool>, role: seq<Role>, chains: map<nat, Chain>, s: set<nat>, k: nat)
    requires RolesOk(free, role, chains) && s <= chains.Keys && k < 3
    ensures |Part(chains, s, k)| == |s|
    decreases s
  {
    if h :| h in s {
      var rest, d := s - {h}, Place(chains, h, k);
      PartSize(free, role, chains, rest, k);
      assert Part(chains, s, k) == Part(chains, rest, k) + {d};
      PlaceRole(free, role, chains, h, k);
      forall g | g in rest ensures Place(chains, g, k) != d {
        PlaceRole(free, role, chains, g, k);
      }
    }
  }

  lemma PartsApart(free: seq<bool>, role: seq<Role>, chains: map<nat, Chain>, j: nat, k: nat)
    requires RolesOk(free, role, chains) && j < k < 3
    ensures Part(chains, chains.Keys, j) !! Part(chains, chains.Keys, k)
  {
    forall g, h | g in chains && h in chains ensures Place(chains, g, j) != Place(chains, h, k) {
      PlaceRole(free, role, chains, g, j);
      PlaceRole(free, role, chains, h, k);
    }
  }

  lemma PartUsed(free: seq<bool>, role: seq<Role>, chains: map<nat, Chain>, k: nat)
    requires RolesOk(free, role, chains) && k < 3
    ensures Part(chains, chains.Keys, k) !! FreeSet(free) && forall d :: d in Part(chains, chains.Keys, k) ==> d < NUM
  {
    forall h | h in chains ensures Place(chains, h, k) < NUM && !free[Place(chains, h, k)] {
      PlaceRole(free, role, chains, h, k);
    }
  }

  lemma AllParts(free: seq<bool>, role: seq<Role>, chains: map<nat, Chain>, d: nat)
    requires RolesOk(free, role, chains) && NoneInHand(role) && d < NUM
    ensures d in FreeSet(free) || d in Part(chains, chains.Keys, 0) || d in Part(chains, chains.Keys, 1)
            || d in Part(chains, chains.Keys, 2)
  {
    assert KeyRole(0);
    assert RoleChain(role[d], d, chains) && role[d] != InHand;
    match role[d]
    case Idle =>
    case InHand =>
    case First(h) => assert Place(chains, h, 0) == d;
    case Second(h) => assert Place(chains, h, 1) == d;
    case Third(h) => assert Place(chains, h, 2) == d;
  }

  lemma FourParts(f: set<nat>, a: set<nat>, b: set<nat>, c: set<nat>)
    requires f !! a && f !! b && f !! c && a !! b && a !! c && b !! c
    requires forall d: nat :: d < NUM <==> d in f || d in a || d in b || d in c
    ensures |f| + |a| + |b| + |c| == NUM
  {
    var fa, bc := f + a, b + c;
    assert |fa| == |f| + |a| && |bc| == |b| + |c|;
    assert |fa + bc| == |fa| + |bc|;
    var all := Range(0, NUM);
    assert fa + bc == all;
  }

  /** Every descriptor is free or in one place of one chain. */
  lemma Conserved(free: seq<bool>, role: seq<Role>, chains: map<nat, Chain>)
    requires RolesOk(free, role, chains) && NoneInHand(role)
    ensures |FreeSet(free)| + 3 * |chains| == NUM
  {
    var f, a, b, c :=
        FreeSet(free), Part(chains, chains.Keys, 0), Part(chains, chains.Keys, 1), Part(chains, chains.Keys, 2);
    PartSize(free, role, chains, chains.Keys, 0);
    PartSize(free, role, chains, chains.Keys, 1);
    PartSize(free, role, chains, chains.Keys, 2);
    PartsApart(free, role, chains, 0, 1);
    PartsApart(free, role, chains, 0, 2);
    PartsApart(free, role, chains, 1, 2);
    PartUsed(free, role, chains, 0);
    PartUsed(free, role, chains, 1);
    PartUsed(free, role, chains, 2);
    forall d: nat ensures d < NUM <==> d in f || d in a || d in b || d in c {
      if d < NUM {
        AllParts(free, role, chains, d);
      }
    }
    FourParts(f, a, b, c);
    assert |chains.Keys| == |chains|;
  }

  class VirtioDisk<D> {
    var desc: seq<Desc>
    var free: seq<bool>
    var ops: seq<Request>
    var info: seq<Info>
    var availRing: seq<nat>
    var availIdx: nat
    /** How far the driver has read the used ring. */
    var seen: nat
    /** The buffers whose `disk` field is 1, and the data of all buffers. */
    var flag: set<nat>
    var data: map<nat, D>

    // The device's side.
    var usedRing: seq<nat>
    var usedIdx: nat
    var fetched: nat
    var work: map<nat, Work>
    var sectors: map<nat, D>

    ghost var g: Ledger

    ghost predicate Valid() reads this {
      && Good(desc, free, ops, info, flag, work, g)
      && RingOk(availRing, fetched, availIdx, g.posted, g.taken) && RingOk(usedRing, seen, usedIdx, g.done, g.acked)
    }

    /** Between calls: no descriptor is in hand, and every request can be served. */
    ghost predicate Ready() reads this {
      Valid() && NoneInHand(g.role) && Served(g.chains, data.Keys, sectors.Keys)
    }

    /** Each descriptor is free or in exactly one chain of three. */
    lemma Conservation()
      requires Ready()
      ensures |FreeSet(free)| + 3 * |g.chains| == NUM
    {
      assert KeyGood(0);
      Conserved(free, g.role, g.chains);
    }

    /** What sleeping processes wait for. */
    ghost function Sight(): (r: L.View) reads this
      requires Valid()
    {
      L.View(|FreeSet(free)|, flag)
    }

    constructor (data: map<nat, D>, sectors: map<nat, D>)
      ensures Ready() && g.chains == map[] && flag == {}
              && (forall d :: 0 <= d < NUM ==> free[d]) && this.sectors == sectors && this.data == data
    {
      desc, free := seq(NUM, i => EMPTY), seq(NUM, i => true);
      ops, info := seq(NUM, i => Request(false, 0)), seq(NUM, i => Info(None, 0));
      availRing, usedRing := seq(NUM, i => 0), seq(NUM, i => 0);
      availIdx, seen, usedIdx, fetched := 0, 0, 0, 0;
      flag, work := {}, map[];
      this.data, this.sectors := data, sectors;
      g := Ledger(seq(NUM, i => Idle), map[], [], [], 0, 0);
    }

    /** Takes the first free descriptor. */
    method AllocDesc() returns (d: Option<nat>)
      requires Valid()
      modifies this`free, this`g
      ensures Valid()
      ensures d.None? ==> unchanged(this) && forall k :: 0 <= k < NUM ==> !free[k]
      ensures d.Some? ==> d.value < NUM && old(g).role[d.value] == Idle && old(free)[d.value]
      ensures d.Some? ==> free == old(free)[d.value := false] && g == old(g).(role := old(g).role[d.value := InHand])
    {
      var i := 0;
      while i < NUM
        invariant 0 <= i <= NUM && unchanged(this) && Valid() && forall k :: 0 <= k < i ==> !free[k]
      {
        if free[i] {
          GoodOne(desc, free, ops, info, flag, work, g, i, false, InHand);
          free, g := free[i := false], g.(role := g.role[i := InHand]);
          return Some(i);
        }
        i := i + 1;
      }
      return None;
    }

    /** Frees a descriptor; the two panics of the source are the bound and the flag. */
    method FreeDesc(i: nat)
      requires Valid() && i < NUM && g.role[i] == InHand
      modifies this`desc, this`free, this`g
      ensures Valid() && !old(free)[i] && desc == old(desc)[i := EMPTY] && free == old(free)[i := true]
              && g == old(g).(role := old(g).role[i := Idle])
    {
      GoodOne(desc, free, ops, info, flag, work, g, i, true, Idle);
      desc, free, g := desc[i := EMPTY], free[i := true], g.(role := g.role[i := Idle]);
    }

    /** Three descriptors or none. */
    method Alloc3() returns (idx: Option<seq<nat>>, ghost wakes: seq<nat>)
      requires Valid()
      modifies this`desc, this`free, this`g
      ensures Valid() && g == old(g).(role := g.role)
      ensures idx.None? ==> free == old(free) && g == old(g) && |FreeSet(free)| < 3
      ensures idx.Some? ==>
                |idx.value| == 3 && Distinct(idx.value) && Taking(old(free), old(g).role, free, g.role, idx.value)
      ensures L.OnlyFree(wakes)
    {
      var got := [];
      var i := 0;
      while i < 3
        invariant 0 <= i <= 3 && |got| == i && Valid() && g == old(g).(role := g.role)
        invariant Distinct(got) && Taking(old(free), old(g).role, free, g.role, got)
      {
        ghost var free1, role1 := free, g.role;
        var d := AllocDesc();
        if d.None? {
          NoneLeft(old(free), old(g).role, free, g.role, got);
          wakes := FreeAll(got, old(free), old(g));
          return None, wakes;
        }
        TakingNext(old(free), old(g).role, free1, role1, got, d.value);
        got := got + [d.value];
        i := i + 1;
      }
      return Some(got), [];
    }

    /** The way out of Alloc3: what was taken goes back. */
    method FreeAll(got: seq<nat>, ghost free0: seq<bool>, ghost g0: Ledger) returns (ghost wakes: seq<nat>)
      requires Valid() && Distinct(got) && Taking(free0, g0.role, free, g.role, got) && g == g0.(role := g.role)
      modifies this`desc, this`free, this`g
      ensures Valid() && free == free0 && g == g0 && L.OnlyFree(wakes)
    {
      var j := 0;
      wakes := [];
      while j < |got|
        invariant 0 <= j <= |got| && Valid() && Taking(free0, g0.role, free, g.role, got[j..])
                  && g == g0.(role := g.role)
        invariant L.OnlyFree(wakes)
      {
        ghost var rest := got[j..];
        assert rest[0] == got[j] && rest[1..] == got[j + 1..];
        FreeDesc(got[j]);
        wakes := wakes + [L.FREE];
        j := j + 1;
      }
      assert g.role == g0.role;
    }

    /** A process changes a buffer that the device does not have. */
    method Store(b: nat, d: D)
      requires Ready() && b !in flag
      modifies this`data
      ensures Ready() && data == old(data)[b := d]
    {
      assert KeyServed(0);
      data := data[b := d];
    }

    /**
     Describes a request for buffer `b` in three descriptors and hands it to the device; false if there are
     none free.
     */
    method Submit(b: nat, write: bool, sector: nat) returns (ok: bool, h: nat, m: nat, t: nat, ghost wakes: seq<nat>)
      requires Ready() && b in data && sector in sectors && b !in flag
               && forall x :: x in g.chains ==> g.chains[x].buf != b
      modifies this
      ensures Ready() && data == old(data) && sectors == old(sectors) && work == old(work)
      ensures !ok ==> g == old(g) && flag == old(flag) && free == old(free) && |FreeSet(free)| < 3
      ensures ok ==>
                flag == old(flag) + {b} && h !in old(g).chains && g.posted == old(g).posted + [h]
                && g.done == old(g).done
      ensures ok ==> g.chains == old(g).chains[h := Chain(m, t, b, Request(write, sector), Posted)]
      ensures ok ==>
                h < NUM && m < NUM && t < NUM && old(free)[h] && old(free)[m] && old(free)[t] && h != m && h != t
                && m != t
      ensures ok ==> free == old(free)[h := false][m := false][t := false]
      ensures L.Tries(old(Sight()), Sight(), b, wakes, S.Sleep(if ok then L.Channel(b) else L.FREE))
    {
      ghost var g0, free0 := g, free;
      Conservation();
      ok, h, m, t, wakes := Take3();
      if ok {
        Post(b, Request(write, sector), h, m, t, free0, g0);
        Conservation();
        assert g.chains.Keys == g0.chains.Keys + {h};
      }
    }

    /** The three descriptors by name: header, data and status. */
    method Take3() returns (ok: bool, h: nat, m: nat, t: nat, ghost wakes: seq<nat>)
      requires Valid()
      modifies this`desc, this`free, this`g
      ensures Valid() && g == old(g).(role := g.role)
      ensures !ok ==> free == old(free) && g == old(g) && |FreeSet(free)| < 3
      ensures ok ==>
                h < NUM && m < NUM && t < NUM && h != m && h != t && m != t
                && Taking(old(free), old(g).role, free, g.role, [h, m, t])
      ensures ok ==> g.role[h] == InHand && g.role[m] == InHand && g.role[t] == InHand
      ensures ok ==>
                old(free)[h] && old(free)[m] && old(free)[t] && free == old(free)[h := false][m := false][t := false]
      ensures L.OnlyFree(wakes)
    {
      var idx;
      idx, wakes := Alloc3();
      if idx.None? {
        return false, 0, 0, 0, wakes;
      }
      h, m, t := idx.value[0], idx.value[1], idx.value[2];
      assert idx.value == [h, m, t];
      TookThree(old(free), old(g).role, free, g.role, h, m, t);
      ok := true;
    }

    /** Three descriptors in hand become the chain of a request, and its head goes to the device. */
    method Post(b: nat, req: Request, h: nat, m: nat, t: nat, ghost free0: seq<bool>, ghost g0: Ledger)
      requires Valid() && h < NUM && m < NUM && t < NUM && h != m && h != t && m != t
               && Taking(free0, g0.role, free, g.role, [h, m, t])
      requires g.role[h] == InHand && g.role[m] == InHand && g.role[t] == InHand
               && forall x :: x in g.chains ==> g.chains[x].buf != b
      requires NoneInHand(g0.role) && Served(g.chains, data.Keys, sectors.Keys) && b in data && req.sector in sectors
      modifies this`desc, this`ops, this`info, this`flag, this`availRing, this`availIdx, this`g
      ensures Ready() && flag == old(flag) + {b} && h !in old(g).chains && g.posted == old(g).posted + [h]
              && g.done == old(g).done
      ensures g.chains == old(g).chains[h := Chain(m, t, b, req, Posted)]
    {
      ghost var role1, chains0 := g.role, g.chains;
      Build(b, req, h, m, t);
      ChainedNone(free0, g0.role, free, role1, g.role, h, m, t);
      Publish(h);
      ServedAdd(chains0, data.Keys, sectors.Keys, h, Chain(m, t, b, req, Posted));
    }

    /** Fills in the three descriptors and the driver's own notes about the request. */
    method Build(b: nat, req: Request, h: nat, m: nat, t: nat)
      requires Valid() && h < NUM && m < NUM && t < NUM && h != m && h != t && m != t
      requires g.role[h] == InHand && g.role[m] == InHand && g.role[t] == InHand
               && forall x :: x in g.chains ==> g.chains[x].buf != b
      modifies this`desc, this`ops, this`info, this`flag, this`g
      ensures Valid() && flag == old(flag) + {b}
      ensures h !in old(g).chains
              && g == old(g).(role := g.role, chains := old(g).chains[h := Chain(m, t, b, req, Built)])
      ensures Recast(old(g).role, g.role, h, m, t, First(h), Second(h), Third(h))
    {
      ghost var c := Chain(m, t, b, req, Built);
      ghost var g' := g.(role := Cast(g.role, h, m, t, First(h), Second(h), Third(h)), chains := g.chains[h := c]);
      var desc', ops', info', flag' :=
          Describe(desc, h, m, t, b, req.write), ops[h := req], info[h := Info(Some(b), 0xff)], flag + {b};
      GoodBuild(desc, free, ops, info, flag, work, g, h, c, desc', ops', info', flag', g');
      desc, ops, info, flag, g := desc', ops', info', flag', g';
    }

    /** Puts the head of a finished chain on the available ring. */
    method Publish(h: nat)
      requires Valid() && h in g.chains && g.chains[h].phase == Built
      modifies this`availRing, this`availIdx, this`g
      ensures Valid()
              && g == old(g).(posted := old(g).posted + [h],
                              chains := old(g).chains[h := WithPhase(old(g).chains[h], Posted)])
    {
      ghost var g' := g.(posted := g.posted + [h], chains := g.chains[h := WithPhase(g.chains[h], Posted)]);
      GoodPost(desc, free, ops, info, flag, work, g, h, g');
      var ring', idx' := availRing[availIdx % NUM := h], (availIdx + 1) % WRAP;
      RingPush(availRing, fetched, availIdx, g.posted, g.taken, h, ring', idx', g'.posted);
      availRing, availIdx, g := ring', idx', g';
    }

    /** The device reads the next available entry and the request its descriptors describe. */
    method DeviceFetch() returns (h: Option<nat>)
      requires Ready()
      modifies this`fetched, this`work, this`g
      ensures Ready()
      ensures h.None? ==> unchanged(this) && g.posted == []
      ensures h.Some? ==>
                old(g).posted != [] && h.value == old(g).posted[0] && h.value in old(g).chains
                && g.posted == old(g).posted[1..]
      ensures h.Some? ==>
                g.chains == old(g).chains[h.value := WithPhase(old(g).chains[h.value], Taken)] && g.done == old(g).done
      ensures h.Some? ==>
                work == old(work)[h.value := WorkOf(old(g).chains[h.value], h.value)]
    {
      RingPop(availRing, fetched, availIdx, g.posted, g.taken);
      if fetched == availIdx {
        return None;
      }
      PostedFormat(desc, free, ops, info, flag, work, g);
      var x := availRing[fetched % NUM];
      var d0 := desc[x];
      var d1 := desc[d0.next.value];
      var d2 := desc[d1.next.value];
      var w := Work(ops[d0.addr.head], d1.addr.buf, d1.deviceWrites, d2.addr.head, d2.deviceWrites);
      var work' := work[x := w];
      ghost var g' :=
          g.(posted := g.posted[1..], taken := g.taken + 1, chains := g.chains[x := WithPhase(g.chains[x], Taken)]);
      GoodTake(desc, free, ops, info, flag, work, g, x, g', work');
      ServedPhase(g.chains, data.Keys, sectors.Keys, x, Taken);
      fetched, work, g := (fetched + 1) % WRAP, work', g';
      return Some(x);
    }

    /** Moves the block between the disk and the request's buffer, as far as the descriptor of the buffer allows. */
    method Transfer(w: Work)
      requires w.req.sector in sectors && w.buf in data
      modifies this`data, this`sectors
      ensures data == if !w.req.write && w.into then old(data)[w.buf := old(sectors)[w.req.sector]] else old(data)
      ensures sectors ==
              if w.req.write && !w.into then old(sectors)[w.req.sector := old(data)[w.buf]] else old(sectors)
    {
      if w.req.write && !w.into {
        sectors := sectors[w.req.sector := data[w.buf]];
      } else if !w.req.write && w.into {
        data := data[w.buf := sectors[w.req.sector]];
      }
    }

    /** The device carries out any request it has taken, reports success and adds the head to the used ring. */
    method DeviceComplete(h: nat)
      requires Ready() && h in work
      modifies this`info, this`work, this`usedRing, this`usedIdx, this`data, this`sectors, this`g
      ensures Ready() && h in old(g).chains && old(g).chains[h].buf in flag && work == old(work) - {h}
      ensures old(work)[h] == WorkOf(old(g).chains[h], h)
      ensures old(work)[h].req.sector in old(sectors) && old(work)[h].buf in old(data)
      ensures g.chains == old(g).chains[h := WithPhase(old(g).chains[h], Done)] && g.done == old(g).done + [h]
              && g.posted == old(g).posted
      ensures var w := old(work)[h]; w.req.write ==>
                data == old(data) && sectors == old(sectors)[w.req.sector := old(data)[w.buf]]
      ensures var w := old(work)[h]; !w.req.write ==>
                sectors == old(sectors) && data == old(data)[w.buf := old(sectors)[w.req.sector]]
    {
      TakenWork(desc, free, ops, info, flag, work, g, h);
      ServedAt(g.chains, data.Keys, sectors.Keys, h);
      ghost var bufs, places := data.Keys, sectors.Keys;
      Transfer(work[h]);
      assert data.Keys == bufs && sectors.Keys == places;
      ServedPhase(g.chains, bufs, places, h, Done);
      Report(h);
    }

    /** Writes the status byte and a used-ring entry. */
    method Report(h: nat)
      requires Valid() && h in work
      modifies this`info, this`work, this`usedRing, this`usedIdx, this`g
      ensures Valid() && h in old(g).chains && work == old(work) - {h}
      ensures g == old(g).(done := old(g).done + [h], chains := old(g).chains[h := WithPhase(old(g).chains[h], Done)])
    {
      TakenWork(desc, free, ops, info, flag, work, g, h);
      var s := work[h].status;
      var info', work' := if work[h].reports then info[s := info[s].(status := 0)] else info, work - {h};
      ghost var g' := g.(done := g.done + [h], chains := g.chains[h := WithPhase(g.chains[h], Done)]);
      GoodComplete(desc, free, ops, info, flag, work, g, h, info', work', g');
      var ring', idx' := usedRing[usedIdx % NUM := h], (usedIdx + 1) % WRAP;
      RingPush(usedRing, seen, usedIdx, g.done, g.acked, h, ring', idx', g'.done);
      info, work, usedRing, usedIdx, g := info', work', ring', idx', g';
    }

    /** One round of the interrupt handler's loop: the next completion clears its buffer's flag. */
    method SeeOne() returns (b: Option<nat>)
      requires Ready()
      modifies this`flag, this`seen, this`g
      ensures Ready()
      ensures b.None? ==> unchanged(this) && g.done == []
      ensures b.Some? ==>
                old(g).done != [] && old(g).done[0] in old(g).chains && b.value == old(g).chains[old(g).done[0]].buf
                && b.value in old(flag)
      ensures b.Some? ==> flag == old(flag) - {b.value} && g.done == old(g).done[1..] && g.posted == old(g).posted
      ensures b.Some? ==> g.chains == old(g).chains[old(g).done[0] := WithPhase(old(g).chains[old(g).done[0]], Seen)]
    {
      RingPop(usedRing, seen, usedIdx, g.done, g.acked);
      if seen == usedIdx {
        return None;
      }
      DoneFacts(desc, free, ops, info, flag, work, g);
      var id := usedRing[seen % NUM];
      assert info[id].status == 0;
      var x := info[id].b.value;
      ghost var g' :=
          g.(done := g.done[1..], acked := g.acked + 1, chains := g.chains[id := WithPhase(g.chains[id], Seen)]);
      GoodSee(desc, free, ops, info, flag, work, g, id, x, flag - {x}, g');
      ServedPhase(g.chains, data.Keys, sectors.Keys, id, Seen);
      flag, seen, g := flag - {x}, (seen + 1) % WRAP, g';
      return Some(x);
    }

    /** The interrupt handler reads every completion, and clears the flags of just their buffers. */
    method Interrupt() returns (ghost wakes: seq<nat>)
      requires Ready()
      modifies this`flag, this`seen, this`g
      ensures Ready() && g.done == [] && Seeing(old(flag), old(g), flag, g, |old(g).done|)
      ensures L.Interrupts(old(Sight()), Sight(), wakes, S.Return)
    {
      var more := true;
      wakes := [];
      ghost var k := 0;
      while more
        invariant Ready() && Seeing(old(flag), old(g), flag, g, k) && (!more ==> g.done == [])
        invariant flag <= old(flag) && forall b :: b in old(flag) && b !in flag ==> L.Channel(b) in wakes
        decreases |g.done|, more
      {
        ghost var flag1, g1 := flag, g;
        var b := SeeOne();
        more := b.Some?;
        if b.Some? {
          SeeingNext(old(flag), old(g), flag1, g1, k, g1.done[0], flag, g);
          k := k + 1;
          wakes := wakes + [L.Channel(b.value)];
        }
      }
    }

    /** With no request anywhere, the queues are empty and no flag is up. */
    lemma Empty()
      requires Ready() && g.chains == map[]
      ensures g.posted == [] && g.done == [] && flag == {}
    {
      assert KeyGood(0) && KeyV(0);
      QueueFirst(g.posted, g.chains, Posted);
      QueueFirst(g.done, g.chains, Done);
    }

    /** The device's part of one request, the only one. */
    method Handle(h: nat)
      requires Ready() && g.posted == [h] && g.done == [] && h in g.chains
      modifies this
      ensures Ready() && g.posted == [] && g.done == [h]
              && g.chains == old(g).chains[h := WithPhase(old(g).chains[h], Done)] && flag == old(flag)
              && free == old(free)
      ensures old(g).chains[h].buf in old(data) && old(g).chains[h].req.sector in old(sectors)
      ensures var c := old(g).chains[h]; c.req.write ==>
                data == old(data) && sectors == old(sectors)[c.req.sector := old(data)[c.buf]]
      ensures var c := old(g).chains[h]; !c.req.write ==>
                sectors == old(sectors) && data == old(data)[c.buf := old(sectors)[c.req.sector]]
    {
      ServedAt(g.chains, data.Keys, sectors.Keys, h);
      var x := DeviceFetch();
      DeviceComplete(h);
    }

    /** `virtio_disk_rw` on an idle disk, with the device's part: the block moves, and the disk is idle again. */
    method Alone(b: nat, write: bool, sector: nat)
      requires Ready() && g.chains == map[] && b in data && sector in sectors
      modifies this
      ensures Ready() && g.chains == map[] && flag == {}
      ensures write ==> data == old(data) && sectors == old(sectors)[sector := old(data)[b]]
      ensures !write ==> sectors == old(sectors) && data == old(data)[b := old(sectors)[sector]]
    {
      Empty();
      Conservation();
      ghost var wakes;
      var ok, h, m, t;
      ok, h, m, t, wakes := Submit(b, write, sector);
      Handle(h);
      var y := SeeOne();
      Finish(h);
      Empty();
    }

    /** The process that waited for chain `h` frees its descriptors, following the links. */
    method Finish(h: nat)
      requires Ready() && h in g.chains && g.chains[h].buf !in flag
      modifies this`desc, this`free, this`info, this`g
      ensures Ready() && g.chains == old(g).chains - {h} && g.posted == old(g).posted && g.done == old(g).done
      ensures var c := old(g).chains[h];
              h < NUM && c.mid < NUM && c.tail < NUM && free == old(free)[h := true][c.mid := true][c.tail := true]
    {
      ChainFacts(desc, free, ops, info, flag, work, g, h);
      SeenIff(desc, free, ops, info, flag, work, g, h);
      ghost var c := g.chains[h];
      ghost var g' := g.(role := Cast(g.role, h, c.mid, c.tail, InHand, InHand, InHand), chains := g.chains - {h});
      GoodDrop(desc, free, ops, info, flag, work, g, h, info[h := info[h].(b := None)], g');
      ServedDrop(g.chains, data.Keys, sectors.Keys, h);
      ghost var role0 := g.role;
      info, g := info[h := info[h].(b := None)], g';
      FreeChain(h, c.mid, c.tail);
      FreedNone(role0, g'.role, g.role, h, c.mid, c.tail);
    }

    /** The process that waits for chain `h` runs again: it sleeps on unless the request is complete. */
    method Resume(h: nat) returns (complete: bool, ghost wakes: seq<nat>)
      requires Ready() && h in g.chains
      modifies this`desc, this`free, this`info, this`g
      ensures Ready() && (complete <==> old(g).chains[h].buf !in flag)
      ensures g.chains == (if complete then old(g).chains - {h} else old(g).chains) && g.posted == old(g).posted
              && g.done == old(g).done
      ensures L.Looks(old(Sight()), Sight(), old(g).chains[h].buf, wakes, if complete then S.Return
                      else S.Sleep(L.Channel(old(g).chains[h].buf)))
    {
      ChainFacts(desc, free, ops, info, flag, work, g, h);
      complete, wakes := info[h].b.value !in flag, [];
      if complete {
        Conservation();
        ghost var g0 := g;
        Finish(h);
        Conservation();
        assert g0.chains.Keys == g.chains.Keys + {h};
        wakes := [L.FREE, L.FREE, L.FREE];
      }
    }

    /** Follows the links of a chain and frees its three descriptors. */
    method FreeChain(h: nat, ghost m: nat, ghost t: nat)
      requires Valid() && h < NUM && m < NUM && t < NUM && h != m && h != t && m != t
      requires g.role[h] == InHand && g.role[m] == InHand && g.role[t] == InHand
      requires desc[h].next == Some(m) && desc[m].next == Some(t) && desc[t].next == None
      modifies this`desc, this`free, this`g
      ensures Valid() && free == old(free)[h := true][m := true][t := true] && g == old(g).(role := g.role)
      ensures Recast(old(g).role, g.role, h, m, t, Idle, Idle, Idle)
    {
      var i, more := h, true;
      ghost var left := 3;
      while more
        invariant Valid() && g == old(g).(role := g.role) && 0 <= left <= 3 && (more <==> left > 0)
        invariant left == 3 ==>
                    i == h && free == old(free) && g.role[h] == g.role[m] == g.role[t] == InHand
                    && desc[h].next == Some(m) && desc[m].next == Some(t) && desc[t].next == None
        invariant left == 2 ==>
                    i == m && free == old(free)[h := true] && g.role[m] == g.role[t] == InHand
                    && desc[m].next == Some(t) && desc[t].next == None
        invariant left == 1 ==>
                    i == t && free == old(free)[h := true][m := true] && g.role[t] == InHand && desc[t].next == None
        invariant left == 0 ==> free == old(free)[h := true][m := true][t := true]
        invariant |g.role| == NUM && (left < 3 ==> g.role[h] == Idle) && (left < 2 ==> g.role[m] == Idle)
                  && (left < 1 ==> g.role[t] == Idle)
        invariant forall d :: 0 <= d < NUM && d != h && d != m && d != t ==> g.role[d] == old(g).role[d]
        decreases left
      {
        var next := desc[i].next;
        FreeDesc(i);
        left := left - 1;
        if next.Some? {
          i := next.value;
        } else {
          more := false;
        }
      }
    }
  }
}
