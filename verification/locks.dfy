/** Sleep locks: one critical section each for taking, giving up and asking. */
module SleepLocks {
  import opened Common
  import opened SleepWakeup

  datatype Lock = Lock(locked: bool, pid: nat)

  /** The lock itself is the channel. */
  const CHANNEL := 0

  ghost predicate Section(l: Lock, l': Lock, wakes: seq<nat>, e: Ending) {
    || (l.locked && l' == l && wakes == [] && e == Sleep(CHANNEL))
    || (!l.locked && l'.locked && wakes == [] && e == Return)
    || (l' == Lock(false, 0) && wakes == [CHANNEL] && e == Return)
    || (l' == l && wakes == [] && e == Return)
  }

  ghost function Users(): (r: Client<Lock>) {
    Client((p: nat, l: Lock, l': Lock, wakes: seq<nat>, e: Ending) => Section(l, l', wakes, e),
           (l: Lock, l': Lock) => false,
           (l: Lock, q: nat, c: nat) => c == CHANNEL && l.locked)
  }

  /** In every run, while the spin lock inside is free, a process asleep on a sleep lock sees it locked. */
  lemma Sleepers(states: seq<State<Lock>>, steps: seq<Step<Lock>>, n: nat, q: nat)
    requires Run(Users(), states, steps) && Init(states[0]) && n < |states| && q < |states[n].pc|
    requires states[n].holder == None && states[n].pc[q].Asleep?
    ensures states[n].r.locked
  {
    NoLostWakeup(Users(), states, steps, n, q);
  }

  class SleepLock {
    var lock: Lock

    constructor ()
      ensures lock == Lock(false, 0)
    {
      lock := Lock(false, 0);
    }

    /** One pass of `acquiresleep`'s loop: taken, or asleep until it is worth another look. */
    method Acquire(pid: nat) returns (taken: bool)
      modifies this
      ensures taken <==> !old(lock.locked)
      ensures lock == if taken then Lock(true, pid) else old(lock)
      ensures Section(old(lock), lock, [], if taken then Return else Sleep(CHANNEL))
    {
      if lock.locked {
        return false;
      }
      lock := Lock(true, pid);
      return true;
    }

    method Release()
      modifies this
      ensures lock == Lock(false, 0) && Section(old(lock), lock, [CHANNEL], Return)
    {
      lock := Lock(false, 0);
    }

    method Holding(pid: nat) returns (r: bool)
      ensures r <==> lock.locked && lock.pid == pid
      ensures Section(lock, lock, [], Return)
    {
      return lock.locked && lock.pid == pid;
    }
  }
}

/** Who waits for the log: the sections of `begin_op`, `log_write` and `end_op` under the log's lock. */
module LogLocks {
  import opened Common
  import opened SleepWakeup
  import D = Disks

  function Sum(s: seq<nat>): (r: nat) {
    if s == [] then 0 else Sum(s[..|s| - 1]) + s[|s| - 1]
  }

  lemma {:induction false} SumBound(s: seq<nat>, k: nat)
    requires forall i :: 0 <= i < |s| ==> s[i] <= k
    ensures Sum(s) <= k * |s|
  {
    if s != [] {
      SumBound(s[..|s| - 1], k);
    }
  }

  lemma {:induction false} SumUpdate(s: seq<nat>, i: nat, v: nat)
    requires i < |s|
    ensures Sum(s[i := v]) + s[i] == Sum(s) + v
  {
    var m := |s| - 1;
    if i < m {
      SumUpdate(s[..m], i, v);
      assert s[i := v][..m] == s[..m][i := v];
    } else {
      assert s[i := v][..m] == s[..m];
    }
  }

  lemma {:induction false} SumRemove(s: seq<nat>, i: nat)
    requires i < |s|
    ensures Sum(s[..i] + s[i + 1..]) + s[i] == Sum(s)
  {
    var m := |s| - 1;
    if i < m {
      SumRemove(s[..m], i);
      assert (s[..i] + s[i + 1..])[..m - 1] == s[..m][..i] + s[..m][i + 1..];
    } else {
      assert s[..i] + s[i + 1..] == s[..m];
    }
  }

  /** The blocks logged so far, what each operation in progress may still add, and whether a commit runs. */
  datatype View = View(n: nat, budget: seq<nat>, committing: bool)

  const CHANNEL := 0

  predicate NoRoom(v: View) { v.n + (|v.budget| + 1) * MAXOPBLOCKS > D.LOGBLOCKS }

  predicate Blocked(v: View) { v.committing || NoRoom(v) }

  ghost predicate Begins(v: View, v': View, e: Ending) {
    if Blocked(v) then v' == v && e == Sleep(CHANNEL) else v' == v.(budget := v.budget + [MAXOPBLOCKS]) && e == Return
  }

  /** Operation `op` logs a block: a new one out of its budget, or one that is there already. */
  ghost predicate Adds(v: View, v': View, op: nat) {
    op < |v.budget|
    && (v' == v || (v.budget[op] > 0 && v' == v.(n := v.n + 1, budget := v.budget[op := v.budget[op] - 1])))
  }

  ghost predicate Ends(v: View, v': View, op: nat, wakes: seq<nat>) {
    && op < |v.budget| && !v.committing
    && var left := v.budget[..op] + v.budget[op + 1..];
       if left == [] then v' == View(v.n, left, true) && wakes == [] else v' == v.(budget := left) && wakes == [CHANNEL]
  }

  /** The commit itself runs without the lock and empties the log; then its flag is taken down. */
  ghost predicate Commits(v: View, v': View) { v.committing && v' == v.(n := 0) }

  ghost predicate Committed(v: View, v': View, wakes: seq<nat>) {
    v.committing && v.n == 0 && v' == v.(committing := false) && wakes == [CHANNEL]
  }

  ghost predicate Section(v: View, v': View, wakes: seq<nat>, e: Ending) {
    || (Begins(v, v', e) && wakes == [])
    || ((exists op :: Adds(v, v', op)) && wakes == [] && e == Return)
    || ((exists op :: Ends(v, v', op, wakes)) && e == Return)
    || (Committed(v, v', wakes) && e == Return)
  }

  ghost function Users(): (r: Client<View>) {
    Client((p: nat, v: View, v': View, wakes: seq<nat>, e: Ending) => Section(v, v', wakes, e),
           (v: View, v': View) => Commits(v, v'),
           (v: View, q: nat, c: nat) => c == CHANNEL && Blocked(v))
  }

  /** What is logged and what may still come fits the log; a commit runs alone; an idle log is empty. */
  ghost predicate Reserved(v: View) {
    && v.n + Sum(v.budget) <= D.LOGBLOCKS && (forall k :: 0 <= k < |v.budget| ==> v.budget[k] <= MAXOPBLOCKS)
    && (v.committing ==> v.budget == []) && (!v.committing && v.budget == [] ==> v.n == 0)
  }

  lemma ReservedBegin(v: View, v': View, e: Ending)
    requires Reserved(v) && Begins(v, v', e)
    ensures Reserved(v')
  {
    if !Blocked(v) {
      SumBound(v.budget, MAXOPBLOCKS);
      assert v'.budget[..|v'.budget| - 1] == v.budget;
    }
  }

  lemma ReservedAdd(v: View, v': View, op: nat)
    requires Reserved(v) && Adds(v, v', op)
    ensures Reserved(v')
  {
    if v' != v {
      SumUpdate(v.budget, op, v.budget[op] - 1);
    }
  }

  lemma ReservedEnd(v: View, v': View, op: nat, wakes: seq<nat>)
    requires Reserved(v) && Ends(v, v', op, wakes)
    ensures Reserved(v')
  {
    SumRemove(v.budget, op);
  }

  lemma ReservedStep(v: View, v': View, wakes: seq<nat>, e: Ending)
    requires Reserved(v) && Section(v, v', wakes, e)
    ensures Reserved(v')
  {
    if Begins(v, v', e) {
      ReservedBegin(v, v', e);
    } else if op: nat :| Adds(v, v', op) {
      ReservedAdd(v, v', op);
    } else if op: nat :| Ends(v, v', op, wakes) {
      ReservedEnd(v, v', op, wakes);
    }
  }

  /** In every run the log never overflows, and an operation with budget left always has room for its block. */
  lemma LogRoom(states: seq<State<View>>, steps: seq<Step<View>>, n: nat, op: nat)
    requires Run(Users(), states, steps) && states[0].r == View(0, [], false) && n < |states|
    ensures Reserved(states[n].r) && states[n].r.n <= D.LOGBLOCKS
    ensures op < |states[n].r.budget| && states[n].r.budget[op] > 0 ==> states[n].r.n < D.LOGBLOCKS
  {
    var m, keep := Users(), (v: View) => Reserved(v);
    forall p, v, v', wakes, e | keep(v) && m.sec(p, v, v', wakes, e) ensures keep(v') {
      ReservedStep(v, v', wakes, e);
    }
    Kept(m, keep, states, steps, n);
    var b := states[n].r.budget;
    if op < |b| && b[op] > 0 {
      SumUpdate(b, op, 0);
    }
  }

  lemma Discipline()
    ensures Disciplined(Users())
  {
    var m := Users();
    forall p, v, v', wakes, e | m.sec(p, v, v', wakes, e)
      ensures (forall q, c {:trigger m.cond(v', q, c)} :: q != p && m.cond(v, q, c) && !m.cond(v', q, c) ==> c in wakes)
              && (e.Sleep? ==> m.cond(v', p, e.c)) {
    }
  }

  /**
   No one waits for the log in vain: while the lock is free a sleeper means a commit is running or operations
   are in progress.
   */
  lemma Progress(states: seq<State<View>>, steps: seq<Step<View>>, n: nat, q: nat)
    requires Run(Users(), states, steps) && Init(states[0]) && states[0].r == View(0, [], false) && n < |states|
             && q < |states[n].pc|
    requires states[n].holder == None && states[n].pc[q] == Asleep(CHANNEL)
    ensures Blocked(states[n].r) && (states[n].r.committing || |states[n].r.budget| > 0)
  {
    Discipline();
    NoLostWakeup(Users(), states, steps, n, q);
    LogRoom(states, steps, n, 0);
  }
}

/** Who waits for the disk: the sections of `virtio_disk_rw` and `virtio_disk_intr` under `vdisk_lock`. */
module DiskLocks {
  import opened Common
  import opened SleepWakeup

  /** How many descriptors are free, and the buffers whose requests are not complete. */
  datatype View = View(free: nat, busy: set<nat>)

  /** Processes without descriptors sleep on FREE, the others each on its own buffer. */
  const FREE := 0

  function Channel(b: nat): (r: nat) { b + 1 }

  ghost predicate OnlyFree(wakes: seq<nat>) {
    forall k :: 0 <= k < |wakes| ==> wakes[k] == FREE
  }

  /**
   A request for buffer `b` is made, and its process waits for it; or there are no descriptors, and it waits
   for them.
   */
  ghost predicate Tries(v: View, v': View, b: nat, wakes: seq<nat>, e: Ending) {
    && OnlyFree(wakes)
    && if v.free < 3 then v' == v && e == Sleep(FREE)
       else v' == View(v.free - 3, v.busy + {b}) && e == Sleep(Channel(b))
  }

  /** The process of buffer `b` looks again: it waits on, or gives its three descriptors back. */
  ghost predicate Looks(v: View, v': View, b: nat, wakes: seq<nat>, e: Ending) {
    if b in v.busy then v' == v && wakes == [] && e == Sleep(Channel(b))
    else v' == View(v.free + 3, v.busy) && FREE in wakes && e == Return
  }

  /** The interrupt handler sees some requests complete. */
  ghost predicate Interrupts(v: View, v': View, wakes: seq<nat>, e: Ending) {
    v'.free == v.free && v'.busy <= v.busy && e == Return
    && forall b :: b in v.busy && b !in v'.busy ==> Channel(b) in wakes
  }

  ghost predicate Section(v: View, v': View, wakes: seq<nat>, e: Ending) {
    (exists b :: Tries(v, v', b, wakes, e) || Looks(v, v', b, wakes, e)) || Interrupts(v, v', wakes, e)
  }

  /** What a process asleep on channel `c` waits to end. */
  ghost predicate Waiting(v: View, c: nat) {
    if c == FREE then v.free < 3 else c - 1 in v.busy
  }

  ghost function Users(): (r: Client<View>) {
    Client((p: nat, v: View, v': View, wakes: seq<nat>, e: Ending) => Section(v, v', wakes, e),
           (v: View, v': View) => false,
           (v: View, q: nat, c: nat) => Waiting(v, c))
  }

  lemma Discipline()
    ensures Disciplined(Users())
  {
    var m := Users();
    forall p, v, v', wakes, e | m.sec(p, v, v', wakes, e)
      ensures (forall q, c {:trigger m.cond(v', q, c)} :: q != p && m.cond(v, q, c) && !m.cond(v', q, c) ==> c in wakes)
              && (e.Sleep? ==> m.cond(v', p, e.c)) {
      forall c: nat | Waiting(v, c) && !Waiting(v', c) ensures c in wakes {
        if c != FREE {
          assert Channel(c - 1) == c;
        }
      }
    }
  }

  /** In every run, while the lock is free, a sleeper lacks descriptors or its request is not complete. */
  lemma DiskSleepers(states: seq<State<View>>, steps: seq<Step<View>>, n: nat, q: nat)
    requires Run(Users(), states, steps) && Init(states[0]) && n < |states| && q < |states[n].pc|
    requires states[n].holder == None && states[n].pc[q].Asleep?
    ensures if states[n].pc[q].c == FREE then states[n].r.free < 3 else states[n].pc[q].c - 1 in states[n].r.busy
  {
    Discipline();
    NoLostWakeup(Users(), states, steps, n, q);
  }
}
