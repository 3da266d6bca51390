/**
 The process tree: fork, exit and wait under `wait_lock`.  Slots of the process table are the
 processes, and the channel a process sleeps on in `kwait` is the process itself.
 */
module ProcessTree {
  import opened Common
  import opened SleepWakeup

  /** `Used` is a process that fork has not finished; runnable, running and sleeping ones are `Live`. */
  datatype Status = Unused | Used | Live | Zombie

  /** `exits` and `reaps` count how often the slot's process has exited and been waited for. */
  datatype Proc = Proc(status: Status, parent: Option<nat>, exits: nat, reaps: nat)

  type Table = seq<Proc>

  const INIT := 0

  predicate Child(t: Table, k: nat, p: nat) { k < |t| && t[k].parent == Some(p) }

  /** What a process asleep in `kwait` found: children, none of them a zombie. */
  ghost predicate Expecting(t: Table, p: nat) {
    (exists k: nat :: Child(t, k, p))
    && forall k: nat {:trigger Child(t, k, p)} :: Child(t, k, p) ==> t[k].status != Zombie
  }

  // ---- The sections of process p ----

  /** `kfork` makes `k` its child. */
  ghost predicate Adopts(p: nat, t: Table, t': Table, k: nat) {
    && p < |t| && t[p].status == Live && k < |t| && t[k].status == Used && t[k].parent == None
    && t' == t[k := t[k].(parent := Some(p))]
  }

  /** `reparent`, then the zombie. */
  function Orphaned(t: Table, p: nat): (r: Table)
    ensures |r| == |t|
  {
    seq(|t|, k requires 0 <= k < |t| => if t[k].parent == Some(p) then t[k].(parent := Some(INIT)) else t[k])
  }

  ghost predicate Exits(p: nat, t: Table, t': Table, wakes: seq<nat>) {
    && p < |t| && p != INIT && t[p].status == Live && t[p].parent.Some?
    && var o := Orphaned(t, p);
       t' == o[p := o[p].(status := Zombie, exits := o[p].exits + 1)]
       && wakes == (if exists k: nat :: Child(t, k, p) then [INIT, o[p].parent.value] else [o[p].parent.value])
  }

  /** `kwait` frees a zombie child. */
  ghost predicate Reaps(p: nat, t: Table, t': Table, k: nat) {
    && p < |t| && t[p].status == Live && Child(t, k, p) && t[k].status == Zombie
    && t' == t[k := t[k].(status := Unused, parent := None, reaps := t[k].reaps + 1)]
  }

  /** `kwait` gives up, or sleeps when it has children and none of them has exited. */
  ghost predicate Looks(p: nat, t: Table, t': Table, e: Ending) {
    p < |t| && t[p].status == Live && t' == t && (e == Return || (e == Sleep(p) && Expecting(t, p)))
  }

  ghost predicate Section(p: nat, t: Table, t': Table, wakes: seq<nat>, e: Ending) {
    || (e == Return && wakes == [] && exists k: nat :: Adopts(p, t, t', k))
    || (e == Return && Exits(p, t, t', wakes))
    || (e == Return && wakes == [] && exists k: nat :: Reaps(p, t, t', k))
    || (wakes == [] && Looks(p, t, t', e))
  }

  /** Under a slot's own lock only: a slot is claimed, given back, or its process starts. */
  ghost predicate Quiet(t: Table, t': Table) {
    exists k :: 0 <= k < |t| && (
      || (t[k].status == Unused && t' == t[k := t[k].(status := Used)])
      || (t[k].status == Used && t[k].parent == None && t' == t[k := t[k].(status := Unused)])
      || (t[k].status == Used && t[k].parent.Some? && t' == t[k := t[k].(status := Live)]))
  }

  ghost function Users(): (r: Client<Table>) {
    Client((p: nat, t: Table, t': Table, wakes: seq<nat>, e: Ending) => Section(p, t, t', wakes, e),
           (t: Table, t': Table) => Quiet(t, t'),
           (t: Table, q: nat, c: nat) => c == q && Expecting(t, q))
  }

  // ---- No lost wakeup in kwait ----

  lemma ExitWakes(p: nat, t: Table, t': Table, wakes: seq<nat>, q: nat)
    requires Exits(p, t, t', wakes) && q != p && Expecting(t, q) && !Expecting(t', q)
    ensures q in wakes
  {
    var k :| Child(t, k, q);
    assert Child(t', k, q);
    var z: nat :| Child(t', z, q) && t'[z].status == Zombie;
    if Child(t, z, q) {
      assert z == p;
    } else {
      assert q == INIT && Child(t, z, p);
    }
  }

  lemma ReapKeeps(p: nat, t: Table, t': Table, k: nat, q: nat)
    requires Reaps(p, t, t', k) && q != p && Expecting(t, q)
    ensures Expecting(t', q)
  {
    var c :| Child(t, c, q);
    assert Child(t', c, q);
    forall z: nat | Child(t', z, q) ensures t'[z].status != Zombie {
      assert Child(t, z, q);
    }
  }

  lemma AdoptKeeps(p: nat, t: Table, t': Table, k: nat, q: nat)
    requires Adopts(p, t, t', k) && Expecting(t, q)
    ensures Expecting(t', q)
  {
    var c :| Child(t, c, q);
    assert Child(t', c, q);
    forall z: nat | Child(t', z, q) ensures t'[z].status != Zombie {
      assert z != k ==> Child(t, z, q);
    }
  }

  lemma QuietKeeps(t: Table, t': Table, q: nat)
    requires Quiet(t, t') && Expecting(t, q)
    ensures Expecting(t', q)
  {
    var c :| Child(t, c, q);
    assert Child(t', c, q);
    forall z: nat | Child(t', z, q) ensures t'[z].status != Zombie {
      assert Child(t, z, q);
    }
  }

  lemma Discipline()
    ensures Disciplined(Users())
  {
    var m := Users();
    forall p, t, t', wakes, e | m.sec(p, t, t', wakes, e)
      ensures (forall q, c {:trigger m.cond(t', q, c)} :: q != p && m.cond(t, q, c) && !m.cond(t', q, c) ==> c in wakes)
              && (e.Sleep? ==> m.cond(t', p, e.c)) {
      forall q, c | q != p && m.cond(t, q, c) && !m.cond(t', q, c) ensures c in wakes {
        if Exits(p, t, t', wakes) {
          ExitWakes(p, t, t', wakes, q);
        } else if k: nat :| Adopts(p, t, t', k) {
          AdoptKeeps(p, t, t', k, q);
        } else if k: nat :| Reaps(p, t, t', k) {
          ReapKeeps(p, t, t', k, q);
        }
      }
    }
    forall t, t', q, c | m.quiet(t, t') && m.cond(t, q, c) ensures m.cond(t', q, c) {
      QuietKeeps(t, t', q);
    }
  }

  /** In every run, while `wait_lock` is free, a process asleep in `kwait` has a child and no zombie child. */
  lemma Waiters(states: seq<State<Table>>, steps: seq<Step<Table>>, n: nat, q: nat)
    requires Run(Users(), states, steps) && Init(states[0]) && n < |states| && q < |states[n].pc|
    requires states[n].holder == None && states[n].pc[q].Asleep?
    ensures states[n].pc[q].c == q && Expecting(states[n].r, q)
  {
    Discipline();
    NoLostWakeup(Users(), states, steps, n, q);
  }

  // ---- The tree ----

  /** Init lives; everyone else who lives or is a zombie has a live parent; exits are either reaped or zombies. */
  ghost predicate Rooted(t: Table) {
    && INIT < |t| && t[INIT].status == Live && t[INIT].parent == None
    && forall k {:trigger t[k]} :: 0 <= k < |t| ==>
         && (k != INIT && (t[k].status == Live || t[k].status == Zombie) ==> t[k].parent.Some?)
         && (t[k].status == Unused ==> t[k].parent == None)
         && (t[k].parent.Some? ==>
             t[k].parent.value < |t| && t[k].parent.value != k && t[t[k].parent.value].status == Live)
         && t[k].exits == t[k].reaps + if t[k].status == Zombie then 1 else 0
  }

  lemma RootedExit(p: nat, t: Table, t': Table, wakes: seq<nat>)
    requires Rooted(t) && Exits(p, t, t', wakes)
    ensures Rooted(t')
  {
    var o := Orphaned(t, p);
    forall k | 0 <= k < |t| ensures t'[k].parent == Some(INIT) || t'[k].parent == t[k].parent != Some(p) {
    }
  }

  lemma RootedOther(p: nat, t: Table, t': Table, k: nat)
    requires Rooted(t) && (Adopts(p, t, t', k) || Reaps(p, t, t', k))
    ensures Rooted(t')
  {
  }

  lemma RootedQuiet(t: Table, t': Table)
    requires Rooted(t) && Quiet(t, t')
    ensures Rooted(t')
  {
  }

  lemma RootedSection(p: nat, t: Table, t': Table, wakes: seq<nat>, e: Ending)
    requires Rooted(t) && Section(p, t, t', wakes, e)
    ensures Rooted(t')
  {
    if Exits(p, t, t', wakes) {
      RootedExit(p, t, t', wakes);
    } else if k: nat :| Adopts(p, t, t', k) {
      RootedOther(p, t, t', k);
    } else if k: nat :| Reaps(p, t, t', k) {
      RootedOther(p, t, t', k);
    }
  }

  /** For every interleaving of fork, exit and wait. */
  lemma TreeRun(states: seq<State<Table>>, steps: seq<Step<Table>>, n: nat)
    requires Run(Users(), states, steps) && Rooted(states[0].r) && n < |states|
    ensures Rooted(states[n].r)
  {
    var m, keep := Users(), (t: Table) => Rooted(t);
    forall p, t, t', wakes, e | keep(t) && m.sec(p, t, t', wakes, e) ensures keep(t') {
      RootedSection(p, t, t', wakes, e);
    }
    forall t, t' | keep(t) && m.quiet(t, t') ensures keep(t') {
      RootedQuiet(t, t');
    }
    Kept(m, keep, states, steps, n);
  }

  // ---- The code of the sections ----

  class ProcTable {
    var t: Table

    constructor (t: Table)
      ensures this.t == t
    {
      this.t := t;
    }

    /** Gives the children of `p` to init. */
    method Reparent(p: nat)
      modifies this
      ensures t == Orphaned(old(t), p)
    {
      var k := 0;
      while k < |t|
        invariant 0 <= k <= |t| == |old(t)|
        invariant forall j :: 0 <= j < |t| ==> t[j] == if j < k then Orphaned(old(t), p)[j] else old(t)[j]
      {
        if t[k].parent == Some(p) {
          t := t[k := t[k].(parent := Some(INIT))];
        }
        k := k + 1;
      }
    }

    /** The part of `kexit` under `wait_lock`. */
    method Exit(p: nat) returns (ghost wakes: seq<nat>)
      requires p < |t| && p != INIT && t[p].status == Live && t[p].parent.Some?
      modifies this
      ensures Exits(p, old(t), t, wakes)
    {
      ghost var any := exists k: nat :: Child(t, k, p);
      Reparent(p);
      wakes := if any then [INIT, t[p].parent.value] else [t[p].parent.value];
      t := t[p := t[p].(status := Zombie, exits := t[p].exits + 1)];
    }

    /**
     One scan of `kwait`: reaps the first zombie child, gives up, or sleeps.  `fault` says that copying out
     the status fails.
     */
    method Wait(p: nat, killed: bool, fault: bool) returns (reaped: Option<nat>, e: Ending)
      requires p < |t| && t[p].status == Live
      modifies this
      ensures reaped.Some? ==> !fault && e == Return && Reaps(p, old(t), t, reaped.value)
      ensures reaped.Some? ==> forall k: nat :: k < reaped.value && Child(old(t), k, p) ==> old(t)[k].status != Zombie
      ensures reaped.None? ==> Looks(p, old(t), t, e)
      ensures reaped.None? ==>
                (e == Sleep(p) <==>
                 Expecting(t, p) && !killed && forall k: nat :: Child(t, k, p) ==> t[k].status != Zombie)
      ensures reaped.None? && !fault ==> forall k: nat :: Child(t, k, p) ==> t[k].status != Zombie
    {
      var havekids := false;
      var k := 0;
      while k < |t|
        invariant 0 <= k <= |t| && t == old(t)
        invariant havekids <==> exists j: nat :: j < k && Child(t, j, p)
        invariant forall j: nat :: j < k && Child(t, j, p) ==> t[j].status != Zombie
      {
        if t[k].parent == Some(p) {
          assert Child(t, k, p);
          havekids := true;
          if t[k].status == Zombie {
            if fault {
              return None, Return;
            }
            t := t[k := t[k].(status := Unused, parent := None, reaps := t[k].reaps + 1)];
            return Some(k), Return;
          }
        }
        k := k + 1;
      }
      return None, if !havekids || killed then Return else Sleep(p);
    }
  }
}
