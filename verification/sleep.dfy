/**
 `sleep` and `wakeup`.  Processes share a resource `r` under one condition lock.  A critical section
 changes the resource, then wakes some channels, then returns or sleeps on a channel; `wakeup` looks
 at one process at a time, under that process's own lock, and other processes run in between.
 */
module SleepWakeup {
  import opened Common

  datatype Ending = Return | Sleep(c: nat)

  /**
   Where a process is: outside; inside a section with `todo` still to be woken, looking at process
   `k` next; about to sleep, holding both locks; holding only its own lock; asleep.
   */
  datatype Pc = Out | Doing(todo: seq<nat>, k: nat, ending: Ending) | Enter(c: nat) | Leaving(c: nat) | Asleep(c: nat)

  datatype State<R> = State(r: R, pc: seq<Pc>, holder: Option<nat>)

  /**
   A client of `sleep`: `sec(p, r, r', wakes, e)` are the critical sections of process p, from resource
   to resource, with the channels woken and the ending; `quiet(r, r')` the changes made without the
   lock; `cond(r, q, c)` what process q, asleep on channel c, waits to end.
   */
  datatype Client<!R> = Client(sec: (nat, R, R, seq<nat>, Ending) -> bool, quiet: (R, R) -> bool,
                               cond: (R, nat, nat) -> bool)

  /**
   A section wakes every channel on which it ends another process's wait, and sleeps only while the
   condition holds; changes made without the lock end no one's wait.
   */
  ghost predicate Disciplined<R(!new)>(m: Client<R>) {
    && (forall p, r, r', wakes, e {:trigger m.sec(p, r, r', wakes, e)} :: m.sec(p, r, r', wakes, e) ==>
          (forall q, c {:trigger m.cond(r', q, c)} :: q != p && m.cond(r, q, c) && !m.cond(r', q, c) ==> c in wakes)
          && (e.Sleep? ==> m.cond(r', p, e.c)))
    && (forall r, r', q, c {:trigger m.quiet(r, r'), m.cond(r', q, c)} :: m.quiet(r, r') && m.cond(r, q, c) ==>
        m.cond(r', q, c))
  }

  datatype Step<R> = Begin(p: nat, r: R, wakes: seq<nat>,
                           e: Ending) | WakeOne(p: nat) | WakeDone(p: nat) | Finish(p: nat)
    | LetGo(p: nat) | Fall(p: nat) | Kill(p: nat) | Slip(p: nat, r: R)

  predicate HasOwnLock(pc: Pc) { pc.Enter? || pc.Leaving? }
  predicate HasLock(pc: Pc) { pc.Doing? || pc.Enter? }
  predicate On(pc: Pc, c: nat) { (pc.Enter? || pc.Leaving? || pc.Asleep?) && pc.c == c }

  ghost predicate Can<R>(m: Client<R>, s: State<R>, t: Step<R>) {
    && t.p < |s.pc|
    && match t
       case Begin(p, r, wakes, e) => s.pc[p] == Out && s.holder == None && m.sec(p, s.r, r, wakes, e)
       case WakeOne(p) => s.pc[p].Doing? && s.pc[p].todo != [] && s.pc[p].k < |s.pc|
       && (s.pc[p].k == p || !HasOwnLock(s.pc[s.pc[p].k]))
       case WakeDone(p) => s.pc[p].Doing? && s.pc[p].todo != [] && s.pc[p].k == |s.pc|
       case Finish(p) => s.pc[p].Doing? && s.pc[p].todo == []
       case LetGo(p) => s.pc[p].Enter?
       case Fall(p) => s.pc[p].Leaving?
       case Kill(p) => s.pc[p].Asleep?
       case Slip(p, r) => m.quiet(s.r, r)
  }

  ghost function Do<R>(m: Client<R>, s: State<R>, t: Step<R>): (s': State<R>)
    requires Can(m, s, t)
  {
    match t
    case Begin(p, r, wakes, e) => State(r, s.pc[p := Doing(wakes, 0, e)], Some(p))
    case WakeOne(p) =>
      var d := s.pc[p];
      var pc' := if d.k != p && s.pc[d.k] == Asleep(d.todo[0]) then s.pc[d.k := Out] else s.pc;
      s.(pc := pc'[p := d.(k := d.k + 1)])
    case WakeDone(p) => s.(pc := s.pc[p := s.pc[p].(todo := s.pc[p].todo[1..], k := 0)])
    case Finish(p) =>
      if s.pc[p].ending.Return? then s.(pc := s.pc[p := Out], holder := None)
        else s.(pc := s.pc[p := Enter(s.pc[p].ending.c)])
    case LetGo(p) => s.(pc := s.pc[p := Leaving(s.pc[p].c)], holder := None)
    case Fall(p) => s.(pc := s.pc[p := Asleep(s.pc[p].c)])
    case Kill(p) => s.(pc := s.pc[p := Out])
    case Slip(p, r) => s.(r := r)
  }

  /** The wakeups under way will still come to process `q` on channel `c`. */
  ghost predicate Coming(d: Pc, q: nat, c: nat) {
    d.Doing? && exists j :: 0 <= j < |d.todo| && d.todo[j] == c && (j > 0 || d.k <= q)
  }

  ghost predicate Held<R>(s: State<R>) {
    && (forall h {:trigger s.pc[h]} :: 0 <= h < |s.pc| && HasLock(s.pc[h]) ==> s.holder == Some(h))
    && (s.holder.Some? ==> s.holder.value < |s.pc| && HasLock(s.pc[s.holder.value]))
  }

  /** A process on its way to sleep, or asleep, either waits for its condition or will be woken. */
  ghost predicate Waits<R>(m: Client<R>, s: State<R>) {
    && (forall q, c {:trigger On(s.pc[q], c)} :: 0 <= q < |s.pc| && On(s.pc[q], c) ==>
          m.cond(s.r, q, c) || (s.holder.Some? && s.holder.value < |s.pc| && Coming(s.pc[s.holder.value], q, c)))
    && (forall p {:trigger s.pc[p]} :: 0 <= p < |s.pc| && s.pc[p].Doing? && s.pc[p].ending.Sleep? ==>
        m.cond(s.r, p, s.pc[p].ending.c))
  }

  ghost predicate Inv<R>(m: Client<R>, s: State<R>) { Held(s) && Waits(m, s) }

  // ---- Every step keeps the invariant ----

  lemma HeldStep<R(!new)>(m: Client<R>, s: State<R>, t: Step<R>)
    requires Held(s) && Can(m, s, t)
    ensures Held(Do(m, s, t))
  {
  }

  lemma BeginStep<R(!new)>(m: Client<R>, s: State<R>, t: Step<R>)
    requires Disciplined(m) && Inv(m, s) && Can(m, s, t) && t.Begin?
    ensures Waits(m, Do(m, s, t))
  {
    var s' := Do(m, s, t);
    forall q, c | 0 <= q < |s'.pc| && On(s'.pc[q], c) ensures m.cond(s'.r, q, c) || Coming(s'.pc[t.p], q, c) {
      assert q != t.p && On(s.pc[q], c) && m.cond(s.r, q, c);
      if !m.cond(s'.r, q, c) {
        var j :| 0 <= j < |t.wakes| && t.wakes[j] == c;
        assert s'.pc[t.p].todo[j] == c;
      }
    }
  }

  lemma WakeOneStep<R(!new)>(m: Client<R>, s: State<R>, t: Step<R>)
    requires Inv(m, s) && Can(m, s, t) && t.WakeOne?
    ensures Waits(m, Do(m, s, t))
  {
    var s', p := Do(m, s, t), t.p;
    var d, d' := s.pc[p], s'.pc[p];
    assert s.holder == Some(p);
    forall q, c | 0 <= q < |s'.pc| && On(s'.pc[q], c) ensures m.cond(s'.r, q, c) || Coming(d', q, c) {
      assert q != p && On(s.pc[q], c);
      if !m.cond(s.r, q, c) {
        var j :| 0 <= j < |d.todo| && d.todo[j] == c && (j > 0 || d.k <= q);
        assert d'.todo[j] == c && (j > 0 || d'.k <= q);
      }
    }
  }

  lemma WakeDoneStep<R(!new)>(m: Client<R>, s: State<R>, t: Step<R>)
    requires Inv(m, s) && Can(m, s, t) && t.WakeDone?
    ensures Waits(m, Do(m, s, t))
  {
    var s', p := Do(m, s, t), t.p;
    var d, d' := s.pc[p], s'.pc[p];
    assert s.holder == Some(p);
    forall q, c | 0 <= q < |s'.pc| && On(s'.pc[q], c) ensures m.cond(s'.r, q, c) || Coming(d', q, c) {
      assert q != p && On(s.pc[q], c);
      if !m.cond(s.r, q, c) {
        var j :| 0 <= j < |d.todo| && d.todo[j] == c && (j > 0 || d.k <= q);
        assert d'.todo[j - 1] == c && d'.k <= q;
      }
    }
  }

  lemma OtherStep<R(!new)>(m: Client<R>, s: State<R>, t: Step<R>)
    requires Disciplined(m) && Inv(m, s) && Can(m, s, t) && (t.Finish? || t.LetGo? || t.Fall? || t.Kill? || t.Slip?)
    ensures Waits(m, Do(m, s, t))
  {
    var s', p := Do(m, s, t), t.p;
    forall q, c | 0 <= q < |s'.pc| && On(s'.pc[q], c)
      ensures m.cond(s'.r, q, c)
              || (s'.holder.Some? && s'.holder.value < |s'.pc| && Coming(s'.pc[s'.holder.value], q, c)) {
      assert q != p ==> On(s.pc[q], c);
      assert q == p && !t.Finish? ==> On(s.pc[q], c);
    }
  }

  lemma InvStep<R(!new)>(m: Client<R>, s: State<R>, t: Step<R>)
    requires Disciplined(m) && Inv(m, s) && Can(m, s, t)
    ensures Inv(m, Do(m, s, t))
  {
    HeldStep(m, s, t);
    match t
    case Begin(_, _, _, _) => BeginStep(m, s, t);
    case WakeOne(_) => WakeOneStep(m, s, t);
    case WakeDone(_) => WakeDoneStep(m, s, t);
    case _ => OtherStep(m, s, t);
  }

  /** A run: states and the steps between them. */
  ghost predicate Run<R>(m: Client<R>, states: seq<State<R>>, steps: seq<Step<R>>) {
    && |states| == |steps| + 1
    && forall i :: 0 <= i < |steps| ==> Can(m, states[i], steps[i]) && states[i + 1] == Do(m, states[i], steps[i])
  }

  lemma {:induction false} InvRun<R(!new)>(m: Client<R>, states: seq<State<R>>, steps: seq<Step<R>>, n: nat)
    requires Disciplined(m) && Run(m, states, steps) && Inv(m, states[0]) && n < |states|
    ensures Inv(m, states[n])
  {
    if n > 0 {
      InvRun(m, states, steps, n - 1);
      InvStep(m, states[n - 1], steps[n - 1]);
    }
  }

  /** All processes outside, nobody holding the lock. */
  ghost predicate Init<R>(s: State<R>) { s.holder == None && forall p :: 0 <= p < |s.pc| ==> s.pc[p] == Out }

  /** No lost wakeup: whenever the condition lock is free, every sleeper's condition still holds. */
  lemma NoLostWakeup<R(!new)>(m: Client<R>, states: seq<State<R>>, steps: seq<Step<R>>, n: nat, q: nat)
    requires Disciplined(m) && Run(m, states, steps) && Init(states[0]) && n < |states| && q < |states[n].pc|
    requires states[n].holder == None && states[n].pc[q].Asleep?
    ensures m.cond(states[n].r, q, states[n].pc[q].c)
  {
    InvRun(m, states, steps, n);
    assert On(states[n].pc[q], states[n].pc[q].c);
  }

  /** What every section and every quiet change keeps, every run keeps. */
  lemma {:induction false} Kept<R(!new)>(m: Client<R>, keep: R -> bool, states: seq<State<R>>, steps: seq<Step<R>>,
                                         n: nat)
    requires Run(m, states, steps) && keep(states[0].r) && n < |states|
    requires forall p, r, r', wakes, e {:trigger m.sec(p, r, r', wakes, e)} :: keep(r) && m.sec(p, r, r', wakes, e) ==>
               keep(r')
    requires forall r, r' {:trigger m.quiet(r, r')} :: keep(r) && m.quiet(r, r') ==> keep(r')
    ensures keep(states[n].r)
  {
    if n > 0 {
      Kept(m, keep, states, steps, n - 1);
    }
  }
}
