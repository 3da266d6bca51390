/**
 All processes together: whatever they do with their memory, in whatever order, every space fits its
 process, no process disturbs another's memory, and no frame is lost.
 */
module Lifecycle {
  import opened Common
  import opened PageTables
  import opened Vm
  import opened AddressSpaces
  import opened UserCopy
  import opened Arguments
  import opened Exec

  /** A process's page table, size and trap frame. */
  datatype Proc = Proc(root: nat, sz: nat, tf: nat)

  ghost predicate ProcOk(p: Proc, owner: map<nat, Owner>, spaces: map<nat, Space>, tramp: nat) {
    && p.root in spaces && SpaceFits(spaces[p.root], p.sz) && HasEnds(spaces[p.root].flat, tramp, p.tf)
    && p.tf in owner && owner[p.tf] == Held
  }

  ghost predicate EachOk(procs: map<nat, Proc>, owner: map<nat, Owner>, spaces: map<nat, Space>, tramp: nat) {
    forall p {:trigger procs[p]} :: p in procs ==> ProcOk(procs[p], owner, spaces, tramp)
  }

  ghost predicate Separate(procs: map<nat, Proc>) {
    forall p, q {:trigger procs[p], procs[q]} :: p in procs && q in procs && p != q ==>
      procs[p].root != procs[q].root && procs[p].tf != procs[q].tf
  }

  /** Every space is some process's. */
  ghost predicate NoStray(procs: map<nat, Proc>, roots: set<nat>) {
    forall r :: r in roots ==> exists p :: p in procs && procs[p].root == r
  }

  /** Every frame in hand is some process's trap frame. */
  ghost predicate NoLost(procs: map<nat, Proc>, owner: map<nat, Owner>) {
    forall f {:trigger owner[f]} :: f in owner && owner[f] == Held ==> exists p :: p in procs && procs[p].tf == f
  }

  predicate KeyProcs(u: int) { true }

  /** Each process has a space and a trap frame of its own, and there are no others. */
  ghost predicate ProcsOk(procs: map<nat, Proc>, owner: map<nat, Owner>, spaces: map<nat, Space>, tramp: nat) {
    forall u {:trigger KeyProcs(u)} :: KeyProcs(u) ==>
      EachOk(procs, owner, spaces, tramp) && Separate(procs) && NoStray(procs, spaces.Keys) && NoLost(procs, owner)
  }

  lemma OpenProcs(procs: map<nat, Proc>, owner: map<nat, Owner>, spaces: map<nat, Space>, tramp: nat)
    requires ProcsOk(procs, owner, spaces, tramp)
    ensures EachOk(procs, owner, spaces, tramp) && Separate(procs) && NoStray(procs, spaces.Keys)
            && NoLost(procs, owner)
  {
    assert KeyProcs(0);
  }

  lemma CloseProcs(procs: map<nat, Proc>, owner: map<nat, Owner>, spaces: map<nat, Space>, tramp: nat)
    requires EachOk(procs, owner, spaces, tramp) && Separate(procs) && NoStray(procs, spaces.Keys)
             && NoLost(procs, owner)
    ensures ProcsOk(procs, owner, spaces, tramp)
  {
  }

  lemma ProcAt(procs: map<nat, Proc>, owner: map<nat, Owner>, spaces: map<nat, Space>, tramp: nat, p: nat)
    requires ProcsOk(procs, owner, spaces, tramp) && p in procs
    ensures ProcOk(procs[p], owner, spaces, tramp)
  {
    assert KeyProcs(0);
  }

  /** The memory of space `r` is as it was. */
  ghost predicate Undisturbed<C>(m0: map<nat, Page<C>>, s0: map<nat, Space>, mem: map<nat, Page<C>>,
                                 spaces: map<nat, Space>, r: nat) {
    && r in s0 && r in spaces && spaces[r] == s0[r]
    && forall w {:trigger s0[r].flat[w]} :: w in s0[r].flat && w < TRAPFRAME ==>
         var e := s0[r].flat[w]; e.Refers? && e.frame in m0 && e.frame in mem && mem[e.frame] == m0[e.frame]
  }

  /** Every process but `p` finds its memory as it was. */
  ghost predicate OthersUndisturbed<C>(procs: map<nat, Proc>, p: nat, m0: map<nat, Page<C>>, s0: map<nat, Space>,
                                       mem: map<nat, Page<C>>, spaces: map<nat, Space>) {
    forall q {:trigger procs[q]} :: q in procs && q != p ==> Undisturbed(m0, s0, mem, spaces, procs[q].root)
  }

  // ---- One process changes, comes or goes ----

  /** The same frames are in hand, that is, trap frames. */
  ghost predicate SameHeld(o0: map<nat, Owner>, o1: map<nat, Owner>) {
    o1.Keys == o0.Keys && forall f {:trigger o0[f]} {:trigger o1[f]} :: f in o0 ==> (o1[f] == Held <==> o0[f] == Held)
  }

  lemma EachChanged(procs: map<nat, Proc>, p: nat, p': Proc, o0: map<nat, Owner>, s0: map<nat, Space>,
                    o1: map<nat, Owner>, s1: map<nat, Space>, tramp: nat,
                    procs': map<nat, Proc>, q: nat)
    requires EachOk(procs, o0, s0, tramp) && Separate(procs) && p in procs && q in procs && q != p && SameHeld(o0, o1)
    requires s1 - {p'.root} == s0 - {procs[p].root}
    ensures ProcOk(procs[q], o1, s1, tramp)
  {
    assert ProcOk(procs[q], o0, s0, tramp) && procs[q].root != procs[p].root;
    assert procs[q].root in s0 - {procs[p].root};
    assert (s1 - {p'.root})[procs[q].root] == s0[procs[q].root];
    assert o0[procs[q].tf] == Held;
  }

  lemma AllChanged(procs: map<nat, Proc>, p: nat, p': Proc, o0: map<nat, Owner>, s0: map<nat, Space>,
                   o1: map<nat, Owner>, s1: map<nat, Space>, tramp: nat,
                   procs': map<nat, Proc>)
    requires EachOk(procs, o0, s0, tramp) && Separate(procs) && p in procs && procs' == procs[p := p']
             && SameHeld(o0, o1)
    requires s1 - {p'.root} == s0 - {procs[p].root} && ProcOk(p', o1, s1, tramp)
    ensures EachOk(procs', o1, s1, tramp)
  {
    forall q | q in procs' ensures ProcOk(procs'[q], o1, s1, tramp) {
      if q != p {
        EachChanged(procs, p, p', o0, s0, o1, s1, tramp, procs', q);
      }
    }
  }

  lemma StrayChanged(procs: map<nat, Proc>, p: nat, p': Proc, s0: map<nat, Space>, s1: map<nat, Space>,
                     procs': map<nat, Proc>)
    requires NoStray(procs, s0.Keys) && p in procs && procs' == procs[p := p'] && s1 - {p'.root} == s0 - {procs[p].root}
    ensures NoStray(procs', s1.Keys)
  {
    forall r | r in s1.Keys ensures exists q :: q in procs' && procs'[q].root == r {
      if r == p'.root {
        assert procs'[p].root == r;
      } else {
        assert r in s1 - {p'.root};
        assert r in s0.Keys;
        var q :| q in procs && procs[q].root == r;
        assert procs'[q].root == r;
      }
    }
  }

  /** Process `p` may have moved from one space to another; all others stay. */
  lemma ProcChanged(procs: map<nat, Proc>, p: nat, p': Proc, o0: map<nat, Owner>, s0: map<nat, Space>,
                    o1: map<nat, Owner>, s1: map<nat, Space>, tramp: nat,
                    procs': map<nat, Proc>)
    requires ProcsOk(procs, o0, s0, tramp) && p in procs && SameHeld(o0, o1) && procs' == procs[p := p']
             && p'.tf == procs[p].tf
    requires ProcOk(p', o1, s1, tramp) && (p'.root == procs[p].root || p'.root !in s0)
    requires s1 - {p'.root} == s0 - {procs[p].root}
    ensures ProcsOk(procs', o1, s1, tramp)
  {
    OpenProcs(procs, o0, s0, tramp);
    AllChanged(procs, p, p', o0, s0, o1, s1, tramp, procs');
    SeparateChanged(procs, p, p', o0, s0, tramp, procs');
    StrayChanged(procs, p, p', s0, s1, procs');
    HeldBy(procs, procs', o0, o1);
    CloseProcs(procs', o1, s1, tramp);
  }

  lemma SeparateChanged(procs: map<nat, Proc>, p: nat, p': Proc, owner: map<nat, Owner>, spaces: map<nat, Space>,
                        tramp: nat, procs': map<nat, Proc>)
    requires EachOk(procs, owner, spaces, tramp) && Separate(procs) && p in procs && procs' == procs[p := p']
             && p'.tf == procs[p].tf
    requires p'.root == procs[p].root || p'.root !in spaces
    ensures Separate(procs')
  {
    forall q | q in procs ensures procs[q].root in spaces {
      assert ProcOk(procs[q], owner, spaces, tramp);
    }
  }

  lemma HeldBy(procs: map<nat, Proc>, procs': map<nat, Proc>, o0: map<nat, Owner>, o1: map<nat, Owner>)
    requires NoLost(procs, o0) && SameHeld(o0, o1)
             && forall q :: q in procs ==> q in procs' && procs'[q].tf == procs[q].tf
    ensures NoLost(procs', o1)
  {
    forall f | f in o1 && o1[f] == Held ensures exists p :: p in procs' && procs'[p].tf == f {
      assert o0[f] == Held;
      var q :| q in procs && procs[q].tf == f;
      assert procs'[q].tf == f;
    }
  }

  /** Operations on one space touch no trap frame. */
  lemma OnlyHeld<C>(m0: map<nat, Page<C>>, o0: map<nat, Owner>, s0: map<nat, Space>, m1: map<nat, Page<C>>,
                    o1: map<nat, Owner>, s1: map<nat, Space>,
                    root: nat, lo: nat, hi: nat)
    requires Only(m0, o0, s0, m1, o1, s1, root, lo, hi, {})
    ensures SameHeld(o0, o1) && s1 - {root} == s0 - {root}
  {
    assert KeyKeeps(0);
    forall f | f in o0 ensures o1[f] == Held <==> o0[f] == Held {
      assert Foreign(o0[f], root) ==> o1[f] == o0[f];
      assert Foreign(o1[f], root) ==> o1[f] == o0[f];
    }
  }

  lemma OnlyProcs<C>(procs: map<nat, Proc>, p: nat, sz: nat, tramp: nat, lo: nat, hi: nat, procs': map<nat, Proc>,
                     m0: map<nat, Page<C>>, o0: map<nat, Owner>, s0: map<nat, Space>, m1: map<nat, Page<C>>,
                     o1: map<nat, Owner>, s1: map<nat, Space>)
    requires ProcsOk(procs, o0, s0, tramp) && p in procs && Only(m0, o0, s0, m1, o1, s1, procs[p].root, lo, hi, {})
    requires SpaceFits(s1[procs[p].root], sz) && HasEnds(s1[procs[p].root].flat, tramp, procs[p].tf)
             && procs' == procs[p := procs[p].(sz := sz)]
    ensures ProcsOk(procs', o1, s1, tramp)
  {
    ProcAt(procs, o0, s0, tramp, p);
    OnlyHeld(m0, o0, s0, m1, o1, s1, procs[p].root, lo, hi);
    assert o0[procs[p].tf] == Held;
    ProcChanged(procs, p, procs[p].(sz := sz), o0, s0, o1, s1, tramp, procs');
  }

  /** A space whose frames keep their contents is undisturbed. */
  lemma StaysAsIs<C>(m0: map<nat, Page<C>>, o0: map<nat, Owner>, s0: map<nat, Space>, m1: map<nat, Page<C>>,
                     s1: map<nat, Space>, r: nat)
    requires AllOk(m0, o0, s0) && r in s0 && s0[r].user && r in s1 && s1[r] == s0[r]
    requires forall f {:trigger o0[f]} :: f in o0 && o0[f].Leaf? && o0[f].space == r ==>
               f in m0 && f in m1 && m1[f] == m0[f]
    ensures Undisturbed(m0, s0, m1, s1, r)
  {
    assert SpaceOk(m0, o0, r, s0[r]);
    forall w | w in s0[r].flat && w < TRAPFRAME
      ensures var e := s0[r].flat[w]; e.Refers? && e.frame in m0 && e.frame in m1 && m1[e.frame] == m0[e.frame] {
      LeafAt(m0, o0, r, s0[r], w);
    }
  }

  lemma OnlyOthers<C>(procs: map<nat, Proc>, p: nat, tramp: nat, lo: nat, hi: nat,
                      m0: map<nat, Page<C>>, o0: map<nat, Owner>, s0: map<nat, Space>, m1: map<nat, Page<C>>,
                      o1: map<nat, Owner>, s1: map<nat, Space>)
    requires ProcsOk(procs, o0, s0, tramp) && p in procs && Only(m0, o0, s0, m1, o1, s1, procs[p].root, lo, hi, {})
             && AllOk(m0, o0, s0)
    ensures OthersUndisturbed(procs, p, m0, s0, m1, s1)
  {
    forall q | q in procs && q != p ensures Undisturbed(m0, s0, m1, s1, procs[q].root) {
      Apart(procs, o0, s0, tramp, p, q);
      OnlyAway(m0, o0, s0, m1, o1, s1, procs[p].root, lo, hi, procs[q].root);
      StaysAsIs(m0, o0, s0, m1, s1, procs[q].root);
    }
  }

  lemma Apart(procs: map<nat, Proc>, owner: map<nat, Owner>, spaces: map<nat, Space>, tramp: nat, p: nat, q: nat)
    requires ProcsOk(procs, owner, spaces, tramp) && p in procs && q in procs && p != q
    ensures procs[p].root != procs[q].root && procs[p].tf != procs[q].tf && procs[q].root in spaces
            && spaces[procs[q].root].user
  {
    assert KeyProcs(0);
    assert ProcOk(procs[q], owner, spaces, tramp);
  }

  lemma OnlyAway<C>(m0: map<nat, Page<C>>, o0: map<nat, Owner>, s0: map<nat, Space>, m1: map<nat, Page<C>>,
                    o1: map<nat, Owner>, s1: map<nat, Space>,
                    root: nat, lo: nat, hi: nat, r: nat)
    requires Only(m0, o0, s0, m1, o1, s1, root, lo, hi, {}) && r in s0 && r != root
    ensures r in s1 && s1[r] == s0[r]
    ensures forall f {:trigger o0[f]} :: f in o0 && o0[f].Leaf? && o0[f].space == r ==>
              f in m0 && f in m1 && m1[f] == m0[f]
  {
    assert KeyKeeps(0);
  }

  /** A process comes, with a new space and a trap frame that nobody had. */
  lemma ProcAdded(procs: map<nat, Proc>, p: nat, p': Proc, o0: map<nat, Owner>, s0: map<nat, Space>,
                  o1: map<nat, Owner>, s1: map<nat, Space>, tramp: nat,
                  procs': map<nat, Proc>)
    requires ProcsOk(procs, o0, s0, tramp) && p !in procs && procs' == procs[p := p'] && p'.root !in s0
             && s1 - {p'.root} == s0
    requires p'.tf in o0 && o0[p'.tf] == Free && SameHeld(o0[p'.tf := Held], o1) && ProcOk(p', o1, s1, tramp)
    ensures ProcsOk(procs', o1, s1, tramp)
  {
    OpenProcs(procs, o0, s0, tramp);
    AddedEach(procs, p, p', o0, s0, o1, s1, tramp, procs');
    AddedSeparate(procs, p, p', o0, s0, tramp, procs');
    AddedStray(procs, p, p', s0, s1, procs');
    AddedLost(procs, p, p', o0, o1, procs');
    CloseProcs(procs', o1, s1, tramp);
  }

  lemma AddedEach(procs: map<nat, Proc>, p: nat, p': Proc, o0: map<nat, Owner>, s0: map<nat, Space>,
                  o1: map<nat, Owner>, s1: map<nat, Space>, tramp: nat,
                  procs': map<nat, Proc>)
    requires EachOk(procs, o0, s0, tramp) && p !in procs && procs' == procs[p := p'] && p'.root !in s0
             && s1 - {p'.root} == s0
    requires p'.tf in o0 && o0[p'.tf] == Free && SameHeld(o0[p'.tf := Held], o1) && ProcOk(p', o1, s1, tramp)
    ensures EachOk(procs', o1, s1, tramp)
  {
    forall q | q in procs' ensures ProcOk(procs'[q], o1, s1, tramp) {
      if q != p {
        assert ProcOk(procs[q], o0, s0, tramp);
        assert (s1 - {p'.root})[procs[q].root] == s0[procs[q].root];
        assert o0[p'.tf := Held][procs[q].tf] == Held;
      }
    }
  }

  lemma AddedSeparate(procs: map<nat, Proc>, p: nat, p': Proc, owner: map<nat, Owner>, spaces: map<nat, Space>,
                      tramp: nat, procs': map<nat, Proc>)
    requires EachOk(procs, owner, spaces, tramp) && Separate(procs) && procs' == procs[p := p'] && p'.root !in spaces
    requires p'.tf in owner && owner[p'.tf] == Free
    ensures Separate(procs')
  {
    forall q | q in procs ensures procs[q].root in spaces && procs[q].tf in owner && owner[procs[q].tf] == Held {
      assert ProcOk(procs[q], owner, spaces, tramp);
    }
  }

  lemma AddedStray(procs: map<nat, Proc>, p: nat, p': Proc, s0: map<nat, Space>, s1: map<nat, Space>,
                   procs': map<nat, Proc>)
    requires NoStray(procs, s0.Keys) && p !in procs && procs' == procs[p := p'] && s1 - {p'.root} == s0
    ensures NoStray(procs', s1.Keys)
  {
    forall r | r in s1.Keys ensures exists q :: q in procs' && procs'[q].root == r {
      if r == p'.root {
        assert procs'[p].root == r;
      } else {
        assert r in s1 - {p'.root};
        var q :| q in procs && procs[q].root == r;
        assert procs'[q].root == r;
      }
    }
  }

  lemma AddedLost(procs: map<nat, Proc>, p: nat, p': Proc, o0: map<nat, Owner>, o1: map<nat, Owner>,
                  procs': map<nat, Proc>)
    requires NoLost(procs, o0) && p !in procs && procs' == procs[p := p'] && p'.tf in o0
             && SameHeld(o0[p'.tf := Held], o1)
    ensures NoLost(procs', o1)
  {
    forall f | f in o1 && o1[f] == Held ensures exists q :: q in procs' && procs'[q].tf == f {
      assert o0[p'.tf := Held][f] == Held;
      if f == p'.tf {
        assert procs'[p].tf == f;
      } else {
        assert o0[f] == Held;
        var q :| q in procs && procs[q].tf == f;
        assert procs'[q].tf == f;
      }
    }
  }

  /** A process goes, with its space and its trap frame. */
  lemma ProcGone(procs: map<nat, Proc>, p: nat, o0: map<nat, Owner>, s0: map<nat, Space>, o1: map<nat, Owner>,
                 s1: map<nat, Space>, tramp: nat)
    requires ProcsOk(procs, o0, s0, tramp) && p in procs && s1 == s0 - {procs[p].root} && procs[p].tf in o0
             && SameHeld(o0[procs[p].tf := Free], o1)
    ensures ProcsOk(procs - {p}, o1, s1, tramp)
  {
    OpenProcs(procs, o0, s0, tramp);
    GoneEach(procs, p, o0, s0, o1, s1, tramp);
    GoneStray(procs, p, s0, s1);
    GoneLost(procs, p, o0, o1);
    CloseProcs(procs - {p}, o1, s1, tramp);
  }

  lemma GoneEach(procs: map<nat, Proc>, p: nat, o0: map<nat, Owner>, s0: map<nat, Space>, o1: map<nat, Owner>,
                 s1: map<nat, Space>, tramp: nat)
    requires EachOk(procs, o0, s0, tramp) && Separate(procs) && p in procs && s1 == s0 - {procs[p].root}
    requires procs[p].tf in o0 && SameHeld(o0[procs[p].tf := Free], o1)
    ensures EachOk(procs - {p}, o1, s1, tramp)
  {
    var procs' := procs - {p};
    forall q | q in procs' ensures ProcOk(procs'[q], o1, s1, tramp) {
      assert ProcOk(procs[q], o0, s0, tramp) && procs[q].root != procs[p].root && procs[q].tf != procs[p].tf;
      assert o0[procs[p].tf := Free][procs[q].tf] == Held;
    }
  }

  lemma GoneStray(procs: map<nat, Proc>, p: nat, s0: map<nat, Space>, s1: map<nat, Space>)
    requires NoStray(procs, s0.Keys) && p in procs && s1 == s0 - {procs[p].root}
    ensures NoStray(procs - {p}, s1.Keys)
  {
    var procs' := procs - {p};
    forall r | r in s1.Keys ensures exists q :: q in procs' && procs'[q].root == r {
      assert r in s0.Keys;
      var q :| q in procs && procs[q].root == r;
      assert procs'[q].root == r;
    }
  }

  lemma GoneLost(procs: map<nat, Proc>, p: nat, o0: map<nat, Owner>, o1: map<nat, Owner>)
    requires NoLost(procs, o0) && p in procs && procs[p].tf in o0 && SameHeld(o0[procs[p].tf := Free], o1)
    ensures NoLost(procs - {p}, o1)
  {
    var procs' := procs - {p};
    forall f | f in o1 && o1[f] == Held ensures exists q :: q in procs' && procs'[q].tf == f {
      assert o0[procs[p].tf := Free][f] == Held;
      assert o0[f] == Held;
      var q :| q in procs && procs[q].tf == f;
      assert procs'[q].tf == f;
    }
  }

  // ---- What the operations leave alone ----

  lemma OpenedFrames<C>(m0: map<nat, Page<C>>, o0: map<nat, Owner>, s0: map<nat, Space>, m1: map<nat, Page<C>>,
                        o1: map<nat, Owner>, s1: map<nat, Space>, root: nat)
    requires Opened(m0, o0, s0, m1, o1, s1, root)
    ensures SameHeld(o0, o1)
            && forall f {:trigger o0[f]} :: f in o0 && o0[f].Leaf? ==> f in m0 && f in m1 && m1[f] == m0[f]
  {
    assert KeyOpen(0);
    forall f | f in o0
      ensures (o1[f] == Held <==> o0[f] == Held) && (o0[f].Leaf? ==> f in m0 && f in m1 && m1[f] == m0[f]) {
      assert !Of(o0[f], root);
      assert Foreign(o0[f], root) ==> o1[f] == o0[f] && m1[f] == m0[f];
      assert Foreign(o1[f], root) ==> o1[f] == o0[f];
    }
  }

  lemma GoneFrames<C>(m0: map<nat, Page<C>>, o0: map<nat, Owner>, s0: map<nat, Space>, m1: map<nat, Page<C>>,
                      o1: map<nat, Owner>, s1: map<nat, Space>, root: nat)
    requires Gone(m0, o0, s0, m1, o1, s1, root)
    ensures SameHeld(o0, o1)
            && forall f {:trigger o0[f]} :: f in o0 && o0[f].Leaf? && o0[f].space != root ==>
              f in m0 && f in m1 && m1[f] == m0[f]
  {
    forall f | f in o0
      ensures (o1[f] == Held <==> o0[f] == Held)
        && (o0[f].Leaf? && o0[f].space != root ==> f in m0 && f in m1 && m1[f] == m0[f]) {
      assert Foreign(o0[f], root) ==> m1[f] == m0[f];
    }
  }

  /** Processes whose frames keep their contents, in spaces that stay, are undisturbed. */
  lemma OthersStay<C>(procs: map<nat, Proc>, p: nat, tramp: nat, gone: nat,
                      m0: map<nat, Page<C>>, o0: map<nat, Owner>, s0: map<nat, Space>, m1: map<nat, Page<C>>,
                      s1: map<nat, Space>)
    requires ProcsOk(procs, o0, s0, tramp) && AllOk(m0, o0, s0) && (p in procs ==> gone == procs[p].root)
    requires forall r :: r in s0 && (p !in procs || r != gone) ==> r in s1 && s1[r] == s0[r]
    requires forall f {:trigger o0[f]} :: f in o0 && o0[f].Leaf? && (p !in procs || o0[f].space != gone) ==>
               f in m0 && f in m1 && m1[f] == m0[f]
    ensures OthersUndisturbed(procs, p, m0, s0, m1, s1)
  {
    forall q | q in procs && q != p ensures Undisturbed(m0, s0, m1, s1, procs[q].root) {
      ProcAt(procs, o0, s0, tramp, q);
      if p in procs {
        Apart(procs, o0, s0, tramp, p, q);
      }
      StaysAsIs(m0, o0, s0, m1, s1, procs[q].root);
    }
  }

  /** A trap frame was taken, then a space built: a process may join. */
  lemma Joins<C>(procs: map<nat, Proc>, c: nat, p': Proc, tramp: nat, m0: map<nat, Page<C>>, o0: map<nat, Owner>,
                 s0: map<nat, Space>,
                 ma: map<nat, Page<C>>, oa: map<nat, Owner>, m1: map<nat, Page<C>>, o1: map<nat, Owner>,
                 s1: map<nat, Space>, procs': map<nat, Proc>)
    requires ProcsOk(procs, o0, s0, tramp) && AllOk(m0, o0, s0) && c !in procs && procs' == procs[c := p']
    requires p'.tf in o0 && o0[p'.tf] == Free && oa == o0[p'.tf := Held]
    requires forall f {:trigger o0[f]} :: f in o0 && o0[f].Leaf? ==> f in m0 && f in ma && ma[f] == m0[f]
    requires Opened(ma, oa, s0, m1, o1, s1, p'.root) && SpaceFits(s1[p'.root], p'.sz)
             && HasEnds(s1[p'.root].flat, tramp, p'.tf)
    ensures ProcsOk(procs', o1, s1, tramp) && OthersUndisturbed(procs, c, m0, s0, m1, s1)
  {
    OpenedFrames(ma, oa, s0, m1, o1, s1, p'.root);
    assert oa[p'.tf] == Held;
    ProcAdded(procs, c, p', o0, s0, o1, s1, tramp, procs');
    forall r | r in s0 ensures r in s1 && s1[r] == s0[r] {
      assert (s1 - {p'.root})[r] == s0[r];
    }
    forall f | f in o0 && o0[f].Leaf? ensures f in m0 && f in m1 && m1[f] == m0[f] {
      assert oa[f] == o0[f];
    }
    OthersStay(procs, c, tramp, 0, m0, o0, s0, m1, s1);
  }

  /** A trap frame was taken, no space could be built, and it went back: nothing has happened. */
  lemma Refused<C>(procs: map<nat, Proc>, c: nat, tf: nat, tramp: nat, m0: map<nat, Page<C>>, o0: map<nat, Owner>,
                   s0: map<nat, Space>,
                   ma: map<nat, Page<C>>, oa: map<nat, Owner>, m1: map<nat, Page<C>>, o1: map<nat, Owner>,
                   s1: map<nat, Space>, m2: map<nat, Page<C>>, o2: map<nat, Owner>)
    requires ProcsOk(procs, o0, s0, tramp) && AllOk(m0, o0, s0) && c !in procs
    requires tf in o0 && o0[tf] == Free && oa == o0[tf := Held] && Restored(ma, oa, s0, m1, o1, s1)
             && o2 == o1[tf := Free]
    requires forall f {:trigger o0[f]} :: f in o0 && o0[f].Leaf? ==> f in m0 && f in ma && ma[f] == m0[f]
    requires forall f :: f in m1 && f != tf ==> f in m2 && m2[f] == m1[f]
    ensures o2 == o0 && s1 == s0 && OthersUndisturbed(procs, c, m0, s0, m2, s1)
  {
    forall f | f in o0 && o0[f].Leaf? ensures f in m0 && f in m2 && m2[f] == m0[f] {
      assert oa[f] == o0[f] && f != tf;
    }
    OthersStay(procs, c, tramp, 0, m0, o0, s0, m2, s1);
  }

  /** A trap frame went back, then the space: the process is gone. */
  lemma Departs<C>(procs: map<nat, Proc>, p: nat, tramp: nat, m0: map<nat, Page<C>>, o0: map<nat, Owner>,
                   s0: map<nat, Space>,
                   ma: map<nat, Page<C>>, oa: map<nat, Owner>, m1: map<nat, Page<C>>, o1: map<nat, Owner>,
                   s1: map<nat, Space>)
    requires ProcsOk(procs, o0, s0, tramp) && AllOk(m0, o0, s0) && p in procs && procs[p].tf in o0
             && o0[procs[p].tf] == Held
    requires oa == o0[procs[p].tf := Free] && (forall f :: f in m0 && f != procs[p].tf ==> f in ma && ma[f] == m0[f])
    requires Gone(ma, oa, s0, m1, o1, s1, procs[p].root)
    ensures ProcsOk(procs - {p}, o1, s1, tramp) && OthersUndisturbed(procs, p, m0, s0, m1, s1)
  {
    GoneFrames(ma, oa, s0, m1, o1, s1, procs[p].root);
    ProcGone(procs, p, o0, s0, o1, s1, tramp);
    forall f | f in o0 && o0[f].Leaf? && o0[f].space != procs[p].root ensures f in m0 && f in m1 && m1[f] == m0[f] {
      assert oa[f] == o0[f] && f != procs[p].tf;
    }
    OthersStay(procs, p, tramp, procs[p].root, m0, o0, s0, m1, s1);
  }

  /** A process moved to a new space. */
  lemma Moves(procs: map<nat, Proc>, p: nat, p': Proc, tramp: nat, m0: map<nat, Page<Bytes>>, o0: map<nat, Owner>,
              s0: map<nat, Space>,
              m1: map<nat, Page<Bytes>>, o1: map<nat, Owner>, s1: map<nat, Space>, procs': map<nat, Proc>)
    requires ProcsOk(procs, o0, s0, tramp) && AllOk(m0, o0, s0) && p in procs && procs' == procs[p := p']
             && p'.tf == procs[p].tf
    requires p'.root !in s0 && p'.root in s1 && s1 - {p'.root} == s0 - {procs[p].root}
             && Spared(m0, o0, m1, o1, procs[p].root) && SameHeld(o0, o1)
    requires SpaceFits(s1[p'.root], p'.sz) && HasEnds(s1[p'.root].flat, tramp, p'.tf)
    ensures ProcsOk(procs', o1, s1, tramp) && OthersUndisturbed(procs, p, m0, s0, m1, s1)
  {
    ProcAt(procs, o0, s0, tramp, p);
    assert o0[p'.tf] == Held;
    ProcChanged(procs, p, p', o0, s0, o1, s1, tramp, procs');
    forall r | r in s0 && r != procs[p].root ensures r in s1 && s1[r] == s0[r] {
      assert r in s0 - {procs[p].root};
      assert (s1 - {p'.root})[r] == s0[r];
    }
    assert KeySpared(0);
    OthersStay(procs, p, tramp, procs[p].root, m0, o0, s0, m1, s1);
  }

  // ---- The kernel ----

  class Kernel {
    const m: Machine<Bytes>
    /** The frame of the trampoline, which is not in the pool. */
    const tramp: nat
    var procs: map<nat, Proc>

    ghost predicate Valid() reads this, m {
      m.Valid() && tramp !in m.owner && |m.owner| <= MAX_FRAMES && ProcsOk(procs, m.owner, m.spaces, tramp)
      && m.zero == ZeroPage()
    }

    constructor (junk: Bytes, first: nat, last: nat, tramp: nat)
      requires first <= last <= first + MAX_FRAMES && !(first <= tramp < last)
      ensures Valid() && procs == map[] && fresh(m) && forall f: nat :: f in m.owner <==> first <= f < last
    {
      m := new Machine(ZeroPage(), junk, first, last);
      this.tramp, procs := tramp, map[];
      new;
      ghost var all := Range(first, last);
      assert m.owner.Keys == all;
      assert |m.owner.Keys| == |m.owner|;
      CloseProcs(procs, m.owner, m.spaces, tramp);
    }

    /** When the last process is gone every frame is free again: nothing leaks, whatever happened in between. */
    lemma NoLeak()
      requires Valid() && procs == map[]
      ensures forall f :: f in m.owner ==> m.owner[f] == Free
    {
      OpenProcs(procs, m.owner, m.spaces, tramp);
      assert KeyPool(0);
    }

    /** `growproc` for process `p`. */
    method Sbrk(p: nat, n: int) returns (ok: bool)
      requires Valid() && p in procs && -0x8000_0000 <= n < 0x8000_0000
      modifies this, m
      ensures Valid() && m.owner.Keys == old(m.owner.Keys) && procs.Keys == old(procs.Keys)
      ensures OthersUndisturbed(old(procs), p, old(m.mem), old(m.spaces), m.mem, m.spaces)
      ensures procs == old(procs)[p := old(procs)[p].(sz := procs[p].sz)]
              && (ok && n >= 0 ==> procs[p].sz == old(procs)[p].sz + n)
      ensures n < 0 ==> ok && procs[p].sz == var sz := old(procs)[p].sz; if sz + n >= 0 then sz + n else sz
      ensures procs[p].root in old(m.spaces) && procs[p].root in m.spaces
      ensures !ok ==> procs == old(procs) && m.spaces[procs[p].root].flat == old(m.spaces)[procs[p].root].flat
      ensures !ok ==>
                old(procs)[p].sz + n > TRAPFRAME * PGSIZE
                || |old(m.free)| < 3 * (Pages(old(procs)[p].sz + n) - Pages(old(procs)[p].sz))
      ensures ok && n > 0 ==>
                var lo, hi, flat := Pages(old(procs)[p].sz), Pages(procs[p].sz), m.spaces[procs[p].root].flat;
                && Grown(old(m.spaces)[procs[p].root].flat, flat, lo, hi, Flags(true, true, false, true))
                && Filled(m.mem, flat, lo, hi, Data(ZeroPage()))
    {
      ghost var m0, o0, s0 := m.mem, m.owner, m.spaces;
      ProcAt(procs, o0, s0, tramp, p);
      var sz: nat;
      ok, sz := Growproc(m, procs[p].root, procs[p].sz, n);
      ghost var lo, hi := Pages(sz), Pages(procs[p].sz);
      OnlyOthers(procs, p, tramp, lo, hi, m0, o0, s0, m.mem, m.owner, m.spaces);
      OnlyProcs(procs, p, sz, tramp, lo, hi, procs[p := procs[p].(sz := sz)], m0, o0, s0, m.mem, m.owner, m.spaces);
      SameSize(o0, o0, m.owner);
      procs := procs[p := procs[p].(sz := sz)];
    }

    /** The lazy branch of `sbrk`. */
    method SbrkLazily(p: nat, n: nat) returns (ok: bool)
      requires Valid() && p in procs && n < 0x8000_0000
      modifies this
      ensures Valid() && (ok <==> old(procs)[p].sz + n <= TRAPFRAME * PGSIZE)
      ensures procs == if ok then old(procs)[p := old(procs)[p].(sz := old(procs)[p].sz + n)] else old(procs)
    {
      ProcAt(procs, m.owner, m.spaces, tramp, p);
      var sz: nat;
      ok, sz := SbrkLazy(m, procs[p].root, procs[p].sz, n);
      ghost var procs' := procs[p := procs[p].(sz := sz)];
      ProcChanged(procs, p, procs[p].(sz := sz), m.owner, m.spaces, m.owner, m.spaces, tramp, procs');
      assert !ok ==> procs' == procs;
      procs := procs[p := procs[p].(sz := sz)];
    }

    /** A page fault of process `p` at address `va`. */
    method Fault(p: nat, va: nat) returns (ok: bool)
      requires Valid() && p in procs
      modifies m
      ensures Valid() && m.owner.Keys == old(m.owner.Keys)
      ensures OthersUndisturbed(procs, p, old(m.mem), old(m.spaces), m.mem, m.spaces)
      ensures procs[p].root in old(m.spaces) && procs[p].root in m.spaces
      ensures ok ==>
                var v, flat := va / PGSIZE, m.spaces[procs[p].root].flat;
                && va < procs[p].sz && v !in old(m.spaces)[procs[p].root].flat
                && Grown(old(m.spaces)[procs[p].root].flat, flat, v, v + 1, Flags(true, true, false, true))
                && Filled(m.mem, flat, v, v + 1, Data(ZeroPage()))
      ensures !ok ==>
                && m.spaces[procs[p].root].flat == old(m.spaces)[procs[p].root].flat
                && (va >= procs[p].sz || va / PGSIZE in m.spaces[procs[p].root].flat || |old(m.free)| < 3)
    {
      ghost var m0, o0, s0 := m.mem, m.owner, m.spaces;
      ProcAt(procs, o0, s0, tramp, p);
      var g := Vmfault(m, procs[p].root, procs[p].sz, va);
      assert procs[p := procs[p].(sz := procs[p].sz)] == procs;
      OnlyOthers(procs, p, tramp, 0, 0, m0, o0, s0, m.mem, m.owner, m.spaces);
      OnlyProcs(procs, p, procs[p].sz, tramp, 0, 0, procs, m0, o0, s0, m.mem, m.owner, m.spaces);
      SameSize(o0, o0, m.owner);
      ok := g.Some?;
    }

    /** A system call copies `src` to address `dst` of process `p`. */
    method CopyTo(p: nat, dst: nat, src: seq<byte>) returns (ok: bool, ghost done: seq<byte>)
      requires Valid() && p in procs
      modifies m
      ensures Valid() && m.owner.Keys == old(m.owner.Keys) && done <= src && (ok <==> done == src)
      ensures OthersUndisturbed(procs, p, old(m.mem), old(m.spaces), m.mem, m.spaces)
      ensures var r := procs[p].root;
              r in old(m.spaces) && r in m.spaces
              && Wrote(old(m.mem), old(m.spaces)[r].flat, m.mem, m.spaces[r].flat, procs[p].sz, dst, done)
              && Stored(old(m.spaces)[r].flat, procs[p].sz, dst, |done|)
              && (src != [] && |old(m.free)| >= 3 * Spanned(dst, dst + |src| - 1) ==>
                    (ok <==> Stored(old(m.spaces)[r].flat, procs[p].sz, dst, |src|)))
    {
      ghost var m0, o0, s0, q := m.mem, m.owner, m.spaces, procs[p];
      ProcAt(procs, o0, s0, tramp, p);
      ok, done := Copyout(m, procs[p].root, procs[p].sz, dst, src, tramp, procs[p].tf);
      Unseal(m, m0, o0, s0, q.root, q.sz, tramp, q.tf, dst, done);
      assert procs[p := q.(sz := q.sz)] == procs;
      OnlyOthers(procs, p, tramp, 0, TRAPFRAME, m0, o0, s0, m.mem, m.owner, m.spaces);
      OnlyProcs(procs, p, q.sz, tramp, 0, TRAPFRAME, procs, m0, o0, s0, m.mem, m.owner, m.spaces);
      SameSize(o0, o0, m.owner);
    }

    /** A trap frame for a process to be. */
    method Prepare(ghost p: nat) returns (tf: Option<nat>)
      requires Valid() && p !in procs
      modifies m
      ensures m.Valid() && m.owner.Keys == old(m.owner.Keys) && m.spaces == old(m.spaces)
      ensures if tf.None? then unchanged(m) && m.free == [] else |m.free| == |old(m.free)| - 1
      ensures tf.Some? ==>
                tf.value in old(m.owner) && old(m.owner)[tf.value] == Free && m.owner == old(m.owner)[tf.value := Held]
      ensures tf.Some? ==> forall f {:trigger old(m.owner)[f]} :: f in old(m.owner) && old(m.owner)[f].Leaf? ==>
                f in old(m.mem) && f in m.mem && m.mem[f] == old(m.mem)[f]
    {
      tf := m.Kalloc();
    }

    /** No space for the process to be: its trap frame goes back. */
    method Refuse(ghost c: nat, tf: nat, ghost m0: map<nat, Page<Bytes>>, ghost o0: map<nat, Owner>,
                  ghost s0: map<nat, Space>,
                  ghost ma: map<nat, Page<Bytes>>, ghost oa: map<nat, Owner>)
      requires m.Valid() && tramp !in m.owner && |m.owner| <= MAX_FRAMES && ProcsOk(procs, o0, s0, tramp)
               && AllOk(m0, o0, s0) && c !in procs && m.zero == ZeroPage()
      requires tf in o0 && o0[tf] == Free && oa == o0[tf := Held] && Restored(ma, oa, s0, m.mem, m.owner, m.spaces)
      requires forall f {:trigger o0[f]} :: f in o0 && o0[f].Leaf? ==> f in m0 && f in ma && ma[f] == m0[f]
      modifies m
      ensures Valid() && m.owner == o0 && OthersUndisturbed(procs, c, m0, s0, m.mem, m.spaces)
    {
      ghost var m1, o1 := m.mem, m.owner;
      m.Kfree(tf);
      Refused(procs, c, tf, tramp, m0, o0, s0, ma, oa, m1, o1, m.spaces, m.mem, m.owner);
      SameSize(o1, o1, m.owner);
    }

    /** Process `p` forks; the child `c` has the same memory in frames of its own. */
    method Fork(p: nat, c: nat) returns (ok: bool)
      requires Valid() && p in procs && c !in procs
      modifies this, m
      ensures Valid() && m.owner.Keys == old(m.owner.Keys)
              && OthersUndisturbed(old(procs), c, old(m.mem), old(m.spaces), m.mem, m.spaces)
      ensures !ok ==> procs == old(procs) && |old(m.free)| < 6 + 3 * Pages(procs[p].sz)
      ensures ok ==>
                c in procs && procs == old(procs)[c := procs[c]] && procs[c].sz == procs[p].sz
                && procs[p].root in old(m.spaces) && procs[c].root in m.spaces
      ensures ok ==>
                SamePages(m.mem, old(m.spaces)[procs[p].root].flat, m.spaces[procs[c].root].flat, Pages(procs[p].sz))
    {
      ghost var m0, o0, s0 := m.mem, m.owner, m.spaces;
      ProcAt(procs, o0, s0, tramp, p);
      OthersStay(procs, c, tramp, 0, m0, o0, s0, m0, s0);
      var tf := Prepare(c);
      if tf.None? {
        return false;
      }
      ghost var ma, oa := m.mem, m.owner;
      var sz := procs[p].sz;
      var root := ForkSpace(m, procs[p].root, sz, tramp, tf.value);
      SameSize(o0, o0, m.owner);
      if root.None? {
        Refuse(c, tf.value, m0, o0, s0, ma, oa);
        return false;
      }
      var p' := Proc(root.value, sz, tf.value);
      Joins(procs, c, p', tramp, m0, o0, s0, ma, oa, m.mem, m.owner, m.spaces, procs[c := p']);
      procs := procs[c := p'];
      ok := true;
    }

    /** The first process, or any that starts with an empty space. */
    method Start(c: nat) returns (ok: bool)
      requires Valid() && c !in procs
      modifies this, m
      ensures Valid() && m.owner.Keys == old(m.owner.Keys)
              && OthersUndisturbed(old(procs), c, old(m.mem), old(m.spaces), m.mem, m.spaces)
      ensures !ok ==> procs == old(procs) && |old(m.free)| < 6
      ensures ok ==> c in procs && procs == old(procs)[c := procs[c]] && procs[c].sz == 0
    {
      ghost var m0, o0, s0 := m.mem, m.owner, m.spaces;
      OthersStay(procs, c, tramp, 0, m0, o0, s0, m0, s0);
      var tf := Prepare(c);
      if tf.None? {
        return false;
      }
      ghost var ma, oa := m.mem, m.owner;
      var root := ProcPagetable(m, tramp, tf.value);
      SameSize(o0, o0, m.owner);
      if root.None? {
        Refuse(c, tf.value, m0, o0, s0, ma, oa);
        return false;
      }
      var p' := Proc(root.value, 0, tf.value);
      Joins(procs, c, p', tramp, m0, o0, s0, ma, oa, m.mem, m.owner, m.spaces, procs[c := p']);
      procs := procs[c := p'];
      ok := true;
    }

    /** `freeproc`: the trap frame and the space of process `p` go back. */
    method Exit(p: nat)
      requires Valid() && p in procs
      modifies this, m
      ensures Valid() && m.owner.Keys == old(m.owner.Keys) && procs == old(procs) - {p}
      ensures OthersUndisturbed(old(procs), p, old(m.mem), old(m.spaces), m.mem, m.spaces)
    {
      ghost var m0, o0, s0 := m.mem, m.owner, m.spaces;
      ProcAt(procs, o0, s0, tramp, p);
      m.Kfree(procs[p].tf);
      ghost var ma, oa := m.mem, m.owner;
      ProcFreepagetable(m, procs[p].root, procs[p].sz);
      Departs(procs, p, tramp, m0, o0, s0, ma, oa, m.mem, m.owner, m.spaces);
      SameSize(o0, o0, m.owner);
      procs := procs - {p};
    }

    /** `exec` for process `p`: the program finds what the headers and the arguments say, or nothing has happened. */
    method ExecImage(p: nat, segs: seq<Segment>, args: seq<seq<byte>>)
      returns (ok: bool, sp: nat, ghost base: nat, ghost page: Bytes)
      requires Valid() && p in procs && forall i :: 0 <= i < |segs| ==> segs[i].vaddr < WORD && segs[i].memsz < WORD
      modifies this, m
      ensures Valid() && m.owner.Keys == old(m.owner.Keys)
              && OthersUndisturbed(old(procs), p, old(m.mem), old(m.spaces), m.mem, m.spaces)
      ensures !ok ==>
                procs == old(procs) && procs[p].root in old(m.spaces)
                && Undisturbed(old(m.mem), old(m.spaces), m.mem, m.spaces, procs[p].root)
      ensures !ok ==>
                !ArgsFit(args) || !Loadable(segs)
                || |old(m.free)| < 5 + 3 * (Pages(SizeAfter(segs, |segs|)) + USERSTACK + 1)
      ensures ok ==>
                p in procs && procs == old(procs)[p := procs[p]] && procs[p].root in m.spaces
                && procs[p].sz == (base + USERSTACK + 1) * PGSIZE
      ensures ok ==> Complete(m.mem, m.spaces[procs[p].root].flat, segs, base, page, tramp, procs[p].tf)
      ensures ok ==> Stacked(args, (base + USERSTACK) * PGSIZE, sp, page)
    {
      ghost var m0, o0, s0 := m.mem, m.owner, m.spaces;
      ProcAt(procs, o0, s0, tramp, p);
      var root, sz;
      root, sz, sp, base, page := ExecSpace(m, procs[p].root, procs[p].sz, segs, args, tramp, procs[p].tf);
      SameSize(o0, o0, m.owner);
      if root.None? {
        StaysAsIs(m0, o0, s0, m.mem, m.spaces, procs[p].root);
        OthersStay(procs, p, tramp, procs[p].root, m0, o0, s0, m.mem, m.spaces);
        return false, sp, base, page;
      }
      var p' := Proc(root.value, sz, procs[p].tf);
      SparedHeld(m0, o0, m.mem, m.owner, procs[p].root);
      Moves(procs, p, p', tramp, m0, o0, s0, m.mem, m.owner, m.spaces, procs[p := p']);
      procs := procs[p := p'];
      ok := true;
    }

    /**
     The memory of process `p` as its program finds it after `exec`: every address, and the arguments at the
     stack pointer.
     */
    lemma AfterExec(p: nat, segs: seq<Segment>, args: seq<seq<byte>>, sp: nat, base: nat, page: Bytes, a: nat)
      requires Valid() && p in procs && procs[p].root in m.spaces && procs[p].sz == (base + USERSTACK + 1) * PGSIZE
      requires Complete(m.mem, m.spaces[procs[p].root].flat, segs, base, page, tramp, procs[p].tf)
      requires Stacked(args, (base + USERSTACK) * PGSIZE, sp, page)
      ensures View(m.mem, m.spaces[procs[p].root].flat, procs[p].sz, a) == ImageAt(segs, base, page, a)
      ensures MainFinds(page, (base + USERSTACK) * PGSIZE, sp - (base + USERSTACK) * PGSIZE, args)
    {
      ProcAt(procs, m.owner, m.spaces, tramp, p);
      var root := procs[p].root;
      ProgramFinds(m.mem, m.owner, root, m.spaces[root], segs, base, page, procs[p].sz, tramp, procs[p].tf, a);
      StackBelow(m.spaces[root], base, procs[p].sz);
      StackedFinds(args, (base + USERSTACK) * PGSIZE, sp, page);
    }

    /**
     The program finds every byte of segment `i`'s part of the file, unless a later segment covers it, and
     zeros in the rest of the segment's memory.
     */
    lemma SegmentAfterExec(p: nat, segs: seq<Segment>, base: nat, page: Bytes, i: nat, k: nat)
      requires Valid() && p in procs && procs[p].root in m.spaces && procs[p].sz == (base + USERSTACK + 1) * PGSIZE
      requires Complete(m.mem, m.spaces[procs[p].root].flat, segs, base, page, tramp, procs[p].tf)
      requires i < |segs| && k < segs[i].memsz
      ensures k < segs[i].filesz < 0x1_0000_0000
              && (forall j :: i < j < |segs| ==> !Covers(segs[j], segs[i].vaddr + k)) ==>
                k < |segs[i].file| && View(m.mem, m.spaces[procs[p].root].flat, procs[p].sz, segs[i].vaddr + k) ==
                Some(segs[i].file[k])
      ensures (forall j :: 0 <= j < |segs| ==> !Covers(segs[j], segs[i].vaddr + k)) ==>
                View(m.mem, m.spaces[procs[p].root].flat, procs[p].sz, segs[i].vaddr + k) == Some(0)
    {
      ProcAt(procs, m.owner, m.spaces, tramp, p);
      var root, sz, tf := procs[p].root, procs[p].sz, procs[p].tf;
      if k < segs[i].filesz < 0x1_0000_0000 && forall j :: i < j < |segs| ==> !Covers(segs[j], segs[i].vaddr + k) {
        SegmentFound(m.mem, m.owner, root, m.spaces[root], segs, base, page, sz, tramp, tf, i, k);
      } else if forall j :: 0 <= j < |segs| ==> !Covers(segs[j], segs[i].vaddr + k) {
        ZeroFound(m.mem, m.owner, root, m.spaces[root], segs, base, page, sz, tramp, tf, i, k);
      }
    }
  }

  lemma SparedHeld(m0: map<nat, Page<Bytes>>, o0: map<nat, Owner>, mem: map<nat, Page<Bytes>>, owner: map<nat, Owner>,
                   gone: nat)
    requires Spared(m0, o0, mem, owner, gone)
    ensures SameHeld(o0, owner)
  {
    assert KeySpared(0);
    forall f | f in o0 ensures owner[f] == Held <==> o0[f] == Held {
    }
  }
}
