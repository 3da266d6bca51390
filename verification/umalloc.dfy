/**
 The user-space allocator of Kernighan and Ritchie (The C Programming Language, 2nd edition,
 section 8.7).  Addresses count units of one 16-byte header; address 0 is the null pointer and the
 static header `base` lies below the heap.  `free` and `malloc` work in place on a circular,
 address-ordered free list of `ptr` links.
 */
module Umalloc {
  import opened Common
  import A = AddressSpaces
  import V = Vm

  /** The node after position `i` on the circular free list. */
  function Next(fl: seq<nat>, i: nat): (r: nat)
    requires i < |fl|
  {
    if i + 1 < |fl| then fl[i + 1] else fl[0]
  }

  /** `ptr` links the nodes of `fl` into one cycle. */
  ghost predicate Ring(ptr: map<nat, nat>, fl: seq<nat>) {
    && (forall i :: 0 <= i < |fl| ==> fl[i] in ptr)
    && (forall i {:trigger ptr[fl[i]]} :: 0 <= i < |fl| ==> ptr[fl[i]] == Next(fl, i))
  }

  /** The nodes are in address order and disjoint; the first is `base`, the only empty one. */
  ghost predicate Sorted(base: nat, size: map<nat, nat>, fl: seq<nat>) {
    && |fl| > 0 && fl[0] == base > 0
    && (forall i :: 0 <= i < |fl| ==> fl[i] in size && (size[fl[i]] == 0 <==> i == 0))
    && (forall i, j :: 0 <= i < j < |fl| ==> fl[i] + size[fl[i]] <= fl[j] && fl[i] < fl[j])
  }

  /** No two nodes touch, so none could be merged. */
  ghost predicate Apart(size: map<nat, nat>, fl: seq<nat>) {
    && (forall i :: 0 <= i < |fl| ==> fl[i] in size)
    && (forall i, j :: 0 <= i < |fl| - 1 && j == i + 1 ==> fl[i] + size[fl[i]] < fl[j])
  }

  predicate Unit(a: nat, s: nat, u: nat) { a <= u < a + s }

  /** All units of a block are the block's own. */
  ghost predicate Owns(owner: map<nat, nat>, a: nat, s: nat) {
    forall u {:trigger Unit(a, s, u)} :: Unit(a, s, u) ==> u in owner && owner[u] == a
  }

  predicate OnList(fl: seq<nat>, x: nat) {
    exists i :: 0 < i < |fl| && fl[i] == x
  }

  /** Free and allocated blocks own all their units. */
  ghost predicate Owned(base: nat, size: map<nat, nat>, fl: seq<nat>, alloc: map<nat, nat>, owner: map<nat, nat>) {
    && (forall x {:trigger OnList(fl, x)} :: OnList(fl, x) ==> x in size && Owns(owner, x, size[x]))
    && (forall a {:trigger alloc[a]} :: a in alloc ==>
          a > base && a in size && size[a] == alloc[a] > 0 && !OnList(fl, a) && Owns(owner, a, alloc[a]))
  }

  /** Every owned unit lies in the block its owner names. */
  ghost predicate Covered(size: map<nat, nat>, fl: seq<nat>, alloc: map<nat, nat>, owner: map<nat, nat>) {
    forall u {:trigger owner[u]} :: u in owner ==>
      && owner[u] in size && Unit(owner[u], size[owner[u]], u)
      && (owner[u] in alloc || OnList(fl, owner[u]))
  }

  /** Every unit obtained from the system belongs to exactly one block: `owner` names its start. */
  ghost predicate Tiled(base: nat, size: map<nat, nat>, fl: seq<nat>, alloc: map<nat, nat>, owner: map<nat, nat>) {
    Owned(base, size, fl, alloc, owner) && Covered(size, fl, alloc, owner)
  }

  // The three parts of the invariant are unfolded only where a proof mentions the matching key.

  predicate KeyRing(u: int) { true }
  predicate KeyApart(u: int) { true }
  predicate KeyTiled(u: int) { true }

  ghost predicate Ascending(fl: seq<nat>) {
    forall i, j :: 0 <= i < j < |fl| ==> fl[i] < fl[j]
  }

  ghost predicate RingOk(ptr: map<nat, nat>, fl: seq<nat>) {
    && (forall i :: 0 <= i < |fl| ==> fl[i] in ptr)
    && forall u {:trigger KeyRing(u)} :: KeyRing(u) ==> Ascending(fl) && Ring(ptr, fl)
  }

  ghost predicate ApartOk(size: map<nat, nat>, fl: seq<nat>) {
    && (forall i :: 0 <= i < |fl| ==> fl[i] in size)
    && forall u {:trigger KeyApart(u)} :: KeyApart(u) ==> Ascending(fl) && Apart(size, fl)
  }

  ghost predicate TiledOk(base: nat, size: map<nat, nat>, fl: seq<nat>, alloc: map<nat, nat>, owner: map<nat, nat>) {
    && |fl| > 0
    && (forall i :: 0 <= i < |fl| ==> fl[i] in size)
    && (forall a :: a in alloc ==> a in size && size[a] == alloc[a])
    && forall u {:trigger KeyTiled(u)} :: KeyTiled(u) ==> Sorted(base, size, fl) && Tiled(base, size, fl, alloc, owner)
  }

  /**
   The heap: one cycle of links through the free blocks in address order, no two of which touch,
   and every unit obtained from the system in exactly one free or allocated block.
   */
  ghost predicate HeapOk(base: nat, ptr: map<nat, nat>, size: map<nat, nat>, fl: seq<nat>, alloc: map<nat, nat>,
                         owner: map<nat, nat>) {
    RingOk(ptr, fl) && ApartOk(size, fl) && TiledOk(base, size, fl, alloc, owner)
  }

  /** A block the heap knows about, free or in use. */
  ghost predicate IsBlock(size: map<nat, nat>, fl: seq<nat>, alloc: map<nat, nat>, x: nat) {
    x in size && (x in alloc || OnList(fl, x))
  }

  /** Conservation: the units obtained from the system are exactly those of the blocks, each in one block only. */
  lemma Partition(base: nat, ptr: map<nat, nat>, size: map<nat, nat>, fl: seq<nat>, alloc: map<nat, nat>,
                  owner: map<nat, nat>, u: nat)
    requires HeapOk(base, ptr, size, fl, alloc, owner)
    ensures u in owner <==> exists x :: IsBlock(size, fl, alloc, x) && Unit(x, size[x], u)
    ensures forall x, y ::
              IsBlock(size, fl, alloc, x) && Unit(x, size[x], u) && IsBlock(size, fl, alloc, y)
              && Unit(y, size[y], u) ==>
              x == y && !(x in alloc && OnList(fl, x))
  {
    assert KeyTiled(0);
    if u in owner {
      assert IsBlock(size, fl, alloc, owner[u]) && Unit(owner[u], size[owner[u]], u);
    }
  }

  /** Maximal coalescing: no free block ends where another begins. */
  lemma Coalesced(base: nat, ptr: map<nat, nat>, size: map<nat, nat>, fl: seq<nat>, alloc: map<nat, nat>,
                  owner: map<nat, nat>, x: nat, y: nat)
    requires HeapOk(base, ptr, size, fl, alloc, owner) && OnList(fl, x) && OnList(fl, y)
    ensures x in size && x + size[x] != y
  {
    assert KeyApart(0) && KeyTiled(0);
    var i :| 0 < i < |fl| && fl[i] == x;
    var j :| 0 < j < |fl| && fl[j] == y;
    if i < j {
      assert fl[i] + size[fl[i]] < fl[i + 1];
      assert i + 1 < j ==> fl[i + 1] < fl[j];
    }
  }

  /** Following the links from the start visits every node once and comes back. */
  lemma OneCycle(base: nat, ptr: map<nat, nat>, size: map<nat, nat>, fl: seq<nat>, alloc: map<nat, nat>,
                 owner: map<nat, nat>, i: nat, j: nat)
    requires HeapOk(base, ptr, size, fl, alloc, owner) && i < j < |fl|
    ensures fl[i] < fl[j] && ptr[fl[i]] == fl[i + 1] && ptr[fl[|fl| - 1]] == fl[0] == base
  {
    assert KeyRing(0) && KeyTiled(0);
  }

  /** Where a block would go: after the last node below it. */
  ghost predicate Before(fl: seq<nat>, t: nat, b: nat) {
    && t < |fl|
    && (forall i :: 0 <= i <= t ==> fl[i] < b)
    && (forall i :: t < i < |fl| ==> b < fl[i])
  }

  /** An allocated block does not overlap the free blocks on either side of it. */
  lemma Gap(base: nat, size: map<nat, nat>, fl: seq<nat>, alloc: map<nat, nat>, owner: map<nat, nat>, b: nat, t: nat)
    requires TiledOk(base, size, fl, alloc, owner) && b in alloc && Before(fl, t, b)
    ensures size[b] > 0 && b !in fl && fl[t] >= base > 0 && fl[0] == base
    ensures fl[t] + size[fl[t]] <= b && (fl[t] + size[fl[t]] == b ==> t > 0)
    ensures t + 1 < |fl| ==> b + size[b] <= fl[t + 1]
    ensures b + size[b] == Next(fl, t) ==> t + 1 < |fl|
  {
    assert KeyTiled(0);
    assert Unit(b, alloc[b], b);
    assert t > 0 ==> OnList(fl, fl[t]) && fl[0] < fl[t];
    assert Unit(fl[t], size[fl[t]], b) ==> t == 0;
    if t + 1 < |fl| {
      assert OnList(fl, fl[t + 1]);
      assert Unit(fl[t + 1], size[fl[t + 1]], fl[t + 1]);
      assert !Unit(b, alloc[b], fl[t + 1]);
    }
  }

  function Insert(fl: seq<nat>, t: nat, b: nat): (r: seq<nat>) requires t < |fl| { fl[..t + 1] + [b] + fl[t + 1..] }
  function Remove(fl: seq<nat>, t: nat): (r: seq<nat>) requires t < |fl| { fl[..t] + fl[t + 1..] }

  /** Units of block `x` now belong to block `z`. */
  ghost function Reassign(owner: map<nat, nat>, x: nat, z: nat): (r: map<nat, nat>) {
    map u | u in owner :: if owner[u] == x then z else owner[u]
  }

  lemma InsertAt(fl: seq<nat>, t: nat, b: nat, i: nat)
    requires t < |fl| && i <= |fl|
    ensures Insert(fl, t, b)[i] == if i <= t then fl[i] else if i == t + 1 then b else fl[i - 1]
  {
  }

  lemma RemoveReplaced(fl: seq<nat>, t: nat, b: nat)
    requires t < |fl|
    ensures var fl1 := fl[t := b];
            Remove(fl1, t) == Remove(fl, t) && |fl1| == |fl| && fl1[t] == b && (t > 0 ==> fl1[t - 1] == fl[t - 1])
  {
  }

  lemma OnListInsert(fl: seq<nat>, t: nat, b: nat, x: nat)
    requires t < |fl|
    ensures OnList(Insert(fl, t, b), x) <==> x == b || OnList(fl, x)
  {
    var fl' := Insert(fl, t, b);
    if x == b {
      assert fl'[t + 1] == x;
    }
    if i :| 0 < i < |fl| && fl[i] == x {
      assert fl'[if i <= t then i else i + 1] == x;
    }
    if i :| 0 < i < |fl'| && fl'[i] == x && x != b {
      assert fl[if i <= t then i else i - 1] == x;
    }
  }

  lemma OnListRemove(fl: seq<nat>, t: nat, x: nat)
    requires 0 < t < |fl| && forall i, j :: 0 <= i < j < |fl| ==> fl[i] != fl[j]
    ensures OnList(Remove(fl, t), x) <==> x != fl[t] && OnList(fl, x)
  {
    var fl' := Remove(fl, t);
    if i :| 0 < i < |fl| && fl[i] == x && x != fl[t] {
      assert fl'[if i < t then i else i - 1] == x;
    }
    if i :| 0 < i < |fl'| && fl'[i] == x {
      assert fl[if i < t then i else i + 1] == x;
    }
  }

  // ---- The links ----

  lemma AscInsert(fl: seq<nat>, t: nat, b: nat)
    requires Ascending(fl) && Before(fl, t, b)
    ensures Ascending(Insert(fl, t, b))
  {
    var fl' := Insert(fl, t, b);
    assert forall i :: 0 <= i < |fl'| ==> fl'[i] == if i <= t then fl[i] else if i == t + 1 then b else fl[i - 1];
  }

  lemma AscRemove(fl: seq<nat>, t: nat)
    requires Ascending(fl) && t < |fl|
    ensures Ascending(Remove(fl, t))
  {
    var fl' := Remove(fl, t);
    assert forall i :: 0 <= i < |fl'| ==> fl'[i] == if i < t then fl[i] else fl[i + 1];
  }

  lemma LinkIn(ptr: map<nat, nat>, fl: seq<nat>, t: nat, b: nat)
    requires Ring(ptr, fl) && Ascending(fl) && Before(fl, t, b)
    ensures Ring(ptr[b := Next(fl, t)][fl[t] := b], Insert(fl, t, b))
  {
    var fl', ptr' := Insert(fl, t, b), ptr[b := Next(fl, t)][fl[t] := b];
    forall i | 0 <= i < |fl'| ensures fl'[i] in ptr' && ptr'[fl'[i]] == Next(fl', i) {
      InsertAt(fl, t, b, i);
    }
  }

  lemma LinkOut(ptr: map<nat, nat>, fl: seq<nat>, t: nat)
    requires Ring(ptr, fl) && Ascending(fl) && t + 1 < |fl|
    ensures Ring(ptr[fl[t] := ptr[fl[t + 1]]], Remove(fl, t + 1))
  {
    var fl', ptr' := Remove(fl, t + 1), ptr[fl[t] := ptr[fl[t + 1]]];
    forall i | 0 <= i < |fl'| ensures fl'[i] in ptr' && ptr'[fl'[i]] == Next(fl', i) {
      assert fl'[i] == if i <= t then fl[i] else fl[i + 1];
    }
  }

  lemma RingInsert(ptr: map<nat, nat>, fl: seq<nat>, t: nat, b: nat)
    requires RingOk(ptr, fl) && Before(fl, t, b)
    ensures RingOk(ptr[b := Next(fl, t)][fl[t] := b], Insert(fl, t, b))
  {
    assert KeyRing(0);
    LinkIn(ptr, fl, t, b);
    AscInsert(fl, t, b);
  }

  lemma LinkOver(ptr: map<nat, nat>, fl: seq<nat>, t: nat, b: nat)
    requires Ring(ptr, fl) && Ascending(fl) && Before(fl, t, b) && t + 1 < |fl|
    ensures Ascending(fl[t + 1 := b]) && Ring(ptr[b := ptr[fl[t + 1]]][fl[t] := b], fl[t + 1 := b])
  {
    var fl', ptr' := fl[t + 1 := b], ptr[b := ptr[fl[t + 1]]][fl[t] := b];
    forall i | 0 <= i < |fl'| ensures fl'[i] in ptr' && ptr'[fl'[i]] == Next(fl', i) {
    }
  }

  lemma RingReplace(ptr: map<nat, nat>, fl: seq<nat>, t: nat, b: nat)
    requires RingOk(ptr, fl) && Before(fl, t, b) && t + 1 < |fl|
    ensures RingOk(ptr[b := ptr[fl[t + 1]]][fl[t] := b], fl[t + 1 := b])
  {
    assert KeyRing(0);
    LinkOver(ptr, fl, t, b);
  }

  lemma RingKeep(ptr: map<nat, nat>, fl: seq<nat>, t: nat, b: nat)
    requires RingOk(ptr, fl) && t < |fl| && b !in fl
    ensures RingOk(ptr[b := Next(fl, t)][fl[t] := Next(fl, t)], fl)
  {
    assert KeyRing(0);
  }

  lemma RingRemove(ptr: map<nat, nat>, fl: seq<nat>, t: nat)
    requires RingOk(ptr, fl) && t + 1 < |fl|
    ensures RingOk(ptr[fl[t] := ptr[fl[t + 1]]], Remove(fl, t + 1))
  {
    assert KeyRing(0);
    LinkOut(ptr, fl, t);
    AscRemove(fl, t + 1);
  }

  lemma RingFrame(ptr: map<nat, nat>, fl: seq<nat>, b: nat, x: nat)
    requires RingOk(ptr, fl) && b !in fl
    ensures RingOk(ptr[b := x], fl)
  {
    assert KeyRing(0);
  }

  // ---- No two free blocks touch ----

  lemma ApartInsert(size: map<nat, nat>, fl: seq<nat>, t: nat, b: nat)
    requires ApartOk(size, fl) && Before(fl, t, b) && b in size
    requires fl[t] + size[fl[t]] < b && (t + 1 < |fl| ==> b + size[b] < fl[t + 1])
    ensures ApartOk(size, Insert(fl, t, b))
  {
    assert KeyApart(0);
    var fl' := Insert(fl, t, b);
    forall i | 0 <= i < |fl'| ensures fl'[i] == if i <= t then fl[i] else if i == t + 1 then b else fl[i - 1] {
      InsertAt(fl, t, b, i);
    }
  }

  lemma ApartReplace(size: map<nat, nat>, fl: seq<nat>, t: nat, b: nat)
    requires ApartOk(size, fl) && Before(fl, t, b) && t + 1 < |fl| && b in size
    requires fl[t] + size[fl[t]] < b && b + size[b] == fl[t + 1]
    ensures ApartOk(size[b := size[b] + size[fl[t + 1]]], fl[t + 1 := b])
  {
    assert KeyApart(0);
  }

  lemma ApartGrow(size: map<nat, nat>, fl: seq<nat>, t: nat, s: nat)
    requires ApartOk(size, fl) && t < |fl| && (t + 1 < |fl| ==> fl[t] + s < fl[t + 1])
    ensures ApartOk(size[fl[t] := s], fl)
  {
    assert KeyApart(0);
  }

  lemma StillApart(size: map<nat, nat>, fl: seq<nat>, t: nat, s: nat)
    requires Apart(size, fl) && Ascending(fl) && t + 1 < |fl| && fl[t] + s <= fl[t + 1] + size[fl[t + 1]]
    ensures Apart(size[fl[t] := s], Remove(fl, t + 1))
  {
    var fl' := Remove(fl, t + 1);
    assert forall i :: 0 <= i < |fl'| ==> fl'[i] == if i <= t then fl[i] else fl[i + 1];
  }

  lemma ApartRemove(size: map<nat, nat>, fl: seq<nat>, t: nat, s: nat)
    requires ApartOk(size, fl) && t + 1 < |fl| && fl[t] + s <= fl[t + 1] + size[fl[t + 1]]
    ensures ApartOk(size[fl[t] := s], Remove(fl, t + 1))
  {
    assert KeyApart(0);
    StillApart(size, fl, t, s);
    AscRemove(fl, t + 1);
  }

  lemma ApartFrame(size: map<nat, nat>, fl: seq<nat>, b: nat, s: nat)
    requires ApartOk(size, fl) && b !in fl
    ensures ApartOk(size[b := s], fl)
  {
    assert KeyApart(0);
  }

  // ---- The blocks ----

  lemma SortedInsert(base: nat, size: map<nat, nat>, fl: seq<nat>, b: nat, t: nat)
    requires Sorted(base, size, fl) && Before(fl, t, b) && b in size && size[b] > 0
    requires fl[t] + size[fl[t]] <= b && (t + 1 < |fl| ==> b + size[b] <= fl[t + 1])
    ensures Sorted(base, size, Insert(fl, t, b))
  {
    var fl' := Insert(fl, t, b);
    forall i | 0 <= i < |fl'| ensures fl'[i] in size && (size[fl'[i]] == 0 <==> i == 0) {
      InsertAt(fl, t, b, i);
    }
    forall i, j | 0 <= i < j < |fl'| ensures fl'[i] + size[fl'[i]] <= fl'[j] && fl'[i] < fl'[j] {
      InsertAt(fl, t, b, i);
      InsertAt(fl, t, b, j);
      InsertPair(base, size, fl, b, t, i, j, fl'[i], fl'[j]);
    }
  }

  lemma InsertPair(base: nat, size: map<nat, nat>, fl: seq<nat>, b: nat, t: nat, i: nat, j: nat, x: nat, y: nat)
    requires Sorted(base, size, fl) && t < |fl| && b in size && size[b] > 0 && i < j <= |fl|
    requires fl[t] + size[fl[t]] <= b && (t + 1 < |fl| ==> b + size[b] <= fl[t + 1])
    requires x == (if i <= t then fl[i] else if i == t + 1 then b else fl[i - 1])
    requires y == (if j <= t then fl[j] else if j == t + 1 then b else fl[j - 1])
    requires fl[t] < b
    ensures x in size && x + size[x] <= y && x < y
  {
  }

  lemma TiledInsert(base: nat, size: map<nat, nat>, fl: seq<nat>, alloc: map<nat, nat>, owner: map<nat, nat>, b: nat,
                    t: nat)
    requires TiledOk(base, size, fl, alloc, owner) && b in alloc && Before(fl, t, b)
    ensures TiledOk(base, size, Insert(fl, t, b), alloc - {b}, owner)
  {
    assert KeyTiled(0);
    Gap(base, size, fl, alloc, owner, b, t);
    SortedInsert(base, size, fl, b, t);
    forall x ensures OnList(Insert(fl, t, b), x) <==> x == b || OnList(fl, x) {
      OnListInsert(fl, t, b, x);
    }
  }

  lemma SortedAbsorb(base: nat, size: map<nat, nat>, fl: seq<nat>, k: nat)
    requires Sorted(base, size, fl) && 0 < k < |fl| - 1 && fl[k] + size[fl[k]] == fl[k + 1]
    ensures Sorted(base, size[fl[k] := size[fl[k]] + size[fl[k + 1]]], Remove(fl, k + 1))
  {
    var fl' := Remove(fl, k + 1);
    assert forall i :: 0 <= i < |fl'| ==> fl'[i] == if i <= k then fl[i] else fl[i + 1];
  }

  /** Merging node `p` with node `q` right behind it. */
  lemma TiledAbsorb(base: nat, size: map<nat, nat>, fl: seq<nat>, alloc: map<nat, nat>, owner: map<nat, nat>,
                    k: nat, p: nat, q: nat, fl': seq<nat>)
    requires TiledOk(base, size, fl, alloc, owner) && 0 < k < |fl| - 1
    requires fl[k] == p && fl[k + 1] == q && p + size[p] == q && fl' == Remove(fl, k + 1)
    ensures TiledOk(base, size[p := size[p] + size[q]], fl', alloc, Reassign(owner, q, p))
  {
    assert KeyTiled(0);
    SortedAbsorb(base, size, fl, k);
    forall x ensures OnList(fl', x) <==> x != q && OnList(fl, x) {
      OnListRemove(fl, k + 1, x);
    }
    assert OnList(fl, p) && OnList(fl, q);
    OwnerAbsorb(base, size, fl, fl', alloc, owner, p, q);
  }

  lemma OwnerAbsorb(base: nat, size: map<nat, nat>, fl: seq<nat>, fl': seq<nat>, alloc: map<nat, nat>,
                    owner: map<nat, nat>, p: nat, q: nat)
    requires Tiled(base, size, fl, alloc, owner) && p != q && OnList(fl, p) && OnList(fl, q) && p + size[p] == q
    requires forall x :: OnList(fl', x) <==> x != q && OnList(fl, x)
    ensures Tiled(base, size[p := size[p] + size[q]], fl', alloc, Reassign(owner, q, p))
  {
    var owner', size' := Reassign(owner, q, p), size[p := size[p] + size[q]];
    forall u | Unit(p, size'[p], u) ensures u in owner' && owner'[u] == p {
      assert Unit(p, size[p], u) || Unit(q, size[q], u);
    }
    forall x, u | (x in alloc || (OnList(fl', x) && x != p)) && Unit(x, size[x], u)
      ensures u in owner' && owner'[u] == x {
      assert owner[u] == x;
    }
    forall u | u in owner'
      ensures Unit(owner'[u], size'[owner'[u]], u) && (owner'[u] in alloc || OnList(fl', owner'[u])) {
      assert Unit(owner[u], size[owner[u]], u);
    }
  }

  /** An allocated block right behind free block `p` becomes part of it. */
  lemma OwnerDown(base: nat, size: map<nat, nat>, fl: seq<nat>, alloc: map<nat, nat>, owner: map<nat, nat>, p: nat,
                  b: nat)
    requires Tiled(base, size, fl, alloc, owner) && OnList(fl, p) && b in alloc && p + size[p] == b
    ensures Tiled(base, size[p := size[p] + size[b]], fl, alloc - {b}, Reassign(owner, b, p))
  {
    var owner', size' := Reassign(owner, b, p), size[p := size[p] + size[b]];
    forall u | Unit(p, size'[p], u) ensures u in owner' && owner'[u] == p {
      assert Unit(p, size[p], u) || Unit(b, size[b], u);
    }
    forall x, u | x != b && x != p && (x in alloc || OnList(fl, x)) && Unit(x, size[x], u)
      ensures u in owner' && owner'[u] == x {
      assert owner[u] == x;
    }
    forall u | u in owner'
      ensures Unit(owner'[u], size'[owner'[u]], u) && (owner'[u] in alloc - {b} || OnList(fl, owner'[u])) {
      assert Unit(owner[u], size[owner[u]], u);
    }
  }

  /** Free block `q` becomes part of the block `b` right before it, which becomes free. */
  lemma OwnerUp(base: nat, size: map<nat, nat>, fl: seq<nat>, fl': seq<nat>, alloc: map<nat, nat>, owner: map<nat, nat>,
                b: nat, q: nat)
    requires Tiled(base, size, fl, alloc, owner) && OnList(fl, q) && b in alloc && b + size[b] == q
    requires forall x :: OnList(fl', x) <==> x == b || (x != q && OnList(fl, x))
    ensures Tiled(base, size[b := size[b] + size[q]], fl', alloc - {b}, Reassign(owner, q, b))
  {
    var owner', size' := Reassign(owner, q, b), size[b := size[b] + size[q]];
    forall u | Unit(b, size'[b], u) ensures u in owner' && owner'[u] == b {
      assert Unit(b, size[b], u) || Unit(q, size[q], u);
    }
    forall x, u | x != b && x != q && (x in alloc || OnList(fl, x)) && Unit(x, size[x], u)
      ensures u in owner' && owner'[u] == x {
      assert owner[u] == x;
    }
    forall u | u in owner'
      ensures Unit(owner'[u], size'[owner'[u]], u) && (owner'[u] in alloc - {b} || OnList(fl', owner'[u])) {
      assert Unit(owner[u], size[owner[u]], u);
    }
  }

  lemma TiledDown(base: nat, size: map<nat, nat>, fl: seq<nat>, alloc: map<nat, nat>, owner: map<nat, nat>, b: nat,
                  t: nat)
    requires TiledOk(base, size, fl, alloc, owner) && b in alloc && Before(fl, t, b) && t > 0
    requires fl[t] + size[fl[t]] == b
    ensures TiledOk(base, size[fl[t] := size[fl[t]] + size[b]], fl, alloc - {b}, Reassign(owner, b, fl[t]))
  {
    assert KeyTiled(0);
    Gap(base, size, fl, alloc, owner, b, t);
    assert OnList(fl, fl[t]);
    OwnerDown(base, size, fl, alloc, owner, fl[t], b);
  }

  lemma TiledUp(base: nat, size: map<nat, nat>, fl: seq<nat>, alloc: map<nat, nat>, owner: map<nat, nat>, b: nat,
                t: nat)
    requires TiledOk(base, size, fl, alloc, owner) && b in alloc && Before(fl, t, b) && t + 1 < |fl|
    requires b + size[b] == fl[t + 1]
    ensures TiledOk(base, size[b := size[b] + size[fl[t + 1]]], fl[t + 1 := b], alloc - {b},
                    Reassign(owner, fl[t + 1], b))
  {
    assert KeyTiled(0);
    Gap(base, size, fl, alloc, owner, b, t);
    assert OnList(fl, fl[t + 1]);
    var fl' := fl[t + 1 := b];
    forall x ensures OnList(fl', x) <==> x == b || (x != fl[t + 1] && OnList(fl, x)) {
      assert fl'[t + 1] == b;
      if i :| 0 < i < |fl| && fl[i] == x && x != fl[t + 1] {
        assert fl'[i] == x;
      }
    }
    OwnerUp(base, size, fl, fl', alloc, owner, b, fl[t + 1]);
  }

  lemma TiledBoth(base: nat, size: map<nat, nat>, fl: seq<nat>, alloc: map<nat, nat>, owner: map<nat, nat>, b: nat,
                  t: nat,
                  p: nat, q: nat, size1: map<nat, nat>, fl1: seq<nat>, fl': seq<nat>)
    requires TiledOk(base, size, fl, alloc, owner) && b in alloc && Before(fl, t, b) && 0 < t < |fl| - 1
    requires fl[t] == p && fl[t + 1] == q && b + size[b] == q && p + size[p] == b
    requires size1 == size[b := size[b] + size[q]] && size1[p] == size[p]
    requires fl1 == fl[t + 1 := b] && fl' == Remove(fl1, t + 1) && fl1[t] == p && fl1[t + 1] == b && |fl1| == |fl|
    ensures TiledOk(base, size1[p := size1[p] + size1[b]], fl', alloc - {b}, Reassign(Reassign(owner, q, b), b, p))
  {
    TiledUp(base, size, fl, alloc, owner, b, t);
    TiledAbsorb(base, size1, fl1, alloc - {b}, Reassign(owner, q, b), t, p, b, fl');
  }

  // ---- The four cases of free ----

  /** Freed next to no free block: a new node. */
  lemma FreeAlone(base: nat, ptr: map<nat, nat>, size: map<nat, nat>, fl: seq<nat>, alloc: map<nat, nat>,
                  owner: map<nat, nat>, b: nat, t: nat)
    requires HeapOk(base, ptr, size, fl, alloc, owner) && b in alloc && Before(fl, t, b)
    requires b + size[b] != Next(fl, t) && fl[t] + size[fl[t]] != b
    ensures HeapOk(base, ptr[b := Next(fl, t)][fl[t] := b], size, Insert(fl, t, b), alloc - {b}, owner)
  {
    Gap(base, size, fl, alloc, owner, b, t);
    RingInsert(ptr, fl, t, b);
    ApartInsert(size, fl, t, b);
    TiledInsert(base, size, fl, alloc, owner, b, t);
  }

  /** Freed right before a free block: it takes that node's place. */
  lemma FreeUp(base: nat, ptr: map<nat, nat>, size: map<nat, nat>, fl: seq<nat>, alloc: map<nat, nat>,
               owner: map<nat, nat>, b: nat, t: nat,
               q: nat, ptr2: map<nat, nat>, size2: map<nat, nat>)
    requires HeapOk(base, ptr, size, fl, alloc, owner) && b in alloc && Before(fl, t, b) && t + 1 < |fl|
    requires q == fl[t + 1] && b + size[b] == q && fl[t] + size[fl[t]] != b
    requires ptr2 == ptr[b := ptr[q]][fl[t] := b] && size2 == size[b := size[b] + size[q]]
    ensures HeapOk(base, ptr2, size2, fl[t + 1 := b], alloc - {b}, Reassign(owner, q, b))
  {
    Gap(base, size, fl, alloc, owner, b, t);
    RingReplace(ptr, fl, t, b);
    ApartReplace(size, fl, t, b);
    TiledUp(base, size, fl, alloc, owner, b, t);
  }

  /** Freed right behind a free block: that node grows. */
  lemma FreeDown(base: nat, ptr: map<nat, nat>, size: map<nat, nat>, fl: seq<nat>, alloc: map<nat, nat>,
                 owner: map<nat, nat>, b: nat, t: nat)
    requires HeapOk(base, ptr, size, fl, alloc, owner) && b in alloc && Before(fl, t, b)
    requires b + size[b] != Next(fl, t) && fl[t] + size[fl[t]] == b
    ensures HeapOk(base, ptr[b := Next(fl, t)][fl[t] := Next(fl, t)], size[fl[t] := size[fl[t]] + size[b]], fl,
                   alloc - {b}, Reassign(owner, b, fl[t]))
  {
    Gap(base, size, fl, alloc, owner, b, t);
    RingKeep(ptr, fl, t, b);
    ApartGrow(size, fl, t, size[fl[t]] + size[b]);
    TiledDown(base, size, fl, alloc, owner, b, t);
  }

  /** Freed exactly between two free blocks: all three become one. */
  lemma FreeBoth(base: nat, ptr: map<nat, nat>, size: map<nat, nat>, fl: seq<nat>, alloc: map<nat, nat>,
                 owner: map<nat, nat>, b: nat, t: nat,
                 p: nat, q: nat, size1: map<nat, nat>, ptr2: map<nat, nat>, size2: map<nat, nat>)
    requires HeapOk(base, ptr, size, fl, alloc, owner) && b in alloc && Before(fl, t, b) && t + 1 < |fl|
    requires p == fl[t] && q == fl[t + 1] && b + size[b] == q && p + size[p] == b
    requires size1 == size[b := size[b] + size[q]] && p in size1 && size2 == size1[p := size1[p] + size1[b]]
    requires ptr2 == ptr[b := ptr[q]][p := ptr[q]]
    ensures HeapOk(base, ptr2, size2, Remove(fl, t + 1), alloc - {b}, Reassign(Reassign(owner, q, b), b, p))
  {
    Gap(base, size, fl, alloc, owner, b, t);
    RingFrame(ptr, fl, b, ptr[q]);
    RingRemove(ptr[b := ptr[q]], fl, t);
    ApartFrame(size, fl, b, size[b] + size[q]);
    ApartRemove(size1, fl, t, size1[p] + size1[b]);
    RemoveReplaced(fl, t + 1, b);
    TiledBoth(base, size, fl, alloc, owner, b, t, p, q, size1, fl[t + 1 := b], Remove(fl, t + 1));
  }

  // ---- The two ways malloc takes a block ----

  lemma DropApart(size: map<nat, nat>, fl: seq<nat>, t: nat)
    requires Apart(size, fl) && Ascending(fl) && t + 1 < |fl|
    ensures Apart(size, Remove(fl, t + 1))
  {
    var fl' := Remove(fl, t + 1);
    assert forall i :: 0 <= i < |fl'| ==> fl'[i] == if i <= t then fl[i] else fl[i + 1];
    assert fl[t] + size[fl[t]] < fl[t + 1];
  }

  lemma ApartDrop(size: map<nat, nat>, fl: seq<nat>, t: nat)
    requires ApartOk(size, fl) && t + 1 < |fl|
    ensures ApartOk(size, Remove(fl, t + 1))
  {
    assert KeyApart(0);
    AscRemove(fl, t + 1);
    DropApart(size, fl, t);
  }

  lemma SortedDrop(base: nat, size: map<nat, nat>, fl: seq<nat>, t: nat)
    requires Sorted(base, size, fl) && t + 1 < |fl|
    ensures Sorted(base, size, Remove(fl, t + 1))
  {
    var fl' := Remove(fl, t + 1);
    assert forall i :: 0 <= i < |fl'| ==> fl'[i] == if i <= t then fl[i] else fl[i + 1];
  }

  lemma OwnerTake(base: nat, size: map<nat, nat>, fl: seq<nat>, fl': seq<nat>, alloc: map<nat, nat>,
                  owner: map<nat, nat>, p: nat)
    requires Tiled(base, size, fl, alloc, owner) && OnList(fl, p) && size[p] > 0 && p > base
    requires forall x :: OnList(fl', x) <==> x != p && OnList(fl, x)
    ensures p !in alloc && Tiled(base, size, fl', alloc[p := size[p]], owner)
  {
  }

  lemma TiledTake(base: nat, size: map<nat, nat>, fl: seq<nat>, alloc: map<nat, nat>, owner: map<nat, nat>, t: nat,
                  p: nat)
    requires TiledOk(base, size, fl, alloc, owner) && t + 1 < |fl| && fl[t + 1] == p
    ensures p !in alloc && TiledOk(base, size, Remove(fl, t + 1), alloc[p := size[p]], owner)
  {
    assert KeyTiled(0);
    SortedDrop(base, size, fl, t);
    assert OnList(fl, p) && fl[0] < fl[t + 1];
    forall x ensures OnList(Remove(fl, t + 1), x) <==> x != p && OnList(fl, x) {
      OnListRemove(fl, t + 1, x);
    }
    OwnerTake(base, size, fl, Remove(fl, t + 1), alloc, owner, p);
  }

  /** A block of exactly the right size leaves the list. */
  lemma TakeWhole(base: nat, ptr: map<nat, nat>, size: map<nat, nat>, fl: seq<nat>, alloc: map<nat, nat>,
                  owner: map<nat, nat>, t: nat, p: nat)
    requires HeapOk(base, ptr, size, fl, alloc, owner) && t + 1 < |fl| && fl[t + 1] == p
    ensures p !in alloc && HeapOk(base, ptr[fl[t] := ptr[p]], size, Remove(fl, t + 1), alloc[p := size[p]], owner)
  {
    RingRemove(ptr, fl, t);
    ApartDrop(size, fl, t);
    TiledTake(base, size, fl, alloc, owner, t, p);
  }

  /** The last `n` units of block `p` become a block of their own at `z`. */
  ghost function CutOff(owner: map<nat, nat>, z: nat, n: nat): (r: map<nat, nat>) {
    map u | u in owner :: if Unit(z, n, u) then z else owner[u]
  }

  lemma SortedCut(base: nat, size: map<nat, nat>, fl: seq<nat>, k: nat, p: nat, n: nat, z: nat)
    requires Sorted(base, size, fl) && 0 < k < |fl| && fl[k] == p && 0 < n < size[p] && z == p + (size[p] - n)
    ensures z !in fl && Sorted(base, size[p := size[p] - n][z := n], fl)
  {
    forall i | 0 <= i < |fl| ensures fl[i] != z {
      assert i < k ==> fl[i] < fl[k];
      assert k < i ==> fl[k] + size[fl[k]] <= fl[i];
    }
  }

  lemma OwnedCut(base: nat, size: map<nat, nat>, fl: seq<nat>, alloc: map<nat, nat>, owner: map<nat, nat>, p: nat,
                 n: nat, z: nat)
    requires Tiled(base, size, fl, alloc, owner) && OnList(fl, p) && 0 < n < size[p] && z == p + (size[p] - n)
             && p > base
    requires !OnList(fl, z)
    ensures z !in alloc && Owned(base, size[p := size[p] - n][z := n], fl, alloc[z := n], CutOff(owner, z, n))
  {
    var owner', size' := CutOff(owner, z, n), size[p := size[p] - n][z := n];
    assert Unit(p, size[p], z);
    forall a | a in alloc ensures a != z && a != p { assert Unit(a, alloc[a], a); }
    forall u | Unit(z, n, u) ensures u in owner' && owner'[u] == z { assert Unit(p, size[p], u); }
    forall u | Unit(p, size[p] - n, u) ensures u in owner' && owner'[u] == p { assert Unit(p, size[p], u); }
    forall x, u | x != p && (x in alloc || OnList(fl, x)) && Unit(x, size[x], u) ensures u in owner' && owner'[u] == x {
      assert owner[u] == x && (Unit(z, n, u) ==> Unit(p, size[p], u));
    }
  }

  lemma CoveredCut(base: nat, size: map<nat, nat>, fl: seq<nat>, alloc: map<nat, nat>, owner: map<nat, nat>, p: nat,
                   n: nat, z: nat)
    requires Tiled(base, size, fl, alloc, owner) && OnList(fl, p) && 0 < n < size[p] && z == p + (size[p] - n)
    requires !OnList(fl, z)
    ensures Covered(size[p := size[p] - n][z := n], fl, alloc[z := n], CutOff(owner, z, n))
  {
    var owner', size' := CutOff(owner, z, n), size[p := size[p] - n][z := n];
    assert Unit(p, size[p], z) && owner[z] == p;
    forall u | u in owner' ensures owner'[u] in size' && Unit(owner'[u], size'[owner'[u]], u) {
      assert Unit(owner[u], size[owner[u]], u);
      assert owner[u] != z by {
        if owner[u] == z { assert Unit(z, size[z], z); }
      }
    }
  }

  lemma TiledCut(base: nat, size: map<nat, nat>, fl: seq<nat>, alloc: map<nat, nat>, owner: map<nat, nat>, k: nat,
                 p: nat, n: nat, z: nat)
    requires TiledOk(base, size, fl, alloc, owner) && 0 < k < |fl| && fl[k] == p && 0 < n < size[p]
             && z == p + (size[p] - n)
    ensures z !in alloc && z !in fl
            && TiledOk(base, size[p := size[p] - n][z := n], fl, alloc[z := n], CutOff(owner, z, n))
  {
    assert KeyTiled(0);
    SortedCut(base, size, fl, k, p, n, z);
    assert OnList(fl, p) && fl[0] < fl[k];
    OwnedCut(base, size, fl, alloc, owner, p, n, z);
    CoveredCut(base, size, fl, alloc, owner, p, n, z);
  }

  /** A larger block gives away its tail and stays on the list. */
  lemma TakeTail(base: nat, ptr: map<nat, nat>, size: map<nat, nat>, fl: seq<nat>, alloc: map<nat, nat>,
                 owner: map<nat, nat>,
                 k: nat, p: nat, n: nat, z: nat)
    requires HeapOk(base, ptr, size, fl, alloc, owner)
    requires 0 < k < |fl| && fl[k] == p && 0 < n < size[p] && z == p + (size[p] - n)
    ensures z !in alloc && HeapOk(base, ptr, size[p := size[p] - n][z := n], fl, alloc[z := n], CutOff(owner, z, n))
  {
    TiledCut(base, size, fl, alloc, owner, k, p, n, z);
    assert ApartOk(size[p := size[p] - n], fl) by {
      assert KeyApart(0);
    }
    ApartFrame(size[p := size[p] - n], fl, z, n);
  }

  // ---- Growing the heap ----

  /** The system's new region is unknown to the heap. */
  ghost predicate Fresh(owner: map<nat, nat>, g: nat, n: nat) {
    forall u {:trigger Unit(g, n, u)} :: Unit(g, n, u) ==> u !in owner
  }

  ghost function Extend(owner: map<nat, nat>, g: nat, n: nat): (r: map<nat, nat>) {
    owner + map u | g <= u < g + n && Unit(g, n, u) :: g
  }

  lemma OwnedGrant(base: nat, size: map<nat, nat>, fl: seq<nat>, alloc: map<nat, nat>, owner: map<nat, nat>, g: nat,
                   n: nat)
    requires Owned(base, size, fl, alloc, owner) && g > base && n > 0 && Fresh(owner, g, n) && g !in alloc
             && !OnList(fl, g)
    ensures Owned(base, size[g := n], fl, alloc[g := n], Extend(owner, g, n))
  {
    var owner' := Extend(owner, g, n);
    forall x, u | (x in alloc || OnList(fl, x)) && Unit(x, size[x], u) ensures u in owner' && owner'[u] == x {
      assert owner[u] == x && !Unit(g, n, u);
    }
  }

  lemma CoveredGrant(size: map<nat, nat>, fl: seq<nat>, alloc: map<nat, nat>, owner: map<nat, nat>, g: nat, n: nat)
    requires Covered(size, fl, alloc, owner) && n > 0 && Fresh(owner, g, n) && g !in alloc && !OnList(fl, g)
    ensures Covered(size[g := n], fl, alloc[g := n], Extend(owner, g, n))
  {
    var owner' := Extend(owner, g, n);
    forall u | u in owner' ensures (owner'[u] == g && Unit(g, n, u)) || (u in owner && owner'[u] == owner[u] != g) {
    }
  }

  lemma TiledGrant(base: nat, size: map<nat, nat>, fl: seq<nat>, alloc: map<nat, nat>, owner: map<nat, nat>, g: nat,
                   n: nat)
    requires TiledOk(base, size, fl, alloc, owner) && g > base && n > 0 && Fresh(owner, g, n)
    ensures g !in alloc && g !in fl && TiledOk(base, size[g := n], fl, alloc[g := n], Extend(owner, g, n))
  {
    assert KeyTiled(0);
    assert Unit(g, n, g);
    forall a | a in alloc ensures a != g { assert Unit(a, alloc[a], a); }
    forall i | 0 <= i < |fl| ensures fl[i] != g {
      assert i > 0 ==> OnList(fl, fl[i]) && Unit(fl[i], size[fl[i]], fl[i]);
    }
    OwnedGrant(base, size, fl, alloc, owner, g, n);
    CoveredGrant(size, fl, alloc, owner, g, n);
  }

  /** A region handed out by the system is one more allocated block, until it is freed. */
  lemma GrantOk(base: nat, ptr: map<nat, nat>, size: map<nat, nat>, fl: seq<nat>, alloc: map<nat, nat>,
                owner: map<nat, nat>, g: nat, n: nat)
    requires HeapOk(base, ptr, size, fl, alloc, owner) && g > base && n > 0 && Fresh(owner, g, n)
    ensures g !in alloc && HeapOk(base, ptr, size[g := n], fl, alloc[g := n], Extend(owner, g, n))
  {
    TiledGrant(base, size, fl, alloc, owner, g, n);
    ApartFrame(size, fl, g, n);
  }

  // ---- The searches ----

  /** A block for `b` has its place, and going round the ring stops exactly there. */
  lemma Place(base: nat, ptr: map<nat, nat>, size: map<nat, nat>, fl: seq<nat>, alloc: map<nat, nat>,
              owner: map<nat, nat>, b: nat) returns (t: nat)
    requires HeapOk(base, ptr, size, fl, alloc, owner) && b in alloc
    ensures Before(fl, t, b)
  {
    assert KeyTiled(0);
    assert Unit(b, alloc[b], b);
    t := |fl| - 1;
    while fl[t] >= b
      invariant t < |fl| && forall i :: t < i < |fl| ==> b < fl[i]
    {
      assert t > 0 ==> OnList(fl, fl[t]);
      t := t - 1;
    }
  }

  /** The stopping test of `free`'s search: `p` is the last node below `b`. */
  predicate Stops(ptr: map<nat, nat>, p: nat, b: nat) requires p in ptr {
    (b > p && b < ptr[p]) || (p >= ptr[p] && (b > p || b < ptr[p]))
  }

  lemma StopsAt(base: nat, ptr: map<nat, nat>, size: map<nat, nat>, fl: seq<nat>, alloc: map<nat, nat>,
                owner: map<nat, nat>, b: nat, t: nat, i: nat)
    requires HeapOk(base, ptr, size, fl, alloc, owner) && b in alloc && Before(fl, t, b) && i < |fl|
    ensures ptr[fl[i]] == Next(fl, i)
    ensures Stops(ptr, fl[i], b) <==> i == t
  {
    assert KeyRing(0);
    Gap(base, size, fl, alloc, owner, b, t);
  }

  /** The position `c` steps round the ring from position `i`. */
  function Around(fl: seq<nat>, i: nat, c: nat): (r: nat)
    requires i < |fl| && c <= |fl|
    ensures r < |fl|
  {
    if i + c < |fl| then i + c else i + c - |fl|
  }

  /** The nodes strictly between the start and the `c`th step are all smaller than `n`. */
  ghost predicate Passed(size: map<nat, nat>, fl: seq<nat>, i: nat, c: nat, n: nat)
    requires i < |fl| && c <= |fl|
  {
    forall j :: 0 < j < c ==> fl[Around(fl, i, j)] in size && size[fl[Around(fl, i, j)]] < n
  }

  /** `malloc`'s search, `c` steps after it left `freep`, which is at position `i`. */
  ghost predicate Cursor(size: map<nat, nat>, fl: seq<nat>, freep: nat, i: nat, c: nat, prevp: nat, p: nat, n: nat) {
    && i < |fl| && 0 < c <= |fl| && fl[i] == freep
    && prevp == fl[Around(fl, i, c - 1)] && p == fl[Around(fl, i, c)]
    && Passed(size, fl, i, c, n)
  }

  /** Some free block has at least `n` units. */
  ghost predicate Fits(size: map<nat, nat>, fl: seq<nat>, n: nat) {
    exists k :: 0 < k < |fl| && fl[k] in size && size[fl[k]] >= n
  }

  /** Going round from behind `freep`, node `x` is the first that has `n` units. */
  ghost predicate FirstFit(size: map<nat, nat>, fl: seq<nat>, freep: nat, x: nat, n: nat) {
    && x in size && size[x] >= n
    && exists i, c, prevp :: Cursor(size, fl, freep, i, c, prevp, x, n)
  }

  lemma Begin(base: nat, ptr: map<nat, nat>, size: map<nat, nat>, fl: seq<nat>, alloc: map<nat, nat>,
              owner: map<nat, nat>,
              freep: nat, n: nat) returns (i: nat)
    requires HeapOk(base, ptr, size, fl, alloc, owner) && freep in fl
    ensures freep in ptr && Cursor(size, fl, freep, i, 1, freep, ptr[freep], n)
  {
    assert KeyRing(0);
    i :| 0 <= i < |fl| && fl[i] == freep;
  }

  lemma LinkAt(ptr: map<nat, nat>, fl: seq<nat>, i: nat)
    requires RingOk(ptr, fl) && i < |fl|
    ensures fl[i] in ptr && ptr[fl[i]] == Next(fl, i)
  {
    assert KeyRing(0);
  }

  lemma Advance(base: nat, ptr: map<nat, nat>, size: map<nat, nat>, fl: seq<nat>, alloc: map<nat, nat>,
                owner: map<nat, nat>,
                freep: nat, i: nat, c: nat, prevp: nat, p: nat, n: nat)
    requires HeapOk(base, ptr, size, fl, alloc, owner) && Cursor(size, fl, freep, i, c, prevp, p, n)
    requires p != freep && p in size && size[p] < n
    ensures p in ptr && Cursor(size, fl, freep, i, c + 1, p, ptr[p], n)
  {
    LinkAt(ptr, fl, Around(fl, i, c));
    forall j | 0 < j < c + 1 ensures fl[Around(fl, i, j)] in size && size[fl[Around(fl, i, j)]] < n {
    }
  }

  /** Having gone all the way round, no block fits. */
  lemma RoundDone(base: nat, ptr: map<nat, nat>, size: map<nat, nat>, fl: seq<nat>, alloc: map<nat, nat>,
                  owner: map<nat, nat>,
                  freep: nat, i: nat, c: nat, prevp: nat, p: nat, n: nat)
    requires HeapOk(base, ptr, size, fl, alloc, owner) && Cursor(size, fl, freep, i, c, prevp, p, n)
    requires p == freep && p in size && size[p] < n
    ensures !Fits(size, fl, n)
  {
    assert KeyRing(0);
    assert c == |fl|;
    forall k | 0 < k < |fl| ensures size[fl[k]] < n {
      var j := if k >= i then k - i else k - i + |fl|;
      assert k != i ==> Around(fl, i, j) == k;
    }
  }

  /** A node that fits is not the empty `base`, so the one before it is its neighbour on the list. */
  lemma Found(base: nat, ptr: map<nat, nat>, size: map<nat, nat>, fl: seq<nat>, alloc: map<nat, nat>,
              owner: map<nat, nat>,
              freep: nat, i: nat, c: nat, prevp: nat, p: nat, n: nat) returns (k: nat)
    requires HeapOk(base, ptr, size, fl, alloc, owner) && Cursor(size, fl, freep, i, c, prevp, p, n)
    requires p in size && size[p] >= n > 0
    ensures 0 < k < |fl| && fl[k] == p && fl[k - 1] == prevp && Fits(size, fl, n) && FirstFit(size, fl, freep, p, n)
    ensures p > base && prevp > 0
  {
    assert KeyTiled(0);
    k := Around(fl, i, c);
    assert fl[0] < fl[k] && (k > 1 ==> fl[0] < fl[k - 1]);
  }

  // The fields after the first and the second test of `free`.

  function Size1(size: map<nat, nat>, b: nat, q: nat): (r: map<nat, nat>)
    requires b in size && q in size
  {
    if b + size[b] == q then size[b := size[b] + size[q]] else size
  }

  function Ptr1(ptr: map<nat, nat>, size: map<nat, nat>, b: nat, q: nat): (r: map<nat, nat>)
    requires b in size && q in ptr
  {
    ptr[b := if b + size[b] == q then ptr[q] else q]
  }

  function Size2(size: map<nat, nat>, p: nat, b: nat): (r: map<nat, nat>)
    requires b in size && p in size
  {
    if p + size[p] == b then size[p := size[p] + size[b]] else size
  }

  function Ptr2(ptr: map<nat, nat>, size: map<nat, nat>, p: nat, b: nat): (r: map<nat, nat>)
    requires p in size && b in ptr
  {
    ptr[p := if p + size[p] == b then ptr[b] else b]
  }

  lemma NextIn(base: nat, ptr: map<nat, nat>, size: map<nat, nat>, fl: seq<nat>, alloc: map<nat, nat>,
               owner: map<nat, nat>, t: nat)
    requires HeapOk(base, ptr, size, fl, alloc, owner) && t < |fl|
    ensures Next(fl, t) in ptr && Next(fl, t) in size && fl[t] in ptr && fl[t] in size
  {
  }

  lemma Positions(fl: seq<nat>, t: nat, b: nat)
    requires t < |fl|
    ensures |Insert(fl, t, b)| == |fl| + 1 && Insert(fl, t, b)[t] == fl[t] && Insert(fl, t, b)[t + 1] == b
    ensures t + 1 < |fl| ==> |Remove(fl, t + 1)| == |fl| - 1 && Remove(fl, t + 1)[t] == fl[t]
    ensures t + 1 < |fl| ==> fl[t + 1 := b][t] == fl[t] && fl[t + 1 := b][t + 1] == b
  {
  }

  lemma FreeOkUp(base: nat, ptr: map<nat, nat>, size: map<nat, nat>, fl: seq<nat>, alloc: map<nat, nat>,
                 owner: map<nat, nat>, b: nat, t: nat,
                 p: nat, q: nat, ptr1: map<nat, nat>, size1: map<nat, nat>)
    returns (fl': seq<nat>, owner': map<nat, nat>, k: nat)
    requires HeapOk(base, ptr, size, fl, alloc, owner) && b in alloc && Before(fl, t, b)
    requires p == fl[t] && q == Next(fl, t) && q in ptr && q in size
    requires ptr1 == Ptr1(ptr, size, b, q) && size1 == Size1(size, b, q) && p in size1
    requires b + size[b] == q
    ensures HeapOk(base, Ptr2(ptr1, size1, p, b), Size2(size1, p, b), fl', alloc - {b}, owner')
    ensures owner'.Keys == owner.Keys && p > 0
    ensures t < |fl'| && fl'[t] == p && 0 < k < |fl'|
    ensures fl'[k] == (if p + size1[p] == b then p else b) && Size2(size1, p, b)[fl'[k]] >= alloc[b]
  {
    Gap(base, size, fl, alloc, owner, b, t);
    Positions(fl, t, b);
    if p + size[p] == b {
      FreeBoth(base, ptr, size, fl, alloc, owner, b, t, p, q, size1, Ptr2(ptr1, size1, p, b), Size2(size1, p, b));
      fl', owner', k := Remove(fl, t + 1), Reassign(Reassign(owner, q, b), b, p), t;
    } else {
      FreeUp(base, ptr, size, fl, alloc, owner, b, t, q, Ptr2(ptr1, size1, p, b), Size2(size1, p, b));
      fl', owner', k := fl[t + 1 := b], Reassign(owner, q, b), t + 1;
    }
  }

  lemma FreeOkDown(base: nat, ptr: map<nat, nat>, size: map<nat, nat>, fl: seq<nat>, alloc: map<nat, nat>,
                   owner: map<nat, nat>, b: nat, t: nat,
                   p: nat, q: nat, ptr1: map<nat, nat>, size1: map<nat, nat>)
    returns (fl': seq<nat>, owner': map<nat, nat>, k: nat)
    requires HeapOk(base, ptr, size, fl, alloc, owner) && b in alloc && Before(fl, t, b)
    requires p == fl[t] && q == Next(fl, t) && q in ptr && q in size
    requires ptr1 == Ptr1(ptr, size, b, q) && size1 == Size1(size, b, q) && p in size1
    requires b + size[b] != q
    ensures HeapOk(base, Ptr2(ptr1, size1, p, b), Size2(size1, p, b), fl', alloc - {b}, owner')
    ensures owner'.Keys == owner.Keys && p > 0
    ensures t < |fl'| && fl'[t] == p && 0 < k < |fl'|
    ensures fl'[k] == (if p + size1[p] == b then p else b) && Size2(size1, p, b)[fl'[k]] >= alloc[b]
  {
    Gap(base, size, fl, alloc, owner, b, t);
    Positions(fl, t, b);
    if p + size[p] == b {
      FreeDown(base, ptr, size, fl, alloc, owner, b, t);
      fl', owner', k := fl, Reassign(owner, b, p), t;
    } else {
      FreeAlone(base, ptr, size, fl, alloc, owner, b, t);
      fl', owner', k := Insert(fl, t, b), owner, t + 1;
    }
  }

  /**
   Whatever a freed block touches, the heap is whole again; the list has `p` at position `t` and the
   freed units inside the free block at position `k`.
   */
  lemma FreeOk(base: nat, ptr: map<nat, nat>, size: map<nat, nat>, fl: seq<nat>, alloc: map<nat, nat>,
               owner: map<nat, nat>, b: nat, t: nat,
               p: nat, q: nat, ptr1: map<nat, nat>, size1: map<nat, nat>)
    returns (fl': seq<nat>, owner': map<nat, nat>, k: nat)
    requires HeapOk(base, ptr, size, fl, alloc, owner) && b in alloc && Before(fl, t, b)
    requires p == fl[t] && q == Next(fl, t) && q in ptr && q in size
    requires ptr1 == Ptr1(ptr, size, b, q) && size1 == Size1(size, b, q) && p in size1
    ensures HeapOk(base, Ptr2(ptr1, size1, p, b), Size2(size1, p, b), fl', alloc - {b}, owner')
    ensures owner'.Keys == owner.Keys && p > 0
    ensures t < |fl'| && fl'[t] == p && 0 < k < |fl'|
    ensures fl'[k] == (if p + size1[p] == b then p else b) && Size2(size1, p, b)[fl'[k]] >= alloc[b]
  {
    if b + size[b] == q {
      fl', owner', k := FreeOkUp(base, ptr, size, fl, alloc, owner, b, t, p, q, ptr1, size1);
    } else {
      fl', owner', k := FreeOkDown(base, ptr, size, fl, alloc, owner, b, t, p, q, ptr1, size1);
    }
  }

  const UNIT_BYTES := 16
  const MIN_UNITS := 4096

  /** Header plus payload, in units. */
  function Units(nbytes: nat): (r: nat)
    ensures (r - 1) * UNIT_BYTES >= nbytes && (r > 1 ==> (r - 2) * UNIT_BYTES < nbytes) && r > 0
  {
    (nbytes + UNIT_BYTES - 1) / UNIT_BYTES + 1
  }

  /** What an argument of C type `int` receives from a 64-bit unsigned value. */
  function ToInt(x: nat): (r: int) {
    var y := x % 0x1_0000_0000;
    if y < 0x8000_0000 then y else y - 0x1_0000_0000
  }

  /** The units `morecore` asks for. */
  function CoreUnits(nunits: nat): (r: nat) { if nunits < MIN_UNITS then MIN_UNITS else nunits }

  /**
   The request that `morecore` makes of the kernel, `sbrk` of an int, for a process of `sz` bytes.  Whenever
   an address comes back `morecore` takes the bytes from there on to be its own.  The process has them if
   and only if their number fits an int.  For larger numbers it gets one unit at most; from 2^31 to 2^32
   bytes an address always comes back, and the process may even have lost memory.
   */
  method AskSystem<C>(m: V.Machine<C>, root: nat, sz: nat, nbytes: nat) returns (p: Option<nat>, newsz: nat)
    requires m.Valid() && root in m.spaces && A.SpaceFits(m.spaces[root], sz) && nbytes < 0x1_0000_0000
    modifies m
    ensures m.Valid() && root in m.spaces && A.SpaceFits(m.spaces[root], newsz) && (p.Some? ==> p.value == sz)
    ensures p.Some? ==>
              (sz + CoreUnits(Units(nbytes)) * UNIT_BYTES <= newsz <==>
               CoreUnits(Units(nbytes)) * UNIT_BYTES < 0x8000_0000)
    ensures CoreUnits(Units(nbytes)) * UNIT_BYTES >= 0x8000_0000 ==> newsz <= sz + UNIT_BYTES
    ensures 0x8000_0000 <= CoreUnits(Units(nbytes)) * UNIT_BYTES < 0x1_0000_0000 ==>
              p == Some(sz)
              && newsz == if sz + CoreUnits(Units(nbytes)) * UNIT_BYTES < 0x1_0000_0000 then sz
                          else sz + CoreUnits(Units(nbytes)) * UNIT_BYTES - 0x1_0000_0000
    ensures p.None? ==> newsz == sz
  {
    var bytes := CoreUnits(Units(nbytes)) * UNIT_BYTES;
    var ok: bool;
    ok, newsz := A.Growproc(m, root, sz, ToInt(bytes));
    p := if ok then Some(sz) else None;
  }

  class Heap {
    const base: nat
    var ptr: map<nat, nat>
    var size: map<nat, nat>
    var freep: nat

    /** The free list in address order, `base` first. */
    ghost var fl: seq<nat>
    /** The blocks in use, with their sizes. */
    ghost var alloc: map<nat, nat>
    /** The block of each unit obtained from the system. */
    ghost var owner: map<nat, nat>

    ghost predicate Heaped() reads this {
      HeapOk(base, ptr, size, fl, alloc, owner) && freep in fl
    }

    /** Before the first allocation there is no list at all. */
    ghost predicate Valid() reads this {
      && base > 0
      && if freep == 0 then alloc == map[] && owner == map[] else Heaped()
    }

    constructor (base: nat)
      requires base > 0
      ensures Valid() && freep == 0 && this.base == base
    {
      this.base := base;
      ptr, size, freep, fl, alloc, owner := map[], map[], 0, [], map[], map[];
    }

    /** The search of `free`: going round from `freep`, it ends at the last node below `b`. */
    method FindPlace(b: nat) returns (p: nat, ghost t: nat)
      requires Heaped() && b in alloc
      ensures Before(fl, t, b) && p == fl[t] && p in ptr && ptr[p] == Next(fl, t)
    {
      t := Place(base, ptr, size, fl, alloc, owner, b);
      p := freep;
      ghost var i :| 0 <= i < |fl| && fl[i] == p;
      StopsAt(base, ptr, size, fl, alloc, owner, b, t, i);
      while !Stops(ptr, p, b)
        invariant 0 <= i < |fl| && p == fl[i] && p in ptr && ptr[p] == Next(fl, i)
        invariant Stops(ptr, p, b) <==> i == t
        decreases if i <= t then t - i else t - i + |fl|
      {
        p := ptr[p];
        i := if i + 1 < |fl| then i + 1 else 0;
        StopsAt(base, ptr, size, fl, alloc, owner, b, t, i);
      }
    }

    /** The pointer updates of `free`: first the upper neighbour `ptr[p]`, then the lower one `p`. */
    method Join(p: nat, b: nat)
      requires p in ptr && p in size && b in size && p != b && ptr[p] in ptr && ptr[p] in size
      modifies this`ptr, this`size
      ensures var size1 := Size1(old(size), b, old(ptr)[p]);
              p in size1 && size == Size2(size1, p, b)
              && ptr == Ptr2(Ptr1(old(ptr), old(size), b, old(ptr)[p]), size1, p, b)
    {
      if b + size[b] == ptr[p] {
        size := size[b := size[b] + size[ptr[p]]];
        ptr := ptr[b := ptr[ptr[p]]];
      } else {
        ptr := ptr[b := ptr[p]];
      }
      if p + size[p] == b {
        size := size[p := size[p] + size[b]];
        ptr := ptr[p := ptr[b]];
      } else {
        ptr := ptr[p := b];
      }
    }

    /** Returns block `b` to the list, merged with the free blocks it touches. */
    method Free(b: nat)
      requires Valid() && b in alloc
      modifies this
      ensures Valid() && freep != 0
      ensures alloc == old(alloc) - {b} && owner.Keys == old(owner.Keys)
      ensures Fits(size, fl, old(alloc[b]))
    {
      var p, t := FindPlace(b);
      NextIn(base, ptr, size, fl, alloc, owner, t);
      ghost var q := ptr[p];
      ghost var ptr1, size1 := Ptr1(ptr, size, b, q), Size1(size, b, q);
      ghost var fl', owner', k := FreeOk(base, ptr, size, fl, alloc, owner, b, t, p, q, ptr1, size1);
      Join(p, b);
      freep := p;
      fl, owner, alloc := fl', owner', alloc - {b};
    }

    /**
     Adds a region from the system to the free list.  `grant` is where the system puts it, if it gives one;
     when it answers without giving one is said by AskSystem.
     */
    method Morecore(nu: nat, grant: Option<nat>) returns (p: nat)
      requires Valid() && freep != 0 && nu > 0
      requires grant.Some? ==> grant.value > base && Fresh(owner, grant.value, CoreUnits(nu))
      modifies this
      ensures Valid() && freep != 0 && alloc == old(alloc)
      ensures grant.None? ==> p == 0 && unchanged(this)
      ensures grant.Some? ==> p == freep && Fits(size, fl, nu)
      ensures grant.Some? ==> owner.Keys == Extend(old(owner), grant.value, CoreUnits(nu)).Keys
    {
      var n := if nu < MIN_UNITS then MIN_UNITS else nu;
      if grant.None? {
        return 0;
      }
      var g := grant.value;
      GrantOk(base, ptr, size, fl, alloc, owner, g, n);
      size := size[g := n];
      alloc, owner := alloc[g := n], Extend(owner, g, n);
      Free(g);
      p := freep;
    }

    /** Cuts `nunits` out of the fitting block `p`, which follows `prevp` on the list. */
    method Take(prevp: nat, p: nat, nunits: nat, ghost k: nat) returns (z: nat)
      requires Heaped() && freep != 0 && 0 < k < |fl| && p == fl[k] && prevp == fl[k - 1] && size[p] >= nunits > 0
      modifies this
      ensures Heaped() && freep == prevp && z >= p
      ensures z !in old(alloc) && alloc == old(alloc)[z := nunits] && owner.Keys == old(owner.Keys)
      ensures z + nunits == p + old(size[p])
    {
      if size[p] == nunits {
        TakeAll(prevp, p, nunits, k);
        z := p;
      } else {
        z := p + (size[p] - nunits);
        TakeTail(base, ptr, size, fl, alloc, owner, k, p, nunits, z);
        size := size[p := size[p] - nunits][z := nunits];
        owner, alloc := CutOff(owner, z, nunits), alloc[z := nunits];
      }
      freep := prevp;
    }

    /** An exact fit leaves the list whole. */
    method TakeAll(prevp: nat, p: nat, nunits: nat, ghost k: nat)
      requires Heaped() && 0 < k < |fl| && p == fl[k] && prevp == fl[k - 1] && size[p] == nunits
      modifies this`ptr, this`fl, this`alloc
      ensures HeapOk(base, ptr, size, fl, alloc, owner) && prevp in fl
      ensures p !in old(alloc) && alloc == old(alloc)[p := nunits] && ptr == old(ptr)[prevp := old(ptr)[p]]
    {
      ghost var t := k - 1;
      TakeWhole(base, ptr, size, fl, alloc, owner, t, p);
      Positions(fl, t, p);
      ptr := ptr[prevp := ptr[p]];
      fl, alloc := Remove(fl, k), alloc[p := nunits];
    }

    /** The list of a heap that has nothing yet: only `base`. */
    method Start()
      requires Valid() && freep == 0
      modifies this
      ensures Valid() && freep == base && alloc == old(alloc) && owner == old(owner) && |fl| == 1
    {
      ptr, size, freep, fl := ptr[base := base], size[base := 0], base, [base];
    }

    /**
     First fit from `freep` on, growing the heap when a whole round finds nothing.  `grant` is what
     `sbrk` would answer, `calls` how often it is asked: never twice.  `at` is the block that gave
     the memory.
     */
    method Malloc(nbytes: nat, grant: Option<nat>) returns (r: nat, calls: nat, ghost at: nat)
      requires Valid()
      requires grant.Some? ==> grant.value > base && Fresh(owner, grant.value, CoreUnits(Units(nbytes)))
      modifies this
      ensures Valid() && freep != 0 && calls <= 1
      ensures r == 0 <==> calls == 1 && grant.None?
      ensures r == 0 ==> alloc == old(alloc)
      ensures r != 0 ==> r > 1 && r - 1 !in old(alloc) && alloc == old(alloc)[r - 1 := Units(nbytes)]
      ensures owner.Keys == (if calls == 1
                             && grant.Some? then Extend(old(owner), grant.value, CoreUnits(Units(nbytes))).Keys
                             else old(owner.Keys))
      ensures calls == 0 <==> old(freep != 0 && Fits(size, fl, Units(nbytes)))
      ensures calls == 0 ==>
                old(FirstFit(size, fl, freep, at, Units(nbytes))) && r - 1 + Units(nbytes) == at + old(size)[at]
    {
      var nunits := Units(nbytes);
      calls := 0;
      if freep == 0 {
        Start();
      }
      ghost var size0, fl0, freep0, owner0 := size, fl, freep, owner;
      assert old(freep) == 0 ==> !Fits(size0, fl0, nunits);
      var prevp := freep;
      ghost var c := 1;
      ghost var i := Begin(base, ptr, size, fl, alloc, owner, freep, nunits);
      var p := ptr[prevp];
      while size[p] < nunits
        invariant Heaped() && freep != 0 && alloc == old(alloc) && calls <= 1
        invariant Cursor(size, fl, freep, i, c, prevp, p, nunits)
        invariant calls == 0 ==> size == size0 && fl == fl0 && freep == freep0 && owner == owner0
        invariant calls == 1 ==> !Fits(size0, fl0, nunits) && Fits(size, fl, nunits)
        invariant calls == 1 ==> grant.Some? && owner.Keys == Extend(owner0, grant.value, CoreUnits(nunits)).Keys
        decreases 1 - calls, |fl| - c
      {
        if p == freep {
          RoundDone(base, ptr, size, fl, alloc, owner, freep, i, c, prevp, p, nunits);
          p := Morecore(nunits, grant);
          calls := calls + 1;
          if p == 0 {
            return 0, calls, 0;
          }
          i := Begin(base, ptr, size, fl, alloc, owner, freep, nunits);
          c := 1;
        } else {
          Advance(base, ptr, size, fl, alloc, owner, freep, i, c, prevp, p, nunits);
          c := c + 1;
        }
        prevp, p := p, ptr[p];
      }
      ghost var k := Found(base, ptr, size, fl, alloc, owner, freep, i, c, prevp, p, nunits);
      at := p;
      var z := Take(prevp, p, nunits, k);
      r := z + 1;
    }
  }
}
