/**
 Pipes: a ring buffer of 512 bytes with two 32-bit counters.  Each method is one critical section
 under the pipe's lock, from taking the lock to giving it up or going to sleep.
 */
module Pipes {
  import opened Common
  import opened SleepWakeup

  const PIPESIZE := 512
  const WRAP := 0x1_0000_0000
  /** The channels: readers sleep on `nread`, writers on `nwrite`. */
  const READERS := 0
  const WRITERS := 1

  /** What sleepers look at: the number of bytes in the pipe and its two ends. */
  datatype View = View(pending: nat, readopen: bool, writeopen: bool)

  ghost predicate Waiting(v: View, c: nat) {
    (c == READERS && v.pending == 0 && v.writeopen) || (c == WRITERS && v.pending == PIPESIZE && v.readopen)
  }

  /** How a section of `pipewrite` ends. */
  datatype Outcome = Failed | Waits | Finished

  function Wakes(o: Outcome): (r: seq<nat>) { if o == Failed then [] else [READERS] }
  function EndOf(o: Outcome): (r: Ending) { if o == Waits then Sleep(WRITERS) else Return }

  /** The sections of writers, readers and `pipeclose`. */
  ghost predicate Writes(v: View, v': View, k: nat, o: Outcome) {
    && v' == v.(pending := v.pending + k) && v'.pending <= PIPESIZE
    && (o == Waits ==> v'.pending == PIPESIZE && v.readopen)
  }

  ghost predicate Reads(v: View, v': View, wakes: seq<nat>, e: Ending) {
    || (v' == v && wakes == [] && (e == Return || (e == Sleep(READERS) && v.pending == 0 && v.writeopen)))
    || (v'.pending <= v.pending && v' == v.(pending := v'.pending) && wakes == [WRITERS] && e == Return)
  }

  ghost predicate Closes(v: View, v': View, wakes: seq<nat>, e: Ending) {
    e == Return
    && ((v' == v.(writeopen := false) && wakes == [READERS]) || (v' == v.(readopen := false) && wakes == [WRITERS]))
  }

  /**
   A write section that fails after storing `k` bytes leaves readers asleep only if they were asleep on an
   empty pipe.
   */
  ghost predicate Silent(v: View, k: nat, o: Outcome) { o == Failed && k > 0 && v.pending == 0 && v.writeopen }

  /** All sections; with `killed`, also those of writers killed between two bytes. */
  ghost predicate PipeSection(killed: bool, v: View, v': View, wakes: seq<nat>, e: Ending) {
    || (exists k, o :: Writes(v, v', k, o) && wakes == Wakes(o) && e == EndOf(o) && (killed || !Silent(v, k, o)))
    || Reads(v, v', wakes, e) || Closes(v, v', wakes, e)
  }

  /** A write section keeps the discipline of `sleep` if and only if it is not of the silent kind. */
  lemma WriteDiscipline(v: View, v': View, k: nat, o: Outcome)
    requires Writes(v, v', k, o)
    ensures ((forall c :: Waiting(v, c) && !Waiting(v', c) ==> c in Wakes(o))
             && (EndOf(o).Sleep? ==> Waiting(v', EndOf(o).c))) <==> !Silent(v, k, o)
  {
    if Silent(v, k, o) {
      assert Waiting(v, READERS) && !Waiting(v', READERS);
    }
  }

  /** The pipe as a client of `sleep`; with `killed`, writers may leave by the silent exit. */
  ghost function Users(killed: bool): (r: Client<View>) {
    Client((p: nat, v: View, v': View, wakes: seq<nat>, e: Ending) => PipeSection(killed, v, v', wakes, e),
           (v: View, v': View) => false,
           (v: View, q: nat, c: nat) => Waiting(v, c))
  }

  lemma PipeDiscipline()
    ensures Disciplined(Users(false))
  {
    var m := Users(false);
    forall p, v, v', wakes, e | m.sec(p, v, v', wakes, e)
      ensures (forall q, c {:trigger m.cond(v', q, c)} :: q != p && m.cond(v, q, c) && !m.cond(v', q, c) ==> c in wakes)
              && (e.Sleep? ==> m.cond(v', p, e.c)) {
      if k, o :| Writes(v, v', k, o) && wakes == Wakes(o) && e == EndOf(o) && !Silent(v, k, o) {
        WriteDiscipline(v, v', k, o);
      }
    }
  }

  /**
   In every run without silent exits, while the lock is free a sleeping reader sees an empty pipe and a
   sleeping writer a full one.
   */
  lemma PipeSleepers(states: seq<State<View>>, steps: seq<Step<View>>, n: nat, q: nat)
    requires Run(Users(false), states, steps) && Init(states[0]) && n < |states| && q < |states[n].pc|
    requires states[n].holder == None && states[n].pc[q].Asleep?
    ensures states[n].pc[q].c == READERS ==> states[n].r.pending == 0 && states[n].r.writeopen
    ensures states[n].pc[q].c == WRITERS ==> states[n].r.pending == PIPESIZE && states[n].r.readopen
  {
    PipeDiscipline();
    NoLostWakeup(Users(false), states, steps, n, q);
  }

  /** With silent exits it is not so: each leaves a reader that was asleep on the empty pipe asleep beside the bytes. */
  lemma KilledWriter(v0: View, v1: View, k: nat) returns (states: seq<State<View>>, steps: seq<Step<View>>)
    requires Writes(v0, v1, k, Failed) && Silent(v0, k, Failed)
    ensures Run(Users(true), states, steps) && Init(states[0]) && states[0].r == v0
    ensures var s := states[|steps|];
            s.holder == None && |s.pc| == 2 && s.pc[0] == Asleep(READERS) && s.r == v1 && s.r.pending == k > 0
  {
    var sec := Users(true);
    var s0 := State(v0, [Out, Out], None);
    assert Reads(v0, v0, [], Sleep(READERS));
    var t0 := Begin(0, v0, [], Sleep(READERS));
    var s1 := Do(sec, s0, t0);
    var s2 := Do(sec, s1, Finish(0));
    var s3 := Do(sec, s2, LetGo(0));
    var s4 := Do(sec, s3, Fall(0));
    assert PipeSection(true, v0, v1, [], Return);
    var t4 := Begin(1, v1, [], Return);
    var s5 := Do(sec, s4, t4);
    var s6 := Do(sec, s5, Finish(1));
    states, steps := [s0, s1, s2, s3, s4, s5, s6], [t0, Finish(0), LetGo(0), Fall(0), t4, Finish(1)];
  }

  /**
   A call of `pipewrite` with `n` bytes left will leave by the silent exit: the pipe is empty and open, and
   the writer is killed after storing some of the bytes, before the pipe is full and before a copy fails.
   */
  predicate KillSilences(v: View, n: nat, killedAt: Option<nat>, fault: Option<nat>) {
    && v.pending == 0 && v.readopen && v.writeopen && killedAt.Some? && 0 < killedAt.value <= PIPESIZE
    && killedAt.value < n && (fault.Some? ==> killedAt.value <= fault.value)
  }

  // ---- The ring buffer ----

  /** Wrapped counters at most PIPESIZE apart are equal exactly when the counts are. */
  lemma SameCount(a: nat, b: nat)
    requires a <= b <= a + PIPESIZE
    ensures a % WRAP == b % WRAP <==> a == b
  {
    assert b - a == (b / WRAP - a / WRAP) * WRAP + (b % WRAP - a % WRAP);
  }

  lemma FullCount(a: nat, b: nat)
    requires a <= b <= a + PIPESIZE
    ensures (a % WRAP + PIPESIZE) % WRAP == b % WRAP <==> b == a + PIPESIZE
  {
    var c := a + PIPESIZE;
    assert (a % WRAP + PIPESIZE) % WRAP == c % WRAP by {
      assert c == a / WRAP * WRAP + (a % WRAP + PIPESIZE);
    }
    SameCount(b, c);
  }

  /** The ring index survives the wrap, since PIPESIZE divides 2^32. */
  lemma SlotCount(b: nat)
    ensures (b % WRAP) % PIPESIZE == b % PIPESIZE
  {
    var q, r := b / WRAP, b % WRAP;
    assert b == PIPESIZE * (0x80_0000 * q + r / PIPESIZE) + r % PIPESIZE;
  }

  lemma NextCount(b: nat)
    ensures (b % WRAP + 1) % WRAP == (b + 1) % WRAP
  {
    assert b + 1 == b / WRAP * WRAP + (b % WRAP + 1);
  }

  lemma OtherSlot(a: nat, k: nat, b: nat)
    requires a <= k < b < a + PIPESIZE
    ensures k % PIPESIZE != b % PIPESIZE
  {
  }

  class Pipe<D(0)> {
    const data: array<D>
    var nread: nat
    var nwrite: nat
    var readopen: bool
    var writeopen: bool
    /** All bytes ever stored and all bytes ever handed out. */
    ghost var written: seq<D>
    ghost var delivered: seq<D>

    /** The counters are the lengths, wrapped at 32 bits; the bytes in between are in the ring, in order. */
    ghost predicate Valid() reads this, data {
      && data.Length == PIPESIZE && |delivered| <= |written| <= |delivered| + PIPESIZE
      && delivered == written[..|delivered|]
      && nread == |delivered| % WRAP && nwrite == |written| % WRAP
      && forall k :: |delivered| <= k < |written| ==> data[k % PIPESIZE] == written[k]
    }

    ghost function Sight(): (r: View)
      reads this
      requires |delivered| <= |written|
    {
      View(|written| - |delivered|, readopen, writeopen)
    }

    constructor ()
      ensures Valid() && fresh(data) && readopen && writeopen && written == delivered == []
    {
      data := new D[PIPESIZE];
      nread, nwrite, readopen, writeopen, written, delivered := 0, 0, true, true, [], [];
    }

    /** Stores one byte in a pipe that is not full. */
    method Put(ch: D)
      requires Valid() && |written| < |delivered| + PIPESIZE
      modifies this`nwrite, this`written, data
      ensures Valid() && written == old(written) + [ch]
    {
      ghost var w := |written|;
      SlotCount(w);
      NextCount(w);
      forall k | |delivered| <= k < w ensures k % PIPESIZE != w % PIPESIZE {
        OtherSlot(|delivered|, k, w);
      }
      data[nwrite % PIPESIZE] := ch;
      nwrite := (nwrite + 1) % WRAP;
      written := written + [ch];
    }

    /**
     A section of `pipewrite` that has already stored the first `i` bytes of `src`.  The process is
     killed when `killedAt` more have been stored, the copy from user space fails when `fault` have.
     */
    method Write(src: seq<D>, i: nat, killedAt: Option<nat>, fault: Option<nat>) returns (j: nat, o: Outcome)
      requires Valid() && i <= |src|
      modifies this`nwrite, this`written, data
      ensures Valid() && i <= j <= |src| && written == old(written) + src[i..j]
      ensures Writes(old(Sight()), Sight(), j - i, o)
      ensures o == Failed <==> j < |src| && (!readopen || killedAt == Some(j - i))
      ensures !readopen ==> j == i
      ensures o == Finished ==> j == |src| || fault == Some(j - i)
      ensures killedAt.Some? ==> j - i <= killedAt.value
      ensures fault.Some? ==> j - i <= fault.value
      ensures Silent(old(Sight()), j - i, o) <==> KillSilences(old(Sight()), |src| - i, killedAt, fault)
    {
      j := i;
      while j < |src|
        invariant i <= j <= |src| && Valid() && written == old(written) + src[i..j]
        invariant j > i ==> readopen
        invariant (killedAt.Some? ==> j - i <= killedAt.value) && (fault.Some? ==> j - i <= fault.value)
      {
        FullCount(|delivered|, |written|);
        if !readopen || killedAt == Some(j - i) {
          return j, Failed;
        }
        if nwrite == (nread + PIPESIZE) % WRAP {
          return j, Waits;
        }
        if fault == Some(j - i) {
          return j, Finished;
        }
        Put(src[j]);
        assert src[i..j + 1] == src[i..j] + [src[j]];
        j := j + 1;
      }
      o := Finished;
    }

    /** Hands out the oldest byte of a pipe that is not empty. */
    method Get() returns (ch: D)
      requires Valid() && |delivered| < |written|
      modifies this`nread, this`delivered
      ensures Valid() && ch == written[|old(delivered)|] && delivered == old(delivered) + [ch]
    {
      ghost var d := |delivered|;
      SlotCount(d);
      NextCount(d);
      ch := data[nread % PIPESIZE];
      nread := (nread + 1) % WRAP;
      delivered := delivered + [ch];
      assert written[..d + 1] == written[..d] + [written[d]];
    }

    /**
     A section of `piperead`: waits, fails, or takes up to `n` bytes; a failed copy to user space, that of
     byte `fault`, takes nothing more.
     */
    method Read(n: nat, killed: bool, fault: Option<nat>)
      returns (r: int, bytes: seq<D>, ghost wakes: seq<nat>, ghost e: Ending)
      requires Valid()
      modifies this`nread, this`delivered
      ensures Valid() && delivered == old(delivered) + bytes && |bytes| <= n
      ensures Reads(old(Sight()), Sight(), wakes, e)
      ensures e == Return && wakes == [WRITERS] ==>
                r == if |bytes| == 0 && fault == Some(0) && n > 0 && old(|delivered| < |written|) then -1 else |bytes|
      ensures wakes == [WRITERS] ==> |bytes| == n || delivered == written || fault == Some(|bytes|)
      ensures fault.Some? ==> |bytes| <= fault.value
      ensures wakes == (if old(Sight()).pending == 0 && writeopen then [] else [WRITERS])
      ensures wakes == [] ==> bytes == [] && r == -1 && (e == Return <==> killed)
    {
      bytes := [];
      SameCount(|delivered|, |written|);
      if nread == nwrite && writeopen {
        r, wakes, e := -1, [], if killed then Return else Sleep(READERS);
        return;
      }
      r, wakes, e := 0, [WRITERS], Return;
      while r < n
        invariant 0 <= r <= n && r == |bytes| && Valid() && delivered == old(delivered) + bytes
        invariant fault.Some? ==> r <= fault.value
      {
        SameCount(|delivered|, |written|);
        if nread == nwrite {
          return;
        }
        if fault == Some(r) {
          r := if r == 0 then -1 else r;
          return;
        }
        var ch := Get();
        bytes := bytes + [ch];
        r := r + 1;
      }
    }

    /** Closes one end: the one for writing if `writable`. */
    method Close(writable: bool) returns (ghost wakes: seq<nat>)
      requires Valid()
      modifies this`readopen, this`writeopen
      ensures Valid() && Closes(old(Sight()), Sight(), wakes, Return)
      ensures writable ==> !writeopen && readopen == old(readopen) && wakes == [READERS]
      ensures !writable ==> !readopen && writeopen == old(writeopen) && wakes == [WRITERS]
    {
      if writable {
        writeopen := false;
        wakes := [READERS];
      } else {
        readopen := false;
        wakes := [WRITERS];
      }
    }
  }

  /**
   The last writer closes its end: once the bytes are used up a reader does not wait, but sees the end of the
   file.
   */
  method EndOfFile<D(0)>(p: Pipe<D>, n: nat, killed: bool, fault: Option<nat>)
    returns (r: int, bytes: seq<D>, ghost e: Ending)
    requires p.Valid() && p.delivered == p.written
    modifies p
    ensures p.Valid() && r == 0 && bytes == [] && e == Return && p.delivered == p.written == old(p.written)
  {
    ghost var wakes := p.Close(true);
    r, bytes, wakes, e := p.Read(n, killed, fault);
  }

  /** And a writer does not wait once the last reader has closed its end: it fails, and stores nothing. */
  method BrokenPipe<D(0)>(p: Pipe<D>, src: seq<D>, i: nat, killedAt: Option<nat>, fault: Option<nat>)
    returns (j: nat, o: Outcome)
    requires p.Valid() && i < |src|
    modifies p, p.data
    ensures p.Valid() && o == Failed && j == i && p.written == old(p.written)
  {
    ghost var wakes := p.Close(false);
    j, o := p.Write(src, i, killedAt, fault);
  }

  /** Such a silenced call on a real pipe, and the run that leaves a reader asleep beside the bytes it stored. */
  method LosesWakeup<D(0)>(p: Pipe<D>, src: seq<D>, i: nat, killedAt: Option<nat>, fault: Option<nat>)
    returns (o: Outcome, ghost states: seq<State<View>>, ghost steps: seq<Step<View>>)
    requires p.Valid() && i <= |src| && KillSilences(p.Sight(), |src| - i, killedAt, fault)
    modifies p, p.data
    ensures p.Valid() && o == Failed && Run(Users(true), states, steps) && Init(states[0])
    ensures states[0].r == old(p.Sight()) && states[|steps|].r == p.Sight() && p.Sight().pending == killedAt.value
    ensures p.written == old(p.written) + src[i..i + killedAt.value]
    ensures var s := states[|steps|]; s.holder == None && |s.pc| == 2 && s.pc[0] == Asleep(READERS)
  {
    ghost var v0 := p.Sight();
    var j: nat;
    j, o := p.Write(src, i, killedAt, fault);
    states, steps := KilledWriter(v0, p.Sight(), j - i);
  }

  /** A new pipe, two bytes to write, and a writer killed after the first. */
  method OneByteBehind() returns (p: Pipe<nat>, ghost states: seq<State<View>>, ghost steps: seq<Step<View>>)
    ensures fresh(p) && p.Valid() && Run(Users(true), states, steps) && Init(states[0]) && p.written == [7]
    ensures var s := states[|steps|]; s.holder == None && |s.pc| == 2 && s.pc[0] == Asleep(READERS) && s.r == p.Sight()
  {
    p := new Pipe();
    var o, ss, ts := LosesWakeup(p, [7, 8], 0, Some(1), None);
    states, steps := ss, ts;
  }
}
