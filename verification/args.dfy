/**
 The arguments of `exec` on the new stack page: the strings from the top down, each on a 16-byte
 boundary, and below them the array of their addresses.  What `main` finds by following the array
 is what the caller passed.
 */
module Arguments {
  import opened Common
  import opened Vm
  import opened UserCopy

  const MAXARG := 32
  const WORD := 0x1_0000_0000_0000_0000

  // ---- Words in memory ----

  /** The value of bytes in memory, low byte first. */
  function Value(b: seq<byte>): (r: nat) {
    if b == [] then 0 else b[0] + 256 * Value(b[1..])
  }

  /** `n` bytes of a number, low byte first. */
  function Low(x: nat, n: nat): (r: seq<byte>)
    ensures |r| == n
  {
    if n == 0 then [] else [x % 256] + Low(x / 256, n - 1)
  }

  function Power(n: nat): (r: nat)
    ensures r > 0
  {
    if n == 0 then 1 else 256 * Power(n - 1)
  }

  lemma {:induction false} LowValue(x: nat, n: nat)
    requires x < Power(n)
    ensures Value(Low(x, n)) == x
  {
    if n > 0 {
      LowValue(x / 256, n - 1);
      assert Low(x, n)[1..] == Low(x / 256, n - 1);
    }
  }

  /** A 64-bit number. */
  function Word(x: nat): (r: seq<byte>)
    ensures |r| == 8
  {
    Low(x, 8)
  }

  lemma WordValue(x: nat)
    requires x < WORD
    ensures Value(Word(x)) == x
  {
    assert Power(2) == 0x1_0000;
    assert Power(4) == 0x1_0000_0000;
    assert Power(6) == 0x1_0000_0000_0000;
    assert Power(8) == WORD;
    LowValue(x, 8);
  }

  // ---- The layout ----

  function Down(x: int): (r: int)
    ensures r <= x < r + 16 && r % 16 == 0
  {
    x - x % 16
  }

  /** Where the last of the first `n` arguments starts, from the bottom of the stack page; below 0 there is no room. */
  function Off(args: seq<seq<byte>>, n: nat): (r: int)
    requires n <= |args|
    ensures r <= PGSIZE - n && r % 16 == 0
  {
    if n == 0 then PGSIZE else Down(Off(args, n - 1) - |args[n - 1]| - 1)
  }

  /** Where the array of addresses starts. */
  function Top(args: seq<seq<byte>>): (r: int) { Down(Off(args, |args|) - 8 * (|args| + 1)) }

  /** There are few enough arguments, and they fit. */
  predicate ArgsFit(args: seq<seq<byte>>) { |args| < MAXARG && Top(args) >= 0 }

  /** C strings. */
  ghost predicate Strings(args: seq<seq<byte>>) {
    forall i :: 0 <= i < |args| ==> 0 !in args[i]
  }

  lemma {:induction false} OffFalls(args: seq<seq<byte>>, i: nat, n: nat)
    requires i <= n <= |args|
    ensures Off(args, n) <= Off(args, i) && (i < n ==> Off(args, n) <= Off(args, i) - |args[i]| - 1)
  {
    if i < n {
      OffFalls(args, i, n - 1);
    }
  }

  /** The page after the first `n` arguments. */
  function PageAfter(args: seq<seq<byte>>, n: nat): (r: Bytes)
    requires n <= |args| && Off(args, n) >= 0
  {
    if n == 0 then ZeroPage()
    else
      OffFalls(args, n - 1, n);
      Patch(PageAfter(args, n - 1), Off(args, n), args[n - 1] + [0])
  }

  /** The addresses of the first `n` arguments, the page being at `base`. */
  function Pointers(args: seq<seq<byte>>, n: nat, base: nat): (r: seq<byte>)
    requires n <= |args| && Off(args, n) >= 0
    ensures |r| == 8 * n
  {
    if n == 0 then []
    else
      OffFalls(args, n - 1, n);
      Pointers(args, n - 1, base) + Word(base + Off(args, n))
  }

  lemma OffsFit(args: seq<seq<byte>>, i: nat)
    requires ArgsFit(args) && i <= |args|
    ensures 0 <= Top(args) <= Off(args, |args|) - 8 * (|args| + 1) && Off(args, |args|) <= Off(args, i)
  {
    OffFalls(args, i, |args|);
  }

  /** The finished stack page. */
  function StackPage(args: seq<seq<byte>>, base: nat): (r: Bytes)
    requires ArgsFit(args)
  {
    OffsFit(args, |args|);
    Patch(PageAfter(args, |args|), Top(args), Pointers(args, |args|, base) + Word(0))
  }

  // ---- Writing it ----

  predicate KeyWritten(u: int) { true }

  /**
   On the stack page at address `stack`, the first `n` arguments are in place, the last at `sp`; `us` has
   their addresses.
   */
  ghost predicate Written(args: seq<seq<byte>>, n: nat, stack: nat, sp: int, us: seq<byte>, page: Bytes) {
    forall u {:trigger KeyWritten(u)} :: KeyWritten(u) ==>
      && n <= |args| && stack % PGSIZE == 0 && Off(args, n) >= 0 && sp == stack + Off(args, n)
      && us == Pointers(args, n, stack) && page == PageAfter(args, n)
  }

  lemma WrittenNone(args: seq<seq<byte>>, stack: nat)
    requires stack % PGSIZE == 0
    ensures Written(args, 0, stack, stack + PGSIZE, [], ZeroPage())
  {
  }

  /** Rounding an address down is rounding its offset in the page down. */
  lemma DownPage(stack: nat, x: int, o: int)
    requires x == stack + o && stack % PGSIZE == 0
    ensures x - x % 16 == stack + Down(o)
  {
  }

  /** One more string, if there is room. */
  lemma WrittenNext(args: seq<seq<byte>>, n: nat, q: nat, stack: nat, x: int, us: seq<byte>, page: Bytes, s: seq<byte>,
                    y: int, sp: int)
    requires Written(args, n, stack, x, us, page) && n < |args| && q == n + 1 && s == args[n] + [0] && y == x - |s|
             && sp == y - y % 16
    ensures sp < stack ==> !ArgsFit(args)
    ensures sp >= stack ==>
              sp - stack + |s| <= PGSIZE && Written(args, q, stack, sp, us + Word(sp), Patch(page, sp - stack, s))
  {
    assert KeyWritten(0);
    OffFalls(args, n, q);
    OffFalls(args, q, |args|);
    DownPage(stack, y, Off(args, n) - |s|);
  }

  predicate KeyStack(u: int) { true }

  /** The stack page at `stack` is finished, with the array at `sp`. */
  ghost predicate Stacked(args: seq<seq<byte>>, stack: nat, sp: int, page: Bytes) {
    forall u {:trigger KeyStack(u)} :: KeyStack(u) ==>
      ArgsFit(args) && sp == stack + Top(args) && page == StackPage(args, stack)
  }

  lemma Finished(args: seq<seq<byte>>, stack: nat, page: Bytes, words: seq<byte>, o: nat)
    requires ArgsFit(args) && o == Top(args) && Off(args, |args|) >= 0 && page == PageAfter(args, |args|)
    requires words == Pointers(args, |args|, stack) + Word(0)
    ensures o + |words| <= PGSIZE && Patch(page, o, words) == StackPage(args, stack)
  {
    OffsFit(args, |args|);
  }

  /** Where the array goes. */
  lemma ArrayAt(args: seq<seq<byte>>, n: nat, stack: nat, x: int, y: int, sp: int)
    requires n == |args| && stack % PGSIZE == 0 && x == stack + Off(args, n) && y == x - 8 * (n + 1) && sp == y - y % 16
    ensures sp == stack + Top(args)
  {
    DownPage(stack, y, Off(args, n) - 8 * (n + 1));
  }

  /** The array of addresses, if there is room. */
  lemma WrittenArray(args: seq<seq<byte>>, stack: nat, x: int, us: seq<byte>, page: Bytes, words: seq<byte>, y: int,
                     sp: int)
    requires Written(args, |args|, stack, x, us, page) && |args| < MAXARG && words == us + Word(0) && y == x - |words|
             && sp == y - y % 16
    ensures sp >= stack <==> ArgsFit(args)
    ensures sp >= stack ==> sp - stack + |words| <= PGSIZE && Stacked(args, stack, sp, Patch(page, sp - stack, words))
  {
    assert KeyWritten(0);
    ArrayAt(args, |args|, stack, x, y, sp);
    if ArgsFit(args) {
      Finished(args, stack, page, words, sp - stack);
    }
  }

  // ---- What the program finds ----

  /** String `s` and the zero after it are at `o`. */
  ghost predicate StringAt(page: seq<byte>, o: int, s: seq<byte>) {
    0 <= o && o + |s| < |page| && page[o..o + |s| + 1] == s + [0]
  }

  /** The number at `o`. */
  function Pointer(page: seq<byte>, o: int): (r: nat) {
    if 0 <= o && o + 8 <= |page| then Value(page[o..o + 8]) else 0
  }

  /** Place `i` of the array at `sp` holds the address of argument `i`. */
  ghost predicate Leads(page: seq<byte>, base: nat, sp: int, args: seq<seq<byte>>, i: nat)
    requires i < |args|
  {
    0 <= sp && sp + 8 * (i + 1) <= |page| && StringAt(page, Pointer(page, sp + 8 * i) - base, args[i])
  }

  /** The array at `sp` leads to the arguments, and ends with 0. */
  ghost predicate MainFinds(page: seq<byte>, base: nat, sp: int, args: seq<seq<byte>>) {
    Pointer(page, sp + 8 * |args|) == 0 && forall i :: 0 <= i < |args| ==> Leads(page, base, sp, args, i)
  }

  lemma PatchString(p: Bytes, o: nat, s: seq<byte>)
    requires o + |s| < PGSIZE
    ensures StringAt(Patch(p, o, s + [0]), o, s)
  {
    assert Patch(p, o, s + [0])[o..o + |s| + 1] == s + [0];
  }

  /** What is above a change stays. */
  lemma PatchKeeps(p: Bytes, o: nat, d: seq<byte>, q: int, t: seq<byte>)
    requires StringAt(p, q, t) && o + |d| <= q
    ensures StringAt(Patch(p, o, d), q, t)
  {
    assert Patch(p, o, d)[q..q + |t| + 1] == p[q..q + |t| + 1];
  }

  lemma PatchPointer(p: Bytes, o: nat, d: seq<byte>, a: nat, x: nat)
    requires o + |d| <= PGSIZE && a + 8 <= |d| && d[a..a + 8] == Word(x) && x < WORD
    ensures Pointer(Patch(p, o, d), o + a) == x
  {
    assert Patch(p, o, d)[o + a..o + a + 8] == d[a..a + 8];
    WordValue(x);
  }

  lemma {:induction false} StringsThere(args: seq<seq<byte>>, n: nat, i: nat)
    requires i < n <= |args| && Off(args, n) >= 0
    ensures StringAt(PageAfter(args, n), Off(args, i + 1), args[i])
  {
    OffFalls(args, n - 1, n);
    var p, o, s := PageAfter(args, n - 1), Off(args, n), args[n - 1];
    if i == n - 1 {
      PatchString(p, o, s);
    } else {
      StringsThere(args, n - 1, i);
      OffFalls(args, i + 1, n - 1);
      PatchKeeps(p, o, s + [0], Off(args, i + 1), args[i]);
    }
  }

  lemma {:induction false} PointerThere(args: seq<seq<byte>>, n: nat, i: nat, base: nat)
    requires i < n <= |args| && Off(args, n) >= 0
    ensures Off(args, i + 1) >= 0 && Pointers(args, n, base)[8 * i..8 * i + 8] == Word(base + Off(args, i + 1))
  {
    OffFalls(args, n - 1, n);
    OffFalls(args, i + 1, n);
    var before := Pointers(args, n - 1, base);
    if i < n - 1 {
      PointerThere(args, n - 1, i, base);
      assert Pointers(args, n, base)[8 * i..8 * i + 8] == before[8 * i..8 * i + 8];
    } else {
      assert Pointers(args, n, base)[8 * i..8 * i + 8] == Word(base + Off(args, n));
    }
  }

  /** An array of addresses written below a string, with the string's address in place `i`. */
  lemma ArrayBelow(p: Bytes, top: nat, d: seq<byte>, base: nat, q: int, args: seq<seq<byte>>, i: nat, page: Bytes)
    requires i < |args| && StringAt(p, q, args[i]) && top + |d| <= q && 8 * i + 8 <= |d|
             && d[8 * i..8 * i + 8] == Word(base + q) && base + q < WORD
    requires page == Patch(p, top, d)
    ensures Leads(page, base, top, args, i)
  {
    PatchKeeps(p, top, d, q, args[i]);
    PatchPointer(p, top, d, 8 * i, base + q);
  }

  lemma InFront(ps: seq<byte>, a: nat)
    requires a + 8 <= |ps|
    ensures (ps + Word(0))[a..a + 8] == ps[a..a + 8]
  {
  }

  /** The parts of the stack page where argument `i` is found. */
  lemma PartsThere(args: seq<seq<byte>>, base: nat, i: nat, p: Bytes, d: seq<byte>, q: int)
    requires ArgsFit(args) && i < |args| && q == Off(args, i + 1) && Off(args, |args|) >= 0
    requires p == PageAfter(args, |args|) && d == Pointers(args, |args|, base) + Word(0)
    ensures StringAt(p, q, args[i]) && 0 <= q < PGSIZE && 8 * i + 8 <= |d| && d[8 * i..8 * i + 8] == Word(base + q)
  {
    StringsThere(args, |args|, i);
    PointerThere(args, |args|, i, base);
    InFront(Pointers(args, |args|, base), 8 * i);
  }

  lemma LeadsOne(args: seq<seq<byte>>, base: nat, i: nat, p: Bytes, d: seq<byte>, top: nat, page: Bytes)
    requires ArgsFit(args) && i < |args| && base + PGSIZE < WORD && Off(args, |args|) >= 0
             && top + |d| <= Off(args, |args|)
    requires p == PageAfter(args, |args|) && d == Pointers(args, |args|, base) + Word(0) && page == Patch(p, top, d)
    ensures Leads(page, base, top, args, i)
  {
    var q := Off(args, i + 1);
    OffFalls(args, i + 1, |args|);
    PartsThere(args, base, i, p, d, q);
    ArrayBelow(p, top, d, base, q, args, i, page);
  }

  /** The round trip: the program finds the arguments that were passed. */
  lemma ArgumentsArrive(args: seq<seq<byte>>, base: nat)
    requires ArgsFit(args) && base + PGSIZE < WORD
    ensures MainFinds(StackPage(args, base), base, Top(args), args)
  {
    OffsFit(args, |args|);
    var p, ps, top, page := PageAfter(args, |args|), Pointers(args, |args|, base), Top(args), StackPage(args, base);
    var d, a := ps + Word(0), 8 * |args|;
    assert d[a..a + 8] == Word(0);
    PatchPointer(p, top, d, a, 0);
    forall i | 0 <= i < |args| ensures Leads(page, base, top, args, i) {
      LeadsOne(args, base, i, p, d, top, page);
    }
  }

  lemma TopRange(args: seq<seq<byte>>)
    requires ArgsFit(args)
    ensures 0 <= Top(args) < PGSIZE && Top(args) % 16 == 0
  {
  }

  /** What `exec` leaves on the stack is what `main` is to find. */
  lemma StackedFinds(args: seq<seq<byte>>, stack: nat, sp: int, page: Bytes)
    requires Stacked(args, stack, sp, page) && stack + PGSIZE < WORD
    ensures stack <= sp < stack + PGSIZE && (sp - stack) % 16 == 0 && MainFinds(page, stack, sp - stack, args)
  {
    assert KeyStack(0);
    var top := Top(args);
    TopRange(args);
    ArgumentsArrive(args, stack);
    assert sp - stack == top;
  }

  lemma StringEnds(page: seq<byte>, o: int, s: seq<byte>)
    requires StringAt(page, o, s)
    ensures page[o + |s|] == 0 && page[o..o + |s|] == s
  {
    assert page[o + |s|] == page[o..o + |s| + 1][|s|] == (s + [0])[|s|];
    assert page[o..o + |s|] == page[o..o + |s| + 1][..|s|] == (s + [0])[..|s|];
  }

  lemma StringBelow(page: seq<byte>, o: int, s: seq<byte>, j: nat)
    requires StringAt(page, o, s) && 0 !in s && o + j < |page| && page[o + j] == 0
    ensures |s| <= j
  {
    StringEnds(page, o, s);
    assert forall k :: 0 <= k < |s| ==> page[o + k] == page[o..o + |s|][k] && s[k] in s;
  }

  /** There is one string at an address. */
  lemma SameString(page: seq<byte>, o: int, s: seq<byte>, t: seq<byte>)
    requires StringAt(page, o, s) && StringAt(page, o, t) && 0 !in s && 0 !in t
    ensures s == t
  {
    StringEnds(page, o, s);
    StringEnds(page, o, t);
    StringBelow(page, o, s, |t|);
    StringBelow(page, o, t, |s|);
  }

  lemma SameCount(page: seq<byte>, base: nat, sp: int, args: seq<seq<byte>>, n: nat)
    requires base > 0 && Pointer(page, sp + 8 * n) == 0
             && forall i :: 0 <= i < |args| ==> Leads(page, base, sp, args, i)
    ensures |args| <= n
  {
    assert n < |args| ==> Leads(page, base, sp, args, n);
  }

  /** And no others: what the program finds tells the arguments. */
  lemma OneReading(page: seq<byte>, base: nat, sp: int, args: seq<seq<byte>>, args': seq<seq<byte>>)
    requires MainFinds(page, base, sp, args) && MainFinds(page, base, sp, args') && Strings(args) && Strings(args')
             && base > 0
    ensures args == args'
  {
    SameCount(page, base, sp, args, |args'|);
    SameCount(page, base, sp, args', |args|);
    forall i | 0 <= i < |args| ensures args[i] == args'[i] {
      assert Leads(page, base, sp, args, i) && Leads(page, base, sp, args', i);
      SameString(page, Pointer(page, sp + 8 * i) - base, args[i], args'[i]);
    }
  }
}
