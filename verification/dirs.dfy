/**
 Directories as files: sixteen bytes an entry, a number and a name of at most fourteen bytes.  The
 operations read and write the file through `readi` and `writei`, and do to the entries in it what
 the module of link counts takes them to do.
 */
module DirFiles {
  import opened Common
  import opened Inodes
  import opened Files
  import L = Links

  const DIRENT := 16

  // ---- Names ----

  /** The bytes of a C string as a string. */
  function Text(b: seq<byte>): (r: string)
    ensures |r| == |b| && forall i :: 0 <= i < |b| ==> r[i] == b[i] as char
  {
    seq(|b|, i requires 0 <= i < |b| => b[i] as char)
  }

  lemma TextSame(a: seq<byte>, b: seq<byte>)
    ensures Text(a) == Text(b) <==> a == b
  {
    if Text(a) == Text(b) {
      assert |a| == |b|;
      forall i | 0 <= i < |a| ensures a[i] == b[i] {
        assert Text(a)[i] == Text(b)[i];
      }
    }
  }

  function Cut(name: seq<byte>): (r: seq<byte>) { if |name| <= L.DIRSIZ then name else name[..L.DIRSIZ] }

  function Zeros(n: nat): (r: seq<byte>)
    ensures |r| == n && forall i :: 0 <= i < n ==> r[i] == 0
  {
    if n == 0 then [] else Zeros(n - 1) + [0]
  }

  /** What `strncpy` leaves in the name field. */
  function Field(name: seq<byte>): (r: seq<byte>)
    ensures |r| == L.DIRSIZ
  {
    Cut(name) + Zeros(L.DIRSIZ - |Cut(name)|)
  }

  /** The name in a field: up to the first zero. */
  function NameOf(field: seq<byte>): (r: seq<byte>)
    ensures |r| <= |field|
  {
    if field == [] || field[0] == 0 then [] else [field[0]] + NameOf(field[1..])
  }

  /** `k` bytes without a zero come first in the name. */
  lemma {:induction false} NameStarts(field: seq<byte>, k: nat)
    requires k <= |field| && forall j :: 0 <= j < k ==> field[j] != 0
    ensures NameOf(field) == field[..k] + NameOf(field[k..])
    decreases k
  {
    if k == 0 {
      assert field[0..] == field;
    } else {
      NameStarts(field[1..], k - 1);
      assert field[1..][k - 1..] == field[k..];
      assert field[..k] == [field[0]] + field[1..][..k - 1];
    }
  }

  lemma NameEnds(field: seq<byte>, k: nat)
    requires k <= |field| && (forall j :: 0 <= j < k ==> field[j] != 0) && (k == |field| || field[k] == 0)
    ensures NameOf(field) == field[..k]
  {
    NameStarts(field, k);
    assert field[..k] + [] == field[..k];
  }

  lemma {:induction false} NoZeroInName(field: seq<byte>)
    ensures 0 !in NameOf(field)
  {
    if field != [] && field[0] != 0 {
      NoZeroInName(field[1..]);
    }
  }

  /** A name survives being stored, cut to fourteen bytes. */
  lemma NameStored(name: seq<byte>)
    requires 0 !in name
    ensures NameOf(Field(name)) == Cut(name)
  {
    NameEnds(Field(name), |Cut(name)|);
    assert Field(name)[..|Cut(name)|] == Cut(name);
  }

  function ByteAt(s: seq<byte>, k: nat): (r: byte) { if k < |s| then s[k] else 0 }

  /** `strncmp` of a string and a name field. */
  method Namecmp(name: seq<byte>, field: seq<byte>) returns (same: bool)
    requires 0 !in name && |field| == L.DIRSIZ
    ensures same <==> Cut(name) == NameOf(field)
  {
    var k := 0;
    while k < L.DIRSIZ && ByteAt(name, k) != 0 && ByteAt(name, k) == field[k]
      invariant 0 <= k <= L.DIRSIZ && k <= |name| && name[..k] == field[..k]
    {
      k := k + 1;
    }
    same := k == L.DIRSIZ || ByteAt(name, k) == field[k];
    CompareStops(name, field, k);
  }

  lemma CompareStops(name: seq<byte>, field: seq<byte>, k: nat)
    requires 0 !in name && |field| == L.DIRSIZ && k <= L.DIRSIZ && k <= |name| && name[..k] == field[..k]
    requires k == L.DIRSIZ || ByteAt(name, k) == 0 || ByteAt(name, k) != field[k]
    ensures k == L.DIRSIZ || ByteAt(name, k) == field[k] <==> Cut(name) == NameOf(field)
  {
    forall j | 0 <= j < k ensures field[j] == name[j] != 0 {
      assert name[..k][j] == field[..k][j];
      assert name[j] in name;
    }
    if k == L.DIRSIZ || ByteAt(name, k) == field[k] {
      StopSame(name, field, k);
    } else {
      StopDifferent(name, field, k);
    }
  }

  lemma StopSame(name: seq<byte>, field: seq<byte>, k: nat)
    requires 0 !in name && |field| == L.DIRSIZ && k <= L.DIRSIZ && k <= |name| && name[..k] == field[..k]
             && forall j :: 0 <= j < k ==> field[j] != 0
    requires k == L.DIRSIZ || (ByteAt(name, k) == field[k] == 0)
    ensures Cut(name) == NameOf(field)
  {
    NameEnds(field, k);
    if k < |name| {
      assert name[k] in name;
    }
  }

  /** After `k` bytes that are not zero the next byte of the name is the next byte of the field. */
  lemma NameNext(field: seq<byte>, k: nat)
    requires k < |field| && forall j :: 0 <= j < k ==> field[j] != 0
    ensures ByteAt(NameOf(field), k) == field[k]
  {
    NameStarts(field, k);
    assert NameOf(field)[k..] == NameOf(field[k..]);
  }

  lemma StopDifferent(name: seq<byte>, field: seq<byte>, k: nat)
    requires |field| == L.DIRSIZ && k < L.DIRSIZ && k <= |name| && forall j :: 0 <= j < k ==> field[j] != 0
    requires ByteAt(name, k) != field[k]
    ensures Cut(name) != NameOf(field)
  {
    NameNext(field, k);
    assert ByteAt(Cut(name), k) == ByteAt(name, k);
  }

  /** Comparing bytes is comparing the names as the link counts see them. */
  lemma SameNames(name: seq<byte>, field: seq<byte>)
    requires |field| == L.DIRSIZ
    ensures Cut(name) == NameOf(field) <==> L.Cut(Text(NameOf(field))) == L.Cut(Text(name))
  {
    assert L.Cut(Text(name)) == Text(Cut(name));
    TextSame(Cut(name), NameOf(field));
  }

  // ---- Entries ----

  /** Entry `k` of a directory's contents. */
  function EntryAt(c: seq<byte>, k: nat): (r: L.Entry)
    requires DIRENT * (k + 1) <= |c|
  {
    var at := DIRENT * k;
    L.Entry(c[at] + 0x100 * (c[at + 1] as int), Text(NameOf(c[at + 2..at + DIRENT])))
  }

  function FirstEntries(c: seq<byte>, n: nat): (r: seq<L.Entry>)
    requires DIRENT * n <= |c|
    ensures |r| == n && forall k :: 0 <= k < n ==> r[k] == EntryAt(c, k)
  {
    if n == 0 then [] else FirstEntries(c, n - 1) + [EntryAt(c, n - 1)]
  }

  function Entries(c: seq<byte>): (r: seq<L.Entry>) { FirstEntries(c, |c| / DIRENT) }

  /** The bytes of an entry; the number is cut to sixteen bits. */
  function Encode(inum: nat, name: seq<byte>): (r: seq<byte>)
    ensures |r| == DIRENT
  {
    [inum % 0x100, inum / 0x100 % 0x100] + Field(name)
  }

  /** An entry survives being stored. */
  lemma EntryStored(inum: nat, name: seq<byte>)
    requires 0 !in name
    ensures EntryAt(Encode(inum, name), 0) == L.Entry(inum % 0x1_0000, L.Cut(Text(name)))
  {
    NameStored(name);
    assert Encode(inum, name)[2..DIRENT] == Field(name);
    assert L.Cut(Text(name)) == Text(Cut(name));
  }

  /** Slot `k` becomes `e`; `k` may be the first slot past the end. */
  function PutEntry(es: seq<L.Entry>, k: nat, e: L.Entry): (r: seq<L.Entry>)
    requires k <= |es|
  {
    if k < |es| then es[k := e] else es + [e]
  }

  lemma EntrySame(c: seq<byte>, c': seq<byte>, k: nat, k': nat)
    requires DIRENT * (k + 1) <= |c| && DIRENT * (k' + 1) <= |c'|
             && c[DIRENT * k..DIRENT * k + DIRENT] == c'[DIRENT * k'..DIRENT * k' + DIRENT]
    ensures EntryAt(c, k) == EntryAt(c', k')
  {
    var s := c[DIRENT * k..DIRENT * k + DIRENT];
    var a, b := DIRENT * k, DIRENT * k';
    assert c[a] == s[0] && c[a + 1] == s[1] && c[a + 2..a + DIRENT] == s[2..];
    assert c'[b] == s[0] && c'[b + 1] == s[1] && c'[b + 2..b + DIRENT] == s[2..];
  }

  lemma OwnEntry(c: seq<byte>, k: nat, d: seq<byte>, at: nat)
    requires at == DIRENT * k <= |c| && |d| == DIRENT
    ensures DIRENT * (k + 1) <= |Splice(c, at, d)| && EntryAt(Splice(c, at, d), k) == EntryAt(d, 0)
  {
    var c' := Splice(c, at, d);
    forall q | at <= q < at + DIRENT ensures c'[q] == d[q - at] {
      SpliceAt(c, at, d, q);
    }
    assert c'[at..at + DIRENT] == d[0..DIRENT];
    EntrySame(c', d, k, 0);
  }

  lemma OtherEntry(c: seq<byte>, k: nat, d: seq<byte>, at: nat, j: nat)
    requires at == DIRENT * k <= |c| && |d| == DIRENT && j != k && DIRENT * (j + 1) <= |c|
    ensures DIRENT * (j + 1) <= |Splice(c, at, d)| && EntryAt(Splice(c, at, d), j) == EntryAt(c, j)
  {
    var c', x := Splice(c, at, d), DIRENT * j;
    assert x + DIRENT <= at || at + DIRENT <= x;
    forall q | x <= q < x + DIRENT ensures c'[q] == c[q] {
      SpliceAt(c, at, d, q);
    }
    assert c'[x..x + DIRENT] == c[x..x + DIRENT];
    EntrySame(c', c, j, j);
  }

  lemma Counts(c: seq<byte>, k: nat, n: nat, at: nat)
    requires |c| % DIRENT == 0 && n == |c| / DIRENT && at == DIRENT * k <= |c|
    ensures |c| == DIRENT * n && k <= n && (k < n ==> at + DIRENT <= |c|) && (k == n ==> at == |c|)
  {
  }

  /** Writing an entry's bytes at its place is changing that entry. */
  lemma EntryWritten(c: seq<byte>, k: nat, d: seq<byte>, at: nat)
    requires |c| % DIRENT == 0 && at == DIRENT * k <= |c| && |d| == DIRENT
    ensures k <= |Entries(c)| && Entries(Splice(c, at, d)) == PutEntry(Entries(c), k, EntryAt(d, 0))
            && |Splice(c, at, d)| % DIRENT == 0
  {
    var n, c' := |c| / DIRENT, Splice(c, at, d);
    Counts(c, k, n, at);
    var es, es' := PutEntry(Entries(c), k, EntryAt(d, 0)), Entries(c');
    assert |c'| == if k < n then |c| else |c| + DIRENT;
    assert |es'| == |es|;
    forall j | 0 <= j < |es| ensures es'[j] == es[j] {
      if j == k {
        OwnEntry(c, k, d, at);
      } else {
        OtherEntry(c, k, d, at, j);
      }
    }
  }

  // ---- The operations ----

  ghost predicate Directory(f: FileSystem, dp: nat) reads f {
    f.Ok() && f.NoneHeld() && dp < |f.inodes| && f.inodes[dp].size % DIRENT == 0
  }

  /** The entries in directory `dp`. */
  ghost function Listed(f: FileSystem, dp: nat): (r: seq<L.Entry>)
    requires dp < |f.inodes|
    reads f
  {
    Entries(Contents(f.blocks, f.inodes[dp]))
  }

  lemma Sizes(f: FileSystem, dp: nat, n: nat)
    requires Directory(f, dp) && n == |Listed(f, dp)|
    ensures DIRENT * n == f.inodes[dp].size <= MAXFILE * BSIZE
  {
    AddrsLen(f.bits, f.blocks, f.inodes, f.use, dp);
  }

  /** Reads entry `k`: the read of an entry is never short. */
  method ReadEntry(f: FileSystem, dp: nat, k: nat) returns (inum: nat, field: seq<byte>)
    requires Directory(f, dp) && k < |Listed(f, dp)|
    modifies f
    ensures unchanged(f) && |field| == L.DIRSIZ && Listed(f, dp)[k] == L.Entry(inum, Text(NameOf(field)))
  {
    ghost var c := Contents(f.blocks, f.inodes[dp]);
    Sizes(f, dp, |Listed(f, dp)|);
    var r, de := f.Readi(dp, DIRENT * k, DIRENT, None);
    assert r == DIRENT && de == c[DIRENT * k..DIRENT * k + DIRENT];
    EntrySame(de, c, 0, k);
    inum, field := de[0] + 0x100 * (de[1] as int), de[2..DIRENT];
  }

  /** A name is absent from one entry more if that entry does not have it. */
  lemma AbsentNext(es: seq<L.Entry>, k: nat, name: string)
    requires k < |es| && L.Absent(es[..k], name)
    ensures L.Absent(es[..k + 1], name) <==> es[k].inum == 0 || L.Cut(es[k].name) != L.Cut(name)
  {
    assert es[..k + 1] == es[..k] + [es[k]];
    assert es[..k + 1][k] == es[k];
  }

  /** The inode number in entry `k`, or 0 if it does not have this name. */
  method Matches(f: FileSystem, dp: nat, k: nat, name: seq<byte>) returns (inum: nat)
    requires Directory(f, dp) && k < |Listed(f, dp)| && 0 !in name
    modifies f
    ensures unchanged(f)
    ensures inum == if L.Cut(Listed(f, dp)[k].name) == L.Cut(Text(name)) then Listed(f, dp)[k].inum else 0
  {
    var field;
    inum, field := ReadEntry(f, dp, k);
    if inum != 0 {
      SameNames(name, field);
      var same := Namecmp(name, field);
      if !same {
        inum := 0;
      }
    }
  }

  /** The first entry with the name, as far as fourteen bytes tell. */
  method DirLookup(f: FileSystem, dp: nat, name: seq<byte>) returns (r: Option<(nat, nat)>)
    requires Directory(f, dp) && 0 !in name
    modifies f
    ensures unchanged(f) && (r.None? <==> L.Absent(Listed(f, dp), Text(name)))
    ensures r.Some? ==> r.value.1 < |Listed(f, dp)| && Listed(f, dp)[r.value.1].inum == r.value.0 != 0
    ensures r.Some? ==>
              L.Cut(Listed(f, dp)[r.value.1].name) == L.Cut(Text(name))
              && L.Absent(Listed(f, dp)[..r.value.1], Text(name))
  {
    ghost var es := Listed(f, dp);
    Sizes(f, dp, |es|);
    var k := 0;
    while DIRENT * k < f.inodes[dp].size
      invariant unchanged(f) && Directory(f, dp) && Listed(f, dp) == es
      invariant 0 <= k <= |es| && L.Absent(es[..k], Text(name))
    {
      var inum := Matches(f, dp, k, name);
      AbsentNext(es, k, Text(name));
      if inum != 0 {
        return Some((inum, k));
      }
      k := k + 1;
    }
    assert es[..k] == es;
    return None;
  }

  /** An entry does not straddle two blocks. */
  lemma InOneBlock(k: nat, r: int)
    ensures 0 < r < DIRENT ==> (DIRENT * k + r) % BSIZE != 0
  {
    assert BSIZE == DIRENT * 64;
  }

  /** What a write of sixteen bytes can have done. */
  lemma WroteEntry(c: seq<byte>, c': seq<byte>, k: nat, d: seq<byte>, at: nat, r: nat)
    requires |c| % DIRENT == 0 && at == DIRENT * k <= |c| && |d| == DIRENT && r <= DIRENT
             && (0 < r < DIRENT ==> (at + r) % BSIZE == 0)
    requires c' == Splice(c, at, d[..r])[..Longer(|c|, at + r)]
    ensures r == 0 ==> c' == c
    ensures r != 0 ==>
              r == DIRENT && k <= |Entries(c)| && Entries(c') == PutEntry(Entries(c), k, EntryAt(d, 0))
              && |c'| % DIRENT == 0
  {
    if r == 0 {
      SpliceNothing(c, at);
      assert d[..0] == [];
    } else {
      InOneBlock(k, r);
      assert d[..r] == d;
      SpliceWhole(c, at, d, Longer(|c|, at + DIRENT));
      EntryWritten(c, k, d, at);
    }
  }

  /** Every file but `dp` has the contents it had. */
  twostate predicate OthersKept(f: FileSystem, dp: nat) reads f {
    |f.inodes| == |old(f.inodes)|
    && forall i {:trigger f.inodes[i]} :: 0 <= i < |f.inodes| && i != dp ==>
      Contents(f.blocks, f.inodes[i]) == old(Contents(f.blocks, f.inodes[i]))
  }

  /** A write of sixteen bytes from memory that is there: all of them, or none. */
  method WriteBytes(f: FileSystem, dp: nat, k: nat, d: seq<byte>, at: nat) returns (r: int)
    requires f.Ok() && f.NoneHeld() && dp < |f.inodes| && |d| == DIRENT && at == DIRENT * k <= f.inodes[dp].size
             && at < 0x1_0000_0000
    modifies f
    ensures f.Ok() && f.NoneHeld() && OthersKept(f, dp) && |Contents(f.blocks, f.inodes[dp])| == f.inodes[dp].size
    ensures r == -1 || r == 0 || r == DIRENT
    ensures r >= 0 ==>
              Contents(f.blocks, f.inodes[dp]) == Splice(old(Contents(f.blocks, f.inodes[dp])), at,
                                                         d[..r])[..Longer(old(f.inodes[dp].size), at + r)]
    ensures r == -1 ==>
              Contents(f.blocks, f.inodes[dp]) == old(Contents(f.blocks, f.inodes[dp])) && at + DIRENT > MAXFILE * BSIZE
    ensures r == 0 ==> old(Addr(f.blocks, f.inodes[dp], SlotOf(at / BSIZE))) == 0 && forall b :: 0 <= b < |f.bits| ==>
              f.bits[b]
  {
    ghost var w: nat;
    r, w := f.Writei(dp, at, d, None, 0);
    InOneBlock(k, r);
  }

  /** Writes entry `k`, which may be one past the end.  An entry that is there can always be written. */
  method WriteEntry(f: FileSystem, dp: nat, k: nat, d: seq<byte>) returns (ok: bool)
    requires Directory(f, dp) && k <= |Listed(f, dp)| && |d| == DIRENT
    modifies f
    ensures Directory(f, dp) && OthersKept(f, dp)
    ensures ok ==> Listed(f, dp) == PutEntry(old(Listed(f, dp)), k, EntryAt(d, 0))
    ensures !ok ==> Listed(f, dp) == old(Listed(f, dp)) && k == |Listed(f, dp)|
    ensures !ok ==> DIRENT * (k + 1) > MAXFILE * BSIZE || forall b :: 0 <= b < |f.bits| ==> f.bits[b]
  {
    ghost var c, n := Contents(f.blocks, f.inodes[dp]), |Listed(f, dp)|;
    var at := DIRENT * k;
    Sizes(f, dp, n);
    if k < n {
      BelowSize(f.bits, f.blocks, f.inodes, f.use, dp, at);
    }
    var r := WriteBytes(f, dp, k, d, at);
    if r >= 0 {
      WroteEntry(c, Contents(f.blocks, f.inodes[dp]), k, d, at, r);
    }
    ok := r == DIRENT;
  }

  /** The first entry without an inode, or the one past the end. */
  method EmptySlot(f: FileSystem, dp: nat) returns (k: nat)
    requires Directory(f, dp)
    modifies f
    ensures unchanged(f) && k <= |Listed(f, dp)| && (k < |Listed(f, dp)| ==> Listed(f, dp)[k].inum == 0)
    ensures forall j :: 0 <= j < k ==> Listed(f, dp)[j].inum != 0
  {
    ghost var es := Listed(f, dp);
    Sizes(f, dp, |es|);
    k := 0;
    while DIRENT * k < f.inodes[dp].size
      invariant unchanged(f) && Directory(f, dp) && Listed(f, dp) == es
      invariant 0 <= k <= |es| && forall j :: 0 <= j < k ==> es[j].inum != 0
    {
      var inum, _ := ReadEntry(f, dp, k);
      if inum == 0 {
        return;
      }
      k := k + 1;
    }
  }

  /**
   Adds a name that is not there, in the first empty entry or at the end.  An empty entry never runs
   out of room; the end does if the file cannot grow or the disk is full.
   */
  method DirLink(f: FileSystem, dp: nat, name: seq<byte>, inum: nat) returns (ok: bool, ghost k: nat)
    requires Directory(f, dp) && 0 !in name
    modifies f
    ensures Directory(f, dp) && OthersKept(f, dp)
    ensures k <= |old(Listed(f, dp))| && (k < |old(Listed(f, dp))| ==> old(Listed(f, dp))[k].inum == 0)
    ensures forall j :: 0 <= j < k ==> old(Listed(f, dp))[j].inum != 0
    ensures ok ==> L.Absent(old(Listed(f, dp)), Text(name))
    ensures ok ==> Listed(f, dp) == PutEntry(old(Listed(f, dp)), k, L.Entry(inum % 0x1_0000, L.Cut(Text(name))))
    ensures !ok ==> Listed(f, dp) == old(Listed(f, dp))
    ensures !ok && L.Absent(old(Listed(f, dp)), Text(name)) ==>
              k == |Listed(f, dp)|
              && (DIRENT * (k + 1) > MAXFILE * BSIZE || forall b :: 0 <= b < |f.bits| ==> f.bits[b])
  {
    var ip := DirLookup(f, dp, name);
    var slot := EmptySlot(f, dp);
    k := slot;
    if ip.Some? {
      return false, k;
    }
    EntryStored(inum, name);
    ok := WriteEntry(f, dp, slot, Encode(inum, name));
  }

  /** The write of `unlink`: it cannot fail. */
  method Erase(f: FileSystem, dp: nat, k: nat)
    requires Directory(f, dp) && k < |Listed(f, dp)|
    modifies f
    ensures Directory(f, dp) && OthersKept(f, dp) && Listed(f, dp) == old(Listed(f, dp))[k := L.Entry(0, "")]
  {
    EntryStored(0, []);
    assert Text([]) == "";
    var ok := WriteEntry(f, dp, k, Encode(0, []));
  }

  /** Nothing but `.` and `..`. */
  method IsDirEmpty(f: FileSystem, dp: nat) returns (empty: bool)
    requires Directory(f, dp)
    modifies f
    ensures unchanged(f) && (empty <==> forall j :: 2 <= j < |Listed(f, dp)| ==> Listed(f, dp)[j].inum == 0)
  {
    ghost var es := Listed(f, dp);
    Sizes(f, dp, |es|);
    var k := 2;
    while DIRENT * k < f.inodes[dp].size
      invariant unchanged(f) && Directory(f, dp) && Listed(f, dp) == es
      invariant 2 <= k && forall j :: 2 <= j < k && j < |es| ==> es[j].inum == 0
    {
      var inum, _ := ReadEntry(f, dp, k);
      if inum != 0 {
        return false;
      }
      k := k + 1;
    }
    return true;
  }
}
