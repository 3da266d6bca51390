/** What several modules need and none of them is about. */
module Common {

  datatype Option<T> = None | Some(value: T)

  type byte = x: nat | x < 256

  /** The most blocks one file-system operation may log. */
  const MAXOPBLOCKS: nat := 10

  predicate Distinct(s: seq<nat>) { forall i, j :: 0 <= i < j < |s| ==> s[i] != s[j] }

  lemma {:induction false} SmallerSet(s: set<nat>, t: set<nat>)
    requires s <= t
    ensures |s| <= |t|
    decreases s
  {
    if x :| x in s {
      SmallerSet(s - {x}, t - {x});
    }
  }

  lemma {:induction false} Elements(s: seq<nat>) returns (t: set<nat>)
    requires Distinct(s)
    ensures |t| == |s| && forall x :: x in t <==> x in s
  {
    t := {};
    if s != [] {
      var rest := s[..|s| - 1];
      var u := Elements(rest);
      t := u + {s[|s| - 1]};
      assert s == rest + [s[|s| - 1]];
    }
  }

  /** The numbers from `first` to `last`, the latter not included. */
  lemma {:induction false} Range(first: nat, last: nat) returns (s: set<nat>)
    requires first <= last
    ensures |s| == last - first && forall x :: x in s <==> first <= x < last
    decreases last
  {
    s := {};
    if first < last {
      s := Range(first, last - 1);
      s := s + {last - 1};
    }
  }

  /** Different numbers below `n` that miss `i` are fewer than `n`. */
  lemma Fewer(s: seq<nat>, i: nat, n: nat)
    requires Distinct(s) && i !in s && i < n && forall j :: 0 <= j < |s| ==> s[j] < n
    ensures |s| < n
  {
    var t := Elements(s);
    var all := Range(0, n);
    SmallerSet(t, all - {i});
  }
}
