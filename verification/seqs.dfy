/** `Array.prototype.filter` and `flatMap` over immutable sequences. */
module Seqs {

  /** `s.filter(keep)`: the elements of `s` that satisfy `keep`, in order. */
  function Filter<T(!new)>(s: seq<T>, keep: T -> bool): (r: seq<T>)
    ensures |r| <= |s|
    ensures forall x :: x in r <==> x in s && keep(x)
    ensures forall i :: 0 <= i < |r| ==> keep(r[i])
  {
    if s == [] then [] else (if keep(s[0]) then [s[0]] else []) + Filter(s[1..], keep)
  }

  /** Filtering works piecewise, so it keeps the relative order of what it keeps. */
  lemma {:induction false} FilterConcat<T(!new)>(a: seq<T>, b: seq<T>, keep: T -> bool)
    ensures Filter(a + b, keep) == Filter(a, keep) + Filter(b, keep)
    decreases |a|
  {
    if a == [] {
      assert a + b == b;
    } else {
      assert (a + b)[0] == a[0];
      assert (a + b)[1..] == a[1..] + b;
      FilterConcat(a[1..], b, keep);
    }
  }

  /** A filter that keeps everything is the identity. */
  lemma {:induction false} FilterKeepsAll<T(!new)>(s: seq<T>, keep: T -> bool)
    requires forall i :: 0 <= i < |s| ==> keep(s[i])
    ensures Filter(s, keep) == s
    decreases |s|
  {
    if s != [] {
      FilterKeepsAll(s[1..], keep);
    }
  }

  /** A filter that keeps nothing yields the empty sequence. */
  lemma {:induction false} FilterKeepsNone<T(!new)>(s: seq<T>, keep: T -> bool)
    requires forall i :: 0 <= i < |s| ==> !keep(s[i])
    ensures Filter(s, keep) == []
    decreases |s|
  {
    if s != [] {
      FilterKeepsNone(s[1..], keep);
    }
  }

  /** `ss.flat()`: the concatenation of the blocks, in order. */
  function Flatten<T(!new)>(ss: seq<seq<T>>): (r: seq<T>)
  {
    if ss == [] then [] else ss[0] + Flatten(ss[1..])
  }

  lemma {:induction false} FlattenConcat<T(!new)>(a: seq<seq<T>>, b: seq<seq<T>>)
    ensures Flatten(a + b) == Flatten(a) + Flatten(b)
    decreases |a|
  {
    if a == [] {
      assert a + b == b;
    } else {
      assert (a + b)[1..] == a[1..] + b;
      FlattenConcat(a[1..], b);
    }
  }

  /** Flattening blocks of equal width `w`: element `w*k + j` is element `j` of block `k`. */
  lemma {:induction false} FlattenUniformAt<T(!new)>(ss: seq<seq<T>>, w: nat, k: nat, j: nat)
    requires forall i :: 0 <= i < |ss| ==> |ss[i]| == w
    requires k < |ss| && j < w
    ensures |Flatten(ss)| == w * |ss|
    ensures w * k + j < |Flatten(ss)| && Flatten(ss)[w * k + j] == ss[k][j]
    decreases k
  {
    FlattenUniformLength(ss, w);
    if k > 0 {
      FlattenUniformAt(ss[1..], w, k - 1, j);
      assert w * k + j == w + (w * (k - 1) + j);
    }
  }

  lemma {:induction false} FlattenUniformLength<T(!new)>(ss: seq<seq<T>>, w: nat)
    requires forall i :: 0 <= i < |ss| ==> |ss[i]| == w
    ensures |Flatten(ss)| == w * |ss|
    decreases |ss|
  {
    if ss != [] {
      FlattenUniformLength(ss[1..], w);
    }
  }

  /** When `keep` holds on exactly the positions `lo..hi` of `s`, the filter
      returns that contiguous slice. */
  lemma {:induction false} FilterRange<T(!new)>(s: seq<T>, keep: T -> bool, lo: nat, hi: nat)
    requires lo <= hi <= |s|
    requires forall j :: 0 <= j < |s| ==> (keep(s[j]) <==> lo <= j < hi)
    ensures Filter(s, keep) == s[lo..hi]
    decreases |s|
  {
    if hi == 0 {
      FilterKeepsNone(s, keep);
    } else {
      var t := s[1..];
      DropFirstShifts(s, keep, lo, hi);
      FilterRange(t, keep, if lo == 0 then 0 else lo - 1, hi - 1);
      SliceOfTail(s, lo, hi);
    }
  }

  /** A slice of `s` read off its tail `s[1..]`. */
  lemma SliceOfTail<T>(s: seq<T>, lo: nat, hi: nat)
    requires lo <= hi && 0 < hi <= |s|
    ensures lo == 0 ==> s[lo..hi] == [s[0]] + s[1..][0..hi - 1]
    ensures lo > 0 ==> s[lo..hi] == s[1..][lo - 1..hi - 1]
  {
    if lo == 0 {
      assert s[lo..hi] == [s[0]] + s[1..][0..hi - 1];
    } else {
      var t := s[1..];
      assert forall i :: 0 <= i < hi - lo ==> s[lo..hi][i] == s[lo + i] == t[lo - 1 + i];
      assert s[lo..hi] == t[lo - 1..hi - 1];
    }
  }

  lemma DropFirstShifts<T(!new)>(s: seq<T>, keep: T -> bool, lo: nat, hi: nat)
    requires 0 < hi <= |s| && lo <= hi
    requires forall j :: 0 <= j < |s| ==> (keep(s[j]) <==> lo <= j < hi)
    ensures var lo' := if lo == 0 then 0 else lo - 1;
            forall j :: 0 <= j < |s| - 1 ==> (keep(s[1..][j]) <==> lo' <= j < hi - 1)
    ensures Filter(s, keep) == (if lo == 0 then [s[0]] else []) + Filter(s[1..], keep)
  {
    assert forall j :: 0 <= j < |s| - 1 ==> s[1..][j] == s[j + 1];
  }

  /** `[f(1), f(2), ..., f(n)]`, built by appending one value at a time. */
  function Tabulate<T>(f: int --> T, n: nat): (r: seq<T>)
    requires forall i :: 1 <= i <= n ==> f.requires(i)
    ensures |r| == n
  {
    if n == 0 then [] else Tabulate(f, n - 1) + [f(n)]
  }

  /** Position `j` of the table holds `f(j + 1)`. */
  lemma {:induction false} TabulateAt<T>(f: int --> T, n: nat, j: nat)
    requires forall i :: 1 <= i <= n ==> f.requires(i)
    requires j < n
    ensures Tabulate(f, n)[j] == f(j + 1)
  {
    if j < n - 1 {
      TabulateAt(f, n - 1, j);
    }
  }

  /** Filtering a run of blocks keeps `c` elements of each block when it keeps
      `c` of every block on its own. */
  lemma {:induction false} FilterFlattenLength<T(!new)>(ss: seq<seq<T>>, keep: T -> bool, c: nat)
    requires forall i :: 0 <= i < |ss| ==> |Filter(ss[i], keep)| == c
    ensures |Filter(Flatten(ss), keep)| == c * |ss|
    decreases |ss|
  {
    if ss != [] {
      var rest := ss[1..];
      assert forall i :: 0 <= i < |rest| ==> rest[i] == ss[i + 1];
      FilterFirstBlock(ss, keep);
      FilterFlattenLength(rest, keep, c);
      MulSucc(c, |rest|);
    }
  }

  lemma MulSucc(c: nat, n: nat)
    ensures c * (n + 1) == c * n + c
  {
  }

  lemma FilterFirstBlock<T(!new)>(ss: seq<seq<T>>, keep: T -> bool)
    requires ss != []
    ensures |Filter(Flatten(ss), keep)| == |Filter(ss[0], keep)| + |Filter(Flatten(ss[1..]), keep)|
  {
    FilterConcat(ss[0], Flatten(ss[1..]), keep);
  }

  /** Two tests that agree on every element select the same elements. */
  lemma {:induction false} FilterCongruent<T(!new)>(s: seq<T>, f: T -> bool, g: T -> bool)
    requires forall i :: 0 <= i < |s| ==> f(s[i]) == g(s[i])
    ensures Filter(s, f) == Filter(s, g)
    decreases |s|
  {
    if s != [] {
      FilterCongruent(s[1..], f, g);
    }
  }
}
