/**
 * What an iterator chain `filter_map(f).collect()` yields, stated without
 * recursion: the values `f` gives at the positions where it gives one, in the
 * order of those positions. `filter(p)` is the case where `f` gives the element
 * itself. Also the first position of an element in a sequence.
 */
module Sequences {
  import opened Wrappers

  /** The element of `o`, if any, as a sequence of length 0 or 1. */
  function OptionSeq<T>(o: Option<T>): (r: seq<T>)
    ensures o.None? <==> r == []
    ensures o.Some? ==> r == [o.value]
  {
    if o.Some? then [o.value] else []
  }

  /**
   * `idx` witnesses that `r` is the `filter_map` of `s` by `f`: it lists, in
   * strictly increasing order, every position of `s` where `f` gives a value,
   * and `r[i]` is the value given at `idx[i]`.
   */
  ghost predicate IsFilterMapAt<A, B>(idx: seq<nat>, r: seq<B>, s: seq<A>, f: A -> Option<B>) {
    && |idx| == |r|
    && (forall i | 0 <= i < |idx| :: idx[i] < |s| && f(s[idx[i]]) == Some(r[i]))
    && (forall i, j | 0 <= i < j < |idx| :: idx[i] < idx[j])
    && (forall k | 0 <= k < |s| && f(s[k]).Some? :: k in idx)
  }

  /** `r` is the `filter_map` of `s` by `f`. */
  ghost predicate IsFilterMap<A, B>(r: seq<B>, s: seq<A>, f: A -> Option<B>) {
    exists idx :: IsFilterMapAt(idx, r, s, f)
  }

  lemma FilterMapEmpty<A, B>(f: A -> Option<B>)
    ensures IsFilterMap([], [], f)
  {
    assert IsFilterMapAt([], [], [], f);
  }

  /** Every position is shifted right by `n`. */
  function Shift(idx: seq<nat>, n: nat): (r: seq<nat>)
    ensures |r| == |idx| && forall i | 0 <= i < |idx| :: r[i] == idx[i] + n
  {
    seq(|idx|, i requires 0 <= i < |idx| => idx[i] + n)
  }

  /** The positions of two parts, the second shifted past the first, select from their concatenation. */
  lemma FilterMapAtAppend<A, B>(idx1: seq<nat>, r1: seq<B>, s1: seq<A>, idx2: seq<nat>, r2: seq<B>, s2: seq<A>,
                                f: A -> Option<B>)
    requires IsFilterMapAt(idx1, r1, s1, f) && IsFilterMapAt(idx2, r2, s2, f)
    ensures IsFilterMapAt(idx1 + Shift(idx2, |s1|), r1 + r2, s1 + s2, f)
  {
    AppendValues(idx1, r1, s1, idx2, r2, s2, f);
    AppendIncreasing(idx1, |s1|, idx2);
    AppendComplete(idx1, s1, idx2, s2, f);
  }

  lemma AppendValues<A, B>(idx1: seq<nat>, r1: seq<B>, s1: seq<A>, idx2: seq<nat>, r2: seq<B>, s2: seq<A>,
                           f: A -> Option<B>)
    requires |idx1| == |r1| && forall i | 0 <= i < |idx1| :: idx1[i] < |s1| && f(s1[idx1[i]]) == Some(r1[i])
    requires |idx2| == |r2| && forall i | 0 <= i < |idx2| :: idx2[i] < |s2| && f(s2[idx2[i]]) == Some(r2[i])
    ensures var idx, r, s := idx1 + Shift(idx2, |s1|), r1 + r2, s1 + s2;
      forall i | 0 <= i < |idx| :: idx[i] < |s| && f(s[idx[i]]) == Some(r[i])
  {
    var idx, r, s := idx1 + Shift(idx2, |s1|), r1 + r2, s1 + s2;
    forall i | 0 <= i < |idx|
      ensures idx[i] < |s| && f(s[idx[i]]) == Some(r[i])
    {
      if i < |idx1| {
        assert idx[i] == idx1[i] && s[idx[i]] == s1[idx1[i]];
      } else {
        var m := i - |idx1|;
        assert idx[i] == idx2[m] + |s1|;
        assert s[idx[i]] == s2[idx2[m]];
      }
    }
  }

  lemma AppendIncreasing(idx1: seq<nat>, n: nat, idx2: seq<nat>)
    requires forall i | 0 <= i < |idx1| :: idx1[i] < n
    requires forall i, j | 0 <= i < j < |idx1| :: idx1[i] < idx1[j]
    requires forall i, j | 0 <= i < j < |idx2| :: idx2[i] < idx2[j]
    ensures var idx := idx1 + Shift(idx2, n);
      forall i, j | 0 <= i < j < |idx| :: idx[i] < idx[j]
  {
    var idx := idx1 + Shift(idx2, n);
    forall i, j | 0 <= i < j < |idx|
      ensures idx[i] < idx[j]
    {
      if j < |idx1| {
        assert idx[i] == idx1[i] && idx[j] == idx1[j];
      } else if i < |idx1| {
        assert idx[i] == idx1[i] < n;
        assert idx[j] == idx2[j - |idx1|] + n;
      } else {
        assert idx[i] == idx2[i - |idx1|] + n && idx[j] == idx2[j - |idx1|] + n;
      }
    }
  }

  lemma AppendComplete<A, B>(idx1: seq<nat>, s1: seq<A>, idx2: seq<nat>, s2: seq<A>, f: A -> Option<B>)
    requires forall k | 0 <= k < |s1| && f(s1[k]).Some? :: k in idx1
    requires forall k | 0 <= k < |s2| && f(s2[k]).Some? :: k in idx2
    ensures var idx, s := idx1 + Shift(idx2, |s1|), s1 + s2;
      forall k | 0 <= k < |s| && f(s[k]).Some? :: k in idx
  {
    var idx, s := idx1 + Shift(idx2, |s1|), s1 + s2;
    forall k | 0 <= k < |s| && f(s[k]).Some?
      ensures k in idx
    {
      if k < |s1| {
        assert s[k] == s1[k];
        var m :| 0 <= m < |idx1| && idx1[m] == k;
        assert idx[m] == k;
      } else {
        assert s[k] == s2[k - |s1|];
        var m :| 0 <= m < |idx2| && idx2[m] == k - |s1|;
        assert idx[|idx1| + m] == k;
      }
    }
  }

  /** Selecting from two parts one after the other selects from their concatenation. */
  lemma FilterMapAppend<A, B>(r1: seq<B>, s1: seq<A>, r2: seq<B>, s2: seq<A>, f: A -> Option<B>)
    requires IsFilterMap(r1, s1, f) && IsFilterMap(r2, s2, f)
    ensures IsFilterMap(r1 + r2, s1 + s2, f)
  {
    var idx1 :| IsFilterMapAt(idx1, r1, s1, f);
    var idx2 :| IsFilterMapAt(idx2, r2, s2, f);
    FilterMapAtAppend(idx1, r1, s1, idx2, r2, s2, f);
  }

  /** One element is kept, with its value, exactly when `f` gives one. */
  lemma FilterMapSingle<A, B>(a: A, f: A -> Option<B>)
    ensures IsFilterMap(OptionSeq(f(a)), [a], f)
  {
    if f(a).Some? {
      assert IsFilterMapAt([0], OptionSeq(f(a)), [a], f);
    } else {
      assert IsFilterMapAt([], OptionSeq(f(a)), [a], f);
    }
  }

  /** Adding one element at the back adds its value, if any, at the back. */
  lemma FilterMapSnoc<A, B>(r: seq<B>, s: seq<A>, a: A, f: A -> Option<B>)
    requires IsFilterMap(r, s, f)
    ensures IsFilterMap(r + OptionSeq(f(a)), s + [a], f)
  {
    FilterMapSingle(a, f);
    FilterMapAppend(r, s, OptionSeq(f(a)), [a], f);
  }

  /** Adding one element at the front adds its value, if any, at the front. */
  lemma FilterMapCons<A, B>(a: A, r: seq<B>, s: seq<A>, f: A -> Option<B>)
    requires IsFilterMap(r, s, f)
    ensures IsFilterMap(OptionSeq(f(a)) + r, [a] + s, f)
  {
    FilterMapSingle(a, f);
    FilterMapAppend(OptionSeq(f(a)), [a], r, s, f);
  }

  /** `filter_map(f)` over `s`, element by element from the front. */
  function FilterMap<A, B>(s: seq<A>, f: A -> Option<B>): (r: seq<B>)
    ensures |r| <= |s|
    decreases |s|
  {
    if s == [] then [] else OptionSeq(f(s[0])) + FilterMap(s[1..], f)
  }

  /** The recursive `FilterMap` meets the positional description. */
  lemma {:induction false} FilterMapIsFilterMap<A, B>(s: seq<A>, f: A -> Option<B>)
    ensures IsFilterMap(FilterMap(s, f), s, f)
    decreases |s|
  {
    if s == [] {
      FilterMapEmpty(f);
    } else {
      FilterMapIsFilterMap(s[1..], f);
      FilterMapCons(s[0], FilterMap(s[1..], f), s[1..], f);
      assert [s[0]] + s[1..] == s;
    }
  }

  /** `FilterMap` of a concatenation is the concatenation of the parts' `FilterMap`s. */
  lemma {:induction false} FilterMapConcat<A, B>(s: seq<A>, t: seq<A>, f: A -> Option<B>)
    ensures FilterMap(s + t, f) == FilterMap(s, f) + FilterMap(t, f)
    decreases |s|
  {
    if s != [] {
      FilterMapConcat(s[1..], t, f);
      assert (s + t)[1..] == s[1..] + t;
    } else {
      assert s + t == t;
    }
  }

  /** Adding an element at the back adds its value, if any, at the back. */
  lemma FilterMapLast<A, B>(s: seq<A>, a: A, f: A -> Option<B>)
    ensures FilterMap(s + [a], f) == FilterMap(s, f) + OptionSeq(f(a))
  {
    FilterMapConcat(s, [a], f);
    assert [a][1..] == [];
  }

  /** Strictly increasing sequences with the same members are equal. */
  lemma {:induction false} IncreasingUnique(x: seq<nat>, y: seq<nat>)
    requires forall i, j | 0 <= i < j < |x| :: x[i] < x[j]
    requires forall i, j | 0 <= i < j < |y| :: y[i] < y[j]
    requires forall k :: k in x <==> k in y
    ensures x == y
    decreases |x|
  {
    if x != [] {
      assert x[0] in x;
    }
    if y != [] {
      assert y[0] in y;
    }
    if x != [] && y != [] {
      assert x[0] in y;
      assert y[0] in x;
      assert x[0] == y[0] by {
        var p :| 0 <= p < |y| && y[p] == x[0];
        var q :| 0 <= q < |x| && x[q] == y[0];
        assert y[0] <= y[p] && x[0] <= x[q];
      }
      IncreasingTail(x);
      IncreasingTail(y);
      IncreasingUnique(x[1..], y[1..]);
      assert x == [x[0]] + x[1..];
      assert y == [y[0]] + y[1..];
    }
  }

  /** The tail of a strictly increasing sequence holds all its members but the first. */
  lemma IncreasingTail(x: seq<nat>)
    requires x != []
    requires forall i, j | 0 <= i < j < |x| :: x[i] < x[j]
    ensures forall k :: k in x[1..] <==> k in x && k != x[0]
  {
    forall k
      ensures k in x[1..] <==> k in x && k != x[0]
    {
      if k in x[1..] {
        var p :| 1 <= p < |x| && x[p] == k;
        assert x[0] < x[p];
      }
      if k in x && k != x[0] {
        var p :| 0 <= p < |x| && x[p] == k;
        assert x[1..][p - 1] == k;
      }
    }
  }

  /** The `filter_map` of a sequence is determined by it: at most one `r` fits. */
  lemma FilterMapUnique<A, B>(r1: seq<B>, r2: seq<B>, s: seq<A>, f: A -> Option<B>)
    requires IsFilterMap(r1, s, f) && IsFilterMap(r2, s, f)
    ensures r1 == r2
  {
    var idx1 :| IsFilterMapAt(idx1, r1, s, f);
    var idx2 :| IsFilterMapAt(idx2, r2, s, f);
    forall k
      ensures k in idx1 <==> k in idx2
    {
      if k in idx1 {
        var m :| 0 <= m < |idx1| && idx1[m] == k;
        assert f(s[k]).Some?;
      }
      if k in idx2 {
        var m :| 0 <= m < |idx2| && idx2[m] == k;
        assert f(s[k]).Some?;
      }
    }
    IncreasingUnique(idx1, idx2);
    forall i | 0 <= i < |r1|
      ensures r1[i] == r2[i]
    {
      assert f(s[idx1[i]]) == Some(r1[i]);
    }
  }

  /** The position of the first occurrence of `x` in `s`. */
  function FirstIndex<T(==)>(s: seq<T>, x: T): (i: nat)
    requires x in s
    ensures i < |s| && s[i] == x && x !in s[..i]
    ensures forall m | 0 <= m < i :: s[m] != x
  {
    if s[0] == x then 0
    else
      var k := FirstIndex(s[1..], x);
      assert s[..k + 1] == [s[0]] + s[1..][..k];
      k + 1
  }

  /** Appending never moves the first occurrence of an element already present. */
  lemma FirstIndexAppend<T>(s: seq<T>, t: seq<T>, x: T)
    requires x in s
    ensures FirstIndex(s + t, x) == FirstIndex(s, x)
  {
    var j := FirstIndex(s, x);
    assert (s + t)[j] == s[j];
  }

  /** An element not in `s` is first found in `t`, after all of `s`. */
  lemma FirstIndexAfter<T>(s: seq<T>, t: seq<T>, x: T)
    requires x !in s && x in t
    ensures FirstIndex(s + t, x) == |s| + FirstIndex(t, x)
  {
    var j := FirstIndex(t, x);
    assert (s + t)[|s| + j] == t[j];
  }
}
