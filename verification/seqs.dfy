/** List operations shared by the scripts: list comprehensions with a
    condition, order-preserving subsequences, pandas `iloc` slices and
    `pd.concat` of a list of frames. */
module Seqs {

  /** `[x for x in s if p(x)]`. */
  function Filter<T>(s: seq<T>, p: T -> bool): (r: seq<T>)
    ensures |r| <= |s|
    ensures forall i :: 0 <= i < |r| ==> p(r[i])
  {
    if s == [] then []
    else (if p(s[0]) then [s[0]] else []) + Filter(s[1..], p)
  }

  /** Filters by predicates that agree on the list give the same result. */
  lemma {:induction false} FilterCongruent<T>(s: seq<T>, p: T -> bool, q: T -> bool)
    requires forall i :: 0 <= i < |s| ==> p(s[i]) == q(s[i])
    ensures Filter(s, p) == Filter(s, q)
    decreases |s|
  {
    if s != [] {
      FilterCongruent(s[1..], p, q);
    }
  }

  /** Every element of the filtered list still has any property every input
      element had. */
  lemma {:induction false} FilterPreserves<T>(s: seq<T>, p: T -> bool, q: T -> bool)
    requires forall i :: 0 <= i < |s| ==> q(s[i])
    ensures forall i :: 0 <= i < |Filter(s, p)| ==> q(Filter(s, p)[i])
    decreases |s|
  {
    if s != [] {
      FilterPreserves(s[1..], p, q);
    }
  }

  /** `[f(x) for x in s]`. */
  function MapSeq<A, B>(s: seq<A>, f: A -> B): (r: seq<B>)
    ensures |r| == |s|
    ensures forall i :: 0 <= i < |s| ==> r[i] == f(s[i])
  {
    seq(|s|, i requires 0 <= i < |s| => f(s[i]))
  }

  /** Mapping a filtered list, one head element at a time. */
  lemma MapFilterCons<A, B>(s: seq<A>, p: A -> bool, f: A -> B)
    requires s != []
    ensures MapSeq(Filter(s, p), f) == (if p(s[0]) then [f(s[0])] else []) + MapSeq(Filter(s[1..], p), f)
  {
    var rest := Filter(s[1..], p);
    if p(s[0]) {
      assert Filter(s, p) == [s[0]] + rest;
      MapAppend([s[0]], rest, f);
    } else {
      assert Filter(s, p) == [] + rest;
    }
  }

  /** Filtering after a map is mapping after the matching filter. */
  lemma {:induction false} FilterMap<A, B>(s: seq<A>, f: A -> B, p: A -> bool, q: B -> bool)
    requires forall i :: 0 <= i < |s| ==> q(f(s[i])) == p(s[i])
    ensures Filter(MapSeq(s, f), q) == MapSeq(Filter(s, p), f)
    decreases |s|
  {
    if s != [] {
      FilterMap(s[1..], f, p, q);
      assert MapSeq(s, f)[1..] == MapSeq(s[1..], f);
      if p(s[0]) {
        assert Filter(s, p) == [s[0]] + Filter(s[1..], p);
        assert MapSeq(Filter(s, p), f) == [f(s[0])] + MapSeq(Filter(s[1..], p), f);
      } else {
        assert Filter(s, p) == Filter(s[1..], p);
      }
    }
  }

  /** `a` can be obtained from `b` by deleting elements: same order, no additions. */
  predicate IsSubseq<T(==)>(a: seq<T>, b: seq<T>)
    decreases |b|
  {
    a == [] || (b != [] && ((a[0] == b[0] && IsSubseq(a[1..], b[1..])) || IsSubseq(a, b[1..])))
  }

  lemma {:induction false} FilterIsSubseq<T>(s: seq<T>, p: T -> bool)
    ensures IsSubseq(Filter(s, p), s)
    decreases |s|
  {
    if s != [] {
      FilterIsSubseq(s[1..], p);
      var r := Filter(s, p);
      if p(s[0]) {
        assert r[0] == s[0] && r[1..] == Filter(s[1..], p);
      } else {
        assert r == Filter(s[1..], p);
      }
    }
  }

  lemma {:induction false} SubseqRefl<T>(s: seq<T>)
    ensures IsSubseq(s, s)
    decreases |s|
  {
    if s != [] {
      SubseqRefl(s[1..]);
    }
  }

  lemma {:induction false} SubseqLength<T>(a: seq<T>, b: seq<T>)
    requires IsSubseq(a, b)
    ensures |a| <= |b|
    decreases |b|
  {
    if a != [] {
      if a[0] == b[0] && IsSubseq(a[1..], b[1..]) {
        SubseqLength(a[1..], b[1..]);
      } else {
        SubseqLength(a, b[1..]);
      }
    }
  }

  lemma {:induction false} SubseqTrans<T>(a: seq<T>, b: seq<T>, c: seq<T>)
    requires IsSubseq(a, b) && IsSubseq(b, c)
    ensures IsSubseq(a, c)
    decreases |c|
  {
    if a != [] {
      assert b != [] && c != [];
      if b[0] == c[0] && IsSubseq(b[1..], c[1..]) {
        if a[0] == b[0] && IsSubseq(a[1..], b[1..]) {
          SubseqTrans(a[1..], b[1..], c[1..]);
        } else {
          SubseqTrans(a, b[1..], c[1..]);
        }
      } else {
        SubseqTrans(a, b, c[1..]);
      }
    }
  }

  /** Subsequences of consecutive parts make a subsequence of the whole. */
  lemma {:induction false} SubseqAppend<T>(a: seq<T>, b: seq<T>, c: seq<T>, d: seq<T>)
    requires IsSubseq(a, b) && IsSubseq(c, d)
    ensures IsSubseq(a + c, b + d)
    decreases |b|
  {
    if b == [] {
      assert a == [] && a + c == c && b + d == d;
    } else if a != [] && a[0] == b[0] && IsSubseq(a[1..], b[1..]) {
      SubseqAppend(a[1..], b[1..], c, d);
      assert (a + c)[1..] == a[1..] + c && (b + d)[1..] == b[1..] + d;
    } else {
      assert a == [] ==> IsSubseq(a, b[1..]);
      SubseqAppend(a, b[1..], c, d);
      assert (b + d)[1..] == b[1..] + d;
    }
  }

  /** Every element of a subsequence occurs in the whole. */
  lemma {:induction false} SubseqIn<T>(a: seq<T>, b: seq<T>, j: nat)
    requires IsSubseq(a, b) && j < |a|
    ensures a[j] in b
    decreases |b|
  {
    if a[0] == b[0] && IsSubseq(a[1..], b[1..]) {
      if j > 0 {
        SubseqIn(a[1..], b[1..], j - 1);
      }
    } else {
      SubseqIn(a, b[1..], j);
    }
  }

  /** Filtering twice is filtering once by the conjunction. */
  lemma {:induction false} FilterFilter<T>(s: seq<T>, p: T -> bool, q: T -> bool, pq: T -> bool)
    requires forall x :: pq(x) == (p(x) && q(x))
    ensures Filter(Filter(s, p), q) == Filter(s, pq)
    decreases |s|
  {
    if s != [] {
      FilterFilter(s[1..], p, q, pq);
      if p(s[0]) {
        assert Filter(s, p) == [s[0]] + Filter(s[1..], p);
        assert Filter(s, p)[1..] == Filter(s[1..], p);
      } else {
        assert Filter(s, p) == Filter(s[1..], p);
      }
    }
  }

  lemma {:induction false} FilterAppend<T>(a: seq<T>, b: seq<T>, p: T -> bool)
    ensures Filter(a + b, p) == Filter(a, p) + Filter(b, p)
    decreases |a|
  {
    if a == [] {
      assert a + b == b;
    } else {
      assert (a + b)[1..] == a[1..] + b;
      FilterAppend(a[1..], b, p);
    }
  }

  lemma {:induction false} FilterAll<T>(s: seq<T>, p: T -> bool)
    requires forall i :: 0 <= i < |s| ==> p(s[i])
    ensures Filter(s, p) == s
    decreases |s|
  {
    if s != [] {
      FilterAll(s[1..], p);
    }
  }

  /** pandas `df.iloc[lo:hi]` (and `df.head(hi)` for `lo == 0`): indices past
      the end are clamped, an empty range gives an empty frame. */
  function Slice<T>(s: seq<T>, lo: nat, hi: nat): (r: seq<T>)
    ensures lo <= |s| && lo <= hi ==> |r| == (if hi <= |s| then hi else |s|) - lo
    ensures lo >= |s| || hi <= lo ==> r == []
    ensures forall i :: 0 <= i < |r| ==> lo + i < |s| && r[i] == s[lo + i]
  {
    var h := if hi <= |s| then hi else |s|;
    if lo >= h then [] else s[lo..h]
  }

  /** `pd.concat(frames, ignore_index=True)`: the frames' rows end to end. */
  function Flatten<T>(xss: seq<seq<T>>): (r: seq<T>)
    ensures |r| == TotalLength(xss)
  {
    if xss == [] then [] else xss[0] + Flatten(xss[1..])
  }

  function TotalLength<T>(xss: seq<seq<T>>): nat {
    if xss == [] then 0 else |xss[0]| + TotalLength(xss[1..])
  }

  lemma {:induction false} FlattenAppend<T>(xss: seq<seq<T>>, ys: seq<T>)
    ensures Flatten(xss + [ys]) == Flatten(xss) + ys
    decreases |xss|
  {
    if xss == [] {
      assert [] + [ys] == [ys];
    } else {
      assert (xss + [ys])[1..] == xss[1..] + [ys];
      FlattenAppend(xss[1..], ys);
    }
  }

  lemma {:induction false} FlattenConcat<T>(xss: seq<seq<T>>, yss: seq<seq<T>>)
    ensures Flatten(xss + yss) == Flatten(xss) + Flatten(yss)
    decreases |xss|
  {
    if xss == [] {
      assert xss + yss == yss;
    } else {
      assert (xss + yss)[1..] == xss[1..] + yss;
      FlattenConcat(xss[1..], yss);
    }
  }

  /** Where frame `i` starts in the concatenation. */
  function Offset<T>(xss: seq<seq<T>>, i: nat): nat
    requires i <= |xss|
  {
    if i == 0 then 0 else |xss[0]| + Offset(xss[1..], i - 1)
  }

  /** Each frame occupies its own contiguous block of the concatenation, in
      frame order: concatenation keeps every frame's rows, in order. */
  lemma {:induction false} FlattenBlock<T>(xss: seq<seq<T>>, i: nat)
    requires i < |xss|
    ensures Offset(xss, i) + |xss[i]| <= |Flatten(xss)|
    ensures Flatten(xss)[Offset(xss, i)..Offset(xss, i) + |xss[i]|] == xss[i]
    decreases i
  {
    if i > 0 {
      FlattenBlock(xss[1..], i - 1);
      var f := Flatten(xss);
      assert f == xss[0] + Flatten(xss[1..]);
      var o := Offset(xss[1..], i - 1);
      assert f[|xss[0]| + o..|xss[0]| + o + |xss[i]|] == Flatten(xss[1..])[o..o + |xss[i]|];
    }
  }

  /** The positions `0 .. n - 1` in order (Python's `range(n)`). */
  function Range(n: nat): (r: seq<nat>)
    ensures |r| == n && forall i :: 0 <= i < n ==> r[i] == i
  {
    seq(n, i requires 0 <= i < n => i)
  }

  lemma MapAppend<A, B>(a: seq<A>, b: seq<A>, f: A -> B)
    ensures MapSeq(a + b, f) == MapSeq(a, f) + MapSeq(b, f)
  {
  }

  lemma FilterLast<T>(s: seq<T>, x: T, p: T -> bool)
    ensures Filter(s + [x], p) == if p(x) then Filter(s, p) + [x] else Filter(s, p)
  {
    FilterAppend(s, [x], p);
    assert Filter([x], p) == (if p(x) then [x] else []) + Filter([], p);
    if !p(x) {
      assert Filter(s, p) + [] == Filter(s, p);
    }
  }

  /** The selected positions below `n`, mapped, grow by position `n - 1`
      exactly when it is selected. */
  lemma MapFilterRangeLast<B>(n: nat, p: nat -> bool, f: nat -> B)
    requires n > 0
    ensures MapSeq(Filter(Range(n), p), f) == MapSeq(Filter(Range(n - 1), p), f) + (if p(n - 1) then [f(n - 1)] else [])
  {
    assert Range(n) == Range(n - 1) + [n - 1];
    FilterLast<nat>(Range(n - 1), n - 1, p);
    MapAppend<nat, B>(Filter(Range(n - 1), p), [n - 1], f);
  }

  /** `a` is a prefix of `b`. */
  predicate Prefix<T(==)>(a: seq<T>, b: seq<T>) {
    |a| <= |b| && b[..|a|] == a
  }

  /** The position of the first element satisfying `p`, or `|s|`. */
  function FirstWhere<T>(s: seq<T>, p: T -> bool): (i: nat)
    ensures i <= |s|
    ensures forall j :: 0 <= j < i ==> !p(s[j])
    ensures i < |s| ==> p(s[i])
  {
    if s == [] then 0 else if p(s[0]) then 0 else 1 + FirstWhere(s[1..], p)
  }

  /** `[x for x in s if p(x)][0]` is the first element satisfying `p`, and
      the comprehension is empty exactly when none does. */
  lemma {:induction false} FilterHead<T>(s: seq<T>, p: T -> bool)
    ensures Filter(s, p) != [] <==> FirstWhere(s, p) < |s|
    ensures Filter(s, p) != [] ==> Filter(s, p)[0] == s[FirstWhere(s, p)]
    decreases |s|
  {
    if s != [] && !p(s[0]) {
      FilterHead(s[1..], p);
    }
  }

  /** A contiguous slice is a subsequence. */
  lemma {:induction false} SliceSubseq<T>(s: seq<T>, lo: nat, hi: nat)
    requires lo <= hi <= |s|
    ensures IsSubseq(s[lo..hi], s)
    decreases |s|
  {
    if lo < hi {
      if lo == 0 {
        assert s[lo..hi][1..] == s[1..][0..hi - 1];
        SliceSubseq(s[1..], 0, hi - 1);
      } else {
        var t := s[1..];
        assert t[lo - 1..hi - 1] == s[lo..hi];
        SliceSubseq(t, lo - 1, hi - 1);
      }
    }
  }

  /** So is the `iloc` slice. */
  lemma SliceIsSubseq<T>(s: seq<T>, lo: nat, hi: nat)
    ensures IsSubseq(Slice(s, lo, hi), s)
  {
    var h := if hi <= |s| then hi else |s|;
    if lo < h {
      SliceSubseq(s, lo, h);
    }
  }
}
