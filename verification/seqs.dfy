/** Sequence toolkit shared by the curve model and the detector: sums, means,
    minima, a stable sort by a real key, counting, flattening and subsequences.
 */
module Seqs {

  // ---------------------------------------------------------------------------
  // Sums, means, extrema
  // ---------------------------------------------------------------------------

  function Sum(s: seq<real>): real
  {
    if |s| == 0 then 0.0 else s[0] + Sum(s[1..])
  }

  /** Arithmetic mean of a non-empty sequence (numpy.mean / pylab mean). */
  function Mean(s: seq<real>): real
    requires |s| > 0
  {
    Sum(s) / (|s| as real)
  }

  /** Smallest element (Python `min`, numpy `min`). */
  function MinOf(s: seq<real>): (m: real)
    requires |s| > 0
    ensures m in s
    ensures forall i :: 0 <= i < |s| ==> m <= s[i]
  {
    if |s| == 1 then s[0]
    else
      var t := MinOf(s[1..]);
      if s[0] <= t then s[0] else t
  }

  function MaxOf(s: seq<real>): (m: real)
    requires |s| > 0
    ensures m in s
    ensures forall i :: 0 <= i < |s| ==> s[i] <= m
  {
    if |s| == 1 then s[0]
    else
      var t := MaxOf(s[1..]);
      if s[0] >= t then s[0] else t
  }

  lemma {:induction false} SumAppend(a: seq<real>, b: seq<real>)
    ensures Sum(a + b) == Sum(a) + Sum(b)
  {
    if |a| == 0 {
      assert a + b == b;
    } else {
      assert (a + b)[1..] == a[1..] + b;
      SumAppend(a[1..], b);
    }
  }

  /** A sum of elements that are all at least `lo` (at most `hi`) is bounded by
      the count times `lo` (`hi`). */
  lemma {:induction false} SumBounds(s: seq<real>, lo: real, hi: real)
    requires forall i :: 0 <= i < |s| ==> lo <= s[i] <= hi
    ensures (|s| as real) * lo <= Sum(s) <= (|s| as real) * hi
  {
    if |s| > 0 {
      SumBounds(s[1..], lo, hi);
    }
  }

  /** A sum of elements that are all strictly below `hi` is strictly below
      the count times `hi`, when there is at least one element. */
  lemma {:induction false} SumStrictUpper(s: seq<real>, hi: real)
    requires |s| > 0
    requires forall i :: 0 <= i < |s| ==> s[i] < hi
    ensures Sum(s) < (|s| as real) * hi
  {
    if |s| > 1 {
      SumStrictUpper(s[1..], hi);
    }
  }

  /** `n * lo <= x <= n * hi` with `n > 0` gives `lo <= x / n <= hi`. */
  lemma DivideBounds(x: real, n: real, lo: real, hi: real)
    requires n > 0.0
    requires n * lo <= x <= n * hi
    ensures lo <= x / n <= hi
  {
    var q := x / n;
    assert x == n * q;
  }

  lemma DivSub(a: real, b: real, w: real)
    requires w != 0.0
    ensures (a - b) / w == a / w - b / w
  {
    var x, y := a / w, b / w;
    assert a == x * w;
    assert b == y * w;
    assert a - b == (x - y) * w;
  }

  /** Dividing two means over the same count is dividing the sums. */
  lemma RatioOfMeans(m: real, w: real, n: real)
    requires n > 0.0 && w != 0.0
    ensures (m / n) / (w / n) == m / w
  {
    var x, y := m / n, w / n;
    assert m == x * n;
    assert w == y * n;
    assert y != 0.0;
    var q := x / y;
    assert x == q * y;
    assert m == q * w;
  }

  /** The mean of values within `[lo, hi]` lies within `[lo, hi]`. */
  lemma {:induction false} MeanBetween(s: seq<real>, lo: real, hi: real)
    requires |s| > 0
    requires forall i :: 0 <= i < |s| ==> lo <= s[i] <= hi
    ensures lo <= Mean(s) <= hi
  {
    SumBounds(s, lo, hi);
    DivideBounds(Sum(s), |s| as real, lo, hi);
  }

  /** The mean lies between the smallest and the largest element. */
  lemma MeanWithin(s: seq<real>)
    requires |s| > 0
    ensures MinOf(s) <= Mean(s) <= MaxOf(s)
  {
    MeanBetween(s, MinOf(s), MaxOf(s));
  }

  /** The mean of values that are all strictly below `hi` is strictly below `hi`. */
  lemma {:induction false} MeanBelow(s: seq<real>, hi: real)
    requires |s| > 0
    requires forall i :: 0 <= i < |s| ==> s[i] < hi
    ensures Mean(s) < hi
  {
    SumStrictUpper(s, hi);
    var n := |s| as real;
    var q := Sum(s) / n;
    assert Sum(s) == n * q;
  }

  /** Scaling every element by `k` scales the sum by `k`. */
  lemma {:induction false} SumScale(s: seq<real>, t: seq<real>, k: real)
    requires |t| == |s|
    requires forall i :: 0 <= i < |s| ==> t[i] == k * s[i]
    ensures Sum(t) == k * Sum(s)
  {
    if |s| > 0 {
      SumScale(s[1..], t[1..], k);
    }
  }

  predicate StrictlyIncreasing(s: seq<real>)
  {
    forall i, j :: 0 <= i < j < |s| ==> s[i] < s[j]
  }

  // ---------------------------------------------------------------------------
  // Stable sort by a real-valued key (Python `sorted(..., key=...)`, numpy `sort`)
  // ---------------------------------------------------------------------------

  function Id(x: real): real { x }

  predicate SortedBy<T>(s: seq<T>, key: T -> real)
  {
    forall i, j :: 0 <= i < j < |s| ==> key(s[i]) <= key(s[j])
  }

  /** Inserts `x` in front of the first element whose key is not smaller, so
      that `x` precedes every element of `s` with the same key. */
  function InsertBy<T>(x: T, s: seq<T>, key: T -> real): (r: seq<T>)
    ensures |r| == |s| + 1
    ensures multiset(r) == multiset(s) + multiset{x}
  {
    if |s| == 0 || key(x) <= key(s[0]) then [x] + s
    else
      assert s == [s[0]] + s[1..];
      [s[0]] + InsertBy(x, s[1..], key)
  }

  lemma {:induction false} InsertBySorted<T>(x: T, s: seq<T>, key: T -> real)
    requires SortedBy(s, key)
    ensures SortedBy(InsertBy(x, s, key), key)
  {
    if |s| > 0 && key(x) > key(s[0]) {
      var rest := InsertBy(x, s[1..], key);
      InsertBySorted(x, s[1..], key);
      forall i | 0 <= i < |rest|
        ensures key(s[0]) <= key(rest[i])
      {
        assert rest[i] in multiset(rest);
        if rest[i] != x {
          assert rest[i] in multiset(s[1..]);
          var j :| 0 <= j < |s[1..]| && s[1..][j] == rest[i];
          assert s[j + 1] == rest[i];
        }
      }
      var r := [s[0]] + rest;
      assert r == InsertBy(x, s, key);
      forall i, j | 0 <= i < j < |r|
        ensures key(r[i]) <= key(r[j])
      {
        if i > 0 {
          assert r[i] == rest[i - 1] && r[j] == rest[j - 1];
        }
      }
    }
  }

  /** Stable insertion sort: the result is ordered by key and is a permutation. */
  function SortBy<T>(s: seq<T>, key: T -> real): (r: seq<T>)
    ensures |r| == |s|
    ensures multiset(r) == multiset(s)
    ensures SortedBy(r, key)
  {
    if |s| == 0 then []
    else
      assert s == [s[0]] + s[1..];
      InsertBySorted(s[0], SortBy(s[1..], key), key);
      InsertBy(s[0], SortBy(s[1..], key), key)
  }

  /** The head and the last element of a sorted copy are elements of the input
      with the smallest and the largest key. */
  lemma SortByEnds<T>(c: seq<T>, key: T -> real)
    requires |c| > 0
    ensures SortBy(c, key)[0] in c && SortBy(c, key)[|c| - 1] in c
    ensures forall i :: 0 <= i < |c| ==>
              key(SortBy(c, key)[0]) <= key(c[i]) <= key(SortBy(c, key)[|c| - 1])
  {
    PermutationEnds(SortBy(c, key), c, key);
  }

  /** The same for any sorted permutation `s` of `c`. */
  lemma PermutationEnds<T>(s: seq<T>, c: seq<T>, key: T -> real)
    requires |s| > 0 && SortedBy(s, key) && multiset(s) == multiset(c)
    ensures |c| == |s|
    ensures s[0] in c && s[|s| - 1] in c
    ensures forall i :: 0 <= i < |c| ==> key(s[0]) <= key(c[i]) <= key(s[|s| - 1])
  {
    assert |c| == |multiset(c)| == |multiset(s)| == |s|;
    assert s[0] in multiset(s) && s[|s| - 1] in multiset(s);
    forall i | 0 <= i < |c| ensures key(s[0]) <= key(c[i]) <= key(s[|s| - 1]) {
      PermutationMember(s, c, key, i);
    }
  }

  lemma PermutationMember<T>(s: seq<T>, c: seq<T>, key: T -> real, i: nat)
    requires |s| > 0 && SortedBy(s, key) && multiset(s) == multiset(c) && i < |c|
    ensures key(s[0]) <= key(c[i]) <= key(s[|s| - 1])
  {
    assert c[i] in multiset(c);
    var j :| 0 <= j < |s| && s[j] == c[i];
    SortedEnds(s, key);
    assert key(s[0]) <= key(s[j]) <= key(s[|s| - 1]);
  }

  lemma SortedEnds<T>(s: seq<T>, key: T -> real)
    requires |s| > 0 && SortedBy(s, key)
    ensures forall j :: 0 <= j < |s| ==> key(s[0]) <= key(s[j]) <= key(s[|s| - 1])
  {
  }

  /** The elements of `s` whose key equals `k`, in their original order. */
  function KeyFilter<T>(s: seq<T>, key: T -> real, k: real): seq<T>
  {
    if |s| == 0 then []
    else (if key(s[0]) == k then [s[0]] else []) + KeyFilter(s[1..], key, k)
  }

  lemma {:induction false} KeyFilterAppend<T>(s: seq<T>, y: T, key: T -> real, k: real)
    ensures KeyFilter(s + [y], key, k) == KeyFilter(s, key, k) + (if key(y) == k then [y] else [])
  {
    var tail := if key(y) == k then [y] else [];
    if |s| == 0 {
      assert s + [y] == [y];
      assert KeyFilter([y], key, k) == tail + KeyFilter([y][1..], key, k);
    } else {
      var head := if key(s[0]) == k then [s[0]] else [];
      assert (s + [y])[1..] == s[1..] + [y];
      assert KeyFilter(s + [y], key, k) == head + KeyFilter(s[1..] + [y], key, k);
      KeyFilterAppend(s[1..], y, key, k);
      assert head + (KeyFilter(s[1..], key, k) + tail) == (head + KeyFilter(s[1..], key, k)) + tail;
    }
  }

  lemma {:induction false} InsertByStable<T>(x: T, s: seq<T>, key: T -> real, k: real)
    ensures KeyFilter(InsertBy(x, s, key), key, k)
         == (if key(x) == k then [x] else []) + KeyFilter(s, key, k)
  {
    if |s| == 0 || key(x) <= key(s[0]) {
      assert ([x] + s)[1..] == s;
    } else {
      var rest := InsertBy(x, s[1..], key);
      assert ([s[0]] + rest)[1..] == rest;
      InsertByStable(x, s[1..], key, k);
    }
  }

  /** Sorting is stable: the elements sharing any one key keep their relative order. */
  lemma {:induction false} SortByStable<T>(s: seq<T>, key: T -> real, k: real)
    ensures KeyFilter(SortBy(s, key), key, k) == KeyFilter(s, key, k)
  {
    if |s| > 0 {
      SortByStable(s[1..], key, k);
      InsertByStable(s[0], SortBy(s[1..], key), key, k);
    }
  }

  /** Among the elements sharing the key of the head, the head comes first. */
  lemma KeyFilterHead<T>(s: seq<T>, key: T -> real)
    requires |s| > 0
    ensures var f := KeyFilter(s, key, key(s[0])); |f| > 0 && f[0] == s[0]
  {
  }

  /** Among the elements sharing the key of the last element, it comes last. */
  lemma KeyFilterLast<T>(s: seq<T>, key: T -> real)
    requires |s| > 0
    ensures var f := KeyFilter(s, key, key(s[|s| - 1])); |f| > 0 && f[|f| - 1] == s[|s| - 1]
  {
    var n := |s| - 1;
    assert s == s[..n] + [s[n]];
    KeyFilterAppend(s[..n], s[n], key, key(s[n]));
  }

  // ---------------------------------------------------------------------------
  // Order statistics
  // ---------------------------------------------------------------------------

  /** Number of elements strictly below `d`. */
  function CountBelow(s: seq<real>, d: real): nat
  {
    if |s| == 0 then 0 else (if s[0] < d then 1 else 0) + CountBelow(s[1..], d)
  }

  /** Number of elements at most `d`. */
  function CountAtMost(s: seq<real>, d: real): nat
  {
    if |s| == 0 then 0 else (if s[0] <= d then 1 else 0) + CountAtMost(s[1..], d)
  }

  lemma {:induction false} InsertCounts(x: real, s: seq<real>, d: real)
    ensures CountBelow(InsertBy(x, s, Id), d) == CountBelow(s, d) + (if x < d then 1 else 0)
    ensures CountAtMost(InsertBy(x, s, Id), d) == CountAtMost(s, d) + (if x <= d then 1 else 0)
  {
    if |s| == 0 || x <= s[0] {
      assert ([x] + s)[1..] == s;
    } else {
      var rest := InsertBy(x, s[1..], Id);
      assert ([s[0]] + rest)[1..] == rest;
      InsertCounts(x, s[1..], d);
    }
  }

  lemma {:induction false} SortCounts(s: seq<real>, d: real)
    ensures CountBelow(SortBy(s, Id), d) == CountBelow(s, d)
    ensures CountAtMost(SortBy(s, Id), d) == CountAtMost(s, d)
  {
    if |s| > 0 {
      SortCounts(s[1..], d);
      InsertCounts(s[0], SortBy(s[1..], Id), d);
    }
  }

  /** If every element from index `m` on is at least `d`, at most `m` elements are below `d`. */
  lemma {:induction false} CountBelowAtMost(t: seq<real>, d: real, m: nat)
    requires forall j :: m <= j < |t| ==> d <= t[j]
    ensures CountBelow(t, d) <= m
  {
    if |t| > 0 {
      if m == 0 {
        CountBelowAtMost(t[1..], d, 0);
      } else {
        CountBelowAtMost(t[1..], d, m - 1);
      }
    }
  }

  /** If the first `m` elements are at most `d`, at least `m` elements are at most `d`. */
  lemma {:induction false} CountAtMostAtLeast(t: seq<real>, d: real, m: nat)
    requires m <= |t|
    requires forall j :: 0 <= j < m ==> t[j] <= d
    ensures m <= CountAtMost(t, d)
  {
    if m > 0 {
      CountAtMostAtLeast(t[1..], d, m - 1);
    }
  }

  /** The 3rd-smallest value, `sorted(s)[2]`: at most two values lie strictly
      below it and at least three lie at or below it. */
  function ThirdSmallest(s: seq<real>): (r: real)
    requires |s| >= 3
    ensures r in s
    ensures CountBelow(s, r) <= 2
    ensures 3 <= CountAtMost(s, r)
  {
    var t := SortBy(s, Id);
    assert t[2] in multiset(t);
    assert forall j :: 2 <= j < |t| ==> t[2] <= t[j] by {
      assert SortedBy(t, Id);
    }
    assert forall j :: 0 <= j < 3 ==> t[j] <= t[2] by {
      assert SortedBy(t, Id);
    }
    CountBelowAtMost(t, t[2], 2);
    CountAtMostAtLeast(t, t[2], 3);
    SortCounts(s, t[2]);
    t[2]
  }

  // ---------------------------------------------------------------------------
  // Flattening and subsequences
  // ---------------------------------------------------------------------------

  /** Concatenation of a sequence of sequences, in order. */
  function Flatten<T>(ss: seq<seq<T>>): seq<T>
  {
    if |ss| == 0 then [] else ss[0] + Flatten(ss[1..])
  }

  lemma {:induction false} FlattenAppend<T>(a: seq<seq<T>>, b: seq<seq<T>>)
    ensures Flatten(a + b) == Flatten(a) + Flatten(b)
  {
    if |a| == 0 {
      assert a + b == b;
    } else {
      assert (a + b)[1..] == a[1..] + b;
      FlattenAppend(a[1..], b);
    }
  }

  lemma FlattenSnoc<T>(a: seq<seq<T>>, x: seq<T>)
    ensures Flatten(a + [x]) == Flatten(a) + x
  {
    FlattenAppend(a, [x]);
    assert Flatten([x]) == x + Flatten([x][1..]);
  }

  /** `a` is obtained from `b` by deleting elements (order preserved). */
  predicate IsSubseq<T(==)>(a: seq<T>, b: seq<T>)
    decreases |b|
  {
    if |b| == 0 then |a| == 0
    else (|a| > 0 && a[0] == b[0] && IsSubseq(a[1..], b[1..])) || IsSubseq(a, b[1..])
  }

  lemma {:induction false} EmptyIsSubseq<T>(b: seq<T>)
    ensures IsSubseq([], b)
  {
    if |b| > 0 {
      EmptyIsSubseq(b[1..]);
    }
  }

  lemma SubseqKeep<T>(x: T, a: seq<T>, b: seq<T>)
    requires IsSubseq(a, b)
    ensures IsSubseq([x] + a, [x] + b)
  {
    assert ([x] + a)[1..] == a;
    assert ([x] + b)[1..] == b;
  }

  lemma SubseqSkip<T>(x: T, a: seq<T>, b: seq<T>)
    requires IsSubseq(a, b)
    ensures IsSubseq(a, [x] + b)
  {
    assert ([x] + b)[1..] == b;
  }

  lemma {:induction false} SubseqMembers<T>(a: seq<T>, b: seq<T>)
    requires IsSubseq(a, b)
    ensures |a| <= |b|
    ensures forall x :: x in a ==> x in b
  {
    if |b| > 0 {
      if |a| > 0 && a[0] == b[0] && IsSubseq(a[1..], b[1..]) {
        SubseqMembers(a[1..], b[1..]);
        assert a == [a[0]] + a[1..];
      } else {
        SubseqMembers(a, b[1..]);
      }
    }
  }
}
