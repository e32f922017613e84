/** A light curve (`LightCurve` in analyze_transit.py): a non-empty sequence of
    samples with its derived first and last point, and the curve operations
    that produce new curves from it (extract, normalize, invert).
 */
module LightCurves {
  import opened Outcomes
  import opened Seqs
  import opened LightPoints

  /** Constructing a curve takes the first element of the time-sorted points,
      so a curve always has at least one point. */
  type Curve = ps: seq<Point> | |ps| > 0 witness [Point(0.0, Rgb(0.0, 0.0, 0.0))]

  /** `LightCurve(points)`: fails on an empty point list. */
  function MakeCurve(points: seq<Point>): (r: Result<Curve>)
    ensures r.Ok? <==> |points| > 0
    ensures r.Ok? ==> r.value == points
    ensures r.Err? ==> r.error == EmptyCurve
  {
    if |points| == 0 then Err(EmptyCurve) else Ok(points)
  }

  function SortByTime(ps: seq<Point>): seq<Point>
  {
    SortBy(ps, TimeOf)
  }

  // ---------------------------------------------------------------------------
  // First point, last point, duration (`update_duration`, `get_duration`)
  // ---------------------------------------------------------------------------

  /** `first_point`: the head of the stably time-sorted points, i.e. a point of
      minimum timestamp, and among several such the one listed first. */
  function First(c: Curve): (p: Point)
    ensures p in c
    ensures forall i :: 0 <= i < |c| ==> p.time <= c[i].time
  {
    SortByEnds(c, TimeOf);
    SortByTime(c)[0]
  }

  /** `last_point`: the tail of the stably time-sorted points, i.e. a point of
      maximum timestamp, and among several such the one listed last. */
  function Last(c: Curve): (p: Point)
    ensures p in c
    ensures forall i :: 0 <= i < |c| ==> c[i].time <= p.time
  {
    SortByEnds(c, TimeOf);
    SortByTime(c)[|c| - 1]
  }

  /** Sorting by time only reorders: every sorted point is a point of the input. */
  lemma SortByTimeMembers(ps: seq<Point>)
    ensures |SortByTime(ps)| == |ps|
    ensures forall i :: 0 <= i < |ps| ==> SortByTime(ps)[i] in ps
  {
    var s := SortByTime(ps);
    forall i | 0 <= i < |ps| ensures s[i] in ps {
      assert s[i] in multiset(s);
    }
  }

  /** Among the points of minimum time, `first_point` is the one listed first
      (the sort is stable). */
  lemma FirstListedFirst(c: Curve)
    ensures var f := KeyFilter(c, TimeOf, First(c).time); |f| > 0 && f[0] == First(c)
  {
    var s := SortByTime(c);
    SortByStable(c, TimeOf, TimeOf(s[0]));
    KeyFilterHead(s, TimeOf);
  }

  /** Among the points of maximum time, `last_point` is the one listed last. */
  lemma LastListedLast(c: Curve)
    ensures var f := KeyFilter(c, TimeOf, Last(c).time); |f| > 0 && f[|f| - 1] == Last(c)
  {
    var s := SortByTime(c);
    SortByStable(c, TimeOf, TimeOf(s[|s| - 1]));
    KeyFilterLast(s, TimeOf);
  }

  /** `get_duration`: seconds from the first to the last point, which is the
      largest time difference between any two points of the curve. */
  function Duration(c: Curve): (d: real)
    ensures d >= 0.0
    ensures forall i, j :: 0 <= i < |c| && 0 <= j < |c| ==> c[i].time - c[j].time <= d
    ensures exists i, j :: 0 <= i < |c| && 0 <= j < |c| && d == c[i].time - c[j].time
  {
    var f, l := First(c), Last(c);
    var i :| 0 <= i < |c| && c[i] == l;
    var j :| 0 <= j < |c| && c[j] == f;
    assert TimeDiff(l, f) == c[i].time - c[j].time;
    TimeDiff(l, f)
  }

  /** The first and the last time, and so the duration, do not depend on the
      order in which the points are listed. */
  lemma EndsOfPermutation(c: Curve, d: Curve)
    requires multiset(c) == multiset(d)
    ensures First(c).time == First(d).time
    ensures Last(c).time == Last(d).time
    ensures Duration(c) == Duration(d)
  {
    assert First(c) in multiset(d) && First(d) in multiset(c);
    assert Last(c) in multiset(d) && Last(d) in multiset(c);
  }

  /** Appends the points collected so far as one more curve, unless there are
      none: how both `read` and `split` finish a segment. */
  function Close(acc: seq<Curve>, cur: seq<Point>): (r: seq<Curve>)
    ensures |acc| <= |r| <= |acc| + 1 && r[..|acc|] == acc
    ensures |r| > |acc| ==> r[|acc|] == cur
    ensures Flatten(r) == Flatten(acc) + cur
  {
    FlattenSnoc(acc, cur);
    if |cur| > 0 then acc + [cur] else (assert Flatten(acc) + cur == Flatten(acc); acc)
  }

  // ---------------------------------------------------------------------------
  // extract
  // ---------------------------------------------------------------------------

  predicate InWindow(p: Point, from: real, to: real)
  {
    from <= p.time < to
  }

  /** The points of `ps` whose time lies in the half-open window `[from, to)`,
      in their original order. */
  function Window(ps: seq<Point>, from: real, to: real): (w: seq<Point>)
    ensures IsSubseq(w, ps)
    ensures forall i :: 0 <= i < |w| ==> InWindow(w[i], from, to)
    ensures forall i :: 0 <= i < |ps| && InWindow(ps[i], from, to) ==> ps[i] in w
    ensures forall q :: InWindow(q, from, to) ==> multiset(w)[q] == multiset(ps)[q]
  {
    if |ps| == 0 then []
    else
      var rest := Window(ps[1..], from, to);
      assert ps == [ps[0]] + ps[1..];
      assert multiset(ps) == multiset{ps[0]} + multiset(ps[1..]);
      assert forall i :: 1 <= i < |ps| ==> ps[i] == ps[1..][i - 1];
      if InWindow(ps[0], from, to) then
        SubseqKeep(ps[0], rest, ps[1..]);
        [ps[0]] + rest
      else
        SubseqSkip(ps[0], rest, ps[1..]);
        rest
  }

  lemma {:induction false} WindowOfInside(ps: seq<Point>, from: real, to: real)
    requires forall i :: 0 <= i < |ps| ==> InWindow(ps[i], from, to)
    ensures Window(ps, from, to) == ps
  {
    if |ps| > 0 {
      WindowOfInside(ps[1..], from, to);
      assert ps == [ps[0]] + ps[1..];
    }
  }

  /** `extract(from, to)`: the sub-curve on `[from, to)`; it fails exactly when
      no point falls in the window, since the empty curve cannot be built. */
  function Extract(c: Curve, from: real, to: real): (r: Result<Curve>)
    ensures r.Ok? <==> exists i :: 0 <= i < |c| && InWindow(c[i], from, to)
    ensures r.Err? ==> r.error == EmptyCurve
    ensures r.Ok? ==> IsSubseq(r.value, c)
    ensures r.Ok? ==> forall i :: 0 <= i < |r.value| ==> InWindow(r.value[i], from, to)
    ensures r.Ok? ==> forall i :: 0 <= i < |c| && InWindow(c[i], from, to) ==> c[i] in r.value
    ensures r.Ok? ==> forall q :: InWindow(q, from, to) ==> multiset(r.value)[q] == multiset(c)[q]
  {
    var w := Window(c, from, to);
    if |w| == 0 then
      Err(EmptyCurve)
    else
      assert w[0] in c by { SubseqMembers(w, c); }
      MakeCurve(w)
  }

  /** Extracting the same window twice changes nothing. */
  lemma ExtractIdempotent(c: Curve, from: real, to: real)
    requires Extract(c, from, to).Ok?
    ensures Extract(Extract(c, from, to).value, from, to) == Extract(c, from, to)
  {
    var w := Extract(c, from, to).value;
    WindowOfInside(w, from, to);
  }

  // ---------------------------------------------------------------------------
  // get_norm, get_min, normalize
  // ---------------------------------------------------------------------------

  /** Channel means of the points, in order. */
  function Means(ps: seq<Point>): (m: seq<real>)
    ensures |m| == |ps|
    ensures forall i :: 0 <= i < |ps| ==> m[i] == ChannelMean(ps[i].value)
  {
    seq(|ps|, i requires 0 <= i < |ps| => ChannelMean(ps[i].value))
  }

  /** Number of points taken from each end for the baseline. */
  const EndCount: nat := 3

  function EndLength(n: nat): nat
  {
    if n < EndCount then n else EndCount
  }

  /** `points[:3] + points[-3:]`: both slices have `min(3, n)` elements and
      they overlap when there are fewer than 6 points. */
  function Ends<T>(ps: seq<T>): seq<T>
  {
    var k := EndLength(|ps|);
    ps[..k] + ps[|ps| - k..]
  }

  /** `get_norm`: the out-of-transit level, the mean channel mean over the
      first three and the last three points. */
  function Norm(c: Curve): real
  {
    Mean(Means(Ends(c)))
  }

  /** The level lies between the smallest and the largest channel mean. */
  lemma NormWithinRange(c: Curve)
    ensures MinOf(Means(c)) <= Norm(c) <= MaxOf(Means(c))
  {
    var e := Means(Ends(c));
    var lo, hi := MinOf(Means(c)), MaxOf(Means(c));
    var k := EndLength(|c|);
    forall j | 0 <= j < |e|
      ensures lo <= e[j] <= hi
    {
      EndsIndex(c, j);
      if j < k {
        assert Means(c)[j] == e[j];
      } else {
        assert Means(c)[|c| - k + (j - k)] == e[j];
      }
    }
    MeanBetween(e, lo, hi);
  }

  /** `get_min`: the 3rd-smallest channel mean. */
  function GetMin(c: Curve): (m: real)
    requires |c| >= 3
    ensures CountBelow(Means(c), m) <= 2
    ensures 3 <= CountAtMost(Means(c), m)
  {
    ThirdSmallest(Means(c))
  }

  /** `100. * value / norm`, channel by channel. */
  function Scale(v: Rgb, norm: real): Rgb
    requires norm != 0.0
  {
    Rgb(100.0 * v.r / norm, 100.0 * v.g / norm, 100.0 * v.b / norm)
  }

  lemma ScaleMean(v: Rgb, norm: real)
    requires norm != 0.0
    ensures ChannelMean(Scale(v, norm)) == (100.0 / norm) * ChannelMean(v)
  {
    var k := 100.0 / norm;
    assert 100.0 * v.r / norm == k * v.r;
    assert 100.0 * v.g / norm == k * v.g;
    assert 100.0 * v.b / norm == k * v.b;
  }

  /** Every point's value rescaled by `100 / norm`; each channel mean scales
      by the same factor. */
  function Rescaled(c: Curve, norm: real): (d: Curve)
    requires norm != 0.0
    ensures |d| == |c|
    ensures forall i :: 0 <= i < |c| ==> d[i].time == c[i].time
    ensures forall i :: 0 <= i < |c| ==>
              ChannelMean(d[i].value) == (100.0 / norm) * ChannelMean(c[i].value)
  {
    var d := seq(|c|, i requires 0 <= i < |c| => Point(c[i].time, Scale(c[i].value, norm)));
    forall i | 0 <= i < |c|
      ensures ChannelMean(d[i].value) == (100.0 / norm) * ChannelMean(c[i].value)
    {
      ScaleMean(c[i].value, norm);
    }
    d
  }

  /** `normalize`: every flux rescaled by `100 / get_norm()`, times and order
      kept. A zero level, where floating point would give inf or NaN, is
      reported instead. */
  function Normalize(c: Curve): (r: Result<Curve>)
    ensures r.Ok? <==> Norm(c) != 0.0
    ensures r.Err? ==> r.error == ZeroBaseline
    ensures r.Ok? ==> |r.value| == |c|
    ensures r.Ok? ==> forall i :: 0 <= i < |c| ==> r.value[i].time == c[i].time
    ensures r.Ok? ==> forall i :: 0 <= i < |c| ==>
              ChannelMean(r.value[i].value) == (100.0 / Norm(c)) * ChannelMean(c[i].value)
  {
    var norm := Norm(c);
    if norm == 0.0 then Err(ZeroBaseline) else Ok(Rescaled(c, norm))
  }

  lemma EndsIndex<T>(ps: seq<T>, j: nat)
    requires j < |Ends(ps)|
    ensures var k := EndLength(|ps|);
            Ends(ps)[j] == if j < k then ps[j] else ps[|ps| - k + (j - k)]
  {
  }

  /** Two curves whose channel means agree up to a factor `k`, point by point,
      have levels that agree up to `k`. */
  lemma NormScale(c: Curve, d: Curve, k: real)
    requires |d| == |c|
    requires forall i :: 0 <= i < |c| ==> ChannelMean(d[i].value) == k * ChannelMean(c[i].value)
    ensures Norm(d) == k * Norm(c)
  {
    var e, e' := Means(Ends(c)), Means(Ends(d));
    forall j | 0 <= j < |e|
      ensures e'[j] == k * e[j]
    {
      EndsIndex(c, j);
      EndsIndex(d, j);
    }
    SumScale(e, e', k);
    var n := |e| as real;
    assert Mean(e') == Sum(e') / n;
    assert Mean(e) == Sum(e) / n;
    assert Sum(e') / n == k * (Sum(e) / n);
  }

  /** A normalized curve has out-of-transit level 100. */
  lemma NormOfNormalize(c: Curve)
    requires Normalize(c).Ok?
    ensures Norm(Normalize(c).value) == 100.0
  {
    NormOfRescaled(c, Normalize(c).value);
  }

  lemma NormOfRescaled(c: Curve, d: Curve)
    requires Norm(c) != 0.0 && |d| == |c|
    requires forall i :: 0 <= i < |c| ==>
               ChannelMean(d[i].value) == (100.0 / Norm(c)) * ChannelMean(c[i].value)
    ensures Norm(d) == 100.0
  {
    NormScale(c, d, 100.0 / Norm(c));
    PercentOfSelf(Norm(c));
  }

  lemma PercentOfSelf(n: real)
    requires n != 0.0
    ensures (100.0 / n) * n == 100.0
  {
  }

  // ---------------------------------------------------------------------------
  // invert
  // ---------------------------------------------------------------------------

  /** Every timestamp reflected about `pivot`, `pivot - (t - pivot)`; values
      and list order kept. */
  function Reflect(ps: seq<Point>, pivot: real): (d: seq<Point>)
    ensures |d| == |ps|
    ensures forall i :: 0 <= i < |ps| ==> d[i].value == ps[i].value
    ensures forall i :: 0 <= i < |ps| ==> d[i].time + ps[i].time == 2.0 * pivot
  {
    seq(|ps|, i requires 0 <= i < |ps| => Point(pivot - (ps[i].time - pivot), ps[i].value))
  }

  /** `invert(pivot)`: the curve reflected in time about `pivot`. */
  function Invert(c: Curve, pivot: real): (d: Curve)
    ensures |d| == |c|
    ensures forall i :: 0 <= i < |c| ==> d[i].value == c[i].value
    ensures forall i :: 0 <= i < |c| ==> d[i].time + c[i].time == 2.0 * pivot
  {
    Reflect(c, pivot)
  }

  /** Reflecting twice about the same pivot gives back the curve. */
  lemma InvertTwice(c: Curve, pivot: real)
    ensures Invert(Invert(c, pivot), pivot) == c
  {
    var d := Invert(Invert(c, pivot), pivot);
    assert forall i :: 0 <= i < |c| ==> d[i] == c[i];
  }

  /** Reflection swaps the roles of the first and the last point. */
  lemma InvertEnds(c: Curve, pivot: real)
    ensures First(Invert(c, pivot)).time == 2.0 * pivot - Last(c).time
    ensures Last(Invert(c, pivot)).time == 2.0 * pivot - First(c).time
  {
    var d := Invert(c, pivot);
    var f, l := First(d), Last(d);
    var i :| 0 <= i < |d| && d[i] == f;
    var j :| 0 <= j < |d| && d[j] == l;
    var a :| 0 <= a < |c| && c[a] == Last(c);
    var b :| 0 <= b < |c| && c[b] == First(c);
    assert f.time <= d[a].time;
    assert c[i].time <= Last(c).time;
    assert d[b].time <= l.time;
    assert First(c).time <= c[j].time;
  }

  /** Reflection keeps the duration. */
  lemma InvertDuration(c: Curve, pivot: real)
    ensures Duration(Invert(c, pivot)) == Duration(c)
  {
    InvertEnds(c, pivot);
  }

  /** Reflection keeps every channel mean, hence the level and the 3rd-smallest value. */
  lemma InvertMeans(c: Curve, pivot: real)
    ensures Means(Invert(c, pivot)) == Means(c)
    ensures Norm(Invert(c, pivot)) == Norm(c)
    ensures |c| >= 3 ==> GetMin(Invert(c, pivot)) == GetMin(c)
  {
    var d := Invert(c, pivot);
    assert Means(d) == Means(c);
    NormScale(c, d, 1.0);
  }
}
