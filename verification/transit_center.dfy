/** The obscuration-weighted centroid of a transit (`get_transit_center` in
    analyze_transit.py), which refines a coarse transit time to sub-sample
    precision.
 */
module TransitCenters {
  import opened Outcomes
  import opened Seqs
  import opened LightPoints
  import opened LightCurves

  /** `(get_norm() + get_min()) / 2`: halfway between the out-of-transit level
      and the 3rd-smallest channel mean. */
  function CenterThreshold(c: Curve): real
    requires |c| >= 3
  {
    (Norm(c) + GetMin(c)) / 2.0
  }

  /** The points whose channel mean is at most `thr`, in order. */
  function Selected(ps: seq<Point>, thr: real): (sel: seq<Point>)
    ensures forall i :: 0 <= i < |sel| ==> ChannelMean(sel[i].value) <= thr
    ensures forall i :: 0 <= i < |ps| && ChannelMean(ps[i].value) <= thr ==> ps[i] in sel
    ensures forall p :: p in sel ==> p in ps
  {
    if |ps| == 0 then []
    else
      var rest := Selected(ps[1..], thr);
      assert forall i :: 1 <= i < |ps| ==> ps[i] == ps[1..][i - 1];
      if ChannelMean(ps[0].value) <= thr then [ps[0]] + rest else rest
  }

  /** The selection is the filter of `ps` by the threshold: an ordered
      subsequence that keeps every copy of every point at or below it. */
  lemma SelectedIsFilter(ps: seq<Point>, thr: real)
    ensures IsSubseq(Selected(ps, thr), ps)
    ensures forall q: Point :: ChannelMean(q.value) <= thr ==>
              multiset(Selected(ps, thr))[q] == multiset(ps)[q]
  {
    SelectedIsSubseq(ps, thr);
    SelectedCounts(ps, thr);
  }

  lemma {:induction false} SelectedIsSubseq(ps: seq<Point>, thr: real)
    ensures IsSubseq(Selected(ps, thr), ps)
  {
    if |ps| > 0 {
      var rest := Selected(ps[1..], thr);
      SelectedIsSubseq(ps[1..], thr);
      if ChannelMean(ps[0].value) <= thr {
        SubseqKeep(ps[0], rest, ps[1..]);
      } else {
        SubseqSkip(ps[0], rest, ps[1..]);
      }
    }
  }

  lemma {:induction false} SelectedCounts(ps: seq<Point>, thr: real)
    ensures forall q: Point :: ChannelMean(q.value) <= thr ==>
              multiset(Selected(ps, thr))[q] == multiset(ps)[q]
  {
    if |ps| > 0 {
      SelectedCounts(ps[1..], thr);
      assert ps == [ps[0]] + ps[1..];
      assert multiset(ps) == multiset{ps[0]} + multiset(ps[1..]);
    }
  }

  /** Obscuration of one point: light missing relative to the level `norm`. */
  function Obscuration(p: Point, norm: real): real
  {
    norm - ChannelMean(p.value)
  }

  /** Σ (norm − v) over the points. */
  function ObscurationSum(ps: seq<Point>, norm: real): real
  {
    if |ps| == 0 then 0.0 else Obscuration(ps[0], norm) + ObscurationSum(ps[1..], norm)
  }

  /** Σ (t − origin)·(norm − v) over the points. */
  function MomentSum(ps: seq<Point>, norm: real, origin: real): real
  {
    if |ps| == 0 then 0.0
    else (ps[0].time - origin) * Obscuration(ps[0], norm) + MomentSum(ps[1..], norm, origin)
  }

  /** The centroid over a non-empty selection: `origin` plus the mean of
      offset·obscuration divided by the mean obscuration. A zero mean
      obscuration (inf or NaN in floating point, which the timedelta
      conversion rejects) is a failure. */
  function Centroid(sel: seq<Point>, norm: real, origin: real): (r: Result<real>)
    requires |sel| > 0
    ensures r.Ok? <==> ObscurationSum(sel, norm) != 0.0
    ensures r.Err? ==> r.error == ZeroObscuration
  {
    var n := |sel| as real;
    var meanTimeObscuration := MomentSum(sel, norm, origin) / n;
    var meanObscuration := norm - Mean(Means(sel));
    ObscurationSumSplit(sel, norm);
    MeanWeightZero(n, norm, Sum(Means(sel)), ObscurationSum(sel, norm));
    if meanObscuration == 0.0 then Err(ZeroObscuration)
    else Ok(origin + meanTimeObscuration / meanObscuration)
  }

  /** `get_transit_center`: the centroid of the points at or below the
      threshold, measured from the first point. Fewer than 3 points (no
      3rd-smallest value) is a failure. */
  function TransitCenter(c: Curve): (r: Result<real>)
    ensures |c| < 3 ==> r == Err(TooFewPoints)
    ensures |c| >= 3 ==> (r.Ok? <==> ObscurationSum(Selected(c, CenterThreshold(c)), Norm(c)) != 0.0)
    ensures |c| >= 3 && r.Err? ==> r.error == ZeroObscuration
    ensures r.Err? ==> r.error in {TooFewPoints, ZeroObscuration}
  {
    if |c| < 3 then Err(TooFewPoints)
    else
      SelectionNonEmpty(c);
      Centroid(Selected(c, CenterThreshold(c)), Norm(c), First(c).time)
  }

  /** The point of smallest channel mean is always selected: its value is at
      most the level (a mean of channel means) and at most the 3rd-smallest
      value, so the means in the centroid are never taken over nothing. */
  lemma SelectionNonEmpty(c: Curve)
    requires |c| >= 3
    ensures |Selected(c, CenterThreshold(c))| > 0
  {
    var m := Means(c);
    var lo := MinOf(m);
    var i :| 0 <= i < |m| && m[i] == lo;
    NormWithinRange(c);
    assert GetMin(c) in m;
    assert lo <= GetMin(c);
    assert ChannelMean(c[i].value) <= CenterThreshold(c);
    assert c[i] in Selected(c, CenterThreshold(c));
  }

  lemma {:induction false} SumOfMeans(ps: seq<Point>)
    ensures |ps| > 0 ==> Sum(Means(ps)) == ChannelMean(ps[0].value) + Sum(Means(ps[1..]))
  {
    if |ps| > 0 {
      assert Means(ps)[1..] == Means(ps[1..]);
    }
  }

  /** Σ (norm − v) = n·norm − Σ v. */
  lemma {:induction false} ObscurationSumSplit(ps: seq<Point>, norm: real)
    ensures ObscurationSum(ps, norm) == (|ps| as real) * norm - Sum(Means(ps))
  {
    if |ps| > 0 {
      SumOfMeans(ps);
      ObscurationSumSplit(ps[1..], norm);
    }
  }

  /** The ratio of the two means equals the ratio of the sums, and the result
      does not depend on the origin the offsets are measured from: it is the
      obscuration-weighted mean time Σ t·w / Σ w. */
  lemma CentroidIsWeightedMean(sel: seq<Point>, norm: real, origin: real)
    requires |sel| > 0
    ensures Centroid(sel, norm, origin).Ok? ==>
              Centroid(sel, norm, origin).value
                == origin + MomentSum(sel, norm, origin) / ObscurationSum(sel, norm)
    ensures Centroid(sel, norm, origin).Ok? ==>
              Centroid(sel, norm, origin).value
                == MomentSum(sel, norm, 0.0) / ObscurationSum(sel, norm)
  {
    ObscurationSumSplit(sel, norm);
    MomentShift(sel, norm, origin);
    assert WeightSplit(|sel| as real, norm, Sum(Means(sel)), ObscurationSum(sel, norm));
    assert MomentSplit(MomentSum(sel, norm, origin), MomentSum(sel, norm, 0.0), origin, ObscurationSum(sel, norm));
    CentroidAlgebra(|sel| as real, norm, origin, Sum(Means(sel)),
                    ObscurationSum(sel, norm), MomentSum(sel, norm, origin), MomentSum(sel, norm, 0.0));
  }

  /** The arithmetic behind `CentroidIsWeightedMean`: with `n` values summing
      to `s`, total weight `w = n·norm − s` and moments `m = t − origin·w`. */
  predicate WeightSplit(n: real, norm: real, s: real, w: real)
  {
    w == n * norm - s
  }

  /** The mean weight `norm − s/n` vanishes exactly when the total weight does. */
  lemma MeanWeightZero(n: real, norm: real, s: real, w: real)
    requires n > 0.0 && WeightSplit(n, norm, s, w)
    ensures norm - s / n == 0.0 <==> w == 0.0
  {
    assert w == n * (norm - s / n);
  }

  predicate MomentSplit(m: real, t: real, origin: real, w: real)
  {
    m == t - origin * w
  }

  lemma CentroidAlgebra(n: real, norm: real, origin: real, s: real, w: real, m: real, t: real)
    requires n > 0.0
    requires WeightSplit(n, norm, s, w)
    requires MomentSplit(m, t, origin, w)
    ensures norm - s / n == w / n
    ensures norm - s / n == 0.0 <==> w == 0.0
    ensures w != 0.0 ==> origin + (m / n) / (norm - s / n) == origin + m / w
    ensures w != 0.0 ==> origin + m / w == t / w
  {
    assert s == n * (s / n);
    assert w / n == norm - s / n by {
      assert w == n * (norm - s / n);
    }
    if w != 0.0 {
      RatioOfMeans(m, w, n);
      assert (origin * w) / w == origin;
      DivSub(t, origin * w, w);
    }
  }

  /** `get_transit_center` is the weighted mean of the selected offsets,
      Σ(offset·(norm − v)) / Σ(norm − v), added to the first point's time. */
  lemma CenterRatioOfSums(c: Curve)
    requires TransitCenter(c).Ok?
    ensures var sel := Selected(c, CenterThreshold(c));
            ObscurationSum(sel, Norm(c)) != 0.0 &&
            TransitCenter(c).value
              == First(c).time + MomentSum(sel, Norm(c), First(c).time) / ObscurationSum(sel, Norm(c))
  {
    SelectionNonEmpty(c);
    CentroidIsWeightedMean(Selected(c, CenterThreshold(c)), Norm(c), First(c).time);
  }

  // ---------------------------------------------------------------------------
  // Mirror equivariance: the centre of the reflected curve is the reflected centre
  // ---------------------------------------------------------------------------

  /** Σ t·(norm − v): the moment about time 0. */
  lemma {:induction false} MomentShift(ps: seq<Point>, norm: real, origin: real)
    ensures MomentSum(ps, norm, origin) == MomentSum(ps, norm, 0.0) - origin * ObscurationSum(ps, norm)
  {
    if |ps| > 0 {
      MomentShift(ps[1..], norm, origin);
      var w := Obscuration(ps[0], norm);
      assert (ps[0].time - origin) * w == (ps[0].time - 0.0) * w - origin * w;
    }
  }

  lemma {:induction false} SelectedReflect(ps: seq<Point>, thr: real, pivot: real)
    ensures Selected(Reflect(ps, pivot), thr) == Reflect(Selected(ps, thr), pivot)
  {
    if |ps| > 0 {
      assert Reflect(ps, pivot)[1..] == Reflect(ps[1..], pivot);
      SelectedReflect(ps[1..], thr, pivot);
      var rest := Selected(ps[1..], thr);
      if ChannelMean(ps[0].value) <= thr {
        assert Reflect([ps[0]] + rest, pivot) == [Reflect(ps, pivot)[0]] + Reflect(rest, pivot);
      }
    }
  }

  lemma {:induction false} ReflectSums(ps: seq<Point>, norm: real, pivot: real)
    ensures ObscurationSum(Reflect(ps, pivot), norm) == ObscurationSum(ps, norm)
    ensures MomentSum(Reflect(ps, pivot), norm, 0.0)
         == 2.0 * pivot * ObscurationSum(ps, norm) - MomentSum(ps, norm, 0.0)
  {
    if |ps| > 0 {
      var d := Reflect(ps, pivot);
      assert d[1..] == Reflect(ps[1..], pivot);
      ReflectSums(ps[1..], norm, pivot);
      var w := Obscuration(ps[0], norm);
      assert Obscuration(d[0], norm) == w;
      assert (d[0].time - 0.0) * w == 2.0 * pivot * w - (ps[0].time - 0.0) * w;
    }
  }

  /** The centroid in closed form, independent of the origin. */
  lemma CentroidClosedForm(sel: seq<Point>, norm: real, origin: real)
    requires |sel| > 0
    ensures Centroid(sel, norm, origin)
         == if ObscurationSum(sel, norm) == 0.0 then Err(ZeroObscuration)
            else Ok(MomentSum(sel, norm, 0.0) / ObscurationSum(sel, norm))
  {
    CentroidIsWeightedMean(sel, norm, origin);
  }

  /** The centroid of a reflected selection is the reflected centroid,
      whatever origins the two are measured from. */
  lemma CentroidOfReflect(sel: seq<Point>, norm: real, origin: real, origin': real, pivot: real)
    requires |sel| > 0
    ensures Centroid(Reflect(sel, pivot), norm, origin').Ok? <==> Centroid(sel, norm, origin).Ok?
    ensures Centroid(sel, norm, origin).Ok? ==>
              Centroid(Reflect(sel, pivot), norm, origin').value
                == 2.0 * pivot - Centroid(sel, norm, origin).value
  {
    CentroidClosedForm(sel, norm, origin);
    CentroidClosedForm(Reflect(sel, pivot), norm, origin');
    MirroredResult(sel, norm, pivot, Centroid(sel, norm, origin), Centroid(Reflect(sel, pivot), norm, origin'));
  }

  /** The closed-form step of `CentroidOfReflect`, stated over the two results
      alone so that the centroid's definition stays out of the proof. */
  lemma MirroredResult(sel: seq<Point>, norm: real, pivot: real, r: Result<real>, r': Result<real>)
    requires r == if ObscurationSum(sel, norm) == 0.0 then Err(ZeroObscuration)
                  else Ok(MomentSum(sel, norm, 0.0) / ObscurationSum(sel, norm))
    requires r' == if ObscurationSum(Reflect(sel, pivot), norm) == 0.0 then Err(ZeroObscuration)
                   else Ok(MomentSum(Reflect(sel, pivot), norm, 0.0) / ObscurationSum(Reflect(sel, pivot), norm))
    ensures r'.Ok? <==> r.Ok?
    ensures r.Ok? ==> r'.value == 2.0 * pivot - r.value
  {
    ReflectSums(sel, norm, pivot);
    if ObscurationSum(sel, norm) == 0.0 {
      assert r.Err? && r'.Err?;
    } else {
      MirrorAlgebra(pivot, ObscurationSum(sel, norm), MomentSum(sel, norm, 0.0));
    }
  }

  lemma MirrorAlgebra(pivot: real, w: real, t: real)
    requires w != 0.0
    ensures (2.0 * pivot * w - t) / w == 2.0 * pivot - t / w
  {
    DivSub(2.0 * pivot * w, t, w);
    assert (2.0 * pivot * w) / w == 2.0 * pivot;
  }

  /** Reflecting a curve about `pivot` reflects its refined centre about
      `pivot`, and fails exactly when the original fails. */
  lemma CenterOfInvert(c: Curve, pivot: real)
    ensures TransitCenter(Invert(c, pivot)).Ok? <==> TransitCenter(c).Ok?
    ensures TransitCenter(Invert(c, pivot)).Err? ==>
              TransitCenter(Invert(c, pivot)).error == TransitCenter(c).error
    ensures TransitCenter(c).Ok? ==>
              TransitCenter(Invert(c, pivot)).value == 2.0 * pivot - TransitCenter(c).value
  {
    var d := Invert(c, pivot);
    if |c| >= 3 {
      InvertMeans(c, pivot);
      var thr := CenterThreshold(c);
      assert CenterThreshold(d) == thr;
      var sel := Selected(c, thr);
      SelectedReflect(c, thr, pivot);
      SelectionNonEmpty(c);
      assert TransitCenter(c) == Centroid(sel, Norm(c), First(c).time);
      assert TransitCenter(d) == Centroid(Reflect(sel, pivot), Norm(c), First(d).time);
      CentroidOfReflect(sel, Norm(c), First(c).time, First(d).time, pivot);
    }
  }

  // ---------------------------------------------------------------------------
  // Range of the centre, and the flat-curve failure
  // ---------------------------------------------------------------------------

  lemma {:induction false} MomentBounds(ps: seq<Point>, norm: real, origin: real, span: real)
    requires forall i :: 0 <= i < |ps| ==> 0.0 <= ps[i].time - origin <= span
    requires forall i :: 0 <= i < |ps| ==> 0.0 <= Obscuration(ps[i], norm)
    ensures 0.0 <= ObscurationSum(ps, norm)
    ensures 0.0 <= MomentSum(ps, norm, origin) <= span * ObscurationSum(ps, norm)
  {
    if |ps| > 0 {
      MomentBounds(ps[1..], norm, origin, span);
      var o, w := ps[0].time - origin, Obscuration(ps[0], norm);
      assert 0.0 <= o * w;
      assert (span - o) * w >= 0.0;
    }
  }

  /** When the 3rd-smallest value is at most the level (the curve dips), every
      selected point has a non-negative obscuration and the refined centre lies
      between the first and the last point's time. */
  lemma CenterWithinCurve(c: Curve)
    requires TransitCenter(c).Ok?
    requires GetMin(c) <= Norm(c)
    ensures First(c).time <= TransitCenter(c).value <= Last(c).time
  {
    assert |c| >= 3;
    SelectionNonEmpty(c);
    SelectionInRange(c);
    var sel := Selected(c, CenterThreshold(c));
    var f, span := First(c).time, Last(c).time - First(c).time;
    assert TransitCenter(c) == Centroid(sel, Norm(c), f);
    CentroidWithin(sel, Norm(c), f, span);
  }

  /** A centroid of points within `[origin, origin + span]` that all obscure
      light lies within the same interval. */
  lemma CentroidWithin(sel: seq<Point>, norm: real, origin: real, span: real)
    requires |sel| > 0 && Centroid(sel, norm, origin).Ok?
    requires forall i :: 0 <= i < |sel| ==>
               && 0.0 <= sel[i].time - origin <= span
               && 0.0 <= Obscuration(sel[i], norm)
    ensures origin <= Centroid(sel, norm, origin).value <= origin + span
  {
    CentroidIsWeightedMean(sel, norm, origin);
    MomentBounds(sel, norm, origin, span);
    OffsetWithin(origin, span, MomentSum(sel, norm, origin), ObscurationSum(sel, norm));
  }

  /** Every selected point lies within the curve's time span and, when the
      curve dips, obscures light. */
  lemma SelectionInRange(c: Curve)
    requires |c| >= 3
    requires GetMin(c) <= Norm(c)
    ensures var sel := Selected(c, CenterThreshold(c));
            forall i :: 0 <= i < |sel| ==>
              && 0.0 <= sel[i].time - First(c).time <= Last(c).time - First(c).time
              && 0.0 <= Obscuration(sel[i], Norm(c))
  {
    var sel := Selected(c, CenterThreshold(c));
    forall i | 0 <= i < |sel|
      ensures 0.0 <= sel[i].time - First(c).time <= Last(c).time - First(c).time
      ensures 0.0 <= Obscuration(sel[i], Norm(c))
    {
      assert sel[i] in c;
    }
  }

  lemma OffsetWithin(f: real, span: real, M: real, W: real)
    requires W != 0.0 && 0.0 <= W
    requires 0.0 <= M <= span * W
    ensures f <= f + M / W <= f + span
  {
    DivideBounds(M, W, 0.0, span);
  }

  /** A flat curve (all channel means equal) has zero obscuration everywhere,
      so its centre is undefined. */
  /** Points that each lie strictly below the level obscure a positive total. */
  lemma {:induction false} ObscurationSumPositive(ps: seq<Point>, norm: real)
    requires |ps| > 0
    requires forall i :: 0 <= i < |ps| ==> ChannelMean(ps[i].value) < norm
    ensures ObscurationSum(ps, norm) > 0.0
  {
    if |ps| > 1 {
      assert forall i :: 0 <= i < |ps[1..]| ==> ps[1..][i] == ps[i + 1];
      ObscurationSumPositive(ps[1..], norm);
    }
  }

  /** A curve of at least three points whose 3rd-smallest value lies below its
      level has a transit centre: every selected point then obscures light. */
  lemma DippingCurveHasCenter(c: Curve)
    requires |c| >= 3 && GetMin(c) < Norm(c)
    ensures TransitCenter(c).Ok?
  {
    var sel := Selected(c, CenterThreshold(c));
    SelectionNonEmpty(c);
    assert CenterThreshold(c) < Norm(c);
    ObscurationSumPositive(sel, Norm(c));
  }

  lemma FlatCurveHasNoCenter(c: Curve, v: real)
    requires |c| >= 3
    requires forall i :: 0 <= i < |c| ==> ChannelMean(c[i].value) == v
    ensures TransitCenter(c) == Err(ZeroObscuration)
  {
    FlatLevels(c, v);
    SelectionNonEmpty(c);
    FlatMean(Selected(c, CenterThreshold(c)), c, v);
  }

  lemma FlatLevels(c: Curve, v: real)
    requires |c| >= 3
    requires forall i :: 0 <= i < |c| ==> ChannelMean(c[i].value) == v
    ensures Norm(c) == v && GetMin(c) == v
  {
    var e := Means(Ends(c));
    forall j | 0 <= j < |e| ensures v <= e[j] <= v {
      EndsIndex(c, j);
    }
    MeanBetween(e, v, v);
    assert GetMin(c) in Means(c);
  }

  lemma FlatMean(sel: seq<Point>, c: Curve, v: real)
    requires |sel| > 0 && forall p :: p in sel ==> p in c
    requires forall i :: 0 <= i < |c| ==> ChannelMean(c[i].value) == v
    ensures Mean(Means(sel)) == v
  {
    var ms := Means(sel);
    forall j | 0 <= j < |ms| ensures v <= ms[j] <= v {
      assert sel[j] in c;
    }
    MeanBetween(ms, v, v);
  }
}
