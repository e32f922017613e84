/** The per-curve step of `analyze_file` (analyze_transit.py): feed the curve to
    the coarse detector, then cut one period-wide window around every detected
    transit and normalise it to its own out-of-transit level.

    The detector sees times as seconds since the curve's first point and levels
    as channel sums; the windows are taken on the original curve. Plotting and
    PDF output are not modelled.
 */
module Folding {
  import opened Outcomes
  import opened Seqs
  import opened LightPoints
  import opened LightCurves
  import opened Detector

  /** `[point.time_diff(light_curve.first_point) for point in light_curve.points]`:
      never negative, since the first point has the earliest time. */
  function Offsets(c: Curve): (r: seq<real>)
    ensures |r| == |c|
    ensures forall i :: 0 <= i < |c| ==> r[i] >= 0.0 && First(c).time + r[i] == c[i].time
  {
    var f := First(c);
    seq(|c|, i requires 0 <= i < |c| => TimeDiff(c[i], f))
  }

  /** `[sum(point.value) for point in light_curve.points]`: three times the
      channel mean. */
  function Sums(c: Curve): (r: seq<real>)
    ensures |r| == |c|
    ensures forall i :: 0 <= i < |c| ==> r[i] == 3.0 * Means(c)[i]
  {
    seq(|c|, i requires 0 <= i < |c| => ChannelSum(c[i].value))
  }

  /** The window around a transit centre given in seconds after the first
      point: one period wide, centred on the transit. */
  function WindowStart(c: Curve, center: real, period: real): real
  {
    First(c).time + (center - period / 2.0)
  }

  function WindowEnd(c: Curve, center: real, period: real): (t: real)
    ensures t - WindowStart(c, center, period) == period
  {
    First(c).time + (center + period / 2.0)
  }

  /** `light_curve.extract(...).normalize()` for one centre. An empty window
      fails in the curve constructor; a zero level fails in the normalisation. */
  function Clip(c: Curve, center: real, period: real): (r: Result<Curve>)
    ensures r.Err? ==> r.error in {EmptyCurve, ZeroBaseline}
    ensures r.Ok? ==> forall i :: 0 <= i < |r.value| ==>
              WindowStart(c, center, period) <= r.value[i].time < WindowEnd(c, center, period)
  {
    var w :- Extract(c, WindowStart(c, center, period), WindowEnd(c, center, period));
    Normalize(w)
  }

  /** A clip succeeds exactly when its window holds a point and that window's
      level is non-zero; an empty window is the only cause of `EmptyCurve`. */
  lemma ClipSucceeds(c: Curve, center: real, period: real)
    ensures var w := Window(c, WindowStart(c, center, period), WindowEnd(c, center, period));
            && (Clip(c, center, period).Ok? <==> |w| > 0 && Norm(w) != 0.0)
            && (Clip(c, center, period) == Err(EmptyCurve) <==> |w| == 0)
            && (Clip(c, center, period) == Err(ZeroBaseline) <==> |w| > 0 && Norm(w) == 0.0)
  {
  }

  /** The loop over the transit centres; the first failure ends it. */
  function ClipAll(c: Curve, centers: seq<real>, period: real): (r: Result<seq<Curve>>)
    ensures r.Ok? <==> forall i :: 0 <= i < |centers| ==> Clip(c, centers[i], period).Ok?
    ensures r.Ok? ==> |r.value| == |centers|
    ensures r.Ok? ==> forall i :: 0 <= i < |centers| ==> r.value[i] == Clip(c, centers[i], period).value
  {
    if |centers| == 0 then Ok([])
    else
      var first :- Clip(c, centers[0], period);
      var rest :- ClipAll(c, centers[1..], period);
      Ok([first] + rest)
  }

  /** The loop fails only the way one clip fails. */
  lemma {:induction false} ClipAllErrors(c: Curve, centers: seq<real>, period: real)
    ensures ClipAll(c, centers, period).Err? ==> ClipAll(c, centers, period).error in {EmptyCurve, ZeroBaseline}
  {
    if |centers| > 0 && Clip(c, centers[0], period).Ok? {
      ClipAllErrors(c, centers[1..], period);
    }
  }

  datatype Folded = Folded(analysis: Analysis, clipped: seq<Curve>)

  /** One iteration of the loop in `analyze_file`. */
  function AnalyzeCurve(c: Curve): (r: Result<Folded>)
    ensures |c| < EndCount ==> r == Err(TooFewPoints)
    ensures r.Err? ==> r.error in {TooFewPoints, ZeroBaseline, NoEvents, SingleEvent, EmptyCurve}
    ensures r.Ok? ==> |r.value.clipped| == |r.value.analysis.mids| >= 2
    ensures Detect(Offsets(c), Sums(c)).Err? ==> r == Err(Detect(Offsets(c), Sums(c)).error)
    ensures r.Ok? <==> (Detect(Offsets(c), Sums(c)).Ok? &&
                        var a := Detect(Offsets(c), Sums(c)).value;
                        forall i :: 0 <= i < |a.mids| ==> Clip(c, a.mids[i], a.period).Ok?)
    ensures r.Ok? ==> r.value.analysis == Detect(Offsets(c), Sums(c)).value
  {
    var a :- Detect(Offsets(c), Sums(c));
    assert |a.mids| >= 2;
    ClipAllErrors(c, a.mids, a.period);
    var clipped :- ClipAll(c, a.mids, a.period);
    Ok(Folded(a, clipped))
  }

  /** A folded curve has one clipped curve per detected transit. Each holds
      exactly the points of its window, in curve order, with their times
      unchanged, and is normalised to an out-of-transit level of 100. */
  lemma FoldedWindows(c: Curve)
    requires AnalyzeCurve(c).Ok?
    ensures var f := AnalyzeCurve(c).value;
            && |f.clipped| == |f.analysis.mids| >= 2
            && forall k :: 0 <= k < |f.clipped| ==>
                 var from, to := WindowStart(c, f.analysis.mids[k], f.analysis.period),
                                 WindowEnd(c, f.analysis.mids[k], f.analysis.period);
                 var w := Window(c, from, to);
                 && |f.clipped[k]| == |w|
                 && (forall i :: 0 <= i < |w| ==> f.clipped[k][i].time == w[i].time)
                 && Norm(f.clipped[k]) == 100.0
  {
    var f := AnalyzeCurve(c).value;
    var a := f.analysis;
    var all := ClipAll(c, a.mids, a.period);
    assert all.Ok? && f.clipped == all.value;
    forall k | 0 <= k < |f.clipped|
      ensures var from, to := WindowStart(c, a.mids[k], a.period), WindowEnd(c, a.mids[k], a.period);
              var w := Window(c, from, to);
              && |f.clipped[k]| == |w|
              && (forall i :: 0 <= i < |w| ==> f.clipped[k][i].time == w[i].time)
              && Norm(f.clipped[k]) == 100.0
    {
      var from, to := WindowStart(c, a.mids[k], a.period), WindowEnd(c, a.mids[k], a.period);
      var one := Clip(c, a.mids[k], a.period);
      assert one.Ok? && f.clipped[k] == one.value;
      var e := Extract(c, from, to);
      assert e.Ok? && one == Normalize(e.value);
      NormOfNormalize(e.value);
    }
  }

  /** The detector's baseline over the channel means of a curve is the curve's
      own `get_norm`. */
  lemma BaselineIsNorm(c: Curve)
    requires |c| >= EndCount
    ensures Baseline(Means(c)) == Norm(c)
  {
    var m := Means(c);
    var n, e := |c|, EndCount;
    var a, b := m[..e], m[n - e..];
    assert Ends(c) == c[..e] + c[n - e..];
    assert Means(Ends(c)) == a + b;
    SumAppend(a, b);
    var s1, s2 := Sum(a), Sum(b);
    assert Norm(c) == (s1 + s2) / 6.0;
    assert Baseline(m) == (s1 / 3.0 + s2 / 3.0) / 2.0;
  }

  /** Feeding channel sums rather than channel means makes no difference to
      the detection. */
  lemma DetectSumsAsMeans(c: Curve)
    ensures Detect(Offsets(c), Sums(c)) == Detect(Offsets(c), Means(c))
  {
    var m := Means(c);
    var scaled := seq(|m|, i requires 0 <= i < |m| => 3.0 * m[i]);
    assert scaled == Sums(c) by {
      forall i | 0 <= i < |m| ensures scaled[i] == Sums(c)[i] {
      }
    }
    DetectScaleInvariant(Offsets(c), m, 3.0);
  }

  /** The time offsets of a curve fed to the detector are measured from its
      first point, so they do not change when the whole curve is shifted in time. */
  lemma OffsetsShiftInvariant(c: Curve, d: Curve, shift: real)
    requires |d| == |c|
    requires forall i :: 0 <= i < |c| ==> d[i] == Point(c[i].time + shift, c[i].value)
    ensures Offsets(d) == Offsets(c)
  {
    var fc, fd := First(c), First(d);
    assert fd.time == fc.time + shift by {
      var j :| 0 <= j < |d| && d[j] == fd;
      var i :| 0 <= i < |c| && c[i] == fc;
      assert fd.time <= d[i].time;
      assert fc.time <= c[j].time;
    }
    forall i | 0 <= i < |c| ensures Offsets(d)[i] == Offsets(c)[i] {
      assert Offsets(d)[i] == d[i].time - fd.time;
      assert Offsets(c)[i] == c[i].time - fc.time;
    }
  }
}
