/** The coarse transit detector of MPStransit.py: `analyze_transit` and the
    computational part of `lightcurve_analyze`.

    The light curve is normalised to its out-of-transit level (100 %), a
    threshold is put halfway between 100 % and the third-lowest level, and a
    single pass collects the runs of samples below the threshold. A run is
    closed, and summarised as an event (mean time, lowest level), by the next
    sample strictly above the threshold; a run still open at the end is
    discarded and a sample exactly at the threshold does nothing. The period is
    the spacing of the first and last event over the number of gaps, the depth
    is 100 % minus the mean event level. Plotting and printing are not modelled.
 */
module Detector {
  import opened Outcomes
  import opened Seqs
  import opened LightCurves

  /** One `(time_j, lightcurve_norm_j)` pair of the scan. */
  datatype Sample = Sample(time: real, flux: real)

  /** A closed transit: `transit_mid_temp` and `transit_midflux_temp`. */
  datatype Event = Event(mid: real, midflux: real)

  /** What `lightcurve_analyze` returns: period, depth and transit mid-times. */
  datatype Analysis = Analysis(period: real, depth: real, mids: seq<real>)

  /** `zip(time, lightcurve_norm)`: pairs up to the shorter of the two. */
  function Zip(times: seq<real>, fluxes: seq<real>): (r: seq<Sample>)
    ensures |r| <= |times| && |r| <= |fluxes|
    ensures |r| == |times| || |r| == |fluxes|
    ensures forall i :: 0 <= i < |r| ==> r[i].time == times[i] && r[i].flux == fluxes[i]
  {
    var n := if |times| <= |fluxes| then |times| else |fluxes|;
    seq(n, i requires 0 <= i < n => Sample(times[i], fluxes[i]))
  }

  function Times(run: seq<Sample>): (r: seq<real>)
    ensures |r| == |run| && forall i :: 0 <= i < |run| ==> r[i] == run[i].time
  {
    seq(|run|, i requires 0 <= i < |run| => run[i].time)
  }

  function Fluxes(run: seq<Sample>): (r: seq<real>)
    ensures |r| == |run| && forall i :: 0 <= i < |run| ==> r[i] == run[i].flux
  {
    seq(|run|, i requires 0 <= i < |run| => run[i].flux)
  }

  /** `analyze_transit(times, brightnesses)`: the mean time, which lies between
      the earliest and the latest time, and the lowest brightness. */
  function AnalyzeTransit(times: seq<real>, brightnesses: seq<real>): (e: Event)
    requires |times| > 0 && |brightnesses| > 0
    ensures MinOf(times) <= e.mid <= MaxOf(times)
    ensures e.midflux in brightnesses
    ensures forall k :: 0 <= k < |brightnesses| ==> e.midflux <= brightnesses[k]
  {
    MeanWithin(times);
    Event(Mean(times), MinOf(brightnesses))
  }

  // ---------------------------------------------------------------------------
  // Normalisation and threshold
  // ---------------------------------------------------------------------------

  /** `lightcurve_outoftrans`: the mean of the first three levels and the mean
      of the last three, averaged. */
  function Baseline(lc: seq<real>): real
    requires |lc| >= EndCount
  {
    (Mean(lc[..EndCount]) + Mean(lc[|lc| - EndCount..])) / 2.0
  }

  /** The baseline lies between the smallest and the largest level. */
  lemma BaselineWithin(lc: seq<real>)
    requires |lc| >= EndCount
    ensures MinOf(lc) <= Baseline(lc) <= MaxOf(lc)
  {
    var head, tail := lc[..EndCount], lc[|lc| - EndCount..];
    var lo, hi := MinOf(lc), MaxOf(lc);
    forall i | 0 <= i < |head| ensures lo <= head[i] <= hi {
      assert head[i] == lc[i];
    }
    forall i | 0 <= i < |tail| ensures lo <= tail[i] <= hi {
      assert tail[i] == lc[|lc| - EndCount + i];
    }
    MeanBetween(head, lo, hi);
    MeanBetween(tail, lo, hi);
    var a, b := Mean(head), Mean(tail);
    assert Baseline(lc) == (a + b) / 2.0;
  }

  /** `100. / lightcurve_outoftrans * lightcurve`: each level as a percentage
      of the baseline. */
  function Normalized(lc: seq<real>, base: real): (r: seq<real>)
    requires base != 0.0
    ensures |r| == |lc|
  {
    seq(|lc|, i requires 0 <= i < |lc| => 100.0 / base * lc[i])
  }

  /** Each normalised level is the percentage of the baseline that solves
      `level * base == 100 * raw`; a raw level equal to the baseline maps to 100. */
  lemma NormalizedPercent(lc: seq<real>, base: real)
    requires base != 0.0
    ensures forall i :: 0 <= i < |lc| ==> Normalized(lc, base)[i] * base == 100.0 * lc[i]
    ensures forall i :: 0 <= i < |lc| && lc[i] == base ==> Normalized(lc, base)[i] == 100.0
  {
    var q := 100.0 / base;
    assert q * base == 100.0;
    forall i | 0 <= i < |lc| ensures Normalized(lc, base)[i] * base == 100.0 * lc[i] {
      assert Normalized(lc, base)[i] == q * lc[i];
      assert q * lc[i] * base == q * base * lc[i];
    }
  }

  /** `threshold = 50. + d_appr / 2.`: halfway between the approximate transit
      level and 100 %, so above the transit level exactly when that is below 100 %. */
  function Threshold(d: real): (t: real)
    ensures t - d == 100.0 - t
    ensures d < t <==> d < 100.0
  {
    50.0 + d / 2.0
  }

  // ---------------------------------------------------------------------------
  // The scan
  // ---------------------------------------------------------------------------

  /** The loop variables: `transit_flag`, the open run (`timetrans_temp` and
      `lightcurvetrans_temp` as one list of pairs) and the closed events
      (`transit_mids` and `transit_midfluxes`). */
  datatype ScanState = ScanState(inTransit: bool, run: seq<Sample>, events: seq<Event>)

  /** The flag is set exactly while a run is open. */
  predicate Consistent(st: ScanState)
  {
    st.inTransit <==> |st.run| > 0
  }

  const Start := ScanState(false, [], [])

  function Summary(run: seq<Sample>): Event
    requires |run| > 0
  {
    AnalyzeTransit(Times(run), Fluxes(run))
  }

  /** One iteration: the two `if` statements of the loop body in order. */
  function Step(st: ScanState, s: Sample, thr: real): (r: ScanState)
    requires Consistent(st)
    ensures Consistent(r)
  {
    var st1 := if s.flux < thr then ScanState(true, st.run + [s], st.events) else st;
    if s.flux > thr && st1.inTransit then ScanState(false, [], st1.events + [Summary(st1.run)])
    else st1
  }

  function Scan(ss: seq<Sample>, thr: real, st: ScanState): (r: ScanState)
    requires Consistent(st)
    ensures Consistent(r)
  {
    if |ss| == 0 then st else Scan(ss[1..], thr, Step(st, ss[0], thr))
  }

  // ---------------------------------------------------------------------------
  // Reference: the closed runs below the threshold
  // ---------------------------------------------------------------------------

  /** The samples not exactly at the threshold, in order. */
  function Unequal(s: seq<Sample>, thr: real): (r: seq<Sample>)
    ensures forall i :: 0 <= i < |r| ==> r[i] in s && r[i].flux != thr
  {
    if |s| == 0 then []
    else if s[0].flux == thr then Unequal(s[1..], thr)
    else [s[0]] + Unequal(s[1..], thr)
  }

  /** Length of the leading block of samples below the threshold. */
  function BelowPrefix(u: seq<Sample>, thr: real): (k: nat)
    ensures k <= |u|
    ensures forall i :: 0 <= i < k ==> u[i].flux < thr
    ensures k < |u| ==> u[k].flux >= thr
  {
    if |u| == 0 || u[0].flux >= thr then 0 else 1 + BelowPrefix(u[1..], thr)
  }

  /** The maximal blocks of below-threshold samples that are followed by a
      sample above it; a final block reaching the end is not a run. */
  function RunsOf(u: seq<Sample>, thr: real): (r: seq<seq<Sample>>)
    ensures forall i :: 0 <= i < |r| ==> |r[i]| > 0
    decreases |u|
  {
    if |u| == 0 then []
    else
      var k := BelowPrefix(u, thr);
      if k == 0 then RunsOf(u[1..], thr)
      else if k == |u| then []
      else [u[..k]] + RunsOf(u[k + 1..], thr)
  }

  /** The transits of a scan, defined without the loop. */
  function TransitRuns(s: seq<Sample>, thr: real): (r: seq<seq<Sample>>)
    ensures forall i :: 0 <= i < |r| ==> |r[i]| > 0
  {
    RunsOf(Unequal(s, thr), thr)
  }

  function Summaries(runs: seq<seq<Sample>>): (r: seq<Event>)
    requires forall i :: 0 <= i < |runs| ==> |runs[i]| > 0
    ensures |r| == |runs|
  {
    if |runs| == 0 then [] else [Summary(runs[0])] + Summaries(runs[1..])
  }

  lemma {:induction false} ScanAppend(a: seq<Sample>, b: seq<Sample>, thr: real, st: ScanState)
    requires Consistent(st)
    ensures Scan(a + b, thr, st) == Scan(b, thr, Scan(a, thr, st))
  {
    if |a| == 0 {
      assert a + b == b;
    } else {
      assert (a + b)[1..] == a[1..] + b;
      ScanAppend(a[1..], b, thr, Step(st, a[0], thr));
    }
  }

  /** A sample exactly at the threshold neither extends nor closes a run. */
  lemma {:induction false} ScanSkipsLevel(s: seq<Sample>, thr: real, st: ScanState)
    requires Consistent(st)
    ensures Scan(s, thr, st) == Scan(Unequal(s, thr), thr, st)
  {
    if |s| > 0 {
      if s[0].flux == thr {
        assert Step(st, s[0], thr) == st;
        ScanSkipsLevel(s[1..], thr, st);
      } else {
        var u := [s[0]] + Unequal(s[1..], thr);
        assert u[0] == s[0] && u[1..] == Unequal(s[1..], thr);
        ScanSkipsLevel(s[1..], thr, Step(st, s[0], thr));
      }
    }
  }

  /** Below-threshold samples only extend the open run. */
  lemma {:induction false} ScanBelow(v: seq<Sample>, thr: real, st: ScanState)
    requires Consistent(st)
    requires forall i :: 0 <= i < |v| ==> v[i].flux < thr
    ensures Scan(v, thr, st) == ScanState(st.inTransit || |v| > 0, st.run + v, st.events)
  {
    if |v| == 0 {
      assert st.run + v == st.run;
    } else {
      ScanBelow(v[1..], thr, Step(st, v[0], thr));
      assert st.run + [v[0]] + v[1..] == st.run + v;
    }
  }

  /** From idle, the leading below-threshold block becomes the open run. */
  lemma ScanThroughBlock(u: seq<Sample>, thr: real, done: seq<Event>, k: nat)
    requires 0 < k == BelowPrefix(u, thr)
    ensures Scan(u, thr, ScanState(false, [], done)) == Scan(u[k..], thr, ScanState(true, u[..k], done))
  {
    var idle := ScanState(false, [], done);
    assert u == u[..k] + u[k..];
    ScanAppend(u[..k], u[k..], thr, idle);
    ScanBelow(u[..k], thr, idle);
    assert idle.run + u[..k] == u[..k];
  }

  /** The above-threshold sample after the block closes the run. */
  lemma ScanClosesBlock(u: seq<Sample>, thr: real, done: seq<Event>, k: nat)
    requires 0 < k < |u| && u[k].flux > thr
    ensures Scan(u[k..], thr, ScanState(true, u[..k], done))
         == Scan(u[k + 1..], thr, ScanState(false, [], done + [Summary(u[..k])]))
  {
    assert u[k..][0] == u[k];
    assert u[k..][1..] == u[k + 1..];
  }

  lemma {:induction false} ScanRuns(u: seq<Sample>, thr: real, done: seq<Event>)
    requires forall i :: 0 <= i < |u| ==> u[i].flux != thr
    ensures Scan(u, thr, ScanState(false, [], done)).events == done + Summaries(RunsOf(u, thr))
    decreases |u|
  {
    var idle := ScanState(false, [], done);
    if |u| == 0 {
      assert done + [] == done;
    } else {
      var k := BelowPrefix(u, thr);
      if k == 0 {
        ScanRunsSkip(u, thr, done);
        ScanRuns(u[1..], thr, done);
      } else if k == |u| {
        ScanThroughBlock(u, thr, done, k);
        assert u[k..] == [];
        assert RunsOf(u, thr) == [];
        assert done + [] == done;
      } else {
        ScanThroughBlock(u, thr, done, k);
        ScanClosesBlock(u, thr, done, k);
        var done' := done + [Summary(u[..k])];
        ScanRuns(u[k + 1..], thr, done');
        SummariesCons(u, thr, done, k);
      }
    }
  }

  lemma ScanRunsSkip(u: seq<Sample>, thr: real, done: seq<Event>)
    requires |u| > 0 && u[0].flux > thr
    ensures Scan(u, thr, ScanState(false, [], done)) == Scan(u[1..], thr, ScanState(false, [], done))
    ensures RunsOf(u, thr) == RunsOf(u[1..], thr)
  {
    assert Step(ScanState(false, [], done), u[0], thr) == ScanState(false, [], done);
  }

  lemma SummariesCons(u: seq<Sample>, thr: real, done: seq<Event>, k: nat)
    requires 0 < k == BelowPrefix(u, thr) < |u|
    ensures done + [Summary(u[..k])] + Summaries(RunsOf(u[k + 1..], thr)) == done + Summaries(RunsOf(u, thr))
  {
    var runs := [u[..k]] + RunsOf(u[k + 1..], thr);
    assert RunsOf(u, thr) == runs;
    assert runs[1..] == RunsOf(u[k + 1..], thr);
  }

  /** The loop's events are exactly the summaries of the closed runs. */
  lemma ScanIsRuns(s: seq<Sample>, thr: real)
    ensures Scan(s, thr, Start).events == Summaries(TransitRuns(s, thr))
  {
    ScanSkipsLevel(s, thr, Start);
    ScanRuns(Unequal(s, thr), thr, []);
    assert [] + Summaries(TransitRuns(s, thr)) == Summaries(TransitRuns(s, thr));
  }

  // ---------------------------------------------------------------------------
  // Properties of the runs
  // ---------------------------------------------------------------------------

  predicate RunsAllBelow(runs: seq<seq<Sample>>, thr: real)
  {
    forall i, j :: 0 <= i < |runs| && 0 <= j < |runs[i]| ==> runs[i][j].flux < thr
  }

  /** Every sample of every run is below the threshold. */
  lemma {:induction false} RunsBelow(u: seq<Sample>, thr: real)
    ensures RunsAllBelow(RunsOf(u, thr), thr)
    decreases |u|
  {
    if |u| > 0 {
      var k := BelowPrefix(u, thr);
      if k == 0 {
        RunsOfSkip(u, thr);
        RunsBelow(u[1..], thr);
      } else if k < |u| {
        RunsOfCons(u, thr, k);
        RunsBelow(u[k + 1..], thr);
        AllBelowCons(u[..k], RunsOf(u[k + 1..], thr), thr);
      } else {
        RunsOfCons0(u, thr);
      }
    }
  }

  lemma AllBelowCons(run: seq<Sample>, runs: seq<seq<Sample>>, thr: real)
    requires forall j :: 0 <= j < |run| ==> run[j].flux < thr
    requires RunsAllBelow(runs, thr)
    ensures RunsAllBelow([run] + runs, thr)
  {
    var r: seq<seq<Sample>> := [run] + runs;
    forall i, j | 0 <= i < |r| && 0 <= j < |r[i]| ensures r[i][j].flux < thr {
      if i > 0 { assert r[i] == runs[i - 1]; }
    }
  }

  /** Every event lies below the threshold. */
  lemma SummariesBelow(runs: seq<seq<Sample>>, thr: real)
    requires forall i :: 0 <= i < |runs| ==> |runs[i]| > 0
    requires RunsAllBelow(runs, thr)
    ensures forall i :: 0 <= i < |runs| ==> Summaries(runs)[i].midflux < thr
  {
    forall i | 0 <= i < |runs| ensures Summaries(runs)[i].midflux < thr {
      SummariesIndex(runs, i);
      SummaryBelow(runs[i], thr);
    }
  }

  lemma {:induction false} SummariesIndex(runs: seq<seq<Sample>>, i: nat)
    requires forall j :: 0 <= j < |runs| ==> |runs[j]| > 0
    requires i < |runs|
    ensures Summaries(runs)[i] == Summary(runs[i])
  {
    if i > 0 {
      SummariesIndex(runs[1..], i - 1);
    }
  }

  /** A run of samples below the threshold has its lowest flux below it. */
  lemma SummaryBelow(run: seq<Sample>, thr: real)
    requires |run| > 0 && forall j :: 0 <= j < |run| ==> run[j].flux < thr
    ensures Summary(run).midflux < thr
  {
    assert Summary(run).midflux in Fluxes(run);
  }

  /** Number of samples whose flux is below `thr`. */
  function BelowCount(u: seq<Sample>, thr: real): nat
  {
    CountBelow(Fluxes(u), thr)
  }

  lemma FluxesTail(u: seq<Sample>)
    requires |u| > 0
    ensures Fluxes(u)[0] == u[0].flux && Fluxes(u)[1..] == Fluxes(u[1..])
  {
  }

  lemma BelowCountCons(u: seq<Sample>, thr: real)
    requires |u| > 0
    ensures BelowCount(u, thr) == (if u[0].flux < thr then 1 else 0) + BelowCount(u[1..], thr)
  {
    FluxesTail(u);
  }

  lemma {:induction false} BelowCountBlock(u: seq<Sample>, thr: real, k: nat)
    requires k <= |u| && forall i :: 0 <= i < k ==> u[i].flux < thr
    ensures BelowCount(u, thr) == k + BelowCount(u[k..], thr)
  {
    if k > 0 {
      BelowCountCons(u, thr);
      BelowCountBlock(u[1..], thr, k - 1);
      assert u[1..][k - 1..] == u[k..];
    }
  }

  /** Each run uses up at least one below-threshold sample of its own. */
  lemma {:induction false} RunsFewerThanBelow(u: seq<Sample>, thr: real)
    ensures |RunsOf(u, thr)| <= BelowCount(u, thr)
    decreases |u|
  {
    if |u| > 0 {
      var k := BelowPrefix(u, thr);
      if k == 0 {
        RunsOfSkip(u, thr);
        RunsFewerThanBelow(u[1..], thr);
        BelowCountCons(u, thr);
      } else if k < |u| {
        RunsOfCons(u, thr, k);
        RunsFewerThanBelow(u[k + 1..], thr);
        BelowCountBlock(u, thr, k);
        BelowCountCons(u[k..], thr);
        assert u[k..][1..] == u[k + 1..];
      } else {
        RunsOfCons0(u, thr);
      }
    }
  }

  lemma {:induction false} UnequalBelowCount(s: seq<Sample>, thr: real)
    ensures BelowCount(Unequal(s, thr), thr) == BelowCount(s, thr)
  {
    if |s| > 0 {
      UnequalBelowCount(s[1..], thr);
      BelowCountCons(s, thr);
      if s[0].flux != thr {
        var u := [s[0]] + Unequal(s[1..], thr);
        assert u[1..] == Unequal(s[1..], thr);
        BelowCountCons(u, thr);
      }
    }
  }

  /** The scan records at most one event per below-threshold sample. */
  lemma EventsAtMostBelow(s: seq<Sample>, thr: real)
    ensures |Scan(s, thr, Start).events| <= BelowCount(s, thr)
  {
    ScanIsRuns(s, thr);
    RunsFewerThanBelow(Unequal(s, thr), thr);
    UnequalBelowCount(s, thr);
  }

  predicate TimesIncrease(u: seq<Sample>)
  {
    StrictlyIncreasing(Times(u))
  }

  function Mids(es: seq<Event>): (r: seq<real>)
    ensures |r| == |es| && forall i :: 0 <= i < |es| ==> r[i] == es[i].mid
  {
    seq(|es|, i requires 0 <= i < |es| => es[i].mid)
  }

  function Midfluxes(es: seq<Event>): (r: seq<real>)
    ensures |r| == |es| && forall i :: 0 <= i < |es| ==> r[i] == es[i].midflux
  {
    seq(|es|, i requires 0 <= i < |es| => es[i].midflux)
  }

  lemma RunsOfSkip(u: seq<Sample>, thr: real)
    requires |u| > 0 && BelowPrefix(u, thr) == 0
    ensures RunsOf(u, thr) == RunsOf(u[1..], thr)
  {
  }

  lemma RunsOfCons(u: seq<Sample>, thr: real, k: nat)
    requires 0 < k == BelowPrefix(u, thr) < |u|
    ensures RunsOf(u, thr) == [u[..k]] + RunsOf(u[k + 1..], thr)
  {
  }

  lemma MidsOfCons(run: seq<Sample>, runs: seq<seq<Sample>>)
    requires |run| > 0 && forall i :: 0 <= i < |runs| ==> |runs[i]| > 0
    ensures Mids(Summaries([run] + runs)) == [Summary(run).mid] + Mids(Summaries(runs))
  {
    assert ([run] + runs)[1..] == runs;
  }

  /** The mean time of a block of increasing times lies within the block. */
  lemma BlockMid(u: seq<Sample>, k: nat)
    requires 0 < k <= |u| && TimesIncrease(u)
    ensures u[0].time <= Summary(u[..k]).mid <= u[k - 1].time
  {
    var ts := Times(u[..k]);
    forall i | 0 <= i < |ts| ensures u[0].time <= ts[i] <= u[k - 1].time {
      assert ts[i] == u[i].time;
    }
    MeanBetween(ts, u[0].time, u[k - 1].time);
  }

  lemma IncreasingCons(m0: real, tail: seq<real>, lo: real, bound: real)
    requires lo < m0 <= bound
    requires StrictlyIncreasing(tail) && forall i :: 0 <= i < |tail| ==> bound < tail[i]
    ensures StrictlyIncreasing([m0] + tail)
    ensures forall i :: 0 <= i < |[m0] + tail| ==> lo < ([m0] + tail)[i]
  {
    var m := [m0] + tail;
    forall i, j | 0 <= i < j < |m| ensures m[i] < m[j] {
      assert m[j] == tail[j - 1];
      if i > 0 { assert m[i] == tail[i - 1]; }
    }
  }

  /** With strictly increasing times, the mid-times of the runs strictly
      increase, and all exceed any bound below every sample time. */
  lemma {:induction false} RunMidsIncrease(u: seq<Sample>, thr: real, lo: real)
    requires TimesIncrease(u)
    requires forall i :: 0 <= i < |u| ==> lo < u[i].time
    ensures var m := Mids(Summaries(RunsOf(u, thr)));
            StrictlyIncreasing(m) && forall i :: 0 <= i < |m| ==> lo < m[i]
    decreases |u|
  {
    if |u| > 0 {
      var k := BelowPrefix(u, thr);
      if k == 0 {
        RunsOfSkip(u, thr);
        assert TimesIncrease(u[1..]);
        RunMidsIncrease(u[1..], thr, lo);
      } else if k < |u| {
        TailAbove(u, k, u[k + 1..]);
        RunMidsIncrease(u[k + 1..], thr, u[k - 1].time);
        MidsOfBlock(u, thr, lo, k);
      } else {
        RunsOfCons0(u, thr);
      }
    }
  }

  /** The samples after a block and its closing sample come later than the
      block's last sample. */
  lemma TailAbove(u: seq<Sample>, k: nat, rest: seq<Sample>)
    requires 0 < k < |u| && TimesIncrease(u) && rest == u[k + 1..]
    ensures TimesIncrease(rest)
    ensures forall i :: 0 <= i < |rest| ==> u[k - 1].time < rest[i].time
  {
    forall i | 0 <= i < |rest| ensures u[k - 1].time < rest[i].time {
      assert rest[i] == u[k + 1 + i];
    }
  }

  /** The inductive step of `RunMidsIncrease` for a leading block of `k` samples. */
  lemma MidsOfBlock(u: seq<Sample>, thr: real, lo: real, k: nat)
    requires 0 < k == BelowPrefix(u, thr) < |u| && TimesIncrease(u)
    requires forall i :: 0 <= i < |u| ==> lo < u[i].time
    requires var m := Mids(Summaries(RunsOf(u[k + 1..], thr)));
             StrictlyIncreasing(m) && forall i :: 0 <= i < |m| ==> u[k - 1].time < m[i]
    ensures var m := Mids(Summaries(RunsOf(u, thr)));
            StrictlyIncreasing(m) && forall i :: 0 <= i < |m| ==> lo < m[i]
  {
    BlockMid(u, k);
    RunsOfCons(u, thr, k);
    MidsOfCons(u[..k], RunsOf(u[k + 1..], thr));
    IncreasingCons(Summary(u[..k]).mid, Mids(Summaries(RunsOf(u[k + 1..], thr))), lo, u[k - 1].time);
  }

  lemma RunsOfCons0(u: seq<Sample>, thr: real)
    requires 0 < |u| == BelowPrefix(u, thr)
    ensures RunsOf(u, thr) == []
  {
  }

  lemma {:induction false} UnequalIncrease(s: seq<Sample>, thr: real)
    requires TimesIncrease(s)
    ensures TimesIncrease(Unequal(s, thr))
  {
    if |s| > 0 {
      TimesIncreaseTail(s);
      UnequalIncrease(s[1..], thr);
      var rest := Unequal(s[1..], thr);
      forall i | 0 <= i < |rest| ensures s[0].time < rest[i].time {
        var j :| 0 <= j < |s[1..]| && s[1..][j] == rest[i];
        assert rest[i] == s[j + 1];
      }
      if s[0].flux != thr {
        TimesIncreaseCons(s[0], rest);
      }
    }
  }

  lemma ZipIncrease(times: seq<real>, fluxes: seq<real>)
    requires StrictlyIncreasing(times)
    ensures TimesIncrease(Zip(times, fluxes))
  {
    var u := Zip(times, fluxes);
    forall i, j | 0 <= i < j < |u| ensures Times(u)[i] < Times(u)[j] {
      assert times[i] < times[j];
    }
  }

  lemma TimesIncreaseTail(s: seq<Sample>)
    requires |s| > 0 && TimesIncrease(s)
    ensures TimesIncrease(s[1..])
    ensures forall j :: 1 <= j < |s| ==> s[0].time < s[j].time
  {
    forall j | 1 <= j < |s| ensures s[0].time < s[j].time {
      assert Times(s)[0] < Times(s)[j];
    }
    forall i, j | 0 <= i < j < |s| - 1 ensures Times(s[1..])[i] < Times(s[1..])[j] {
      assert Times(s)[i + 1] < Times(s)[j + 1];
    }
  }

  lemma TimesIncreaseCons(x: Sample, rest: seq<Sample>)
    requires TimesIncrease(rest) && forall i :: 0 <= i < |rest| ==> x.time < rest[i].time
    ensures TimesIncrease([x] + rest)
  {
    var u := [x] + rest;
    forall i, j | 0 <= i < j < |u| ensures Times(u)[i] < Times(u)[j] {
      assert u[j] == rest[j - 1];
      if i > 0 {
        assert u[i] == rest[i - 1];
        assert Times(rest)[i - 1] < Times(rest)[j - 1];
      }
    }
  }

  // ---------------------------------------------------------------------------
  // lightcurve_analyze
  // ---------------------------------------------------------------------------

  /** `(transit_mids[-1] - transit_mids[0]) / (len(transit_mids) - 1)`. */
  function Period(mids: seq<real>): (r: real)
    requires |mids| >= 2
    ensures StrictlyIncreasing(mids) ==> r > 0.0
  {
    var gaps := (|mids| - 1) as real;
    var q := (mids[|mids| - 1] - mids[0]) / gaps;
    assert q * gaps == mids[|mids| - 1] - mids[0];
    q
  }

  /** The percentage levels of a light curve that has a non-zero baseline. */
  function Levels(lc: seq<real>): seq<real>
    requires |lc| >= EndCount && Baseline(lc) != 0.0
  {
    Normalized(lc, Baseline(lc))
  }

  /** `threshold`, from `d_appr = sort(lightcurve_norm)[2]`. */
  function CutLevel(lc: seq<real>): real
    requires |lc| >= EndCount && Baseline(lc) != 0.0
  {
    Threshold(ThirdSmallest(Levels(lc)))
  }

  function DetectedEvents(times: seq<real>, lc: seq<real>): seq<Event>
    requires |lc| >= EndCount && Baseline(lc) != 0.0
  {
    Scan(Zip(times, Levels(lc)), CutLevel(lc), Start).events
  }

  /** `lightcurve_analyze(time, lightcurve)`. Fewer than three levels fail at
      `sort(...)[2]`, no event fails at `transit_mids[-1]`, and a single event
      divides by zero gaps. */
  function Detect(times: seq<real>, lc: seq<real>): (r: Result<Analysis>)
    ensures |lc| < EndCount ==> r == Err(TooFewPoints)
    ensures r.Err? ==> r.error in {TooFewPoints, ZeroBaseline, NoEvents, SingleEvent}
    ensures r.Ok? ==> |r.value.mids| >= 2
  {
    if |lc| < EndCount then Err(TooFewPoints)
    else if Baseline(lc) == 0.0 then Err(ZeroBaseline)
    else
      var events := DetectedEvents(times, lc);
      if |events| == 0 then Err(NoEvents)
      else if |events| == 1 then Err(SingleEvent)
      else
        var mids := Mids(events);
        Ok(Analysis(Period(mids), 100.0 - Mean(Midfluxes(events)), mids))
  }

  /** When detection succeeds and why it fails: each failure label names its
      own cause, and a curve with two or more closed runs below the threshold
      is always detected. */
  lemma DetectSucceeds(times: seq<real>, lc: seq<real>)
    ensures |lc| >= EndCount ==> (Detect(times, lc) == Err(ZeroBaseline) <==> Baseline(lc) == 0.0)
    ensures Detect(times, lc).Ok? <==>
              |lc| >= EndCount && Baseline(lc) != 0.0 && |TransitRuns(Zip(times, Levels(lc)), CutLevel(lc))| >= 2
    ensures Detect(times, lc) == Err(NoEvents) <==>
              |lc| >= EndCount && Baseline(lc) != 0.0 && |TransitRuns(Zip(times, Levels(lc)), CutLevel(lc))| == 0
    ensures Detect(times, lc) == Err(SingleEvent) <==>
              |lc| >= EndCount && Baseline(lc) != 0.0 && |TransitRuns(Zip(times, Levels(lc)), CutLevel(lc))| == 1
  {
    if |lc| >= EndCount && Baseline(lc) != 0.0 {
      ScanIsRuns(Zip(times, Levels(lc)), CutLevel(lc));
    }
  }

  /** A successful detection reports the mid-times of the closed runs below
      the threshold. */
  lemma DetectMids(times: seq<real>, lc: seq<real>)
    requires Detect(times, lc).Ok?
    ensures Detect(times, lc).value.mids
         == Mids(Summaries(TransitRuns(Zip(times, Levels(lc)), CutLevel(lc))))
  {
    ScanIsRuns(Zip(times, Levels(lc)), CutLevel(lc));
  }

  /** Every detected event lies below the threshold. */
  lemma EventsBelowThreshold(times: seq<real>, lc: seq<real>)
    requires |lc| >= EndCount && Baseline(lc) != 0.0
    ensures forall i :: 0 <= i < |DetectedEvents(times, lc)| ==> DetectedEvents(times, lc)[i].midflux < CutLevel(lc)
  {
    var samples := Zip(times, Levels(lc));
    var thr := CutLevel(lc);
    ScanIsRuns(samples, thr);
    var u := Unequal(samples, thr);
    RunsBelow(u, thr);
    SummariesBelow(RunsOf(u, thr), thr);
  }

  /** The depth of a successful detection exceeds 100 % minus the threshold,
      which is half the approximate depth `100 - d_appr`. */
  lemma DetectDepth(times: seq<real>, lc: seq<real>)
    requires Detect(times, lc).Ok?
    ensures Detect(times, lc).value.depth > 100.0 - CutLevel(lc)
    ensures Detect(times, lc).value.depth > (100.0 - ThirdSmallest(Levels(lc))) / 2.0
  {
    EventsBelowThreshold(times, lc);
    var events := DetectedEvents(times, lc);
    MeanBelow(Midfluxes(events), CutLevel(lc));
  }

  /** With strictly increasing times, the detected mid-times strictly increase
      and the period is positive. */
  lemma DetectPeriodPositive(times: seq<real>, lc: seq<real>)
    requires Detect(times, lc).Ok?
    requires StrictlyIncreasing(times)
    ensures StrictlyIncreasing(Detect(times, lc).value.mids)
    ensures Detect(times, lc).value.period > 0.0
  {
    var samples := Zip(times, Levels(lc));
    var thr := CutLevel(lc);
    DetectMids(times, lc);
    ZipIncrease(times, Levels(lc));
    UnequalIncrease(samples, thr);
    var u := Unequal(samples, thr);
    if |u| > 0 {
      TimesIncreaseTail(u);
      RunMidsIncrease(u, thr, u[0].time - 1.0);
    } else {
      assert false;
    }
  }

  /** Multiplying the raw levels by any non-zero factor changes nothing: the
      normalisation removes it. Summing the three channels instead of averaging
      them therefore gives the same detection. */
  lemma DetectScaleInvariant(times: seq<real>, lc: seq<real>, k: real)
    requires k != 0.0
    ensures var scaled := seq(|lc|, i requires 0 <= i < |lc| => k * lc[i]);
            Detect(times, scaled) == Detect(times, lc)
  {
    DetectScaled(times, lc, seq(|lc|, i requires 0 <= i < |lc| => k * lc[i]), k);
  }

  lemma DetectScaled(times: seq<real>, lc: seq<real>, scaled: seq<real>, k: real)
    requires k != 0.0 && |scaled| == |lc|
    requires forall i :: 0 <= i < |lc| ==> scaled[i] == k * lc[i]
    ensures Detect(times, scaled) == Detect(times, lc)
  {
    if |lc| >= EndCount {
      BaselineScale(lc, scaled, k);
      if Baseline(lc) != 0.0 {
        LevelsScale(lc, scaled, k);
        DetectSameLevels(times, lc, scaled);
      }
    }
  }

  /** The detection sees the levels only through their normalisation. */
  lemma DetectSameLevels(times: seq<real>, lc: seq<real>, lc': seq<real>)
    requires |lc| >= EndCount && |lc'| == |lc|
    requires Baseline(lc) != 0.0 && Baseline(lc') != 0.0
    requires Levels(lc') == Levels(lc)
    ensures Detect(times, lc') == Detect(times, lc)
  {
  }

  lemma LevelsScale(lc: seq<real>, scaled: seq<real>, k: real)
    requires k != 0.0 && |lc| >= EndCount && |scaled| == |lc|
    requires forall i :: 0 <= i < |lc| ==> scaled[i] == k * lc[i]
    requires Baseline(lc) != 0.0 && Baseline(scaled) == k * Baseline(lc)
    ensures Levels(scaled) == Levels(lc)
  {
    var b, b' := Baseline(lc), Baseline(scaled);
    var lv, lv' := Levels(lc), Levels(scaled);
    forall i | 0 <= i < |lc| ensures lv'[i] == lv[i] {
      LevelAt(lc, i);
      LevelAt(scaled, i);
      ScaleCancel(b, k, lc[i]);
    }
  }

  /** Scaling every level scales the baseline by the same factor. */
  lemma BaselineScale(lc: seq<real>, scaled: seq<real>, k: real)
    requires |lc| >= EndCount && |scaled| == |lc|
    requires forall i :: 0 <= i < |lc| ==> scaled[i] == k * lc[i]
    ensures Baseline(scaled) == k * Baseline(lc)
  {
    var n, e := |lc|, EndCount;
    SumScale(lc[..e], scaled[..e], k);
    SumScale(lc[n - e..], scaled[n - e..], k);
    var s1, s2 := Sum(lc[..e]), Sum(lc[n - e..]);
    assert Mean(lc[..e]) == s1 / 3.0 && Mean(lc[n - e..]) == s2 / 3.0;
    assert Mean(scaled[..e]) == (k * s1) / 3.0 && Mean(scaled[n - e..]) == (k * s2) / 3.0;
    assert ((k * s1) / 3.0 + (k * s2) / 3.0) / 2.0 == k * ((s1 / 3.0 + s2 / 3.0) / 2.0);
  }

  lemma LevelAt(lc: seq<real>, i: nat)
    requires |lc| >= EndCount && Baseline(lc) != 0.0 && i < |lc|
    ensures Levels(lc)[i] == 100.0 / Baseline(lc) * lc[i]
  {
  }

  lemma ScaleCancel(b: real, k: real, x: real)
    requires b != 0.0 && k != 0.0
    ensures 100.0 / (k * b) * (k * x) == 100.0 / b * x
  {
    var q := 100.0 / (k * b);
    assert q * (k * b) == 100.0;
    var p := 100.0 / b;
    assert p * b == 100.0;
    assert q * k * b == p * b;
    assert q * k == p;
  }

  /** Normalising by the baseline puts the out-of-transit level at 100 %. */
  lemma BaselineOfLevels(lc: seq<real>)
    requires |lc| >= EndCount && Baseline(lc) != 0.0
    ensures Baseline(Levels(lc)) == 100.0
  {
    var b := Baseline(lc);
    var q := 100.0 / b;
    var lv := Levels(lc);
    forall i | 0 <= i < |lc| ensures lv[i] == q * lc[i] {
    }
    BaselineScale(lc, lv, q);
    assert q * b == 100.0;
  }
}
