# Transit light-curve analysis, modelled in Dafny

This project models the analysis side of a small exoplanet-transit demonstrator.
A camera logs the colour brightness of an artificial "star" once per frame. Each
acquisition starts with a `# New acquisition` marker line. The analysis then works in
five steps:

- It reads the log into light curves.
- It finds the transits with a coarse threshold detector.
- It cuts one period-wide window around every transit.
- It normalises each window to its own out-of-transit level of 100 %.
- It refines each window's transit time to an obscuration-weighted centroid.

The modules follow the program's structure:

| module | file | models |
|---|---|---|
| `Outcomes` | outcomes.dfy | `Result`/`Option` and the error cases where the program raises or produces NaN |
| `Seqs` | seqs.dfy | sums and means; the stable sort behind `sorted(..., key=...)` and `sort`; the 3rd-smallest value; flattening; subsequences |
| `LightPoints` | light_point.dfy | `LightPoint`: `parse_line` (whitespace tokenising, the slicing of the fields) and `time_diff` |
| `LightCurves` | light_curve.dfy | `LightCurve`: construction, `first_point`/`last_point`, `get_duration`, `extract`, `get_norm`, `get_min`, `normalize`, `invert` |
| `LogReader` | log_reader.dfy | `LightCurve.read` over the lines of a log |
| `CurveSplit` | curve_split.dfy | `LightCurve.split` as written, and the evidently intended partition |
| `TransitCenters` | transit_center.dfy | `get_transit_center` |
| `Detector` | detector.dfy | `analyze_transit` and `lightcurve_analyze` of MPStransit.py |
| `Folding` | folding.dfy | the per-curve step of `analyze_file`: detect, then clip and normalise every transit window |

These choices are modelled as follows:

- Timestamps are real numbers of seconds, so `time_diff` is a subtraction.
- Fluxes are real numbers. `mean(point.value)` is the channel mean and `sum(point.value)` is the channel sum.
- Text-to-value conversion (`strptime`, `float`) is passed in as the `Decoders` pair of functions. The model covers everything around it:
  - how a line is split into fields;
  - how many fields it must have;
  - which characters of each field are kept.
- Where the program would raise, index out of range or compute inf/NaN, the model returns a named `Err`.

## Model

| member | source | states |
|---|---|---|
| LightPoints.Tokens | analyze_transit.py:17 | every token of `split()` is a non-empty run of characters none of which is whitespace |
| LightPoints.WordLen | analyze_transit.py:17 | the first token of a string that starts with a non-space is a maximal non-whitespace run |
| LightPoints.TokensSkipSpace | analyze_transit.py:17 | leading whitespace (any character `str.isspace` accepts) does not change the tokens of `line.strip().split()` |
| LightPoints.TokensOfWord | analyze_transit.py:17 | a word followed by whitespace or the end of the line becomes the first token, and the rest is split independently |
| LightPoints.TokensOfSpace | analyze_transit.py:17 | an all-whitespace line has no tokens |
| LightPoints.TokensOfJoin | analyze_transit.py:17 | splitting inverts joining with single spaces, whatever trailing whitespace (such as the newline) follows |
| LightPoints.ParseLine | analyze_transit.py:16-22 | a point is produced if and only if the line has exactly five fields; the point is built from those fields |
| LightPoints.TimeDiff | analyze_transit.py:24-27 | the difference is positive exactly when `self` is later than `other`, and zero exactly when they are simultaneous |
| LightPoints.ParseFormatLine | analyze_transit.py:16-22 | a line the camera logger writes (`timestamp rgb` plus a newline, transit_cam.py:310) parses back into its own date, clock and three channel fields |
| LightCurves.MakeCurve | analyze_transit.py:31-39 | a curve can be built if and only if the point list is non-empty; the points are kept as given |
| LightCurves.First | analyze_transit.py:38 | `first_point` is a point of the curve and no point is earlier |
| LightCurves.Last | analyze_transit.py:39 | `last_point` is a point of the curve and no point is later |
| LightCurves.SortByTimeMembers | analyze_transit.py:38-39 | sorting by time keeps the length and invents no point |
| LightCurves.FirstListedFirst | analyze_transit.py:38 | because the sort is stable, `first_point` is the earliest-listed point of minimum time |
| LightCurves.LastListedLast | analyze_transit.py:39 | because the sort is stable, `last_point` is the last-listed point of maximum time |
| LightCurves.EndsOfPermutation | analyze_transit.py:38-42 | the first time, the last time and the duration do not depend on the order in which the points are listed |
| LightCurves.Duration | analyze_transit.py:41-42 | the duration is non-negative, bounds every pairwise time difference and equals one of them |
| LightCurves.Close | analyze_transit.py:51-52 | closing a curve keeps the finished curves unchanged as a prefix and adds at most one more curve, which is exactly the collected points; the flattened points grow by exactly the collected points |
| LightCurves.Window | analyze_transit.py:70 | the window is an ordered subsequence of the points that holds only points with `from <= t < to`, and every copy of each such point |
| LightCurves.WindowOfInside | analyze_transit.py:70 | a window that covers every point keeps all of them |
| LightCurves.Extract | analyze_transit.py:69-70 | `extract` succeeds if and only if some point is in the window; the result is an ordered subsequence holding only the window's points, with every copy of each |
| LightCurves.ExtractIdempotent | analyze_transit.py:69-70 | extracting the same window again changes nothing |
| LightCurves.NormWithinRange | analyze_transit.py:90-91 | `get_norm` lies between the smallest and the largest channel mean |
| LightCurves.GetMin | analyze_transit.py:93-94 | `get_min` is the 3rd-smallest channel mean: at most two means are below it and at least three are at or below it |
| LightCurves.Rescaled | analyze_transit.py:97 | rescaling keeps times and order and scales every channel mean by `100/norm` |
| LightCurves.Normalize | analyze_transit.py:96-97 | `normalize` succeeds if and only if the level is non-zero; it keeps times and order and scales each channel mean by `100/get_norm()` |
| LightCurves.NormScale | analyze_transit.py:90-91 | scaling every channel mean by `k` scales `get_norm` by `k` |
| LightCurves.NormOfNormalize | analyze_transit.py:90-97 | a normalised curve has out-of-transit level exactly 100 |
| LightCurves.Invert | analyze_transit.py:111-112 | `invert` keeps the values and order and reflects every time about the pivot |
| LightCurves.InvertTwice | analyze_transit.py:111-112 | inverting twice about the same pivot gives back the curve |
| LightCurves.InvertEnds | analyze_transit.py:38-39 | after inversion, the first point's time is the mirror of the old last point's time, and the reverse |
| LightCurves.InvertDuration | analyze_transit.py:41-42 | inversion keeps the duration |
| LightCurves.InvertMeans | analyze_transit.py:90-94 | inversion keeps every channel mean, and so `get_norm` and `get_min` |
| LogReader.FeedShape | analyze_transit.py:48-65 | from any loop state, the finished curves plus the open one concatenate to the earlier points followed by the parsed sample lines; at most one curve per marker is added, plus one |
| LogReader.Read | analyze_transit.py:44-67 | `read` loses and invents no sample: the curves concatenate to the parsed sample lines in file order; there is at most one curve more than there are markers |
| LogReader.FeedAppend | analyze_transit.py:49-61 | reading lines in two parts is the same as reading them in one pass |
| LogReader.FeedKeepsDone | analyze_transit.py:49-61 | curves that are already finished are never changed afterwards |
| LogReader.ReadAtMarker | analyze_transit.py:50-56 | a marker line splits the log: the curves of the whole log are those before it followed by those after it |
| LogReader.ReadSkipsMalformed | analyze_transit.py:57-60 | a non-marker line without exactly five fields has no effect on the result |
| LogReader.ReadWithoutMarkers | analyze_transit.py:57-65 | a log of only well-formed sample lines gives exactly one curve holding every line's point in file order |
| CurveSplit.Split | analyze_transit.py:72-88 | `split` fails if and only if there are no separators (`separators[0]`) |
| CurveSplit.SplitLoop | analyze_transit.py:76-88 | the loop adds at most one segment per remaining separator |
| CurveSplit.SplitLoopShape | analyze_transit.py:76-88 | the loop emits an ordered subsequence of its input |
| CurveSplit.SplitShape | analyze_transit.py:72-88 | at most one non-empty segment per separator; together they form an ordered, time-sorted subsequence of the sorted points; each kept point is before some separator, and before the last one when the separators do not decrease |
| CurveSplit.SplitBeforeFirstSeparator | analyze_transit.py:72-88 | when every point precedes the first separator, the result is the whole sorted curve as one segment |
| CurveSplit.SplitLoopSegments | analyze_transit.py:76-88 | from any loop state, the open segment collects the leading run of points before the active separator; the point that reaches it is dropped, and the rest is cut the same way at the following separators; after the last separator everything is dropped |
| CurveSplit.SplitIsSegments | analyze_transit.py:72-88 | `split` equals that separator-by-separator cut of the time-sorted points |
| CurveSplit.SplitFirstSegment | analyze_transit.py:72-88 | when some point is before the first separator, the first segment is exactly the time-sorted points before it |
| CurveSplit.SplitDropsCrossingPoints | analyze_transit.py:77-85 | as written, points at 0, 1 and 2 s with separators 1 s and 2 s give the single segment `[p0]`, so points are lost |
| CurveSplit.PartitionIsLossless | analyze_transit.py:72-88 | the intended split loses nothing: its segments concatenate to the sorted curve, there are at most one more than the separators, and none is empty |
| CurveSplit.PartitionLoopSlots | analyze_transit.py:76-88 | in the intended loop, every segment emitted from a well-ordered state lies between two consecutive separators |
| CurveSplit.PartitionRespectsSeparators | analyze_transit.py:72-88 | with increasing separators, every segment of the intended split lies between two consecutive separators, so none straddles one |
| CurveSplit.PartitionKeepsCrossingPoints | analyze_transit.py:72-88 | on the same three-point input the intended split gives `[[p0], [p1], [p2]]` |
| TransitCenters.Selected | analyze_transit.py:105-108 | the selection keeps exactly the points whose channel mean is at most the threshold |
| TransitCenters.SelectedIsFilter | analyze_transit.py:105-108 | the selection is an ordered subsequence of the points and keeps every copy of every point at or below the threshold |
| TransitCenters.TransitCenter | analyze_transit.py:99-109 | a curve of fewer than three points fails (`sorted(...)[2]`); a longer curve has a centre if and only if the total obscuration of its selected points is non-zero, and otherwise fails with `ZeroObscuration` |
| TransitCenters.SelectionNonEmpty | analyze_transit.py:100-108 | the point with the smallest channel mean is always selected, so the means are never taken over nothing |
| TransitCenters.ObscurationSumSplit | analyze_transit.py:107-108 | the summed obscuration is n·norm minus the summed channel means |
| TransitCenters.Centroid | analyze_transit.py:105-109 | the centroid exists if and only if the total obscuration is non-zero; the only failure is a zero mean obscuration |
| TransitCenters.CentroidIsWeightedMean | analyze_transit.py:105-109 | the centroid is the obscuration-weighted mean time Σ t·w / Σ w, whatever origin the offsets use |
| TransitCenters.CenterRatioOfSums | analyze_transit.py:99-109 | `get_transit_center` is the obscuration-weighted mean time of the selected points |
| TransitCenters.MomentShift | analyze_transit.py:105 | moving the origin of the time offsets shifts the moment sum by origin × total obscuration |
| TransitCenters.SelectedReflect | analyze_transit.py:105-112 | reflecting the times commutes with selecting by value |
| TransitCenters.ReflectSums | analyze_transit.py:105-112 | reflection keeps the total obscuration and mirrors the moment about the pivot |
| TransitCenters.CentroidOfReflect | analyze_transit.py:105-112 | the centroid of the reflected selection exists exactly when the original does, and is its mirror image about the pivot |
| TransitCenters.CenterOfInvert | analyze_transit.py:99-112 | the centre of an inverted curve fails exactly when the original fails, with the same error; otherwise it is the original centre reflected about the pivot |
| TransitCenters.MomentBounds | analyze_transit.py:105 | non-negative obscurations at offsets within `[0, span]` give a moment between 0 and span × total obscuration |
| TransitCenters.CentroidWithin | analyze_transit.py:105-109 | a centroid of light-obscuring points lies within their time interval |
| TransitCenters.SelectionInRange | analyze_transit.py:100-108 | when the curve dips, every selected point lies within the curve's time span and obscures light |
| TransitCenters.CenterWithinCurve | analyze_transit.py:99-109 | when the 3rd-smallest value is at most the level, the centre lies between the first and the last point's time |
| TransitCenters.FlatCurveHasNoCenter | analyze_transit.py:99-109 | a flat curve has zero obscuration everywhere, so it has no centre |
| TransitCenters.ObscurationSumPositive | analyze_transit.py:105-108 | points that each lie below the level have a positive total obscuration |
| TransitCenters.DippingCurveHasCenter | analyze_transit.py:99-109 | a curve of at least three points whose 3rd-smallest value lies below its level always has a centre |
| Detector.Zip | MPStransit.py:43 | `zip` pairs elements up to the shorter input, in order |
| Detector.AnalyzeTransit | MPStransit.py:16-17 | `analyze_transit` gives a mid-time between the run's earliest and latest time, and the run's lowest flux |
| Detector.NormalizedPercent | MPStransit.py:29 | every normalised level is the percentage of the out-of-transit level, and that level itself maps to 100 |
| Detector.Threshold | MPStransit.py:34 | the threshold lies halfway between the approximate depth and 100 %, and is above the depth exactly when the depth is below 100 % |
| Detector.BaselineWithin | MPStransit.py:26 | the out-of-transit level lies between the smallest and the largest level |
| Detector.BaselineOfLevels | MPStransit.py:26-29 | after normalisation the out-of-transit level is exactly 100 |
| Detector.Step | MPStransit.py:44-55 | one loop iteration keeps `transit_flag` set exactly while the run lists are non-empty |
| Detector.Scan | MPStransit.py:43-55 | the whole loop keeps `transit_flag` set exactly while the run lists are non-empty |
| Detector.ScanSkipsLevel | MPStransit.py:44-49 | a level exactly at the threshold neither extends nor closes a run |
| Detector.ScanBelow | MPStransit.py:44-47 | below-threshold levels only extend the open run |
| Detector.ScanAppend | MPStransit.py:43-55 | scanning two parts in turn is scanning the whole |
| Detector.ScanRuns | MPStransit.py:43-55 | starting idle, the loop records one summary per below-threshold block that some above-threshold level closes |
| Detector.ScanIsRuns | MPStransit.py:43-55 | the loop's events are exactly the summaries of the closed runs, defined without the loop (a run still open at the end is dropped) |
| Detector.RunsBelow | MPStransit.py:44-47 | every sample of every run is below the threshold |
| Detector.SummariesBelow | MPStransit.py:50-52 | every recorded event's flux is below the threshold |
| Detector.RunsFewerThanBelow | MPStransit.py:43-55 | there are no more runs than below-threshold samples |
| Detector.EventsAtMostBelow | MPStransit.py:43-55 | the loop records at most one event per below-threshold sample |
| Detector.RunMidsIncrease | MPStransit.py:43-55 | with strictly increasing times the runs' mid-times strictly increase |
| Detector.Detect | MPStransit.py:23-84 | fewer than three levels fail; every failure is one of too few points, a zero baseline, no event or a single event; a success has at least two mid-times |
| Detector.DetectSucceeds | MPStransit.py:23-59 | given at least three levels: a zero baseline fails with `ZeroBaseline` and nothing else does; a non-zero baseline succeeds if and only if there are two or more closed runs below the threshold, and fails with `NoEvents` for none and `SingleEvent` for one |
| Detector.DetectMids | MPStransit.py:43-84 | the reported mid-times are the mid-times of the closed runs of the normalised levels below the threshold |
| Detector.EventsBelowThreshold | MPStransit.py:32-55 | every detected event lies below the threshold |
| Detector.DetectDepth | MPStransit.py:32-59 | the depth exceeds 100 % minus the threshold, i.e. half of 100 % minus the 3rd-smallest normalised level |
| Detector.DetectPeriodPositive | MPStransit.py:43-57 | with strictly increasing times the mid-times strictly increase and the period is positive |
| Detector.Period | MPStransit.py:57 | the period of strictly increasing mid-times is positive |
| Detector.DetectScaleInvariant | MPStransit.py:26-29 | scaling the raw levels by any non-zero factor leaves the detection unchanged |
| Detector.DetectSameLevels | MPStransit.py:29-84 | the detection depends on the raw levels only through their normalisation |
| Detector.BaselineScale | MPStransit.py:26 | scaling every level scales the out-of-transit level by the same factor |
| Seqs.SortBy | analyze_transit.py:38-39 | the sorted copy is a permutation of the input, in non-decreasing key order |
| Seqs.SortByStable | analyze_transit.py:38-39 | sorting is stable: the elements sharing a key keep their relative order |
| Seqs.ThirdSmallest | MPStransit.py:32 | `sort(...)[2]` is an element with at most two elements below it and at least three at or below it |
| Folding.Offsets | analyze_transit.py:139 | the times fed to the detector are the seconds since the first point, so they are never negative |
| Folding.Sums | analyze_transit.py:140 | the values fed to the detector are three times the channel means |
| Folding.Clip | analyze_transit.py:143-148 | a clipped curve holds only points inside the period-wide window around the transit; every failure is an empty window or a zero level |
| Folding.ClipSucceeds | analyze_transit.py:143-148 | a clip succeeds if and only if its window holds a point and has a non-zero level; it fails with `EmptyCurve` exactly for an empty window and with `ZeroBaseline` exactly for a zero level |
| Folding.ClipAll | analyze_transit.py:143-148 | the loop over the centres succeeds if and only if every window clips, giving one clipped curve per centre in order |
| Folding.FoldedWindows | analyze_transit.py:138-148 | a successful analysis has one clipped curve per transit (at least two); each keeps its window's times in order and is normalised to level 100 |
| Folding.AnalyzeCurve | analyze_transit.py:138-148 | a curve of fewer than three points fails; a detector failure is passed on unchanged; the step succeeds if and only if detection succeeds and the window around every detected mid-time clips; a success carries the detector's analysis and one clipped curve per transit, and at least two |
| Folding.BaselineIsNorm | analyze_transit.py:90-91 | the detector's out-of-transit level (MPStransit.py:26) over the channel means is the curve's own `get_norm` |
| Folding.DetectSumsAsMeans | analyze_transit.py:139-141 | feeding channel sums rather than channel means makes no difference to the detection |
| Folding.OffsetsShiftInvariant | analyze_transit.py:139 | shifting the whole curve in time does not change the offsets fed to the detector |

## Left out

- Floating point: times and fluxes are exact reals. The model covers neither rounding nor overflow, nor the microsecond resolution of `timedelta`.
- Text-to-value conversion: `strptime` and `float` are parameters (`Decoders`).
  - A malformed timestamp or number raises `ValueError` in the program. The decoders are total, so the model does not represent that error.
  - Which characters are kept is modelled: the first 26 characters of the joined date and time, `[1:-1]` of the red field and `[:-1]` of the other two.
- File I/O: `read` takes the file's lines. `analyze_file`'s missing-file check, `reversed` and the `count` limit (analyze_transit.py:131-137) are list plumbing and are not modelled.
- LightPoints.TimeDiff: the branch of `time_diff` taking a bare `datetime` (analyze_transit.py:25-26) is not called by the modelled code and is not modelled.
- LogReader: `readlines` never yields an empty line, so every model member requires non-empty lines (`line[0]` would raise on one).
- Printing, plotting and PDF output (analyze_file after line 148, `add_plot_info`, the `show_plot` branch of `lightcurve_analyze`) are not modelled.
  - This includes the later calls of `get_transit_center` and `invert` on the clipped curves (analyze_transit.py:158-176). Those operations themselves are modelled.
- The camera, the simulated star and the logging side are not part of this model: transit_cam.py apart from the log line format, and star_generator.py.
- LightCurves.Normalize: a zero level is reported as `Err(ZeroBaseline)`. Python divides by zero here, which gives inf/NaN values in numpy arrays.
- Detector.Detect: numpy errors are silenced (MPStransit.py:12), and the model names each failure instead:
  - A zero baseline is `Err(ZeroBaseline)`. In the program `100. / 0.` gives inf, so every level is inf or NaN (the levels `analyze_file` passes are channel sums, never negative). The threshold is then inf or NaN, no level is below it, `transit_mids` stays empty and line 57 raises `IndexError`.
  - A single event is `Err(SingleEvent)`. The program does not raise here: the period is 0/0, which is NaN.
  - No event is `Err(NoEvents)`. The program raises `IndexError` at line 57.
- TransitCenters.TransitCenter: a zero mean obscuration gives inf/NaN in the program, which `timedelta` rejects. The model reports it as `Err(ZeroObscuration)`. The result is seconds, not a `datetime`.

## Findings

| source | as written | input that shows it | evidently intended | confidence | as-written member | corrected member |
|---|---|---|---|---|---|---|
| analyze_transit.py:77-85 | a point at or after the active separator closes the segment and advances the separator, but the point itself is never appended to any segment | points at 0, 1 and 2 s split at separators `[1.0, 2.0]` give `[[p0]]`: the points at 1 s and 2 s are lost | the crossing point starts the next segment, so the segments together hold every point in time order | not executed | CurveSplit.SplitDropsCrossingPoints | CurveSplit.PartitionIsLossless |
