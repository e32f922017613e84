/** `LightCurve.split` (analyze_transit.py): cutting a curve at separator times.

    The code as written walks the time-sorted points with an index into the
    separators. A point at or after the active separator closes the current
    segment and is itself dropped; once the last separator has been consumed
    the walk stops, dropping every remaining point. `Split` models exactly
    that. `Partition` is the evidently intended behaviour (the crossing point
    opens the next segment, points past the last separator form a final
    segment), under which the segments concatenate back to the sorted curve.
 */
module CurveSplit {
  import opened Outcomes
  import opened Seqs
  import opened LightPoints
  import opened LightCurves

  // ---------------------------------------------------------------------------
  // As written
  // ---------------------------------------------------------------------------

  /** The loop of `split` from point `pts[0]` on, with `index` the active
      separator, `cur` the open segment and `acc` the segments emitted so far. */
  function SplitLoop(pts: seq<Point>, seps: seq<real>, index: nat, cur: seq<Point>, acc: seq<Curve>): (r: seq<Curve>)
    requires index < |seps|
    ensures |r| <= |acc| + |seps| - index
    decreases |pts|
  {
    if |pts| == 0 then Close(acc, cur)
    else if pts[0].time < seps[index] then SplitLoop(pts[1..], seps, index, cur + [pts[0]], acc)
    else if index + 1 >= |seps| then Close(acc, cur)
    else SplitLoop(pts[1..], seps, index + 1, [], Close(acc, cur))
  }

  /** `split(separators)`: an empty separator list fails on `separators[0]`. */
  function Split(c: Curve, seps: seq<real>): (r: Result<seq<Curve>>)
    ensures r.Ok? <==> |seps| > 0
    ensures r.Err? ==> r.error == NoSeparators
  {
    if |seps| == 0 then Err(NoSeparators) else Ok(SplitLoop(SortByTime(c), seps, 0, [], []))
  }

  lemma {:induction false} SubseqPrefix<T>(a: seq<T>, b: seq<T>)
    ensures IsSubseq(a, a + b)
  {
    if |a| == 0 {
      EmptyIsSubseq(b);
      assert a + b == b;
    } else {
      SubseqPrefix(a[1..], b);
      SubseqKeep(a[0], a[1..], a[1..] + b);
      assert a == [a[0]] + a[1..];
      assert a + b == [a[0]] + (a[1..] + b);
    }
  }

  lemma {:induction false} SubseqInsert<T>(a: seq<T>, x: seq<T>, p: T, y: seq<T>)
    requires IsSubseq(a, x + y)
    ensures IsSubseq(a, x + [p] + y)
  {
    if |x| == 0 {
      assert x + y == y;
      assert x + [p] + y == [p] + y;
      SubseqSkip(p, a, y);
    } else {
      var b, z, rest := x + y, x + [p] + y, x[1..] + [p] + y;
      assert b[0] == x[0] && b[1..] == x[1..] + y;
      assert z[0] == x[0] && z[1..] == rest;
      if |a| > 0 && a[0] == b[0] && IsSubseq(a[1..], b[1..]) {
        SubseqInsert(a[1..], x[1..], p, y);
        assert IsSubseq(a[1..], z[1..]);
      } else {
        SubseqInsert(a, x[1..], p, y);
        assert IsSubseq(a, z[1..]);
      }
    }
  }

  /** What the loop guarantees from any state: the emitted points are a
      subsequence of what was collected plus what is left, and every new segment
      uses up one separator. */
  lemma {:induction false} SplitLoopShape(pts: seq<Point>, seps: seq<real>, index: nat, cur: seq<Point>, acc: seq<Curve>)
    requires index < |seps|
    ensures IsSubseq(Flatten(SplitLoop(pts, seps, index, cur, acc)), Flatten(acc) + cur + pts)
    decreases |pts|
  {
    var r := SplitLoop(pts, seps, index, cur, acc);
    if |pts| == 0 {
      SubseqPrefix(Flatten(acc) + cur, []);
      assert Flatten(acc) + cur + pts == Flatten(acc) + cur + [];
    } else if pts[0].time < seps[index] {
      SplitLoopShape(pts[1..], seps, index, cur + [pts[0]], acc);
      assert Flatten(acc) + (cur + [pts[0]]) + pts[1..] == Flatten(acc) + cur + pts;
    } else if index + 1 >= |seps| {
      SubseqPrefix(Flatten(acc) + cur, pts);
    } else {
      var acc' := Close(acc, cur);
      SplitLoopShape(pts[1..], seps, index + 1, [], acc');
      assert Flatten(acc') + [] + pts[1..] == (Flatten(acc) + cur) + pts[1..];
      SubseqInsert(Flatten(r), Flatten(acc) + cur, pts[0], pts[1..]);
      assert (Flatten(acc) + cur) + [pts[0]] + pts[1..] == Flatten(acc) + cur + pts;
    }
  }

  /** With non-decreasing separators, every kept point is strictly earlier than
      the separator that was active when it was visited, hence strictly earlier
      than the last separator. */
  lemma {:induction false} SplitLoopBefore(pts: seq<Point>, seps: seq<real>, index: nat, cur: seq<Point>, acc: seq<Curve>)
    requires index < |seps|
    requires SortedBy(seps, Id)
    requires forall p :: p in Flatten(acc) + cur ==> p.time < seps[index]
    ensures forall p :: p in Flatten(SplitLoop(pts, seps, index, cur, acc)) ==> p.time < seps[|seps| - 1]
    decreases |pts|
  {
    if |pts| == 0 || (pts[0].time >= seps[index] && index + 1 >= |seps|) {
      assert seps[index] <= seps[|seps| - 1];
    } else if pts[0].time < seps[index] {
      assert Flatten(acc) + (cur + [pts[0]]) == Flatten(acc) + cur + [pts[0]];
      SplitLoopBefore(pts[1..], seps, index, cur + [pts[0]], acc);
    } else {
      assert seps[index] <= seps[index + 1];
      assert Flatten(Close(acc, cur)) + [] == Flatten(acc) + cur;
      SplitLoopBefore(pts[1..], seps, index + 1, [], Close(acc, cur));
    }
  }

  /** Whatever the separators, every kept point is strictly earlier than some
      separator: the one active when it was visited. */
  lemma {:induction false} SplitLoopBeforeSome(pts: seq<Point>, seps: seq<real>, index: nat, cur: seq<Point>, acc: seq<Curve>)
    requires index < |seps|
    requires forall p :: p in Flatten(acc) + cur ==> exists j :: 0 <= j < |seps| && p.time < seps[j]
    ensures forall p :: p in Flatten(SplitLoop(pts, seps, index, cur, acc)) ==>
              exists j :: 0 <= j < |seps| && p.time < seps[j]
    decreases |pts|
  {
    if |pts| > 0 {
      if pts[0].time < seps[index] {
        assert Flatten(acc) + (cur + [pts[0]]) == Flatten(acc) + cur + [pts[0]];
        SplitLoopBeforeSome(pts[1..], seps, index, cur + [pts[0]], acc);
      } else if index + 1 < |seps| {
        assert Flatten(Close(acc, cur)) + [] == Flatten(acc) + cur;
        SplitLoopBeforeSome(pts[1..], seps, index + 1, [], Close(acc, cur));
      }
    }
  }

  /** When no point reaches the active separator, the loop only collects. */
  lemma {:induction false} SplitLoopAllBefore(pts: seq<Point>, seps: seq<real>, index: nat, cur: seq<Point>, acc: seq<Curve>)
    requires index < |seps|
    requires forall i :: 0 <= i < |pts| ==> pts[i].time < seps[index]
    ensures SplitLoop(pts, seps, index, cur, acc) == Close(acc, cur + pts)
    decreases |pts|
  {
    if |pts| == 0 {
      assert cur + pts == cur;
    } else {
      SplitLoopAllBefore(pts[1..], seps, index, cur + [pts[0]], acc);
      assert cur + [pts[0]] + pts[1..] == cur + pts;
    }
  }

  /** `split` returns at most one segment per separator, each non-empty; their
      concatenation is an order-preserving subsequence of the time-sorted
      points, so it is itself time-sorted; every kept point lies strictly
      before some separator, and with non-decreasing separators strictly
      before the last one. */
  lemma SplitShape(c: Curve, seps: seq<real>)
    requires |seps| > 0
    ensures var r := Split(c, seps).value;
            && |r| <= |seps|
            && (forall k :: 0 <= k < |r| ==> |r[k]| > 0)
            && IsSubseq(Flatten(r), SortByTime(c))
            && SortedBy(Flatten(r), TimeOf)
            && (forall p :: p in Flatten(r) ==> exists j :: 0 <= j < |seps| && p.time < seps[j])
            && (SortedBy(seps, Id) ==>
                  forall p :: p in Flatten(r) ==> p.time < seps[|seps| - 1])
  {
    var s := SortByTime(c);
    SplitLoopShape(s, seps, 0, [], []);
    assert Flatten<Point>([]) + [] + s == s;
    var f := Flatten(Split(c, seps).value);
    SubseqSortedBy(f, s, TimeOf);
    SplitLoopBeforeSome(s, seps, 0, [], []);
    if SortedBy(seps, Id) {
      SplitLoopBefore(s, seps, 0, [], []);
    }
  }

  /** If every point is earlier than the first separator, `split` returns the
      whole time-sorted curve as one segment. */
  lemma SplitBeforeFirstSeparator(c: Curve, seps: seq<real>)
    requires |seps| > 0
    requires forall i :: 0 <= i < |c| ==> c[i].time < seps[0]
    ensures Split(c, seps) == Ok([SortByTime(c)])
  {
    var s := SortByTime(c);
    SortByTimeMembers(c);
    SplitLoopAllBefore(s, seps, 0, [], []);
    var a0: seq<Curve> := [];
    assert [] + s == s;
    assert Close(a0, s) == [s];
  }

  // ---------------------------------------------------------------------------
  // As written, without the loop: one segment per separator
  // ---------------------------------------------------------------------------

  /** Length of the leading run of points strictly earlier than `t`. */
  function Before(pts: seq<Point>, t: real): (k: nat)
    ensures k <= |pts|
    ensures forall i :: 0 <= i < k ==> pts[i].time < t
    ensures k < |pts| ==> t <= pts[k].time
  {
    if |pts| == 0 || t <= pts[0].time then 0
    else
      assert forall i :: 1 <= i < |pts| ==> pts[i] == pts[1..][i - 1];
      1 + Before(pts[1..], t)
  }

  /** What `split` keeps, separator by separator: the segment of the first
      separator is the leading run of points before it; the point that
      reaches it belongs to no segment, and the rest is cut the same way at
      the next separator. Reaching the last separator drops everything after
      it. Empty segments are not emitted. */
  function Segments(pts: seq<Point>, seps: seq<real>): seq<Curve>
    requires |seps| > 0
    decreases |seps|
  {
    var k := Before(pts, seps[0]);
    if k == |pts| || |seps| == 1 then Close([], pts[..k])
    else Close([], pts[..k]) + Segments(pts[k + 1..], seps[1..])
  }

  lemma CloseOnto(acc: seq<Curve>, cur: seq<Point>)
    ensures Close(acc, cur) == acc + Close([], cur)
  {
  }

  /** What the loop returns from a given state: the open segment collects the
      leading run before the active separator, and the separators after it cut
      the rest as `Segments` does. */
  function SegmentsFrom(pts: seq<Point>, seps: seq<real>, index: nat, cur: seq<Point>, acc: seq<Curve>): seq<Curve>
    requires index < |seps|
  {
    var k := Before(pts, seps[index]);
    acc + Close([], cur + pts[..k])
    + (if k == |pts| || index + 1 == |seps| then [] else Segments(pts[k + 1..], seps[index + 1..]))
  }

  lemma SegmentsFromTake(pts: seq<Point>, seps: seq<real>, index: nat, cur: seq<Point>, acc: seq<Curve>)
    requires index < |seps| && |pts| > 0 && pts[0].time < seps[index]
    ensures SegmentsFrom(pts, seps, index, cur, acc) == SegmentsFrom(pts[1..], seps, index, cur + [pts[0]], acc)
  {
    var k, tail := Before(pts, seps[index]), pts[1..];
    var m := Before(tail, seps[index]);
    assert m == k - 1;
    assert cur + [pts[0]] + tail[..m] == cur + pts[..k];
    if k < |pts| && index + 1 < |seps| {
      assert tail[m + 1..] == pts[k + 1..];
    }
  }

  lemma SegmentsFromCross(pts: seq<Point>, seps: seq<real>, index: nat, cur: seq<Point>, acc: seq<Curve>)
    requires index + 1 < |seps| && |pts| > 0 && seps[index] <= pts[0].time
    ensures SegmentsFrom(pts, seps, index, cur, acc) == SegmentsFrom(pts[1..], seps, index + 1, [], Close(acc, cur))
  {
    var k, tail, rest := Before(pts, seps[index]), pts[1..], seps[index + 1..];
    assert k == 0 && cur + pts[..k] == cur;
    var m := Before(tail, seps[index + 1]);
    var after := if m == |tail| || index + 2 == |seps| then [] else Segments(tail[m + 1..], seps[index + 2..]);
    assert [] + tail[..m] == tail[..m];
    assert rest[0] == seps[index + 1] && rest[1..] == seps[index + 2..];
    var seg := Segments(tail, rest);
    assert seg == Close([], tail[..m]) + after;
    assert pts[k + 1..] == tail;
    assert SegmentsFrom(pts, seps, index, cur, acc) == acc + Close([], cur) + seg;
    CloseOnto(acc, cur);
    assert SegmentsFrom(tail, seps, index + 1, [], Close(acc, cur))
        == acc + Close([], cur) + Close([], tail[..m]) + after;
  }

  /** The loop computes `SegmentsFrom` from every state. */
  lemma {:induction false} SplitLoopSegments(pts: seq<Point>, seps: seq<real>, index: nat, cur: seq<Point>, acc: seq<Curve>)
    requires index < |seps|
    ensures SplitLoop(pts, seps, index, cur, acc) == SegmentsFrom(pts, seps, index, cur, acc)
    decreases |pts|
  {
    if |pts| == 0 {
      assert cur + pts[..0] == cur;
      CloseOnto(acc, cur);
    } else if pts[0].time < seps[index] {
      SplitLoopSegments(pts[1..], seps, index, cur + [pts[0]], acc);
      SegmentsFromTake(pts, seps, index, cur, acc);
    } else if index + 1 >= |seps| {
      assert Before(pts, seps[index]) == 0 && cur + pts[..0] == cur;
      CloseOnto(acc, cur);
    } else {
      SplitLoopSegments(pts[1..], seps, index + 1, [], Close(acc, cur));
      SegmentsFromCross(pts, seps, index, cur, acc);
    }
  }

  lemma SegmentsFromStart(pts: seq<Point>, seps: seq<real>)
    requires |seps| > 0
    ensures SegmentsFrom(pts, seps, 0, [], []) == Segments(pts, seps)
  {
    var k := Before(pts, seps[0]);
    if k == |pts| || |seps| == 1 {
      SegmentsFromStartLast(pts, seps, k);
    } else {
      SegmentsFromStartMore(pts, seps, k);
    }
  }

  lemma SegmentsFromStartLast(pts: seq<Point>, seps: seq<real>, k: nat)
    requires |seps| > 0 && k == Before(pts, seps[0]) && (k == |pts| || |seps| == 1)
    ensures SegmentsFrom(pts, seps, 0, [], []) == Segments(pts, seps)
  {
    var none: seq<Curve> := [];
    var first := Close([], pts[..k]);
    assert [] + pts[..k] == pts[..k];
    assert SegmentsFrom(pts, seps, 0, [], []) == none + first + none;
    assert none + first + none == first;
  }

  lemma SegmentsFromStartMore(pts: seq<Point>, seps: seq<real>, k: nat)
    requires |seps| > 1 && k == Before(pts, seps[0]) && k < |pts|
    ensures SegmentsFrom(pts, seps, 0, [], []) == Segments(pts, seps)
  {
    var none: seq<Curve> := [];
    var first := Close([], pts[..k]);
    var more := Segments(pts[k + 1..], seps[1..]);
    assert [] + pts[..k] == pts[..k];
    assert seps[0 + 1..] == seps[1..];
    assert SegmentsFrom(pts, seps, 0, [], []) == none + first + more;
    EmptyThenBoth(first, more);
  }

  lemma EmptyThenBoth<T>(a: seq<T>, b: seq<T>)
    ensures [] + a + b == a + b
  {
  }

  /** `split` as written is `Segments` of the time-sorted points. */
  lemma SplitIsSegments(c: Curve, seps: seq<real>)
    requires |seps| > 0
    ensures Split(c, seps) == Ok(Segments(SortByTime(c), seps))
  {
    var s := SortByTime(c);
    SplitLoopSegments(s, seps, 0, [], []);
    SegmentsFromStart(s, seps);
  }

  /** When some point is earlier than the first separator, the first segment
      of `split` holds exactly the points earlier than it, in time order. */
  lemma SplitFirstSegment(c: Curve, seps: seq<real>)
    requires |seps| > 0
    requires exists i :: 0 <= i < |c| && c[i].time < seps[0]
    ensures var s, k := SortByTime(c), Before(SortByTime(c), seps[0]);
            && |Split(c, seps).value| > 0
            && Split(c, seps).value[0] == s[..k]
            && forall i :: 0 <= i < |s| ==> (i < k <==> s[i].time < seps[0])
  {
    var s := SortByTime(c);
    var k := Before(s, seps[0]);
    SplitIsSegments(c, seps);
    SortByEnds(c, TimeOf);
    BeforeOfSorted(s, seps[0]);
    FirstSegment(s, seps);
  }

  /** In time-sorted points, the leading run before `t` is every point before `t`. */
  lemma BeforeOfSorted(pts: seq<Point>, t: real)
    requires SortedBy(pts, TimeOf)
    ensures forall i :: 0 <= i < |pts| ==> (i < Before(pts, t) <==> pts[i].time < t)
  {
    var k := Before(pts, t);
    forall i | 0 <= i < |pts| ensures i < k <==> pts[i].time < t {
      if k <= i {
        assert TimeOf(pts[k]) <= TimeOf(pts[i]);
      }
    }
  }

  lemma FirstSegment(pts: seq<Point>, seps: seq<real>)
    requires |seps| > 0 && |pts| > 0 && pts[0].time < seps[0]
    ensures |Segments(pts, seps)| > 0 && Segments(pts, seps)[0] == pts[..Before(pts, seps[0])]
  {
    var k := Before(pts, seps[0]);
    assert 0 < k;
    assert Close([], pts[..k]) == [pts[..k]];
  }

  lemma {:induction false} SubseqSortedBy<T>(a: seq<T>, b: seq<T>, key: T -> real)
    requires IsSubseq(a, b)
    requires SortedBy(b, key)
    ensures SortedBy(a, key)
    decreases |b|
  {
    if |b| > 0 {
      assert SortedBy(b[1..], key);
      if |a| > 0 && a[0] == b[0] && IsSubseq(a[1..], b[1..]) {
        SubseqSortedBy(a[1..], b[1..], key);
        SubseqMembers(a[1..], b[1..]);
        forall i, j | 0 <= i < j < |a| ensures key(a[i]) <= key(a[j]) {
          if i == 0 {
            assert a[j] == a[1..][j - 1];
            assert a[j] in b[1..];
            var k :| 0 <= k < |b[1..]| && b[1..][k] == a[j];
            assert b[k + 1] == a[j];
          } else {
            assert a[i] == a[1..][i - 1] && a[j] == a[1..][j - 1];
          }
        }
      } else {
        SubseqSortedBy(a, b[1..], key);
      }
    }
  }

  // ---------------------------------------------------------------------------
  // Evidently intended: a lossless partition
  // ---------------------------------------------------------------------------

  /** A crossing point closes the current segment and moves to the next
      separator without being consumed; past the last separator every point
      joins the final segment. */
  function PartitionLoop(pts: seq<Point>, seps: seq<real>, cur: seq<Point>, acc: seq<Curve>): seq<Curve>
    decreases |pts| + |seps|
  {
    if |pts| == 0 then Close(acc, cur)
    else if |seps| == 0 || pts[0].time < seps[0] then PartitionLoop(pts[1..], seps, cur + [pts[0]], acc)
    else PartitionLoop(pts, seps[1..], [], Close(acc, cur))
  }

  function Partition(c: Curve, seps: seq<real>): seq<Curve>
  {
    PartitionLoop(SortByTime(c), seps, [], [])
  }

  lemma {:induction false} PartitionLoopShape(pts: seq<Point>, seps: seq<real>, cur: seq<Point>, acc: seq<Curve>)
    ensures Flatten(PartitionLoop(pts, seps, cur, acc)) == Flatten(acc) + cur + pts
    ensures |PartitionLoop(pts, seps, cur, acc)| <= |acc| + |seps| + 1
    decreases |pts| + |seps|
  {
    if |pts| == 0 {
      assert cur + pts == cur;
    } else if |seps| == 0 || pts[0].time < seps[0] {
      PartitionLoopShape(pts[1..], seps, cur + [pts[0]], acc);
      assert Flatten(acc) + (cur + [pts[0]]) + pts[1..] == Flatten(acc) + cur + pts;
    } else {
      PartitionLoopShape(pts, seps[1..], [], Close(acc, cur));
    }
  }

  /** The intended split loses nothing: its segments (at most one more than
      there are separators, each non-empty) concatenate to the sorted curve. */
  lemma PartitionIsLossless(c: Curve, seps: seq<real>)
    ensures Flatten(Partition(c, seps)) == SortByTime(c)
    ensures |Partition(c, seps)| <= |seps| + 1
    ensures forall k :: 0 <= k < |Partition(c, seps)| ==> |Partition(c, seps)[k]| > 0
  {
    PartitionLoopShape(SortByTime(c), seps, [], []);
  }

  /** Every point of `seg` lies in slot `j`: at or after separator `j - 1`
      (when there is one) and before separator `j` (when there is one). */
  predicate InSlot(seg: seq<Point>, seps: seq<real>, j: nat)
    requires j <= |seps|
  {
    forall p :: p in seg ==> (j == 0 || seps[j - 1] <= p.time) && (j == |seps| || p.time < seps[j])
  }

  predicate InSomeSlot(seg: seq<Point>, seps: seq<real>)
  {
    exists j :: 0 <= j <= |seps| && InSlot(seg, seps, j)
  }

  lemma SortedTail(cur: seq<Point>, pts: seq<Point>)
    requires SortedBy(cur + pts, TimeOf) && |pts| > 0
    ensures SortedBy(pts, TimeOf)
    ensures forall p :: p in pts ==> pts[0].time <= p.time
  {
    forall i, j | 0 <= i < j < |pts| ensures TimeOf(pts[i]) <= TimeOf(pts[j]) {
      assert (cur + pts)[|cur| + i] == pts[i] && (cur + pts)[|cur| + j] == pts[j];
    }
    forall p | p in pts ensures pts[0].time <= p.time {
      var i :| 0 <= i < |pts| && pts[i] == p;
      assert i == 0 || TimeOf(pts[0]) <= TimeOf(pts[i]);
    }
  }

  lemma {:induction false} PartitionLoopSlots(pts: seq<Point>, all: seq<real>, d: nat, cur: seq<Point>, acc: seq<Curve>)
    requires d <= |all|
    requires SortedBy(all, Id) && SortedBy(cur + pts, TimeOf)
    requires forall p :: p in cur + pts ==> d == 0 || all[d - 1] <= p.time
    requires forall p :: p in cur ==> d == |all| || p.time < all[d]
    requires forall k :: 0 <= k < |acc| ==> InSomeSlot(acc[k], all)
    ensures forall k :: 0 <= k < |PartitionLoop(pts, all[d..], cur, acc)| ==>
              InSomeSlot(PartitionLoop(pts, all[d..], cur, acc)[k], all)
    decreases |pts| + |all| - d
  {
    var seps := all[d..];
    if |pts| == 0 {
      assert InSlot(cur, all, d);
    } else if |seps| == 0 || pts[0].time < seps[0] {
      var cur', rest := cur + [pts[0]], pts[1..];
      assert cur' + rest == cur + pts;
      PartitionLoopSlots(rest, all, d, cur', acc);
      assert PartitionLoop(pts, seps, cur, acc) == PartitionLoop(rest, seps, cur', acc);
    } else {
      assert InSlot(cur, all, d);
      assert all[d] <= pts[0].time;
      SortedTail(cur, pts);
      assert [] + pts == pts;
      assert seps[1..] == all[d + 1..];
      var acc' := Close(acc, cur);
      assert InSomeSlot(cur, all);
      assert forall k :: 0 <= k < |acc'| ==> acc'[k] == cur || acc'[k] == acc[k];
      PartitionLoopSlots(pts, all, d + 1, [], acc');
      assert PartitionLoop(pts, seps, cur, acc) == PartitionLoop(pts, all[d + 1..], [], acc');
    }
  }

  /** With separators in increasing order, every segment of the intended split
      lies between two consecutive separators, so no segment straddles one. */
  lemma PartitionRespectsSeparators(c: Curve, seps: seq<real>)
    requires SortedBy(seps, Id)
    ensures forall k :: 0 <= k < |Partition(c, seps)| ==> InSomeSlot(Partition(c, seps)[k], seps)
  {
    var s := SortByTime(c);
    assert [] + s == s;
    assert seps[0..] == seps;
    PartitionLoopSlots(s, seps, 0, [], []);
    assert PartitionLoop(s, seps[0..], [], []) == Partition(c, seps);
  }

  /** The three-point curve at 0, 1 and 2 s is already in time order. */
  lemma SortThreePoints(p0: Point, p1: Point, p2: Point)
    requires p0.time <= p1.time <= p2.time
    ensures SortBy([p0, p1, p2], TimeOf) == [p0, p1, p2]
  {
    assert SortBy([p2], TimeOf) == [p2];
    assert [p1, p2][1..] == [p2];
    assert SortBy([p1, p2], TimeOf) == [p1, p2];
    assert [p0, p1, p2][1..] == [p1, p2];
  }

  /** The loop of `split` on points at 0, 1 and 2 s with separators 1 s and 2 s. */
  lemma SplitLoopThree(p0: Point, p1: Point, p2: Point)
    requires p0.time == 0.0 && p1.time == 1.0 && p2.time == 2.0
    ensures SplitLoop([p0, p1, p2], [1.0, 2.0], 0, [], []) == [[p0]]
  {
    var seps := [1.0, 2.0];
    var none: seq<Point> := [];
    var a0: seq<Curve> := [];
    var a1: seq<Curve> := [[p0]];
    assert SplitLoop([p2], seps, 1, [], a1) == a1 by {
      assert Close(a1, []) == a1;
    }
    assert SplitLoop([p1, p2], seps, 0, [p0], a0) == SplitLoop([p2], seps, 1, [], a1) by {
      assert [p1, p2][1..] == [p2];
      assert Close(a0, [p0]) == a1;
    }
    assert SplitLoop([p0, p1, p2], seps, 0, [], a0) == SplitLoop([p1, p2], seps, 0, [p0], a0) by {
      assert [p0, p1, p2][1..] == [p1, p2];
      assert none + [p0] == [p0];
    }
  }

  /** As written, `split` of points at 0, 1 and 2 s at separators 1 s and 2 s,
      whatever their channel values, keeps only the first point: the point at
      1 s closes the first segment and is dropped, the point at 2 s closes the
      second, empty, segment and ends the walk. */
  lemma SplitDropsCrossingPoints(p0: Point, p1: Point, p2: Point)
    requires p0.time == 0.0 && p1.time == 1.0 && p2.time == 2.0
    ensures Split([p0, p1, p2], [1.0, 2.0]) == Ok([[p0]])
    ensures Flatten(Split([p0, p1, p2], [1.0, 2.0]).value) != SortByTime([p0, p1, p2])
  {
    SortThreePoints(p0, p1, p2);
    SplitLoopThree(p0, p1, p2);
    var a1: seq<Curve> := [[p0]];
    assert Flatten(a1) == [p0];
  }

  /** The loop of the intended partition on the same input. */
  lemma PartitionLoopThree(p0: Point, p1: Point, p2: Point)
    requires p0.time == 0.0 && p1.time == 1.0 && p2.time == 2.0
    ensures PartitionLoop([p0, p1, p2], [1.0, 2.0], [], []) == [[p0], [p1], [p2]]
  {
    var none: seq<Point> := [];
    var a0: seq<Curve> := [];
    var a1: seq<Curve> := [[p0]];
    var a2: seq<Curve> := [[p0], [p1]];
    var a3: seq<Curve> := [[p0], [p1], [p2]];
    assert PartitionLoop([p2], [], [], a2) == a3 by {
      assert [p2][1..] == [];
      assert none + [p2] == [p2];
      assert PartitionLoop([], [], [p2], a2) == Close(a2, [p2]) == a3;
    }
    assert PartitionLoop([p2], [2.0], [p1], a1) == PartitionLoop([p2], [], [], a2) by {
      assert [2.0][1..] == [];
      assert Close(a1, [p1]) == a2;
    }
    assert PartitionLoop([p1, p2], [2.0], [], a1) == PartitionLoop([p2], [2.0], [p1], a1) by {
      assert [p1, p2][1..] == [p2];
      assert none + [p1] == [p1];
    }
    assert PartitionLoop([p1, p2], [1.0, 2.0], [p0], a0) == PartitionLoop([p1, p2], [2.0], [], a1) by {
      assert [1.0, 2.0][1..] == [2.0];
      assert Close(a0, [p0]) == a1;
    }
    assert PartitionLoop([p0, p1, p2], [1.0, 2.0], [], a0) == PartitionLoop([p1, p2], [1.0, 2.0], [p0], a0) by {
      assert [p0, p1, p2][1..] == [p1, p2];
      assert none + [p0] == [p0];
    }
  }

  /** The intended partition of the same curve keeps every point, one per segment. */
  lemma PartitionKeepsCrossingPoints(p0: Point, p1: Point, p2: Point)
    requires p0.time == 0.0 && p1.time == 1.0 && p2.time == 2.0
    ensures Partition([p0, p1, p2], [1.0, 2.0]) == [[p0], [p1], [p2]]
  {
    SortThreePoints(p0, p1, p2);
    PartitionLoopThree(p0, p1, p2);
  }
}
