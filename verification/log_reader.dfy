/** `LightCurve.read` (analyze_transit.py): turning the lines of an acquisition
    log into light curves.

    A line starting with `#` (the logger's "# New acquisition" marker) ends the
    curve being collected; any other line is parsed into a point and appended,
    or skipped when it does not have five fields. Opening the file is not
    modelled: the lines are given. Lines as `readlines` yields them are never
    empty, which the first-character test relies on.
 */
module LogReader {
  import opened Seqs
  import opened Outcomes
  import opened LightPoints
  import opened LightCurves

  predicate NonEmptyLines(lines: seq<string>)
  {
    forall i :: 0 <= i < |lines| ==> |lines[i]| > 0
  }

  /** A separator line, `line[0] == '#'`. */
  predicate IsMarker(line: string)
    requires |line| > 0
  {
    line[0] == '#'
  }

  /** The loop state: curves finished so far and the points of the open curve. */
  datatype Reader = Reader(done: seq<Curve>, cur: seq<Point>)

  /** One iteration of the loop over the lines. */
  function Step(st: Reader, line: string, dec: Decoders): Reader
    requires |line| > 0
  {
    if IsMarker(line) then Reader(Close(st.done, st.cur), [])
    else match ParseLine(line, dec)
      case None => st
      case Some(p) => Reader(st.done, st.cur + [p])
  }

  function Feed(lines: seq<string>, dec: Decoders, st: Reader): Reader
    requires NonEmptyLines(lines)
  {
    if |lines| == 0 then st else Feed(lines[1..], dec, Step(st, lines[0], dec))
  }

  /** `read`: the curves of a log, in file order. Reading loses no sample and
      invents none: the curves concatenate to the parsed sample lines in file
      order, and there is at most one curve more than there are marker lines. */
  function Read(lines: seq<string>, dec: Decoders): (r: seq<Curve>)
    requires NonEmptyLines(lines)
    ensures Flatten(r) == LoggedPoints(lines, dec)
    ensures |r| <= MarkerCount(lines) + 1
  {
    var st := Feed(lines, dec, Reader([], []));
    FeedShape(lines, dec, Reader([], []));
    assert Flatten<Point>([]) + [] + LoggedPoints(lines, dec) == LoggedPoints(lines, dec);
    Close(st.done, st.cur)
  }

  // ---------------------------------------------------------------------------
  // Reference definitions
  // ---------------------------------------------------------------------------

  /** Every point the log describes, in file order: the parsed sample lines. */
  function LoggedPoints(lines: seq<string>, dec: Decoders): seq<Point>
    requires NonEmptyLines(lines)
  {
    if |lines| == 0 then []
    else
      var rest := LoggedPoints(lines[1..], dec);
      if IsMarker(lines[0]) then rest
      else match ParseLine(lines[0], dec)
        case None => rest
        case Some(p) => [p] + rest
  }

  function MarkerCount(lines: seq<string>): nat
    requires NonEmptyLines(lines)
  {
    if |lines| == 0 then 0
    else (if IsMarker(lines[0]) then 1 else 0) + MarkerCount(lines[1..])
  }

  // ---------------------------------------------------------------------------
  // Properties
  // ---------------------------------------------------------------------------

  lemma {:induction false} FeedShape(lines: seq<string>, dec: Decoders, st: Reader)
    requires NonEmptyLines(lines)
    ensures var r := Close(Feed(lines, dec, st).done, Feed(lines, dec, st).cur);
            && Flatten(r) == Flatten(st.done) + st.cur + LoggedPoints(lines, dec)
            && |r| <= |st.done| + MarkerCount(lines) + 1
  {
    if |lines| > 0 {
      var line := lines[0];
      var next := Step(st, line, dec);
      FeedShape(lines[1..], dec, next);
      var rest := LoggedPoints(lines[1..], dec);
      if IsMarker(line) {
        assert Flatten(next.done) + next.cur == Flatten(st.done) + st.cur;
      } else if ParseLine(line, dec).Some? {
        var p := ParseLine(line, dec).value;
        assert Flatten(next.done) + next.cur + rest == Flatten(st.done) + st.cur + ([p] + rest);
      }
    }
  }

  lemma {:induction false} FeedAppend(a: seq<string>, b: seq<string>, dec: Decoders, st: Reader)
    requires NonEmptyLines(a) && NonEmptyLines(b)
    ensures NonEmptyLines(a + b)
    ensures Feed(a + b, dec, st) == Feed(b, dec, Feed(a, dec, st))
  {
    assert NonEmptyLines(a + b) by {
      forall i | 0 <= i < |a + b| ensures |(a + b)[i]| > 0 {
        if i < |a| { assert (a + b)[i] == a[i]; } else { assert (a + b)[i] == b[i - |a|]; }
      }
    }
    if |a| == 0 {
      assert a + b == b;
    } else {
      assert (a + b)[1..] == a[1..] + b;
      FeedAppend(a[1..], b, dec, Step(st, a[0], dec));
    }
  }

  /** Curves already finished are carried through untouched. */
  lemma {:induction false} FeedKeepsDone(lines: seq<string>, dec: Decoders, earlier: seq<Curve>, st: Reader)
    requires NonEmptyLines(lines)
    ensures Feed(lines, dec, Reader(earlier + st.done, st.cur))
         == Reader(earlier + Feed(lines, dec, st).done, Feed(lines, dec, st).cur)
  {
    if |lines| > 0 {
      var next := Step(st, lines[0], dec);
      if IsMarker(lines[0]) {
        if |st.cur| > 0 {
          assert earlier + st.done + [st.cur] == earlier + (st.done + [st.cur]);
        }
      }
      assert Step(Reader(earlier + st.done, st.cur), lines[0], dec) == Reader(earlier + next.done, next.cur);
      FeedKeepsDone(lines[1..], dec, earlier, next);
    }
  }

  /** A marker line splits the log: the curves before it and the curves after
      it are read independently. */
  lemma ReadAtMarker(a: seq<string>, marker: string, b: seq<string>, dec: Decoders)
    requires NonEmptyLines(a) && NonEmptyLines(b)
    requires |marker| > 0 && IsMarker(marker)
    ensures NonEmptyLines(a + [marker] + b)
    ensures Read(a + [marker] + b, dec) == Read(a, dec) + Read(b, dec)
  {
    assert NonEmptyLines([marker]);
    FeedAppend(a, [marker], dec, Reader([], []));
    FeedAppend(a + [marker], b, dec, Reader([], []));
    var sa := Feed(a, dec, Reader([], []));
    assert [marker][1..] == [];
    assert Feed(a + [marker], dec, Reader([], [])) == Reader(Read(a, dec), []);
    var empty := Reader([], []);
    assert Reader(Read(a, dec), []) == Reader(Read(a, dec) + empty.done, empty.cur);
    FeedKeepsDone(b, dec, Read(a, dec), empty);
    var sb := Feed(b, dec, empty);
    if |sb.cur| > 0 {
      assert Read(a, dec) + sb.done + [sb.cur] == Read(a, dec) + (sb.done + [sb.cur]);
    }
  }

  /** A line that is neither a marker nor a five-field sample has no effect. */
  lemma ReadSkipsMalformed(a: seq<string>, bad: string, b: seq<string>, dec: Decoders)
    requires NonEmptyLines(a) && NonEmptyLines(b)
    requires |bad| > 0 && !IsMarker(bad) && |Tokens(bad)| != FieldCount
    ensures NonEmptyLines(a + [bad] + b) && NonEmptyLines(a + b)
    ensures Read(a + [bad] + b, dec) == Read(a + b, dec)
  {
    assert NonEmptyLines([bad]);
    FeedAppend(a, [bad], dec, Reader([], []));
    FeedAppend(a + [bad], b, dec, Reader([], []));
    FeedAppend(a, b, dec, Reader([], []));
    assert [bad][1..] == [];
    assert Feed(a + [bad], dec, Reader([], [])) == Feed(a, dec, Reader([], []));
  }

  /** A log without marker lines whose every line is a sample yields exactly
      one curve, holding all of them in file order. */
  lemma ReadWithoutMarkers(lines: seq<string>, dec: Decoders)
    requires |lines| > 0 && NonEmptyLines(lines)
    requires forall i :: 0 <= i < |lines| ==> !IsMarker(lines[i]) && |Tokens(lines[i])| == FieldCount
    ensures |Read(lines, dec)| == 1
    ensures Read(lines, dec)[0] == LoggedPoints(lines, dec)
    ensures |Read(lines, dec)[0]| == |lines|
  {
    FeedNoMarkers(lines, dec, Reader([], []));
    var st := Feed(lines, dec, Reader([], []));
    assert Read(lines, dec) == [st.cur];
    assert Flatten([st.cur]) == st.cur;
  }

  lemma {:induction false} FeedNoMarkers(lines: seq<string>, dec: Decoders, st: Reader)
    requires NonEmptyLines(lines)
    requires forall i :: 0 <= i < |lines| ==> !IsMarker(lines[i]) && |Tokens(lines[i])| == FieldCount
    ensures Feed(lines, dec, st).done == st.done
    ensures |Feed(lines, dec, st).cur| == |st.cur| + |lines|
    ensures |LoggedPoints(lines, dec)| == |lines|
  {
    if |lines| > 0 {
      FeedNoMarkers(lines[1..], dec, Step(st, lines[0], dec));
    }
  }
}
