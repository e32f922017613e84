/** One photometric sample (`LightPoint` in analyze_transit.py) and the parsing
    of one log line into a sample.

    A timestamp is modelled as a real number of seconds since a fixed epoch, so
    `datetime` differences become real subtraction. Parsing a timestamp text
    (`strptime`) and a number text (`float`) is not modelled: the two decoders
    are supplied by the caller as function values. What is modelled is the
    whitespace tokenisation, the token-count check and the slicing that picks
    the field texts out of the tokens.
 */
module LightPoints {
  import opened Outcomes

  /** The three per-channel brightness values of a sample. */
  datatype Rgb = Rgb(r: real, g: real, b: real)

  datatype Point = Point(time: real, value: Rgb)

  /** Channel mean: the scalar flux the curve operations use (`mean(point.value)`). */
  function ChannelMean(v: Rgb): real
  {
    (v.r + v.g + v.b) / 3.0
  }

  /** Channel sum: the scalar flux fed to the coarse detector (`sum(point.value)`). */
  function ChannelSum(v: Rgb): real
  {
    v.r + v.g + v.b
  }

  function TimeOf(p: Point): real
  {
    p.time
  }

  /** `time_diff` against another point: seconds from `other` to `p`, so
      positive exactly when `p` is the later one and zero exactly when the
      two are simultaneous. */
  function TimeDiff(p: Point, other: Point): (r: real)
    ensures r > 0.0 <==> other.time < p.time
    ensures r == 0.0 <==> other.time == p.time
  {
    p.time - other.time
  }


  // ---------------------------------------------------------------------------
  // Tokenisation (`str.split()` with no argument)
  // ---------------------------------------------------------------------------

  /** The characters Python's `str.isspace` accepts, which `str.split()` splits on. */
  predicate IsSpace(c: char)
  {
    || c == ' ' || c == '\t' || c == '\n' || c == '\r'
    || c == '\U{000B}' || c == '\U{000C}'
    || ('\U{001C}' <= c <= '\U{001F}')
    || c == '\U{0085}' || c == '\U{00A0}' || c == '\U{1680}'
    || ('\U{2000}' <= c <= '\U{200A}')
    || c == '\U{2028}' || c == '\U{2029}' || c == '\U{202F}' || c == '\U{205F}'
    || c == '\U{3000}'
  }

  predicate AllSpace(s: string)
  {
    forall i :: 0 <= i < |s| ==> IsSpace(s[i])
  }

  /** A token: a non-empty run of non-whitespace characters. */
  predicate Word(w: string)
  {
    |w| > 0 && forall i :: 0 <= i < |w| ==> !IsSpace(w[i])
  }

  /** Length of the token at the start of `s`. */
  function WordLen(s: string): (k: nat)
    requires |s| > 0 && !IsSpace(s[0])
    ensures 1 <= k <= |s|
    ensures forall i :: 0 <= i < k ==> !IsSpace(s[i])
    ensures k < |s| ==> IsSpace(s[k])
  {
    if |s| == 1 || IsSpace(s[1]) then 1 else 1 + WordLen(s[1..])
  }

  /** The maximal runs of non-whitespace characters of `s`, in order. Leading
      and trailing whitespace produce no token, so `line.strip().split()` and
      `line.split()` agree. */
  function Tokens(s: string): (r: seq<string>)
    ensures forall i :: 0 <= i < |r| ==> Word(r[i])
    decreases |s|
  {
    if |s| == 0 then []
    else if IsSpace(s[0]) then Tokens(s[1..])
    else
      var k := WordLen(s);
      [s[..k]] + Tokens(s[k..])
  }

  lemma {:induction false} TokensSkipSpace(w: string, rest: string)
    requires AllSpace(w)
    ensures Tokens(w + rest) == Tokens(rest)
  {
    if |w| > 0 {
      assert (w + rest)[1..] == w[1..] + rest;
      TokensSkipSpace(w[1..], rest);
    } else {
      assert w + rest == rest;
    }
  }

  lemma {:induction false} WordLenOfWord(t: string, rest: string)
    requires Word(t)
    requires |rest| == 0 || IsSpace(rest[0])
    ensures WordLen(t + rest) == |t|
  {
    if |t| > 1 {
      assert (t + rest)[1..] == t[1..] + rest;
      WordLenOfWord(t[1..], rest);
    }
  }

  lemma TokensOfWord(t: string, rest: string)
    requires Word(t)
    requires |rest| == 0 || IsSpace(rest[0])
    ensures Tokens(t + rest) == [t] + Tokens(rest)
  {
    WordLenOfWord(t, rest);
    assert (t + rest)[..|t|] == t;
    assert (t + rest)[|t|..] == rest;
  }

  /** The tokens joined by single spaces, `' '.join(ws)`. */
  function JoinSpaced(ws: seq<string>): string
  {
    if |ws| == 0 then ""
    else if |ws| == 1 then ws[0]
    else ws[0] + " " + JoinSpaced(ws[1..])
  }

  lemma TokensOfSpace(tail: string)
    requires AllSpace(tail)
    ensures Tokens(tail) == []
  {
    TokensSkipSpace(tail, "");
    assert tail + "" == tail;
  }

  /** Splitting undoes joining: tokens written with single spaces and followed
      by trailing whitespace (the newline) split back into the same tokens. */
  lemma {:induction false} TokensOfJoin(ws: seq<string>, tail: string)
    requires forall i :: 0 <= i < |ws| ==> Word(ws[i])
    requires AllSpace(tail)
    ensures Tokens(JoinSpaced(ws) + tail) == ws
  {
    if |ws| == 0 {
      TokensOfSpace(tail);
      assert JoinSpaced(ws) + tail == tail;
    } else if |ws| == 1 {
      TokensOfWord(ws[0], tail);
      TokensOfSpace(tail);
      assert JoinSpaced(ws) == ws[0];
    } else {
      var inner := JoinSpaced(ws[1..]) + tail;
      var rest := " " + inner;
      assert JoinSpaced(ws) + tail == ws[0] + rest;
      assert IsSpace(rest[0]);
      TokensOfWord(ws[0], rest);
      assert AllSpace(" ");
      TokensSkipSpace(" ", inner);
      TokensOfJoin(ws[1..], tail);
      assert Tokens(rest) == ws[1..];
      assert ws == [ws[0]] + ws[1..];
    }
  }

  // ---------------------------------------------------------------------------
  // Python string slicing used to pick the field texts
  // ---------------------------------------------------------------------------

  /** `s[:n]`. */
  function Prefix(s: string, n: nat): string
  {
    if n <= |s| then s[..n] else s
  }

  /** `s[:-1]`: everything but the last character ("" stays ""). */
  function DropLast(s: string): string
  {
    if |s| == 0 then s else s[..|s| - 1]
  }

  /** `s[1:-1]`: everything but the first and the last character. */
  function DropEnds(s: string): string
  {
    if |s| < 2 then "" else s[1..|s| - 1]
  }

  // ---------------------------------------------------------------------------
  // Parsing one log line (`LightPoint.parse_line`)
  // ---------------------------------------------------------------------------

  /** Text-to-value conversions that are not modelled: the timestamp parser
      (`strptime` with `%Y-%m-%d %H:%M:%S.%f`, as seconds since the epoch) and
      the number parser (`float`). */
  datatype Decoders = Decoders(timestamp: string -> real, number: string -> real)

  /** Number of whitespace-separated fields a sample line must have: date,
      clock time and three channel values. */
  const FieldCount: nat := 5

  /** Length of the timestamp text `YYYY-MM-DD HH:MM:SS.ffffff` kept for parsing. */
  const TimestampLength: nat := 26

  /** The point a line of exactly five tokens describes. */
  function PointOf(parts: seq<string>, dec: Decoders): Point
    requires |parts| == FieldCount
  {
    Point(dec.timestamp(Prefix(parts[0] + " " + parts[1], TimestampLength)),
          Rgb(dec.number(DropEnds(parts[2])),
              dec.number(DropLast(parts[3])),
              dec.number(DropLast(parts[4]))))
  }

  /** `parse_line`: `None` for a line that does not split into exactly five
      tokens, otherwise the point its fields describe. */
  function ParseLine(line: string, dec: Decoders): (r: Option<Point>)
    ensures r.Some? <==> |Tokens(line)| == FieldCount
    ensures r.Some? ==> r.value == PointOf(Tokens(line), dec)
  {
    var parts := Tokens(line);
    if |parts| != FieldCount then None else Some(PointOf(parts, dec))
  }

  /** A sample line as the camera logger writes it, `'{} {}\n'.format(timestamp, rgb)`:
      the timestamp prints as date and clock time, the channel triple as a tuple. */
  function FormatLine(date: string, clock: string, r: string, g: string, b: string): string
  {
    date + " " + clock + " (" + r + ", " + g + ", " + b + ")\n"
  }

  /** A line written by the logger parses back into its own fields. */
  lemma ParseFormatLine(date: string, clock: string, r: string, g: string, b: string, dec: Decoders)
    requires Word(date) && Word(clock)
    requires forall i :: 0 <= i < |r| ==> !IsSpace(r[i])
    requires forall i :: 0 <= i < |g| ==> !IsSpace(g[i])
    requires forall i :: 0 <= i < |b| ==> !IsSpace(b[i])
    ensures ParseLine(FormatLine(date, clock, r, g, b), dec)
         == Some(Point(dec.timestamp(Prefix(date + " " + clock, TimestampLength)),
                       Rgb(dec.number(r), dec.number(g), dec.number(b))))
  {
    var w3, w4, w5 := "(" + r + ",", g + ",", b + ")";
    var ws := [date, clock, w3, w4, w5];
    assert Word(w3) by {
      forall i | 0 <= i < |w3| ensures !IsSpace(w3[i]) {
        if 0 < i < |w3| - 1 {
          assert w3[i] == r[i - 1];
        }
      }
    }
    assert Word(w4) by {
      forall i | 0 <= i < |w4| ensures !IsSpace(w4[i]) {
        if i < |g| {
          assert w4[i] == g[i];
        }
      }
    }
    assert Word(w5) by {
      forall i | 0 <= i < |w5| ensures !IsSpace(w5[i]) {
        if i < |b| {
          assert w5[i] == b[i];
        }
      }
    }
    assert JoinSpaced(ws[4..]) == w5;
    assert JoinSpaced(ws[3..]) == w4 + " " + w5 by {
      assert ws[3..][1..] == ws[4..];
    }
    assert JoinSpaced(ws[2..]) == w3 + " " + w4 + " " + w5 by {
      assert ws[2..][1..] == ws[3..];
    }
    assert JoinSpaced(ws[1..]) == clock + " " + w3 + " " + w4 + " " + w5 by {
      assert ws[1..][1..] == ws[2..];
    }
    assert JoinSpaced(ws) + "\n" == FormatLine(date, clock, r, g, b);
    TokensOfJoin(ws, "\n");
    assert DropEnds(w3) == r;
    assert DropLast(w4) == g;
    assert DropLast(w5) == b;
  }
}
