/**
 * The conversion engine: a 1024-sample window over the decoded signal,
 * refilled half at a time, a skip to the requested start, and the loop
 * that finds leaders and start bits and assembles bytes from the FSK
 * intervals the analyser measures.
 *
 * The bytes written and the report lines become sequences of values in
 * the object; every boundary search is logged, with the window it ran on,
 * so that the contracts can speak of the intervals measured.
 */
module Ptc {
  import opened Common
  import opened WavDecoder
  import opened WavInput
  import opened FskAnalyzer

  const BUF_HALF_SIZE := 512
  const BUF_SIZE := BUF_HALF_SIZE * 2
  /** A refill happens once the cursor reaches three quarters of the window. */
  const BUF_READ_POS := BUF_HALF_SIZE * 3 / 2
  /** High-frequency intervals in a row that make a leader. */
  const MIN_LEADER_LEN := 28
  /** Leaders that end the conversion. */
  const LEADER_COUNT := 3
  /** The longest search window the refill scheme leaves room for. */
  const MAX_T94 := 128

  datatype StartBitType = StreamEnd | StartBit | Leader

  /** The report lines, by kind, with the absolute sample position they are written at. */
  datatype Event =
    | HeaderReport(position: int, samplingRate: int)
    | BlankReport(position: int)
    | BreakReport(position: int)
    | DataReport(position: int, writePos: int, value: int, judge: SignalJudge)

  /** `analyze` returns normally, or throws IllegalEndDetected, or (from the analyser's constructor) IllegalArgument. */
  datatype Outcome = Finished | IllegalEnd | IllegalArgument

  /** Why a boundary search ran: priming, a start-bit probe, a data bit, or the extra cycle of a mark. */
  datatype SearchKind = Prime | Probe | Bit | Extra

  /**
   * One boundary search: the window it read, the absolute sample position of
   * that window's slot 0 (abspos), the file cursor when it ran, where it
   * started and what it returned.
   */
  datatype Search = Search(kind: SearchKind, window: seq<real>, base: int, cursor: nat, from: int, to: int)

  /** What `read()` and a search see: the window, its abspos, the file cursor and `_pos`. */
  datatype Spot = Spot(window: seq<real>, base: int, cursor: nat, pos: int)

  /** Where the engine stood when a search started. */
  function Before(e: Search): Spot
  {
    Spot(e.window, e.base, e.cursor, e.from)
  }

  /** Where a search left the engine. */
  function After(e: Search): Spot
  {
    Spot(e.window, e.base, e.cursor, e.to)
  }

  /** Where a search started, as an absolute sample position. */
  function StartAt(e: Search): int
  {
    e.base + e.from
  }

  /** Where a search stopped, as an absolute sample position. */
  function StopAt(e: Search): int
  {
    e.base + e.to
  }

  /** Each search starts where the one before it stopped. */
  predicate Chained(log: seq<Search>)
  {
    forall i {:trigger StartAt(log[i])} :: 0 < i < |log| ==> StartAt(log[i]) == StopAt(log[i - 1])
  }

  /** Chained searches followed by chained searches from where the first stopped are chained. */
  lemma ChainedJoin(a: seq<Search>, b: seq<Search>)
    requires Chained(a) && Chained(b)
    requires a != [] && b != [] ==> StartAt(b[0]) == StopAt(a[|a| - 1])
    ensures Chained(a + b)
  {
    var l := a + b;
    forall i | 0 < i < |l|
      ensures StartAt(l[i]) == StopAt(l[i - 1])
    {
      if i < |a| {
        assert l[i] == a[i] && l[i - 1] == a[i - 1];
      } else if i == |a| {
        assert l[i] == b[0] && l[i - 1] == a[|a| - 1];
      } else {
        assert l[i] == b[i - |a|] && l[i - 1] == b[i - 1 - |a|];
      }
    }
  }

  /**
   * A search that ran from spot s: a probe or bit search right after the
   * `read()` that precedes it, a priming or extra search right there.
   */
  predicate Follows(src: Source, s: Spot, e: Search)
    requires Readable(src)
  {
    && Fits(src, s)
    && (if e.kind == Probe || e.kind == Bit then ReadFrom(src, s) == Refreshed(Before(e), true) else Before(e) == s)
  }

  /** Where the engine stood before search i of a log run from start: start, or where search i - 1 left it. */
  function Prior(start: Spot, log: seq<Search>, i: int): Spot
    requires 0 <= i <= |log|
  {
    if i == 0 then start else After(log[i - 1])
  }

  /** Where a log of searches run from start left the engine. */
  function EndSpot(start: Spot, log: seq<Search>): Spot
  {
    Prior(start, log, |log|)
  }

  /**
   * The searches of the log ran one after another from start on the one
   * stream src: each from where the one before it left the engine, and
   * each probe or bit search on the window its refill made.
   */
  predicate Windowed(src: Source, start: Spot, log: seq<Search>)
    requires Readable(src)
  {
    && Fits(src, EndSpot(start, log))
    && forall i {:trigger Follows(src, Prior(start, log, i), log[i])} :: 0 <= i < |log| ==>
      Follows(src, Prior(start, log, i), log[i])
  }

  /** A search from where a windowed log stopped extends it. */
  lemma WindowedSnoc(src: Source, start: Spot, log: seq<Search>, e: Search)
    requires Readable(src) && Windowed(src, start, log) && Follows(src, EndSpot(start, log), e)
    ensures Windowed(src, start, log + [e]) && EndSpot(start, log + [e]) == After(e)
  {
    var l := log + [e];
    forall i | 0 <= i < |l|
      ensures Follows(src, Prior(start, l, i), l[i])
    {
      if i < |log| {
        assert Prior(start, l, i) == Prior(start, log, i) && l[i] == log[i];
        assert Follows(src, Prior(start, log, i), log[i]);
      }
    }
    if e.kind == Probe || e.kind == Bit {
      assert Fits(src, ReadFrom(src, EndSpot(start, log)).spot);
    }
  }

  /** A windowed log followed by one windowed from where it stopped is one windowed log. */
  lemma WindowedJoin(src: Source, start: Spot, a: seq<Search>, b: seq<Search>)
    requires Readable(src) && Windowed(src, start, a) && Windowed(src, EndSpot(start, a), b)
    ensures Windowed(src, start, a + b) && EndSpot(start, a + b) == EndSpot(EndSpot(start, a), b)
  {
    var l := a + b;
    forall i | 0 <= i < |l|
      ensures Follows(src, Prior(start, l, i), l[i])
    {
      if i < |a| {
        assert Prior(start, l, i) == Prior(start, a, i) && l[i] == a[i];
        assert Follows(src, Prior(start, a, i), a[i]);
      } else {
        var j := i - |a|;
        assert Prior(start, l, i) == Prior(EndSpot(start, a), b, j) && l[i] == b[j];
        assert Follows(src, Prior(EndSpot(start, a), b, j), b[j]);
      }
    }
    if b == [] {
      assert l == a;
    } else {
      assert l[|l| - 1] == b[|b| - 1];
    }
  }

  /** Searches that ran one after another are chained, from the absolute position they started at. */
  lemma WindowedChained(src: Source, start: Spot, log: seq<Search>)
    requires Readable(src) && Windowed(src, start, log)
    ensures Chained(log)
    ensures log != [] ==> StartAt(log[0]) == start.base + start.pos
  {
    forall i | 0 <= i < |log|
      ensures StartAt(log[i]) == Prior(start, log, i).base + Prior(start, log, i).pos
    {
      assert Follows(src, Prior(start, log, i), log[i]);
    }
    forall i | 0 < i < |log|
      ensures StartAt(log[i]) == StopAt(log[i - 1])
    {
      assert Prior(start, log, i) == After(log[i - 1]);
    }
  }

  /** A logged search is one the analyser would make on its window. */
  predicate Faithful(e: Search, t34: int, t94: int)
  {
    SearchFits(e.window, e.from, t34, t94) && e.to == ZeroPosition(e.window, e.from, t34, t94)
  }

  // ---------------------------------------------------------------------
  // The window refill

  /** The samples negated one by one. */
  function Negated(s: seq<real>): (r: seq<real>)
    ensures |r| == |s| && forall i :: 0 <= i < |s| ==> r[i] == -s[i]
  {
    if s == [] then [] else [-s[0]] + Negated(s[1..])
  }

  lemma NegatedTwice(s: seq<real>)
    ensures Negated(Negated(s)) == s
  {
    assert forall i :: 0 <= i < |s| ==> Negated(Negated(s))[i] == s[i];
  }

  /**
   * The window after a refill that read `values`: the old upper half moved
   * down, the values over the old upper half, and, if `negate`, that whole
   * upper half negated, stale tail included.
   */
  function Refilled(b: seq<real>, values: seq<real>, negate: bool): (r: seq<real>)
    requires |b| == BUF_SIZE && |values| <= BUF_HALF_SIZE
    ensures |r| == BUF_SIZE
  {
    var upper := Written(b[BUF_HALF_SIZE..], 0, values);
    b[BUF_HALF_SIZE..] + (if negate then Negated(upper) else upper)
  }

  /**
   * The refill moves the old upper half down and puts the values read over
   * the old upper half; with `negate` every sample of the new upper half is
   * negated, the stale tail past the values included.
   */
  lemma RefilledContents(b: seq<real>, values: seq<real>, negate: bool)
    requires |b| == BUF_SIZE && |values| <= BUF_HALF_SIZE
    ensures var r := Refilled(b, values, negate);
      && r[..BUF_HALF_SIZE] == b[BUF_HALF_SIZE..]
      && (forall i :: BUF_HALF_SIZE <= i < BUF_HALF_SIZE + |values| ==>
            r[i] == if negate then -values[i - BUF_HALF_SIZE] else values[i - BUF_HALF_SIZE])
      && (forall i :: BUF_HALF_SIZE + |values| <= i < BUF_SIZE ==>
            r[i] == if negate then -b[i] else b[i])
  {
    var low := b[BUF_HALF_SIZE..];
    var upper := Written(low, 0, values);
    WrittenFront(low, values);
    var top := if negate then Negated(upper) else upper;
    var r := Refilled(b, values, negate);
    assert r == low + top;
    assert r[..BUF_HALF_SIZE] == low;
    forall i | BUF_HALF_SIZE <= i < BUF_HALF_SIZE + |values|
      ensures r[i] == if negate then -values[i - BUF_HALF_SIZE] else values[i - BUF_HALF_SIZE]
    {
      assert r[i] == top[i - BUF_HALF_SIZE];
      assert upper[i - BUF_HALF_SIZE] == values[i - BUF_HALF_SIZE];
    }
    forall i | BUF_HALF_SIZE + |values| <= i < BUF_SIZE
      ensures r[i] == if negate then -b[i] else b[i]
    {
      assert r[i] == top[i - BUF_HALF_SIZE];
      assert upper[i - BUF_HALF_SIZE] == low[i - BUF_HALF_SIZE] == b[i];
    }
  }

  /** Values written from the front of a: the values, then a's own tail. */
  lemma WrittenFront(a: seq<real>, v: seq<real>)
    requires |v| <= |a|
    ensures forall i :: 0 <= i < |v| ==> Written(a, 0, v)[i] == v[i]
    ensures forall i :: |v| <= i < |a| ==> Written(a, 0, v)[i] == a[i]
  {
    assert Written(a, 0, v) == v + a[|v|..];
  }

  /** The refill reads from one channel at most 512 frames, one value each. */
  lemma HalfFits(channels: nat)
    requires channels >= 1
    ensures Span(FramesWanted(0, BUF_HALF_SIZE, channels), PerFrame(0, channels)) <= BUF_HALF_SIZE
  {
    var n := FramesWanted(0, BUF_HALF_SIZE, channels);
    SpanIsProduct(n, 1);
    assert BUF_HALF_SIZE / channels * channels <= BUF_HALF_SIZE;
  }

  /**
   * What a refill's `readSound(0, buf, 512, 512)` gives: at most 512
   * values; a positive count moves the file cursor on; a count of 0 or -1
   * reads nothing and leaves the file at its end (or the frame is wider
   * than the window can be counted in: more than 512 channels). A header
   * never gives that many, since its channel count is masked to 8 bits,
   * but the stream's invariant does not bound it, so the case stays.
   */
  lemma RefillOutcome(d: Decoder, data: seq<Byte>, cursor: nat, bytes: nat, channels: nat)
    requires channels >= 1 && Width(d) <= bytes && cursor <= |data|
    ensures var r := ReadSoundSpec(d, data, cursor, bytes, channels, 0, BUF_HALF_SIZE);
      && |r.values| <= BUF_HALF_SIZE
      && (r.ret > 0 ==> cursor < r.cursor)
      && (r.ret <= 0 ==> r.values == [] && (r.cursor == |data| || channels > BUF_HALF_SIZE))
  {
    var fs := Span(channels, bytes);
    var want := FramesWanted(0, BUF_HALF_SIZE, channels);
    HalfFits(channels);
    ReadFramesClosedForm(d, data, cursor, bytes, channels, 0, want, 0);
    ReadSoundEnd(d, data, cursor, bytes, channels, 0, BUF_HALF_SIZE);
    var r := ReadSoundSpec(d, data, cursor, bytes, channels, 0, BUF_HALF_SIZE);
    var n := Min(want, WholeFrames(|data| - cursor, fs));
    SpanIsProduct(n, 1);
    if r.ret > 0 {
      assert n >= 1;
      FrameLeft(|data| - cursor, fs);
      SpanMonotone(1, n, fs);
      SpanIsProduct(1, fs);
    } else if r.ret == 0 {
      assert want == 0;
    }
  }

  /** A whole frame is left when the count of whole frames is not zero. */
  lemma FrameLeft(m: nat, fs: nat)
    requires fs >= 1 && WholeFrames(m, fs) >= 1
    ensures m >= fs
  {
  }

  /** The window written by the refill, as the halves Refilled names. */
  lemma WrittenUpper(b: seq<real>, values: seq<real>)
    requires |b| == BUF_SIZE && |values| <= BUF_HALF_SIZE
    ensures var mid := b[BUF_HALF_SIZE..] + b[BUF_HALF_SIZE..];
      var w := Written(mid, BUF_HALF_SIZE, values);
      && w[..BUF_HALF_SIZE] == b[BUF_HALF_SIZE..]
      && w[BUF_HALF_SIZE..] == Written(b[BUF_HALF_SIZE..], 0, values)
      && w == Refilled(b, values, false)
  {
    var up := b[BUF_HALF_SIZE..];
    var w := Written(up + up, BUF_HALF_SIZE, values);
    assert w[..BUF_HALF_SIZE] == up;
    assert w[BUF_HALF_SIZE..] == Written(up, 0, values);
  }

  /** The window, the file cursor, and whether the last refill read anything. */
  datatype WindowState = WindowState(samples: seq<real>, cursor: nat, ok: bool)

  /** What the refills read: the stream's decoder, data, sample width and channel count, and the negate flag. */
  datatype Source = Source(decoder: Decoder, data: seq<Byte>, bytes: nat, channels: nat, negate: bool)

  /** A stream `readSound` can decode. */
  predicate Readable(src: Source)
  {
    src.channels >= 1 && Width(src.decoder) <= src.bytes
  }

  /** A spot with a whole window and a cursor inside the file. */
  predicate Fits(src: Source, s: Spot)
  {
    s.cursor <= |src.data| && |s.window| == BUF_SIZE
  }

  /**
   * One refill of `read()` at or past the refill point: the window Refilled
   * with what `readSound(0, buf, 512, 512)` gives at the file cursor, negated
   * only after a read that got something. It reads something exactly when
   * the file moves on, and reads nothing only at the end of the file.
   */
  function Refill(src: Source, b: seq<real>, cursor: nat): (w: WindowState)
    requires Readable(src) && cursor <= |src.data| && |b| == BUF_SIZE
    ensures |w.samples| == BUF_SIZE && cursor <= w.cursor <= |src.data|
    ensures w.ok ==> cursor < w.cursor
    ensures !w.ok ==> w.samples == b[BUF_HALF_SIZE..] + b[BUF_HALF_SIZE..]
    ensures !w.ok ==> w.cursor == |src.data| || src.channels > BUF_HALF_SIZE
  {
    RefillOutcome(src.decoder, src.data, cursor, src.bytes, src.channels);
    var r := ReadSoundSpec(src.decoder, src.data, cursor, src.bytes, src.channels, 0, BUF_HALF_SIZE);
    WrittenUpper(b, r.values);
    WindowState(Refilled(b, r.values, r.ret > 0 && src.negate), r.cursor, r.ret > 0)
  }

  /**
   * One more refill after n that all read something: what `read()` gives
   * on the window and cursor they left is Refills of n + 1.
   */
  lemma RefillsStep(src: Source, b0: seq<real>, c0: nat, n: nat, b: seq<real>, c: nat, b': seq<real>, c': nat, ok: bool)
    requires Readable(src) && c0 <= |src.data| && |b0| == BUF_SIZE
    requires WindowState(b, c, true) == Refills(src, b0, c0, n)
    requires var r := ReadSoundSpec(src.decoder, src.data, c, src.bytes, src.channels, 0, BUF_HALF_SIZE);
      && c' == r.cursor && (ok <==> r.ret > 0) && |r.values| <= BUF_HALF_SIZE
      && b' == Refilled(b, r.values, ok && src.negate)
    ensures WindowState(b', c', ok) == Refills(src, b0, c0, n + 1)
  {
  }

  /** n refills in a row, stopping at the first that reads nothing; each that reads something moves the file on. */
  function Refills(src: Source, b: seq<real>, cursor: nat, n: nat): (w: WindowState)
    requires Readable(src) && cursor <= |src.data| && |b| == BUF_SIZE
    ensures |w.samples| == BUF_SIZE && cursor <= w.cursor <= |src.data|
    ensures w.ok ==> cursor + n <= w.cursor
    decreases n
  {
    if n == 0 then WindowState(b, cursor, true)
    else
      var w := Refills(src, b, cursor, n - 1);
      if w.ok then Refill(src, w.samples, w.cursor) else w
  }

  /** Where `read()` leaves the engine, and its result. */
  datatype Refreshed = Refreshed(spot: Spot, ok: bool)

  /**
   * `read()` from spot s: below the refill point nothing happens; otherwise
   * a Refill, with `_pos` moving back by 512 and abspos on by 512. The
   * absolute position stays, the file never goes back, a refill that reads
   * something moves it on, and one that reads nothing is at its end.
   */
  function ReadFrom(src: Source, s: Spot): (r: Refreshed)
    requires Readable(src) && Fits(src, s)
    ensures Fits(src, r.spot) && s.cursor <= r.spot.cursor
    ensures r.spot.base + r.spot.pos == s.base + s.pos
    ensures r.ok && s.pos >= BUF_READ_POS ==> s.cursor < r.spot.cursor
    ensures !r.ok ==> s.pos >= BUF_READ_POS && (r.spot.cursor == |src.data| || src.channels > BUF_HALF_SIZE)
  {
    if s.pos < BUF_READ_POS then Refreshed(s, true)
    else
      var w := Refill(src, s.window, s.cursor);
      Refreshed(Spot(w.samples, s.base + BUF_HALF_SIZE, w.cursor, s.pos - BUF_HALF_SIZE), w.ok)
  }

  // ---------------------------------------------------------------------
  // Bytes from bits

  /** The byte whose bits, least significant first, are `bits`: below 2^n for n bits. */
  function ValueOf(bits: seq<bool>): (v: nat)
    ensures v < Pow2(|bits|)
  {
    if bits == [] then 0 else (if bits[0] then 1 else 0) + 2 * ValueOf(bits[1..])
  }

  /** Setting the next higher bit adds its power of two: `value |= 1 << i` on a value below 2^i. */
  lemma {:induction false} ValueOfSnoc(bits: seq<bool>, b: bool)
    ensures ValueOf(bits) < Pow2(|bits|)
    ensures ValueOf(bits + [b]) == ValueOf(bits) + (if b then Pow2(|bits|) else 0)
  {
    if bits != [] {
      ValueOfSnoc(bits[1..], b);
      assert (bits + [b])[1..] == bits[1..] + [b];
    } else {
      assert ([] + [b])[1..] == [];
    }
  }

  /** Eight bits make a byte. */
  lemma {:induction false} ValueOfRange(bits: seq<bool>)
    ensures ValueOf(bits) < Pow2(|bits|)
    ensures |bits| <= 8 ==> ValueOf(bits) < 256
  {
    if bits != [] {
      ValueOfRange(bits[1..]);
    }
    if |bits| <= 8 {
      Pow2Monotone(|bits|, 8);
      Pow2Values();
    }
  }

  /** Bit i of the value is set exactly when bits[i] is. */
  lemma {:induction false} ValueOfBit(bits: seq<bool>, i: nat)
    requires i < |bits|
    ensures (ValueOf(bits) / Pow2(i)) % 2 == 1 <==> bits[i]
  {
    if i > 0 {
      ValueOfBit(bits[1..], i - 1);
      var v := ValueOf(bits);
      var h := ValueOf(bits[1..]);
      assert v / 2 == h;
      DivTwice(v, Pow2(i - 1));
    }
  }

  lemma DivTwice(v: nat, p: nat)
    requires p >= 1
    ensures v / (2 * p) == (v / 2) / p
  {
    var q := (v / 2) / p;
    var r := (v / 2) % p;
    assert v / 2 == q * p + r && 0 <= r < p;
    assert v == 2 * q * p + 2 * r + v % 2;
    assert 0 <= 2 * r + v % 2 < 2 * p;
    DivUnique(v, 2 * p, q, 2 * r + v % 2);
  }

  lemma DivUnique(v: nat, d: nat, q: nat, r: nat)
    requires d >= 1 && v == q * d + r && r < d
    ensures v / d == q
  {
    var q' := v / d;
    var r' := v % d;
    if q' < q {
      MulMonotone(q' + 1, q, d);
    } else if q' > q {
      MulMonotone(q + 1, q', d);
    }
  }

  // ---------------------------------------------------------------------
  // The searches of one byte

  /** The interval a search measured. */
  function Interval(e: Search): int
  {
    e.to - e.from
  }

  /**
   * The searches of a byte read so far: per bit, one Bit search, followed
   * by an Extra search exactly when the interval was high-frequency.
   */
  predicate ByteShape(log: seq<Search>, t54: int)
  {
    if log == [] then true
    else
      var last := log[|log| - 1];
      if last.kind == Extra then
        && |log| >= 2 && log[|log| - 2].kind == Bit && Interval(log[|log| - 2]) <= t54
        && ByteShape(log[..|log| - 2], t54)
      else
        && last.kind == Bit && Interval(last) > t54
        && ByteShape(log[..|log| - 1], t54)
  }

  /** The bits the Bit searches read: set where the interval was high-frequency. */
  function Marks(log: seq<Search>, t54: int): seq<bool>
  {
    if log == [] then []
    else
      var last := log[|log| - 1];
      Marks(log[..|log| - 1], t54) + (if last.kind == Bit then [Interval(last) <= t54] else [])
  }

  /**
   * The judge of a Bit search: the table on its window at t34 and t54 under
   * that window's thresholds (A for a search whose window does not hold
   * those samples, which no genuine search is).
   */
  function BitJudge(e: Search, t34: int, t54: int, t94: int): SignalJudge
  {
    if SearchFits(e.window, e.from, t34, t94) && t34 <= t54 < t94 then
      Judge(e.window[e.from + t34], e.window[e.from + t54], WindowThresholds(e.window, e.from, t94),
            Interval(e) <= t54)
    else
      A
  }

  /** The judge of a genuine Bit search, read off its window. */
  lemma BitJudgeOf(e: Search, t34: int, t54: int, t94: int, th: Thresholds)
    requires SearchFits(e.window, e.from, t34, t94) && t34 <= t54 < t94
    requires th == WindowThresholds(e.window, e.from, t94)
    ensures BitJudge(e, t34, t54, t94) == Judge(e.window[e.from + t34], e.window[e.from + t54], th, Interval(e) <= t54)
  {
  }

  predicate AllFaithful(log: seq<Search>, t34: int, t94: int)
  {
    forall i {:trigger Faithful(log[i], t34, t94)} :: 0 <= i < |log| ==> Faithful(log[i], t34, t94)
  }

  /** The searches of one bit: a Bit search, and an Extra search from where it stopped exactly when it was a mark. */
  predicate BitUnit(unit: seq<Search>, t54: int)
  {
    || (|unit| == 1 && unit[0].kind == Bit && Interval(unit[0]) > t54)
    || (|unit| == 2 && unit[0].kind == Bit && Interval(unit[0]) <= t54
        && unit[1].kind == Extra && unit[1].from == unit[0].to)
  }

  /** The worst judge of the Bit searches, starting from A. */
  function WorstJudge(log: seq<Search>, t34: int, t54: int, t94: int): SignalJudge
  {
    if log == [] then A
    else
      var last := log[|log| - 1];
      var w := WorstJudge(log[..|log| - 1], t34, t54, t94);
      if last.kind == Bit then MinJudge(w, BitJudge(last, t34, t54, t94)) else w
  }

  /**
   * The byte of `bits` is written after w0 and reported after r0: its value
   * is that of its eight marks, below 256, and its data line at `position`
   * carries the worst judge of its bits.
   */
  predicate ByteWritten(w0: seq<int>, r0: seq<Event>, w: seq<int>, r: seq<Event>, position: int,
                        bits: seq<Search>, t34: int, t54: int, t94: int)
  {
    var value := ValueOf(Marks(bits, t54));
    && |Marks(bits, t54)| == 8 && value < 256
    && w == w0 + [value]
    && r == r0 + [DataReport(position, |w0|, value, WorstJudge(bits, t34, t54, t94))]
  }

  /** A start bit's round after w0 and r0: the byte of bits when ok, otherwise a break line at `position`. */
  predicate ByteOrBreak(w0: seq<int>, r0: seq<Event>, w: seq<int>, r: seq<Event>, position: int, ok: bool,
                        bits: seq<Search>, t34: int, t54: int, t94: int)
  {
    if ok then ByteWritten(w0, r0, w, r, position, bits, t34, t54, t94)
    else w == w0 && r == r0 + [BreakReport(position)]
  }
  /** A start bit's round is the byte of its bits when ok and a break line otherwise. */
  lemma ByteOrBreakOf(w0: seq<int>, r0: seq<Event>, w: seq<int>, r: seq<Event>, position: int, ok: bool,
                      bits: seq<Search>, t34: int, t54: int, t94: int)
    requires ok ==> ByteWritten(w0, r0, w, r, position, bits, t34, t54, t94)
    requires !ok ==> w == w0 && r == r0 + [BreakReport(position)]
    ensures ByteOrBreak(w0, r0, w, r, position, ok, bits, t34, t54, t94)
  {
  }


  // ---------------------------------------------------------------------
  // The report

  function Blanks(ev: seq<Event>): nat
  {
    if ev == [] then 0 else Blanks(ev[..|ev| - 1]) + (if ev[|ev| - 1].BlankReport? then 1 else 0)
  }

  /** A data line came after the last blank line (or there was none yet). */
  predicate DataSinceBlank(ev: seq<Event>)
  {
    if ev == [] then false
    else if ev[|ev| - 1].DataReport? then true
    else if ev[|ev| - 1].BlankReport? then false
    else DataSinceBlank(ev[..|ev| - 1])
  }

  /**
   * The report as the main loop writes it: a data line only after a first
   * blank (leader) line, and a blank line only as the first or after a
   * data line, since only a start bit ends a leader.
   */
  predicate ReportShape(ev: seq<Event>)
  {
    if ev == [] then true
    else
      var prev := ev[..|ev| - 1];
      var last := ev[|ev| - 1];
      && ReportShape(prev)
      && (last.DataReport? ==> Blanks(prev) >= 1)
      && (last.BlankReport? ==> Blanks(prev) == 0 || DataSinceBlank(prev))
  }

  /** Every data line names the byte written at its position. */
  predicate DataMatches(ev: seq<Event>, written: seq<int>)
  {
    forall k :: 0 <= k < |ev| && ev[k].DataReport? ==>
      0 <= ev[k].writePos < |written| && written[ev[k].writePos] == ev[k].value
  }

  /** What ReportShape means line by line: no data before the first leader, no two leaders without data between. */
  lemma {:induction false} ReportShapeMeaning(ev: seq<Event>, k: nat)
    requires ReportShape(ev) && k < |ev|
    ensures ev[k].DataReport? ==> Blanks(ev[..k]) >= 1
    ensures ev[k].BlankReport? ==> Blanks(ev[..k]) == 0 || DataSinceBlank(ev[..k])
    decreases |ev|
  {
    if k < |ev| - 1 {
      assert ev[..k] == ev[..|ev| - 1][..k];
      ReportShapeMeaning(ev[..|ev| - 1], k);
    }
  }

  // ---------------------------------------------------------------------
  // The engine

  /**
   * `PTCLogic` during one `analyze` call: the stream, the analyser, the
   * window and the negate flag, which the call sets once, are constants;
   * the window's cursor and absolute offset, the write position, the bytes
   * written and the report change as it runs.
   */
  class PtcLogic {
    const input: WavInputStream
    const fsk: FskBitAnalyzer
    const samplingRate: int
    const negate: bool
    const buf: array<real>
    /** The stream as the refills read it. */
    ghost const src: Source
    var pos: int
    var abspos: int
    var destpos: int
    var written: seq<int>
    var report: seq<Event>
    ghost var searches: seq<Search>

    /**
     * The stream can decode, src is that stream, the window has its size,
     * the analyser's window fits the refill scheme and moves on by at least
     * one sample, and every byte written is counted.
     */
    ghost predicate Valid()
      reads this`destpos, this`written, input
    {
      && input.Decodable()
      && src == Source(input.decoder.value, input.data, input.bytes, input.channels, negate)
      && buf.Length == BUF_SIZE
      && fsk.Valid() && 1 <= fsk.t34 && fsk.t94 <= MAX_T94
      && destpos == |written|
    }

    /**
     * The window and cursor n rounds of `read()` leave from window b and
     * cursor `cursor` of this engine's file: Refills on `src`, named once
     * here so that the skip's proofs see it as one term.
     */
    ghost function Skipped(b: seq<real>, cursor: nat, n: nat): WindowState
      requires Readable(src) && cursor <= |src.data| && |b| == BUF_SIZE
    {
      Refills(src, b, cursor, n)
    }

    /**
     * The engine stands where a refill from spot s that read nothing leaves
     * it: `ReadFrom` on `src`, named once here so that callers see it as one
     * term.
     */
    ghost predicate ReadNothingFrom(s: Spot)
      reads this`pos, this`abspos, buf, input`cursor
      requires Readable(src) && Fits(src, s)
    {
      Refreshed(Here(), false) == ReadFrom(src, s)
    }

    /**
     * No refill can read anything more: the file is at its end, or a frame
     * is wider than the half-window a refill asks for. A refill that reads
     * nothing leaves the stream so.
     */
    ghost predicate Exhausted()
      reads input
    {
      input.cursor == |input.data| || input.channels > BUF_HALF_SIZE
    }

    /** Where the engine stands. */
    ghost function Here(): Spot
      reads this`pos, this`abspos, buf, input`cursor
    {
      Spot(buf[..], abspos, input.cursor, pos)
    }

    /** Decreases with every search and with every refill that reads something. */
    ghost function Measure(): nat
      reads this, input
      requires input.cursor <= |input.data| && 0 <= pos <= BUF_SIZE
    {
      (|input.data| - input.cursor) * 2048 + (BUF_SIZE - pos)
    }

    /** The state `analyze` sets up: a silent window with its cursor at the end, nothing written or reported. */
    constructor (input: WavInputStream, fsk: FskBitAnalyzer, negate: bool)
      requires input.Decodable() && fsk.Valid() && 1 <= fsk.t34 && fsk.t94 <= MAX_T94
      ensures this.input == input && this.fsk == fsk && this.negate == negate && fresh(buf)
      ensures samplingRate == input.samplingRate
      ensures Valid() && pos == BUF_SIZE && abspos == -BUF_SIZE && buf[..] == Silence()
      ensures written == [] && report == [] && searches == []
    {
      this.input := input;
      this.fsk := fsk;
      this.negate := negate;
      src := Source(input.decoder.value, input.data, input.bytes, input.channels, negate);
      samplingRate := input.samplingRate;
      buf := new real[BUF_SIZE](_ => 0.0);
      pos := BUF_SIZE;
      abspos := -BUF_SIZE;
      destpos := 0;
      written, report, searches := [], [], [];
    }

    /**
     * `read()`: below the refill point nothing happens. Otherwise the upper
     * half moves down, the cursor and the absolute offset move by 512, and
     * `readSound(0, buf, 512, 512)` refills the upper half; the result is
     * false exactly when it read nothing, and with negate set the whole
     * upper half is negated afterwards. That is ReadFrom on the spot.
     */
    method Read() returns (ok: bool)
      requires Valid() && 0 <= pos <= BUF_SIZE
      modifies this`pos, this`abspos, buf, input`cursor
      ensures Valid() && 0 <= pos < BUF_READ_POS && abspos + pos == old(abspos + pos)
      ensures old(pos) < BUF_READ_POS ==>
                ok && pos == old(pos) && buf[..] == old(buf[..]) && input.cursor == old(input.cursor)
      ensures old(pos) >= BUF_READ_POS ==>
                var r := ReadSoundSpec(input.decoder.value, input.data, old(input.cursor), input.bytes,
                                       input.channels, 0, BUF_HALF_SIZE);
                && pos == old(pos) - BUF_HALF_SIZE && input.cursor == r.cursor
                && (ok <==> r.ret > 0) && |r.values| <= BUF_HALF_SIZE
                && buf[..] == Refilled(old(buf[..]), r.values, ok && negate)
      ensures Refreshed(Here(), ok) == ReadFrom(src, old(Here()))
      ensures ok ==> Measure() <= old(Measure())
      ensures !ok ==> input.cursor == |input.data| || input.channels > BUF_HALF_SIZE
    {
      if pos < BUF_READ_POS {
        return true;
      }
      ghost var b := buf[..];
      ghost var c := input.cursor;
      forall i | 0 <= i < BUF_HALF_SIZE {
        buf[i] := buf[i + BUF_HALF_SIZE];
      }
      assert buf[..] == b[BUF_HALF_SIZE..] + b[BUF_HALF_SIZE..] by {
        assert forall k :: 0 <= k < BUF_SIZE ==> buf[k] == (b[BUF_HALF_SIZE..] + b[BUF_HALF_SIZE..])[k];
      }
      pos := pos - BUF_HALF_SIZE;
      abspos := abspos + BUF_HALF_SIZE;
      HalfFits(input.channels);
      RefillOutcome(input.decoder.value, input.data, c, input.bytes, input.channels);
      ghost var r := ReadSoundSpec(input.decoder.value, input.data, c, input.bytes, input.channels, 0, BUF_HALF_SIZE);
      var outcome := input.ReadSound(0, buf, BUF_HALF_SIZE, BUF_HALF_SIZE);
      WrittenUpper(b, r.values);
      var len := outcome.n;
      if len <= 0 {
        return false;
      }
      if negate {
        NegateUpper();
      }
      return true;
    }

    /** The negation loop of `read()`: every slot of the upper half, stale ones too. */
    method NegateUpper()
      requires buf.Length == BUF_SIZE
      modifies buf
      ensures buf[..] == old(buf[..])[..BUF_HALF_SIZE] + Negated(old(buf[..])[BUF_HALF_SIZE..])
    {
      ghost var w := buf[..];
      for i := BUF_HALF_SIZE to buf.Length
        invariant forall k :: 0 <= k < BUF_SIZE ==> buf[k] == (if BUF_HALF_SIZE <= k < i then -w[k] else w[k])
      {
        buf[i] := -buf[i];
      }
      assert forall k :: 0 <= k < BUF_SIZE ==>
        buf[k] == (w[..BUF_HALF_SIZE] + Negated(w[BUF_HALF_SIZE..]))[k];
    }

    /** `_pos = _fsk.getNextZeroPosition(_buf, _pos)`, logged as a search of the given kind. */
    method NextZero(kind: SearchKind)
      requires Valid() && 0 <= pos && pos + fsk.t94 < BUF_SIZE
      modifies this`pos, this`searches, fsk
      ensures Valid()
      ensures pos == ZeroPosition(buf[..], old(pos), fsk.t34, fsk.t94)
      ensures old(pos) + fsk.t34 <= pos <= old(pos) + fsk.t94
      ensures searches == old(searches) + [Search(kind, buf[..], abspos, input.cursor, old(pos), pos)]
      ensures fsk.Current() == WindowThresholds(buf[..], old(pos), fsk.t94)
      ensures Measure() < old(Measure())
    {
      var from := pos;
      pos := fsk.GetNextZeroPosition(buf, from);
      searches := searches + [Search(kind, buf[..], abspos, input.cursor, from, pos)];
    }

    /**
     * One round of the loop in `detectStartBit()`: a refill and a probe
     * search on the window it made, and whether its interval was
     * high-frequency. False when the refill read nothing.
     */
    method ProbeOnce() returns (ok: bool, high: bool, ghost e: Search)
      requires Valid() && 0 <= pos < BUF_SIZE
      modifies this`pos, this`abspos, this`searches, buf, input`cursor, fsk
      ensures Valid() && 0 <= pos < BUF_SIZE
      ensures ok ==>
                && searches == old(searches) + [e] && e.kind == Probe && Faithful(e, fsk.t34, fsk.t94)
                && Follows(src, old(Here()), e) && After(e) == Here()
                && fsk.Current() == WindowThresholds(e.window, e.from, fsk.t94)
                && high == (Interval(e) <= fsk.t54) && Measure() < old(Measure())
      ensures !ok ==>
                && searches == old(searches) && Refreshed(Here(), false) == ReadFrom(src, old(Here()))
                && fsk.Current() == old(fsk.Current())
    {
      e, high := Search(Probe, [], 0, 0, 0, 0), false;
      ok := Read();
      if ok {
        var oldpos := pos;
        NextZero(Probe);
        e := Search(Probe, buf[..], abspos, input.cursor, oldpos, pos);
        high := fsk.IsHighFrequency(oldpos, pos);
      }
    }

    /**
     * `detectStartBit()`: up to 28 rounds of a refill and a probe search.
     * START_BIT at the first low-frequency interval, LEADER when all 28 were
     * high-frequency, STREAM_END when a refill read nothing.
     */
    method DetectStartBit() returns (r: StartBitType, ghost probes: seq<Search>)
      requires Valid() && 0 <= pos < BUF_SIZE
      modifies this`pos, this`abspos, this`searches, buf, input`cursor, fsk
      ensures Valid() && 0 <= pos < BUF_SIZE
      ensures searches == old(searches) + probes && |probes| <= MIN_LEADER_LEN
      ensures AllFaithful(probes, fsk.t34, fsk.t94) && Windowed(src, old(Here()), probes)
      ensures r == StartBit ==>
                && |probes| >= 1 && HighProbes(probes[..|probes| - 1], fsk.t34, fsk.t54, fsk.t94)
                && LowProbe(probes[|probes| - 1], fsk.t34, fsk.t54, fsk.t94)
      ensures r == Leader ==> |probes| == MIN_LEADER_LEN && HighProbes(probes, fsk.t34, fsk.t54, fsk.t94)
      ensures r == StreamEnd ==>
                && |probes| < MIN_LEADER_LEN && HighProbes(probes, fsk.t34, fsk.t54, fsk.t94)
                && ReadNothingFrom(EndSpot(old(Here()), probes)) && Exhausted()
      ensures r != StreamEnd ==> Measure() < old(Measure()) && Here() == EndSpot(old(Here()), probes)
    {
      ghost var m0 := Measure();
      ghost var s0 := Here();
      r, probes := Leader, [];
      for i := 0 to MIN_LEADER_LEN
        invariant Valid() && 0 <= pos < BUF_SIZE
        invariant searches == old(searches) + probes && |probes| == i
        invariant AllFaithful(probes, fsk.t34, fsk.t94) && HighProbes(probes, fsk.t34, fsk.t54, fsk.t94)
        invariant Windowed(src, s0, probes) && Here() == EndSpot(s0, probes)
        invariant if i == 0 then Measure() == m0 else Measure() < m0
      {
        var ok, high;
        ghost var e;
        ok, high, e := ProbeOnce();
        if !ok {
          r := StreamEnd;
          break;
        }
        ProbeStep(old(searches), probes, e, fsk.t34, fsk.t54, fsk.t94);
        WindowedSnoc(src, s0, probes, e);
        probes := probes + [e];
        if !high {
          r := StartBit;
          break;
        }
      }
    }

    /**
     * The bit search of `readAndWriteByte()`: a search, whether its interval
     * was high-frequency, and the bit's judge under the thresholds it left.
     */
    method BitSearch() returns (mark: bool, judge: SignalJudge, ghost e: Search)
      requires Valid() && 0 <= pos && pos + fsk.t94 < BUF_SIZE
      modifies this`pos, this`searches, fsk
      ensures Valid() && old(pos) + fsk.t34 <= pos <= old(pos) + fsk.t94
      ensures e == Search(Bit, buf[..], abspos, input.cursor, old(pos), pos) && Faithful(e, fsk.t34, fsk.t94)
      ensures searches == old(searches) + [e]
      ensures mark == (Interval(e) <= fsk.t54) && judge == BitJudge(e, fsk.t34, fsk.t54, fsk.t94)
      ensures Measure() < old(Measure())
    {
      var oldpos := pos;
      pos := fsk.GetNextZeroPosition(buf, oldpos);
      e := Search(Bit, buf[..], abspos, input.cursor, oldpos, pos);
      searches := searches + [e];
      mark := fsk.IsHighFrequency(oldpos, pos);
      judge := fsk.JudgeBit(buf, oldpos, pos, mark);
      BitJudgeOf(e, fsk.t34, fsk.t54, fsk.t94, fsk.Current());
    }

    /**
     * The searches of one bit from a cursor below 768: the bit search and,
     * for a mark, the search over its second cycle.
     */
    method SearchBit() returns (mark: bool, judge: SignalJudge, ghost e: Search, ghost unit: seq<Search>)
      requires Valid() && 0 <= pos < BUF_READ_POS
      modifies this`pos, this`searches, fsk
      ensures Valid() && 0 <= pos < BUF_SIZE
      ensures searches == old(searches) + unit && BitUnit(unit, fsk.t54)
      ensures UnitFaithful(unit, fsk.t34, fsk.t94)
      ensures unit[0] == e && mark == (Interval(e) <= fsk.t54)
      ensures e == Search(Bit, buf[..], abspos, input.cursor, old(pos), e.to)
      ensures |unit| == 2 ==> unit[1] == Search(Extra, buf[..], abspos, input.cursor, e.to, pos)
      ensures |unit| == 1 ==> pos == e.to
      ensures judge == BitJudge(e, fsk.t34, fsk.t54, fsk.t94)
      ensures Measure() < old(Measure())
    {
      mark, judge, e := BitSearch();
      if mark {
        NextZero(Extra);
        ghost var x := Search(Extra, buf[..], abspos, input.cursor, e.to, pos);
        assert Faithful(x, fsk.t34, fsk.t94);
        unit := [e, x];
      } else {
        unit := [e];
      }
    }

    /**
     * One round of the loop in `readAndWriteByte()`: a refill and the
     * searches of one bit on the window it made. False when the refill
     * read nothing.
     */
    method ReadBit() returns (ok: bool, mark: bool, judge: SignalJudge, ghost e: Search, ghost unit: seq<Search>)
      requires Valid() && 0 <= pos < BUF_SIZE
      modifies this`pos, this`abspos, this`searches, buf, input`cursor, fsk
      ensures Valid() && 0 <= pos < BUF_SIZE
      ensures ok ==>
                && searches == old(searches) + unit && BitUnit(unit, fsk.t54)
                && UnitFaithful(unit, fsk.t34, fsk.t94)
                && unit[0] == e && mark == (Interval(e) <= fsk.t54)
                && judge == BitJudge(e, fsk.t34, fsk.t54, fsk.t94)
                && Windowed(src, old(Here()), unit) && EndSpot(old(Here()), unit) == Here()
                && Measure() < old(Measure())
      ensures !ok ==> searches == old(searches) && Refreshed(Here(), false) == ReadFrom(src, old(Here()))
    {
      ghost var s0 := Here();
      ok := Read();
      if ok {
        mark, judge, e, unit := SearchBit();
        UnitWindowed(src, s0, unit, fsk.t54);
      } else {
        mark, judge, e, unit := false, A, Search(Bit, [], 0, 0, 0, 0), [];
      }
    }

    /**
     * The loop of `readAndWriteByte()`: eight bits, least significant first,
     * a mark setting its bit, and the worst of the bit judges. False when a
     * refill read nothing before the eighth bit.
     */
    method ReadBits() returns (ok: bool, value: int, judge: SignalJudge, ghost bits: seq<Search>)
      requires Valid() && 0 <= pos < BUF_SIZE
      modifies this`pos, this`abspos, this`searches, buf, input`cursor, fsk
      ensures Valid() && 0 <= pos < BUF_SIZE
      ensures searches == old(searches) + bits && ByteShape(bits, fsk.t54)
      ensures AllFaithful(bits, fsk.t34, fsk.t94) && Windowed(src, old(Here()), bits)
      ensures ok ==>
                && |Marks(bits, fsk.t54)| == 8 && value == ValueOf(Marks(bits, fsk.t54)) && value < 256
                && judge == WorstJudge(bits, fsk.t34, fsk.t54, fsk.t94)
                && Here() == EndSpot(old(Here()), bits) && Measure() < old(Measure())
      ensures !ok ==>
                && |Marks(bits, fsk.t54)| < 8
                && ReadNothingFrom(EndSpot(old(Here()), bits))
    {
      ghost var m0 := Measure();
      ghost var s0 := Here();
      ok, judge, value, bits := true, A, 0, [];
      for i := 0 to 8
        invariant Valid() && 0 <= pos < BUF_SIZE
        invariant ByteSoFar(old(searches), s0, i, value, judge, bits)
        invariant if i == 0 then Measure() == m0 else Measure() < m0
      {
        ok, value, judge, bits := AppendBit(old(searches), s0, i, value, judge, bits);
        if !ok {
          break;
        }
      }
      if ok {
        ValueOfRange(Marks(bits, fsk.t54));
      }
    }

    /**
     * The searches of the first i bits of a byte read from spot s0 on top
     * of log0: their shape, value, worst judge, and the windows they ran
     * on, up to where the engine stands.
     */
    ghost predicate ByteSoFar(log0: seq<Search>, s0: Spot, i: nat, value: int, judge: SignalJudge, bits: seq<Search>)
      reads this, buf, input`cursor
    {
      && searches == log0 + bits
      && BitsSoFar(src, bits, i, value, judge, s0, fsk.t34, fsk.t54, fsk.t94)
      && Here() == EndSpot(s0, bits)
    }

    /** One round of the loop of `readAndWriteByte()`: bit i adds its searches, its value and its judge. */
    method AppendBit(ghost log0: seq<Search>, ghost s0: Spot, i: nat, value: int, judge: SignalJudge, ghost bits: seq<Search>)
      returns (ok: bool, value': int, judge': SignalJudge, ghost bits': seq<Search>)
      requires Valid() && 0 <= pos < BUF_SIZE && ByteSoFar(log0, s0, i, value, judge, bits)
      modifies this`pos, this`abspos, this`searches, buf, input`cursor, fsk
      ensures Valid() && 0 <= pos < BUF_SIZE
      ensures ok ==> ByteSoFar(log0, s0, i + 1, value', judge', bits') && Measure() < old(Measure())
      ensures !ok ==>
                && value' == value && judge' == judge && bits' == bits && searches == old(searches)
                && Refreshed(Here(), false) == ReadFrom(src, old(Here()))
    {
      var mark, j;
      ghost var e, unit;
      ok, mark, j, e, unit := ReadBit();
      value', judge', bits' := value, judge, bits;
      if ok {
        BitAppended(src, log0, bits, unit, i, value, judge, mark, j, s0, fsk.t34, fsk.t54, fsk.t94);
        judge' := MinJudge(judge, j);
        value' := value + (if mark then Pow2(i) else 0);
        bits' := bits + unit;
      }
    }

    /**
     * `readAndWriteByte()`: the eight bits, then the byte written and
     * reported with the worst of its bit judges; nothing is written when
     * the bits ran out.
     */
    method ReadAndWriteByte() returns (ok: bool, judge: SignalJudge, ghost bits: seq<Search>)
      requires Valid() && 0 <= pos < BUF_SIZE
      modifies this`pos, this`abspos, this`searches, this`written, this`report, this`destpos
      modifies buf, input`cursor, fsk
      ensures Valid() && 0 <= pos < BUF_SIZE
      ensures searches == old(searches) + bits && ByteShape(bits, fsk.t54)
      ensures AllFaithful(bits, fsk.t34, fsk.t94) && Windowed(src, old(Here()), bits)
      ensures ok ==>
                && ByteWritten(old(written), old(report), written, report, abspos + pos, bits, fsk.t34, fsk.t54, fsk.t94)
                && judge == WorstJudge(bits, fsk.t34, fsk.t54, fsk.t94)
                && Here() == EndSpot(old(Here()), bits) && Measure() < old(Measure())
      ensures !ok ==>
                && |Marks(bits, fsk.t54)| < 8 && written == old(written) && report == old(report)
                && ReadNothingFrom(EndSpot(old(Here()), bits)) && Exhausted()
    {
      var value;
      ok, value, judge, bits := ReadBits();
      if !ok {
        return;
      }
      WriteByte(value, judge);
    }

    /** `_out.write(value)` and the data line of the byte, at the next write position. */
    method WriteByte(value: int, judge: SignalJudge)
      requires destpos == |written|
      modifies this`written, this`report, this`destpos
      ensures written == old(written) + [value] && destpos == |written|
      ensures report == old(report) + [DataReport(abspos + pos, old(destpos), value, judge)]
    {
      written := written + [value];
      report := report + [DataReport(abspos + pos, destpos, value, judge)];
      destpos := destpos + 1;
    }

    /**
     * The skip loop of `analyze`: n whole refills, the window and the file
     * as Refills says, until the absolute offset reaches topos; the first
     * refill that reads nothing stops it.
     */
    method Skip(topos: int) returns (ok: bool, ghost n: nat)
      requires Valid() && pos == BUF_SIZE && abspos == -BUF_SIZE && topos >= -BUF_SIZE && searches == []
      modifies this`pos, this`abspos, buf, input`cursor
      ensures Valid()
      ensures abspos == 512 * n - 1024
      ensures WindowState(buf[..], input.cursor, ok) == Skipped(old(buf[..]), old(input.cursor), n)
      ensures ok ==> topos <= abspos < topos + BUF_HALF_SIZE && pos == abspos - topos
      ensures !ok ==> abspos < topos + BUF_HALF_SIZE && pos == BUF_HALF_SIZE
      ensures !ok ==> input.cursor == |input.data| || input.channels > BUF_HALF_SIZE
    {
      n, ok := 0, true;
      while abspos < topos
        invariant Valid() && abspos < topos + BUF_HALF_SIZE && pos == BUF_SIZE
        invariant abspos == 512 * n - 1024
        invariant WindowState(buf[..], input.cursor, true) == Skipped(old(buf[..]), old(input.cursor), n)
        decreases topos - abspos
      {
        ok := SkipRound(old(buf[..]), old(input.cursor), n);
        n := n + 1;
        if !ok {
          break;
        }
      }
      if ok {
        pos := abspos - topos;
      }
    }

    /** One round of the skip loop: a refill of a window whose cursor is at its end, and `_pos += 512` after it. */
    method SkipRound(ghost b0: seq<real>, ghost c0: nat, ghost n: nat) returns (ok: bool)
      requires Valid() && pos == BUF_SIZE && c0 <= |input.data| && |b0| == BUF_SIZE
      requires WindowState(buf[..], input.cursor, true) == Refills(src, b0, c0, n)
      modifies this`pos, this`abspos, buf, input`cursor
      ensures Valid() && abspos == old(abspos) + BUF_HALF_SIZE
      ensures WindowState(buf[..], input.cursor, ok) == Refills(src, b0, c0, n + 1)
      ensures ok ==> pos == BUF_SIZE
      ensures !ok ==> pos == BUF_HALF_SIZE && (input.cursor == |input.data| || input.channels > BUF_HALF_SIZE)
    {
      ghost var b, c := buf[..], input.cursor;
      ok := Read();
      RefillsStep(src, b0, c0, n, b, c, buf[..], input.cursor, ok);
      if ok {
        pos := pos + BUF_HALF_SIZE;
      }
    }

    /**
     * The report in the main loop: `block` counts down the leaders still to
     * come, the header opens it, its data lines match the bytes written, and
     * `inLeader` holds exactly when a leader line came after the last data.
     */
    ghost predicate InLoop(block: int, inLeader: bool)
      reads this
    {
      LoopReport(report, written, block, inLeader) && destpos == |written|
    }

    /** The report when `analyze` ends with r. */
    ghost predicate Ended(r: Outcome)
      reads this
    {
      EndReport(report, written, r) && destpos == |written|
    }

    /**
     * The skip, the header line and the two priming searches; a skip that
     * runs out of input ends `analyze` with a break line.
     */
    method Start(topos: int) returns (ok: bool, ghost n: nat)
      requires Valid() && pos == BUF_SIZE && abspos == -BUF_SIZE && topos >= -BUF_SIZE
      requires written == [] && report == [] && destpos == 0 && searches == []
      modifies this`pos, this`abspos, this`searches, this`report, buf, input`cursor, fsk
      ensures Valid() && 0 <= pos < BUF_SIZE
      ensures abspos == 512 * n - 1024
      ensures WindowState(buf[..], input.cursor, ok) == Skipped(old(buf[..]), old(input.cursor), n)
      ensures ok ==>
                var s := Spot(buf[..], abspos, input.cursor, abspos - topos);
                && InLoop(LEADER_COUNT, false) && topos <= abspos < topos + BUF_HALF_SIZE
                && report == [HeaderReport(s.base + s.pos, samplingRate)]
                && |searches| == 2 && searches[0].kind == Prime && searches[1].kind == Prime
                && AllFaithful(searches, fsk.t34, fsk.t94)
                && Windowed(src, s, searches) && Here() == EndSpot(s, searches)
      ensures !ok ==>
                && Ended(IllegalEnd) && report == [BreakReport(abspos + BUF_HALF_SIZE)] && searches == []
                && abspos < topos + BUF_HALF_SIZE
                && (input.cursor == |input.data| || input.channels > BUF_HALF_SIZE)
    {
      ok, n := Skip(topos);
      if ok {
        report := [HeaderReport(abspos + pos, samplingRate)];
        PrimeSearch();
      } else {
        report := [BreakReport(abspos + pos)];
      }
    }

    /** The two priming searches of `analyze`, from the cursor the skip left. */
    method PrimeSearch()
      requires Valid() && 0 <= pos < BUF_HALF_SIZE && searches == []
      modifies this`pos, this`searches, fsk
      ensures Valid() && 0 <= pos < BUF_SIZE && Measure() < old(Measure())
      ensures |searches| == 2 && searches[0].kind == Prime && searches[1].kind == Prime
      ensures AllFaithful(searches, fsk.t34, fsk.t94)
      ensures Windowed(src, old(Here()), searches) && Here() == EndSpot(old(Here()), searches)
    {
      ghost var s0 := Here();
      NextZero(Prime);
      WindowedSnoc(src, s0, [], searches[0]);
      NextZero(Prime);
      WindowedSnoc(src, s0, [searches[0]], searches[1]);
    }

    /**
     * The START_BIT case of the main loop, after the probes of its round
     * from spot s0: an illegal end before the first leader, otherwise a
     * byte, with a break line when its bits run out. The bits run on from
     * where the probes stopped.
     */
    method OnStartBit(block: int, inLeader: bool, ghost s0: Spot, ghost probes: seq<Search>)
      returns (ok: bool, ghost bits: seq<Search>)
      requires Valid() && 0 <= pos < BUF_SIZE && InLoop(block, inLeader)
      requires AllFaithful(probes, fsk.t34, fsk.t94) && Windowed(src, s0, probes) && Here() == EndSpot(s0, probes)
      modifies this`pos, this`abspos, this`searches, this`written, this`report, this`destpos
      modifies buf, input`cursor, fsk
      ensures Valid() && 0 <= pos < BUF_SIZE
      ensures ok ==> InLoop(block, false) && Measure() < old(Measure())
      ensures !ok ==> Ended(IllegalEnd)
      ensures searches == old(searches) + bits && ByteShape(bits, fsk.t54)
      ensures AllFaithful(probes + bits, fsk.t34, fsk.t94) && Windowed(src, s0, probes + bits)
      ensures ok <==> block < LEADER_COUNT && |Marks(bits, fsk.t54)| == 8
      ensures block == LEADER_COUNT ==> bits == [] && Here() == old(Here())
      ensures ok ==>
                && Here() == EndSpot(s0, probes + bits)
                && ByteWritten(old(written), old(report), written, report, abspos + pos, bits, fsk.t34, fsk.t54, fsk.t94)
      ensures !ok ==> written == old(written) && report == old(report) + [BreakReport(abspos + pos)]
      ensures !ok && block < LEADER_COUNT ==> Exhausted()
    {
      if block == LEADER_COUNT {
        ok, bits := false, [];
        assert probes + [] == probes;
        BreakOff(block, inLeader);
        return;
      }
      ok, bits := OnByte(block, inLeader);
      RoundJoined(src, s0, probes, bits, fsk.t34, fsk.t94);
    }

    /** A start bit after the first leader: the byte is read and written, or a break line ends `analyze` illegally. */
    method OnByte(block: int, inLeader: bool) returns (ok: bool, ghost bits: seq<Search>)
      requires Valid() && 0 <= pos < BUF_SIZE && InLoop(block, inLeader) && block < LEADER_COUNT
      modifies this`pos, this`abspos, this`searches, this`written, this`report, this`destpos
      modifies buf, input`cursor, fsk
      ensures Valid() && 0 <= pos < BUF_SIZE
      ensures ok ==> InLoop(block, false) && Measure() < old(Measure())
      ensures !ok ==> Ended(IllegalEnd) && Exhausted()
      ensures searches == old(searches) + bits && ByteShape(bits, fsk.t54)
      ensures AllFaithful(bits, fsk.t34, fsk.t94) && Windowed(src, old(Here()), bits)
      ensures ok <==> |Marks(bits, fsk.t54)| == 8
      ensures ok ==> Here() == EndSpot(old(Here()), bits)
      ensures ByteOrBreak(old(written), old(report), written, report, abspos + pos, ok, bits, fsk.t34, fsk.t54, fsk.t94)
    {
      ghost var r0, w0 := report, written;
      var judge;
      ok, judge, bits := ReadAndWriteByte();
      CloseByte(ok, block, inLeader, w0, r0, bits);
    }

    /**
     * After `readAndWriteByte()` from report r0 and bytes w0: the data line
     * of a byte read keeps the main loop going, and a byte that could not be
     * read gets a break line that ends `analyze` illegally.
     */
    method CloseByte(ok: bool, block: int, inLeader: bool, ghost w0: seq<int>, ghost r0: seq<Event>, ghost bits: seq<Search>)
      requires LoopReport(r0, w0, block, inLeader) && block < LEADER_COUNT && destpos == |written|
      requires ok ==> ByteWritten(w0, r0, written, report, abspos + pos, bits, fsk.t34, fsk.t54, fsk.t94)
      requires !ok ==> written == w0 && report == r0
      modifies this`report
      ensures ok ==> report == old(report) && InLoop(block, false)
      ensures !ok ==> Ended(IllegalEnd) && report == r0 + [BreakReport(abspos + pos)]
      ensures ByteOrBreak(w0, r0, written, report, abspos + pos, ok, bits, fsk.t34, fsk.t54, fsk.t94)
      ensures old(Valid()) ==> Valid()
      ensures old(Exhausted()) ==> Exhausted()
      ensures Here() == old(Here())
    {
      if ok {
        ValueOfRange(Marks(bits, fsk.t54));
        DataKeepsLoop(r0, w0, report, written, block, inLeader, abspos + pos, bits, fsk.t34, fsk.t54, fsk.t94);
      } else {
        BreakOff(block, inLeader);
      }
      ByteOrBreakOf(w0, r0, written, report, abspos + pos, ok, bits, fsk.t34, fsk.t54, fsk.t94);
    }

    /** The LEADER case of the main loop: a new leader counts down `block`, and the third ends the conversion. */
    method OnLeader(block: int, inLeader: bool) returns (finished: bool, block': int)
      requires InLoop(block, inLeader)
      modifies this`report
      ensures finished ==> Ended(Finished) && !inLeader && block == 1
      ensures !finished ==> InLoop(block', true)
      ensures block' == (if inLeader then block else block - 1)
      ensures finished <==> !inLeader && block == 1
      ensures report == old(report) + (if inLeader then [] else [BlankReport(abspos + pos)])
    {
      if inLeader {
        return false, block;
      }
      block' := block - 1;
      BlankCounts(report, written, block, abspos + pos);
      report := report + [BlankReport(abspos + pos)];
      finished := block' <= 0;
    }

    /**
     * A break line, and `analyze` ends illegally: the STREAM_END case of
     * the main loop, and a start bit whose byte cannot be read.
     */
    method BreakOff(block: int, inLeader: bool)
      requires InLoop(block, inLeader)
      modifies this`report
      ensures Ended(IllegalEnd)
      ensures report == old(report) + [BreakReport(abspos + pos)]
      ensures old(Valid()) ==> Valid()
      ensures old(Exhausted()) ==> Exhausted()
      ensures Here() == old(Here())
    {
      ghost var r0 := report;
      AppendBreak();
      BreakEnds(r0, written, report, block, inLeader, abspos + pos);
    }

    /**
     * The switch on the kind the probes from spot s0 detected: a start bit
     * clears inLeader and writes a byte or ends illegally; a leader sets
     * inLeader and, when it is a new one, writes a leader line and counts
     * block down, the third ending normally; the end of the stream ends
     * illegally.
     */
    method OnKind(block: int, inLeader: bool, kind: StartBitType, ghost s0: Spot, ghost probes: seq<Search>)
      returns (done: bool, r: Outcome, block': int, inLeader': bool, ghost bits: seq<Search>)
      requires Valid() && 0 <= pos < BUF_SIZE && InLoop(block, inLeader)
      requires AllFaithful(probes, fsk.t34, fsk.t94) && Windowed(src, s0, probes)
      requires kind != StreamEnd ==> Here() == EndSpot(s0, probes)
      requires kind == StreamEnd ==> Exhausted()
      modifies this`pos, this`abspos, this`searches, this`written, this`report, this`destpos
      modifies buf, input`cursor, fsk
      ensures Valid() && 0 <= pos < BUF_SIZE
      ensures done ==> Ended(r)
      ensures !done ==> InLoop(block', inLeader') && Measure() <= old(Measure())
      ensures searches == old(searches) + bits
      ensures AllFaithful(probes + bits, fsk.t34, fsk.t94) && Windowed(src, s0, probes + bits)
      ensures !done ==> Here() == EndSpot(s0, probes + bits)
      ensures kind == StartBit ==>
                && block' == block && !inLeader' && (done ==> r == IllegalEnd) && ByteShape(bits, fsk.t54)
                && (done && block < LEADER_COUNT ==> Exhausted())
                && ByteOrBreak(old(written), old(report), written, report, abspos + pos, !done,
                               bits, fsk.t34, fsk.t54, fsk.t94)
      ensures kind == Leader ==>
                && bits == [] && block' == (if inLeader then block else block - 1) && inLeader'
                && (done <==> !inLeader && block == 1) && (done ==> r == Finished)
                && written == old(written)
                && report == old(report) + (if inLeader then [] else [BlankReport(abspos + pos)])
      ensures kind == StreamEnd ==>
                && bits == [] && done && r == IllegalEnd && written == old(written) && Exhausted()
                && report == old(report) + [BreakReport(abspos + pos)]
    {
      match kind {
        case StartBit =>
          var ok;
          ok, bits := OnStartBit(block, inLeader, s0, probes);
          return !ok, IllegalEnd, block, false, bits;
        case Leader =>
          var finished;
          finished, block' := OnLeader(block, inLeader);
          assert probes + [] == probes;
          return finished, Finished, block', true, [];
        case StreamEnd =>
          BreakOff(block, inLeader);
          assert probes + [] == probes;
          return true, IllegalEnd, block, inLeader, [];
      }
    }

    /**
     * One round of the main loop of `analyze`: detect, then act on the kind
     * found. The round's probes and bits ran one after another from where
     * the engine stood.
     */
    method Step(block: int, inLeader: bool) returns (done: bool, r: Outcome, block': int, inLeader': bool,
                                                     kind: StartBitType, ghost probes: seq<Search>,
                                                     ghost bits: seq<Search>)
      requires Valid() && 0 <= pos < BUF_SIZE && InLoop(block, inLeader)
      modifies this`pos, this`abspos, this`searches, this`written, this`report, this`destpos
      modifies buf, input`cursor, fsk
      ensures Valid() && 0 <= pos < BUF_SIZE
      ensures done ==> Ended(r)
      ensures !done ==> InLoop(block', inLeader') && Measure() < old(Measure())
      ensures searches == old(searches) + probes + bits
      ensures AllFaithful(probes + bits, fsk.t34, fsk.t94) && Windowed(src, old(Here()), probes + bits)
      ensures !done ==> Here() == EndSpot(old(Here()), probes + bits)
      ensures kind == StartBit ==>
                && block' == block && !inLeader' && (done ==> r == IllegalEnd)
                && |probes| >= 1 && HighProbes(probes[..|probes| - 1], fsk.t34, fsk.t54, fsk.t94)
                && LowProbe(probes[|probes| - 1], fsk.t34, fsk.t54, fsk.t94) && ByteShape(bits, fsk.t54)
                && (done && block < LEADER_COUNT ==> Exhausted())
                && ByteOrBreak(old(written), old(report), written, report, abspos + pos, !done,
                               bits, fsk.t34, fsk.t54, fsk.t94)
      ensures kind == Leader ==>
                && bits == [] && |probes| == MIN_LEADER_LEN && HighProbes(probes, fsk.t34, fsk.t54, fsk.t94)
                && block' == (if inLeader then block else block - 1) && inLeader'
                && (done <==> !inLeader && block == 1) && (done ==> r == Finished)
                && written == old(written)
                && report == old(report) + (if inLeader then [] else [BlankReport(abspos + pos)])
      ensures kind == StreamEnd ==>
                && bits == [] && |probes| < MIN_LEADER_LEN && HighProbes(probes, fsk.t34, fsk.t54, fsk.t94)
                && done && r == IllegalEnd && written == old(written) && Exhausted()
                && report == old(report) + [BreakReport(abspos + pos)]
    {
      ghost var s0 := Here();
      kind, probes := DetectStartBit();
      done, r, block', inLeader', bits := OnKind(block, inLeader, kind, s0, probes);
    }

    /**
     * `analyze` after its set-up: the skip to topos, the header line, two
     * priming searches, then leaders and start bits until the third leader
     * or an illegal end. Every search ran on the one stream, from the spot
     * the n refills of the skip left; every byte written is the value of
     * eight bits read right after a start bit, in the order written.
     */
    method Run(topos: int) returns (r: Outcome, ghost n: nat, ghost at: seq<int>, ghost bytes: seq<seq<Search>>)
      requires Valid() && pos == BUF_SIZE && abspos == -BUF_SIZE && topos >= -BUF_SIZE
      requires written == [] && report == [] && destpos == 0 && searches == []
      modifies this`pos, this`abspos, this`searches, this`written, this`report, this`destpos
      modifies buf, input`cursor, fsk
      ensures Valid() && Ended(r)
      ensures searches == [] <==> report[0].BreakReport?
      ensures searches != [] ==> searches[0].kind == Prime && StartAt(searches[0]) == report[0].position
      ensures searches != [] ==> topos <= 512 * n - 1024 < topos + BUF_HALF_SIZE
      ensures searches == [] ==>
                && report == [BreakReport(512 * n - 512)] && 512 * n - 1024 < topos + BUF_HALF_SIZE
                && (input.cursor == |input.data| || input.channels > BUF_HALF_SIZE)
      ensures AllFaithful(searches, fsk.t34, fsk.t94) && Chained(searches)
      ensures var w := Skipped(old(buf[..]), old(input.cursor), n);
              && (w.ok <==> searches != [])
              && (w.ok ==> Windowed(src, Spot(w.samples, 512 * n - 1024, w.cursor, 512 * n - 1024 - topos), searches))
      ensures BytesAt(searches, at, bytes, written, fsk.t34, fsk.t54, fsk.t94)
      ensures r == IllegalEnd ==> Exhausted() || Blanks(report) == 0
    {
      var ok;
      ok, n := Start(topos);
      at, bytes := [], [];
      if !ok {
        return IllegalEnd, n, at, bytes;
      }
      ghost var s := Spot(buf[..], abspos, input.cursor, abspos - topos);
      r, at, bytes := MainLoop(s);
    }

    /**
     * The main loop of `analyze`, after the priming searches from spot s:
     * leaders and start bits until the third leader or an illegal end.
     * Every search ran on the one stream from s, and every byte written is
     * the value of eight bits read right after a start bit, in the order
     * written.
     */
    method MainLoop(ghost s: Spot) returns (r: Outcome, ghost at: seq<int>, ghost bytes: seq<seq<Search>>)
      requires Valid() && 0 <= pos < BUF_SIZE && InLoop(LEADER_COUNT, false)
      requires |searches| >= 1 && |report| >= 1 && written == []
      requires AllFaithful(searches, fsk.t34, fsk.t94)
      requires Windowed(src, s, searches) && Here() == EndSpot(s, searches)
      modifies this`pos, this`abspos, this`searches, this`written, this`report, this`destpos
      modifies buf, input`cursor, fsk
      ensures Valid() && Ended(r)
      ensures |searches| >= 1 && searches[0] == old(searches[0]) && |report| >= 1 && report[0] == old(report[0])
      ensures AllFaithful(searches, fsk.t34, fsk.t94) && Chained(searches)
      ensures Windowed(src, s, searches) && StartAt(searches[0]) == s.base + s.pos
      ensures BytesAt(searches, at, bytes, written, fsk.t34, fsk.t54, fsk.t94)
      ensures r == IllegalEnd ==> Exhausted() || Blanks(report) == 0
    {
      at, bytes := [], [];
      var block := LEADER_COUNT;
      var inLeader := false;
      ghost var first := searches[0];
      ghost var header := report[0];
      while true
        invariant Valid() && 0 <= pos < BUF_SIZE && InLoop(block, inLeader)
        invariant |searches| >= 1 && searches[0] == first && |report| >= 1 && report[0] == header
        invariant AllFaithful(searches, fsk.t34, fsk.t94)
        invariant Windowed(src, s, searches) && Here() == EndSpot(s, searches)
        invariant BytesAt(searches, at, bytes, written, fsk.t34, fsk.t54, fsk.t94)
        decreases Measure()
      {
        var done;
        done, r, block, inLeader, at, bytes := Round(s, block, inLeader, at, bytes);
        if done {
          break;
        }
      }
      WindowedChained(src, s, searches);
    }

    /**
     * One round of the main loop after the priming searches from spot s:
     * the log grows by the round's searches and keeps the bytes at and
     * bytes read from it, and an illegal end comes from an exhausted stream
     * or before the first leader.
     */
    method Round(ghost s: Spot, block: int, inLeader: bool, ghost at: seq<int>, ghost bytes: seq<seq<Search>>)
      returns (done: bool, r: Outcome, block': int, inLeader': bool, ghost at': seq<int>, ghost bytes': seq<seq<Search>>)
      requires Valid() && 0 <= pos < BUF_SIZE && InLoop(block, inLeader)
      requires AllFaithful(searches, fsk.t34, fsk.t94)
      requires Windowed(src, s, searches) && Here() == EndSpot(s, searches)
      requires BytesAt(searches, at, bytes, written, fsk.t34, fsk.t54, fsk.t94)
      modifies this`pos, this`abspos, this`searches, this`written, this`report, this`destpos
      modifies buf, input`cursor, fsk
      ensures Valid() && 0 <= pos < BUF_SIZE
      ensures done ==> Ended(r) && (r == IllegalEnd ==> Exhausted() || Blanks(report) == 0)
      ensures !done ==> InLoop(block', inLeader') && Measure() < old(Measure())
      ensures |searches| >= |old(searches)| && searches[..|old(searches)|] == old(searches)
      ensures |report| >= |old(report)| && report[..|old(report)|] == old(report)
      ensures AllFaithful(searches, fsk.t34, fsk.t94) && Windowed(src, s, searches)
      ensures !done ==> Here() == EndSpot(s, searches)
      ensures BytesAt(searches, at', bytes', written, fsk.t34, fsk.t54, fsk.t94)
    {
      var kind;
      ghost var probes, bits;
      ghost var log0, w0, r0 := searches, written, report;
      done, r, block', inLeader', kind, probes, bits := Step(block, inLeader);
      ConcatAssociative(log0, probes, bits);
      AllFaithfulAppend(log0, probes + bits, fsk.t34, fsk.t94);
      WindowedJoin(src, s, log0, probes + bits);
      if kind == StartBit && !done {
        ByteLogged(log0, probes, bits, at, bytes, w0, fsk.t34, fsk.t54, fsk.t94);
        at', bytes' := at + [|log0| + |probes|], bytes + [bits];
      } else {
        BytesGrow(log0, probes + bits, at, bytes, w0, fsk.t34, fsk.t54, fsk.t94);
        at', bytes' := at, bytes;
      }
      if done && kind == StartBit && block == LEADER_COUNT {
        BreakBeforeLeader(r0, w0, report, inLeader, abspos + pos);
      }
    }

    /** `PTCReport.writeBreakReport` at the current absolute position. */
    method AppendBreak()
      modifies this`report
      ensures report == old(report) + [BreakReport(abspos + pos)]
      ensures Blanks(report) == Blanks(old(report))
      ensures ReportShape(old(report)) ==> ReportShape(report)
      ensures DataMatches(old(report), written) ==> DataMatches(report, written)
    {
      ghost var before := report;
      report := report + [BreakReport(abspos + pos)];
      assert report[..|report| - 1] == before;
    }
  }

  /**
   * `analyze(in, out, report, skip, negate)`, the skip given as topos, the
   * absolute sample offset it stops at: the analyser for the stream's rate
   * (no conversion when that rate is not positive), then the conversion on
   * a silent window, as Run says.
   */
  method Analyze(input: WavInputStream, topos: int, negate: bool)
    returns (r: Outcome, logic: PtcLogic?, ghost n: nat, ghost at: seq<int>, ghost bytes: seq<seq<Search>>)
    requires input.Decodable()
    requires input.samplingRate <= 0 || MIN_RATE <= input.samplingRate <= MAX_RATE
    requires topos >= -BUF_SIZE
    modifies input`cursor
    ensures r == IllegalArgument <==> input.samplingRate <= 0
    ensures r == IllegalArgument <==> logic == null
    ensures r == IllegalArgument ==> input.cursor == old(input.cursor)
    ensures logic != null ==>
              && fresh(logic) && logic.input == input && logic.negate == negate
              && logic.src == Source(input.decoder.value, input.data, input.bytes, input.channels, negate)
              && logic.Valid() && logic.Ended(r)
              && (logic.searches == [] <==> logic.report[0].BreakReport?)
              && (logic.searches != [] ==>
                    && logic.searches[0].kind == Prime && StartAt(logic.searches[0]) == logic.report[0].position
                    && topos <= 512 * n - 1024 < topos + BUF_HALF_SIZE)
              && (logic.searches == [] ==>
                    && logic.report == [BreakReport(512 * n - 512)] && 512 * n - 1024 < topos + BUF_HALF_SIZE
                    && (input.cursor == |input.data| || input.channels > BUF_HALF_SIZE))
              && AllFaithful(logic.searches, logic.fsk.t34, logic.fsk.t94) && Chained(logic.searches)
              && BytesAt(logic.searches, at, bytes, logic.written, logic.fsk.t34, logic.fsk.t54, logic.fsk.t94)
              && (r == IllegalEnd ==> logic.Exhausted() || Blanks(logic.report) == 0)
              && var w := Refills(logic.src, Silence(), old(input.cursor), n);
                 && (w.ok <==> logic.searches != [])
                 && (w.ok ==> Windowed(logic.src, Spot(w.samples, 512 * n - 1024, w.cursor, 512 * n - 1024 - topos),
                                       logic.searches))
  {
    at, bytes, n := [], [], 0;
    var fsk := FskBitAnalyzer.Create(input.samplingRate, FREQ_LOW);
    if fsk == null {
      return IllegalArgument, null, n, at, bytes;
    }
    RateLimits(input.samplingRate);
    logic := new PtcLogic(input, fsk, negate);
    r, n, at, bytes := logic.Run(topos);
  }

  /** Genuine searches followed by genuine searches. */
  lemma AllFaithfulAppend(a: seq<Search>, b: seq<Search>, t34: int, t94: int)
    requires AllFaithful(a, t34, t94) && AllFaithful(b, t34, t94)
    ensures AllFaithful(a + b, t34, t94)
  {
    forall i | 0 <= i < |a + b|
      ensures Faithful((a + b)[i], t34, t94)
    {
      if i < |a| {
        assert (a + b)[i] == a[i];
      } else {
        assert (a + b)[i] == b[i - |a|];
      }
    }
  }

  lemma ConcatAssociative<T>(a: seq<T>, b: seq<T>, c: seq<T>)
    ensures a + b + c == a + (b + c)
  {
  }

  /** Genuine probe searches, every one of them over a high-frequency interval. */
  predicate HighProbes(probes: seq<Search>, t34: int, t54: int, t94: int)
  {
    forall k {:trigger Faithful(probes[k], t34, t94)} :: 0 <= k < |probes| ==>
      probes[k].kind == Probe && Faithful(probes[k], t34, t94) && Interval(probes[k]) <= t54
  }

  /** A genuine probe search over a low-frequency interval: a start bit. */
  predicate LowProbe(e: Search, t34: int, t54: int, t94: int)
  {
    e.kind == Probe && Faithful(e, t34, t94) && Interval(e) > t54
  }

  /**
   * The report in the main loop: `block` counts down the leaders still to
   * come, the header opens it, its data lines match the bytes written, and
   * `inLeader` holds exactly when a leader line came after the last data.
   */
  predicate LoopReport(report: seq<Event>, written: seq<int>, block: int, inLeader: bool)
  {
    && 1 <= block <= LEADER_COUNT && Blanks(report) == LEADER_COUNT - block
    && ReportShape(report) && |report| >= 1 && report[0].HeaderReport?
    && DataMatches(report, written)
    && (inLeader ==> !DataSinceBlank(report) && Blanks(report) >= 1)
    && (!inLeader ==> Blanks(report) == 0 || DataSinceBlank(report))
  }

  /** The report when `analyze` ends with r. */
  predicate EndReport(report: seq<Event>, written: seq<int>, r: Outcome)
  {
    && r != IllegalArgument && ReportShape(report) && |report| >= 1
    && (report[0].HeaderReport? || report == [BreakReport(report[0].position)])
    && DataMatches(report, written)
    && (r == Finished ==> Blanks(report) == LEADER_COUNT && report[|report| - 1].BlankReport?)
    && (r == IllegalEnd ==> Blanks(report) < LEADER_COUNT && report[|report| - 1].BreakReport?)
  }

  /** A break line in the main loop ends it illegally. */
  lemma BreakEnds(r0: seq<Event>, written: seq<int>, r: seq<Event>, block: int, inLeader: bool, p: int)
    requires LoopReport(r0, written, block, inLeader) && r == r0 + [BreakReport(p)]
    ensures EndReport(r, written, IllegalEnd)
  {
    BreakAppended(r0, BreakReport(p), written);
  }

  /** The data line of the byte read from bits, after the first leader, keeps the loop going with inLeader cleared. */
  lemma DataKeepsLoop(r0: seq<Event>, w0: seq<int>, r: seq<Event>, w: seq<int>, block: int, inLeader: bool, p: int,
                      bits: seq<Search>, t34: int, t54: int, t94: int)
    requires LoopReport(r0, w0, block, inLeader) && block < LEADER_COUNT
    requires ByteWritten(w0, r0, w, r, p, bits, t34, t54, t94)
    ensures LoopReport(r, w, block, false)
  {
    var v := ValueOf(Marks(bits, t54));
    DataMatchesGrow(r0, w0, v);
    DataAppended(r0, DataReport(p, |w0|, v, WorstJudge(bits, t34, t54, t94)), w);
  }

  /** A new leader line counts block down; the last one ends the conversion normally. */
  lemma BlankCounts(report: seq<Event>, written: seq<int>, block: int, p: int)
    requires LoopReport(report, written, block, false)
    ensures block > 1 ==> LoopReport(report + [BlankReport(p)], written, block - 1, true)
    ensures block == 1 ==> EndReport(report + [BlankReport(p)], written, Finished)
  {
    BlankAppended(report, BlankReport(p), written);
    var ev := report + [BlankReport(p)];
    assert ev[0] == report[0];
  }

  /** Data lines that match the bytes written still match when one more byte is written. */
  lemma DataMatchesGrow(ev: seq<Event>, written: seq<int>, v: int)
    requires DataMatches(ev, written)
    ensures DataMatches(ev, (written + [v])[..|written|])
  {
    assert (written + [v])[..|written|] == written;
  }

  /** A break line keeps the leader count, the report's shape and its data lines. */
  lemma BreakAppended(before: seq<Event>, e: Event, written: seq<int>)
    requires ReportShape(before) && DataMatches(before, written) && e.BreakReport?
    ensures ReportShape(before + [e]) && Blanks(before + [e]) == Blanks(before)
    ensures DataMatches(before + [e], written)
    ensures |before| >= 1 ==> (before + [e])[0] == before[0]
  {
    var ev := before + [e];
    assert ev[..|ev| - 1] == before;
  }

  /** A break line before any leader line leaves a report with no leader line. */
  lemma BreakBeforeLeader(r0: seq<Event>, written: seq<int>, r: seq<Event>, inLeader: bool, p: int)
    requires LoopReport(r0, written, LEADER_COUNT, inLeader) && r == r0 + [BreakReport(p)]
    ensures Blanks(r) == 0
  {
    BreakAppended(r0, BreakReport(p), written);
  }

  /** One more probe: the run of high ones grows, or it ends at a start bit. */
  lemma ProbeStep(log0: seq<Search>, probes: seq<Search>, e: Search, t34: int, t54: int, t94: int)
    requires HighProbes(probes, t34, t54, t94) && e.kind == Probe && Faithful(e, t34, t94)
    ensures Interval(e) <= t54 ==> HighProbes(probes + [e], t34, t54, t94)
    ensures Interval(e) > t54 ==> LowProbe(e, t34, t54, t94)
    ensures (probes + [e])[..|probes|] == probes && (probes + [e])[|probes|] == e
    ensures AllFaithful(probes + [e], t34, t94)
    ensures log0 + probes + [e] == log0 + (probes + [e])
  {
    ConcatAssociative(log0, probes, [e]);
    forall i | 0 <= i < |probes + [e]|
      ensures Faithful((probes + [e])[i], t34, t94)
    {
      if i < |probes| {
        assert Faithful(probes[i], t34, t94);
      }
    }
  }

  /** The marks among the bits. */
  function Ones(bits: seq<bool>): nat
  {
    if bits == [] then 0 else Ones(bits[..|bits| - 1]) + (if bits[|bits| - 1] then 1 else 0)
  }

  /** Each mark costs one search more: a byte's searches are its bits plus its marks. */
  lemma {:induction false} SearchesPerByte(log: seq<Search>, t54: int)
    requires ByteShape(log, t54)
    ensures |log| == |Marks(log, t54)| + Ones(Marks(log, t54))
    decreases |log|
  {
    if log != [] {
      var m := Marks(log, t54);
      if log[|log| - 1].kind == Extra {
        var l1 := log[..|log| - 1];
        var l2 := log[..|log| - 2];
        assert l1[..|l1| - 1] == l2;
        SearchesPerByte(l2, t54);
        assert Marks(l1, t54) == Marks(l2, t54) + [true];
        assert m == Marks(l1, t54);
        assert m[..|m| - 1] == Marks(l2, t54);
      } else {
        SearchesPerByte(log[..|log| - 1], t54);
        assert m == Marks(log[..|log| - 1], t54) + [false];
        assert m[..|m| - 1] == Marks(log[..|log| - 1], t54);
      }
    }
  }

  /** The one or two searches of a bit are genuine. */
  predicate UnitFaithful(unit: seq<Search>, t34: int, t94: int)
  {
    && |unit| >= 1 && Faithful(unit[0], t34, t94)
    && (|unit| >= 2 ==> Faithful(unit[1], t34, t94))
  }

  lemma UnitAllFaithful(unit: seq<Search>, t34: int, t94: int)
    requires UnitFaithful(unit, t34, t94) && |unit| <= 2
    ensures AllFaithful(unit, t34, t94)
  {
  }

  /** One more search extends the bits by its own, if it is a Bit search. */
  lemma MarksSnoc(log: seq<Search>, e: Search, t54: int)
    ensures Marks(log + [e], t54) == Marks(log, t54) + (if e.kind == Bit then [Interval(e) <= t54] else [])
  {
    var l := log + [e];
    assert l[..|l| - 1] == log;
  }

  /** One more search lowers the worst judge to its own, if it is a Bit search. */
  lemma WorstJudgeSnoc(log: seq<Search>, e: Search, t34: int, t54: int, t94: int)
    ensures WorstJudge(log + [e], t34, t54, t94)
            == if e.kind == Bit then MinJudge(WorstJudge(log, t34, t54, t94), BitJudge(e, t34, t54, t94))
               else WorstJudge(log, t34, t54, t94)
  {
    var l := log + [e];
    assert l[..|l| - 1] == log;
  }

  /** Two searches appended one by one. */
  lemma AppendPair(log: seq<Search>, unit: seq<Search>)
    requires |unit| == 2
    ensures log + unit == log + [unit[0]] + [unit[1]]
  {
  }

  /** One more bit's searches keep the byte's shape. */
  lemma ShapeAppended(log: seq<Search>, unit: seq<Search>, t54: int)
    requires ByteShape(log, t54) && BitUnit(unit, t54)
    ensures ByteShape(log + unit, t54)
  {
    var l := log + unit;
    assert l[..|l| - |unit|] == log;
    if |unit| == 2 {
      assert l[|l| - 1] == unit[1] && l[|l| - 2] == unit[0];
    } else {
      assert l[|l| - 1] == unit[0];
    }
  }

  /** One more bit's searches extend the byte's bits by that bit. */
  lemma MarksAppended(log: seq<Search>, unit: seq<Search>, t54: int)
    requires BitUnit(unit, t54)
    ensures Marks(log + unit, t54) == Marks(log, t54) + [Interval(unit[0]) <= t54]
  {
    var l1 := log + [unit[0]];
    MarksSnoc(log, unit[0], t54);
    if |unit| == 2 {
      MarksSnoc(l1, unit[1], t54);
      AppendPair(log, unit);
    } else {
      assert l1 == log + unit;
    }
  }

  /** One more bit's searches lower the byte's judge to that bit's. */
  lemma JudgeAppended(log: seq<Search>, unit: seq<Search>, t34: int, t54: int, t94: int)
    requires BitUnit(unit, t54)
    ensures WorstJudge(log + unit, t34, t54, t94)
            == MinJudge(WorstJudge(log, t34, t54, t94), BitJudge(unit[0], t34, t54, t94))
  {
    var l1 := log + [unit[0]];
    WorstJudgeSnoc(log, unit[0], t34, t54, t94);
    if |unit| == 2 {
      WorstJudgeSnoc(l1, unit[1], t34, t54, t94);
      AppendPair(log, unit);
    } else {
      assert l1 == log + unit;
    }
  }

  /** One more bit's searches extend the byte's shape, its bits and its judge. */
  lemma UnitAppended(log: seq<Search>, unit: seq<Search>, t34: int, t54: int, t94: int)
    requires ByteShape(log, t54) && BitUnit(unit, t54)
    ensures ByteShape(log + unit, t54)
    ensures Marks(log + unit, t54) == Marks(log, t54) + [Interval(unit[0]) <= t54]
    ensures WorstJudge(log + unit, t34, t54, t94)
            == MinJudge(WorstJudge(log, t34, t54, t94), BitJudge(unit[0], t34, t54, t94))
  {
    ShapeAppended(log, unit, t54);
    MarksAppended(log, unit, t54);
    JudgeAppended(log, unit, t34, t54, t94);
  }

  /**
   * The searches of the first i bits of a byte, from spot s0: their shape,
   * genuineness, value, worst judge, and the windows they ran on.
   */
  predicate BitsSoFar(src: Source, bits: seq<Search>, i: nat, value: int, judge: SignalJudge, s0: Spot,
                      t34: int, t54: int, t94: int)
  {
    && Readable(src)
    && ByteShape(bits, t54) && AllFaithful(bits, t34, t94)
    && |Marks(bits, t54)| == i && value == ValueOf(Marks(bits, t54))
    && judge == WorstJudge(bits, t34, t54, t94)
    && Windowed(src, s0, bits)
  }

  /** One round of the byte loop keeps its invariant: one bit's searches, from where the bits stopped. */
  lemma BitAppended(src: Source, log0: seq<Search>, bits: seq<Search>, unit: seq<Search>, i: nat, value: int,
                    judge: SignalJudge, mark: bool, j: SignalJudge, s0: Spot, t34: int, t54: int, t94: int)
    requires BitsSoFar(src, bits, i, value, judge, s0, t34, t54, t94)
    requires BitUnit(unit, t54) && UnitFaithful(unit, t34, t94)
    requires mark == (Interval(unit[0]) <= t54) && j == BitJudge(unit[0], t34, t54, t94)
    requires Windowed(src, EndSpot(s0, bits), unit)
    ensures BitsSoFar(src, bits + unit, i + 1, value + (if mark then Pow2(i) else 0), MinJudge(judge, j), s0,
                      t34, t54, t94)
    ensures EndSpot(s0, bits + unit) == EndSpot(EndSpot(s0, bits), unit)
    ensures log0 + bits + unit == log0 + (bits + unit)
  {
    ByteStep(log0, bits, unit, i, value, judge, mark, j, t34, t54, t94);
    BitsFaithful(bits, unit, t34, t94);
    WindowedJoin(src, s0, bits, unit);
  }

  /** One round of the byte loop keeps its invariant: the bits so far, their value and their worst judge. */
  lemma ByteStep(log0: seq<Search>, bits: seq<Search>, unit: seq<Search>, i: nat, value: int,
                 judge: SignalJudge, mark: bool, j: SignalJudge, t34: int, t54: int, t94: int)
    requires ByteShape(bits, t54)
    requires |Marks(bits, t54)| == i && value == ValueOf(Marks(bits, t54))
    requires judge == WorstJudge(bits, t34, t54, t94)
    requires BitUnit(unit, t54)
    requires mark == (Interval(unit[0]) <= t54) && j == BitJudge(unit[0], t34, t54, t94)
    ensures ByteShape(bits + unit, t54)
    ensures |Marks(bits + unit, t54)| == i + 1
    ensures value + (if mark then Pow2(i) else 0) == ValueOf(Marks(bits + unit, t54))
    ensures MinJudge(judge, j) == WorstJudge(bits + unit, t34, t54, t94)
    ensures log0 + bits + unit == log0 + (bits + unit)
  {
    UnitAppended(bits, unit, t34, t54, t94);
    ValueStep(Marks(bits, t54), Marks(bits + unit, t54), i, value, mark);
    ConcatAssociative(log0, bits, unit);
  }

  /** The searches of one more bit are genuine too. */
  lemma BitsFaithful(bits: seq<Search>, unit: seq<Search>, t34: int, t94: int)
    requires AllFaithful(bits, t34, t94) && UnitFaithful(unit, t34, t94) && |unit| <= 2
    ensures AllFaithful(bits + unit, t34, t94)
  {
    UnitAllFaithful(unit, t34, t94);
    AllFaithfulAppend(bits, unit, t34, t94);
  }

  /** One more bit on top of i bits adds 2^i exactly when it is a mark. */
  lemma ValueStep(m: seq<bool>, m': seq<bool>, i: nat, value: int, mark: bool)
    requires |m| == i && value == ValueOf(m) && m' == m + [mark]
    ensures |m'| == i + 1 && value + (if mark then Pow2(i) else 0) == ValueOf(m')
  {
    ValueOfSnoc(m, mark);
  }

  /** A data line after the first leader keeps the report's shape and matches the byte just written. */
  lemma DataAppended(before: seq<Event>, e: Event, written: seq<int>)
    requires ReportShape(before) && Blanks(before) >= 1 && e.DataReport?
    requires |written| >= 1 && DataMatches(before, written[..|written| - 1])
    requires e.writePos == |written| - 1 && e.value == written[|written| - 1]
    ensures ReportShape(before + [e]) && DataSinceBlank(before + [e])
    ensures Blanks(before + [e]) == Blanks(before)
    ensures DataMatches(before + [e], written)
  {
    var ev := before + [e];
    assert ev[..|ev| - 1] == before;
  }

  /** A blank line where the loop writes one keeps the report's shape. */
  lemma BlankAppended(before: seq<Event>, e: Event, written: seq<int>)
    requires ReportShape(before) && (Blanks(before) == 0 || DataSinceBlank(before)) && e.BlankReport?
    requires DataMatches(before, written)
    ensures ReportShape(before + [e]) && !DataSinceBlank(before + [e])
    ensures Blanks(before + [e]) == Blanks(before) + 1
    ensures DataMatches(before + [e], written)
  {
    var ev := before + [e];
    assert ev[..|ev| - 1] == before;
  }

  /** The window `analyze` starts with: 1024 samples of silence. */
  function Silence(): (s: seq<real>)
    ensures |s| == BUF_SIZE && forall i :: 0 <= i < BUF_SIZE ==> s[i] == 0.0
  {
    seq(BUF_SIZE, _ => 0.0)
  }

  /**
   * The searches of one bit from spot s: the bit search right after its
   * refill and, for a mark, the extra search from where it stopped.
   */
  lemma UnitWindowed(src: Source, s: Spot, unit: seq<Search>, t54: int)
    requires Readable(src) && BitUnit(unit, t54) && Follows(src, s, unit[0])
    requires |unit| == 2 ==> Before(unit[1]) == After(unit[0])
    ensures Windowed(src, s, unit) && EndSpot(s, unit) == After(unit[|unit| - 1])
  {
    WindowedSnoc(src, s, [], unit[0]);
    assert [] + [unit[0]] == [unit[0]];
    if |unit| == 2 {
      WindowedSnoc(src, s, [unit[0]], unit[1]);
      assert [unit[0]] + [unit[1]] == unit;
    }
  }

  /** A round's probes, then its bits from where the probes left the engine, ran one after another. */
  lemma RoundJoined(src: Source, s0: Spot, probes: seq<Search>, bits: seq<Search>, t34: int, t94: int)
    requires Readable(src) && Windowed(src, s0, probes) && Windowed(src, EndSpot(s0, probes), bits)
    requires AllFaithful(probes, t34, t94) && AllFaithful(bits, t34, t94)
    ensures Windowed(src, s0, probes + bits) && EndSpot(s0, probes + bits) == EndSpot(EndSpot(s0, probes), bits)
    ensures AllFaithful(probes + bits, t34, t94)
  {
    WindowedJoin(src, s0, probes, bits);
    AllFaithfulAppend(probes, bits, t34, t94);
  }

  /**
   * The byte value was read from the searches bits, which sit at index at
   * of the log right after the low probe of their start bit: eight bits,
   * their value below 256.
   */
  predicate ByteAt(log: seq<Search>, at: int, bits: seq<Search>, value: int, t34: int, t54: int, t94: int)
  {
    && 0 < at && at + |bits| <= |log| && log[at..at + |bits|] == bits
    && LowProbe(log[at - 1], t34, t54, t94)
    && ByteShape(bits, t54) && |Marks(bits, t54)| == 8
    && value == ValueOf(Marks(bits, t54)) && 0 <= value < 256
  }

  /** Every byte written was read from the log that way, the bytes one after another in the order written. */
  predicate BytesAt(log: seq<Search>, at: seq<int>, bytes: seq<seq<Search>>, written: seq<int>,
                    t34: int, t54: int, t94: int)
  {
    && |at| == |bytes| == |written|
    && (forall k :: 0 <= k < |written| ==> ByteAt(log, at[k], bytes[k], written[k], t34, t54, t94))
    && (forall k :: 0 < k < |at| ==> at[k - 1] + |bytes[k - 1]| < at[k])
  }

  /** A byte read from the log is still read from it once the log grows. */
  lemma ByteAtGrow(log: seq<Search>, more: seq<Search>, at: int, bits: seq<Search>, value: int,
                   t34: int, t54: int, t94: int)
    requires ByteAt(log, at, bits, value, t34, t54, t94)
    ensures ByteAt(log + more, at, bits, value, t34, t54, t94)
  {
    assert (log + more)[at..at + |bits|] == log[at..at + |bits|];
    assert (log + more)[at - 1] == log[at - 1];
  }

  /** The bytes read from the log are still read from it once the log grows. */
  lemma BytesGrow(log: seq<Search>, more: seq<Search>, at: seq<int>, bytes: seq<seq<Search>>, written: seq<int>,
                  t34: int, t54: int, t94: int)
    requires BytesAt(log, at, bytes, written, t34, t54, t94)
    ensures BytesAt(log + more, at, bytes, written, t34, t54, t94)
  {
    forall k | 0 <= k < |written|
      ensures ByteAt(log + more, at[k], bytes[k], written[k], t34, t54, t94)
    {
      ByteAtGrow(log, more, at[k], bytes[k], written[k], t34, t54, t94);
    }
  }

  /** A round that found a start bit and read eight bits after it adds their value as the next byte. */
  lemma ByteLogged(log: seq<Search>, probes: seq<Search>, bits: seq<Search>, at: seq<int>,
                   bytes: seq<seq<Search>>, written: seq<int>, t34: int, t54: int, t94: int)
    requires BytesAt(log, at, bytes, written, t34, t54, t94)
    requires probes != [] && LowProbe(probes[|probes| - 1], t34, t54, t94)
    requires ByteShape(bits, t54) && |Marks(bits, t54)| == 8
    ensures BytesAt(log + probes + bits, at + [|log| + |probes|], bytes + [bits],
                    written + [ValueOf(Marks(bits, t54))], t34, t54, t94)
  {
    var l := log + probes + bits;
    var at', bytes', written' := at + [|log| + |probes|], bytes + [bits], written + [ValueOf(Marks(bits, t54))];
    BytesGrow(log, probes + bits, at, bytes, written, t34, t54, t94);
    assert log + (probes + bits) == l;
    ValueOfRange(Marks(bits, t54));
    assert l[|log| + |probes| - 1] == probes[|probes| - 1];
    assert l[|log| + |probes|..|log| + |probes| + |bits|] == bits;
    assert ByteAt(l, at'[|at|], bytes'[|at|], written'[|at|], t34, t54, t94);
    forall k | 0 <= k < |written'|
      ensures ByteAt(l, at'[k], bytes'[k], written'[k], t34, t54, t94)
    {
      if k < |written| {
        assert at'[k] == at[k] && bytes'[k] == bytes[k] && written'[k] == written[k];
      }
    }
    forall k | 0 < k < |at'|
      ensures at'[k - 1] + |bytes'[k - 1]| < at'[k]
    {
      if k < |at| {
        assert at'[k] == at[k] && at'[k - 1] == at[k - 1] && bytes'[k - 1] == bytes[k - 1];
      } else {
        assert ByteAt(log, at[k - 1], bytes[k - 1], written[k - 1], t34, t54, t94);
      }
    }
  }
}
