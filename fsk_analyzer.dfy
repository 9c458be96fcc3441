/**
 * The FSK boundary analyser: the timing offsets derived from the sampling
 * rate, the search for the next zero crossing of the signal, the interval
 * classifier and the confidence table for one bit.
 *
 * Samples and thresholds are reals: the search only compares and averages
 * them, and the decoders hand out exact fractions.
 */
module FskAnalyzer {
  import opened Common

  // ---------------------------------------------------------------------
  // Confidence of one bit

  /** The confidence of a bit, best (A) to worst (D). */
  datatype SignalJudge = A | B | C | D

  function Ordinal(j: SignalJudge): nat
  {
    match j
    case A => 0
    case B => 1
    case C => 2
    case D => 3
  }

  /** `min`: the less confident of two judges, which is the one of larger ordinal. */
  function MinJudge(a: SignalJudge, b: SignalJudge): (r: SignalJudge)
    ensures r == a || r == b
    ensures Ordinal(a) <= Ordinal(r) && Ordinal(b) <= Ordinal(r)
  {
    if Ordinal(a) < Ordinal(b) then b else a
  }

  lemma OrdinalInjective(a: SignalJudge, b: SignalJudge)
    ensures Ordinal(a) == Ordinal(b) ==> a == b
  {
  }

  lemma MinJudgeCommutative(a: SignalJudge, b: SignalJudge)
    ensures MinJudge(a, b) == MinJudge(b, a)
  {
    OrdinalInjective(a, b);
  }

  lemma MinJudgeAssociative(a: SignalJudge, b: SignalJudge, c: SignalJudge)
    ensures MinJudge(MinJudge(a, b), c) == MinJudge(a, MinJudge(b, c))
  {
  }

  lemma MinJudgeIdempotent(a: SignalJudge)
    ensures MinJudge(a, a) == a
  {
  }

  /** A, the best judge, is the identity; D, the worst, absorbs everything. */
  lemma MinJudgeUnits(a: SignalJudge)
    ensures MinJudge(A, a) == a && MinJudge(a, A) == a
    ensures MinJudge(D, a) == D && MinJudge(a, D) == D
  {
  }

  // ---------------------------------------------------------------------
  // Timing offsets

  /** The three offsets, in samples, at 11/32, 21/32 and 33/32 of a low-frequency cycle. */
  datatype Offsets = Offsets(t34: int, t54: int, t94: int)

  /** The integer cast of a non-negative real: its floor. */
  function Truncate(x: real): (n: int)
    requires x >= 0.0
    ensures n >= 0 && n as real <= x < n as real + 1.0
  {
    x.Floor
  }

  /** The constructor's offsets; None when the rate or the frequency is not positive. */
  function MakeOffsets(sampleRate: int, lowFreq: real): (r: Option<Offsets>)
    ensures r.None? <==> sampleRate <= 0 || lowFreq <= 0.0
    ensures r.Some? ==> 0 <= r.value.t34 <= r.value.t54 < r.value.t94
  {
    if sampleRate <= 0 || lowFreq <= 0.0 then None
    else
      var cycle := sampleRate as real / lowFreq;
      var t34 := Truncate(cycle * 2.75 / 8.0);
      var t54 := Truncate(cycle * 5.25 / 8.0);
      var t94 := Truncate(cycle * 8.25 / 8.0) + 1;
      TruncateMonotone(cycle * 2.75 / 8.0, cycle * 5.25 / 8.0);
      TruncateMonotone(cycle * 5.25 / 8.0, cycle * 8.25 / 8.0);
      Some(Offsets(t34, t54, t94))
  }

  lemma TruncateMonotone(x: real, y: real)
    requires 0.0 <= x <= y
    ensures Truncate(x) <= Truncate(y)
  {
  }

  /** The truncation of x is n exactly when x lies in [n, n + 1). */
  lemma TruncateIs(x: real, n: int)
    requires x >= 0.0
    ensures Truncate(x) == n <==> n as real <= x < n as real + 1.0
  {
  }

  /** The low frequency of the PC-6001 tape format, in Hz. */
  const FREQ_LOW: real := 1200.0

  /** The offsets for a 44100 Hz capture of the 1200 Hz tone. */
  lemma OffsetsAt44100()
    ensures MakeOffsets(44100, FREQ_LOW) == Some(Offsets(12, 24, 38))
  {
    var cycle := 44100 as real / FREQ_LOW;
    assert cycle == 36.75;
    TruncateIs(cycle * 2.75 / 8.0, 12);
    TruncateIs(cycle * 5.25 / 8.0, 24);
    TruncateIs(cycle * 8.25 / 8.0, 37);
  }

  /** The lowest rate at which the first offset is at least one sample. */
  const MIN_RATE := 3491
  /** The highest rate at which the last offset is at most 128 samples. */
  const MAX_RATE := 148945

  /** For a positive rate: t34 >= 1 exactly from MIN_RATE on, t94 <= 128 exactly up to MAX_RATE. */
  lemma RateLimits(sampleRate: int)
    requires sampleRate > 0
    ensures var o := MakeOffsets(sampleRate, FREQ_LOW).value;
      && (o.t34 >= 1 <==> sampleRate >= MIN_RATE)
      && (o.t94 <= 128 <==> sampleRate <= MAX_RATE)
  {
    var cycle := sampleRate as real / FREQ_LOW;
    var x34 := cycle * 2.75 / 8.0;
    var x94 := cycle * 8.25 / 8.0;
    TruncateIs(x34, Truncate(x34));
    TruncateIs(x94, Truncate(x94));
    assert x34 == sampleRate as real * 11.0 / 38400.0;
    assert x94 == sampleRate as real * 33.0 / 38400.0;
  }

  // ---------------------------------------------------------------------
  // Thresholds of a window

  function MaxReal(a: real, b: real): real { if a < b then b else a }
  function MinReal(a: real, b: real): real { if a < b then a else b }

  /**
   * The running maximum of the search: s[lo] to start with, then every
   * sample of s[lo..hi) in turn.
   */
  function WindowMax(s: seq<real>, lo: nat, hi: nat): real
    requires lo < |s| && hi <= |s|
    decreases hi
  {
    if hi <= lo then s[lo] else MaxReal(WindowMax(s, lo, hi - 1), s[hi - 1])
  }

  /** The running minimum, as WindowMax. */
  function WindowMin(s: seq<real>, lo: nat, hi: nat): real
    requires lo < |s| && hi <= |s|
    decreases hi
  {
    if hi <= lo then s[lo] else MinReal(WindowMin(s, lo, hi - 1), s[hi - 1])
  }

  /**
   * WindowMax and WindowMin are the largest and the smallest of s[lo] and
   * the samples of s[lo..hi): bounds on all of them, and each one of them.
   */
  lemma {:induction false} WindowExtremes(s: seq<real>, lo: nat, hi: nat)
    requires lo < |s| && hi <= |s|
    ensures var max, min := WindowMax(s, lo, hi), WindowMin(s, lo, hi);
      && min <= s[lo] <= max
      && (forall k :: lo <= k < hi ==> min <= s[k] <= max)
      && (max == s[lo] || exists k :: lo <= k < hi && s[k] == max)
      && (min == s[lo] || exists k :: lo <= k < hi && s[k] == min)
    decreases hi
  {
    if hi > lo {
      WindowExtremes(s, lo, hi - 1);
    }
  }

  datatype Thresholds = Thresholds(avg: real, low: real, high: real)

  /** The midline of max and min, and the lines a quarter of the way out from it. */
  function Midlines(max: real, min: real): Thresholds
  {
    var avg := (max + min) / 2.0;
    Thresholds(avg, (min + avg * 3.0) / 4.0, (max + avg * 3.0) / 4.0)
  }

  /** The thresholds lie between the extremes and in order. */
  lemma MidlinesOrdered(max: real, min: real)
    requires min <= max
    ensures var th := Midlines(max, min);
      min <= th.low <= th.avg <= th.high <= max
  {
  }

  /** The end of the search window: t94 samples on, or the end of the buffer. */
  function Limit(s: seq<real>, startPos: nat, t94: int): int
  {
    Min(startPos + t94, |s|)
  }

  /** The thresholds the search computes from the window at startPos. */
  function WindowThresholds(s: seq<real>, startPos: nat, t94: int): (th: Thresholds)
    requires startPos < |s| && 0 <= t94
  {
    var limit := Limit(s, startPos, t94);
    Midlines(WindowMax(s, startPos, limit), WindowMin(s, startPos, limit))
  }

  /** Whatever the window, low <= avg <= high and every threshold lies within its samples. */
  lemma WindowThresholdsOrdered(s: seq<real>, startPos: nat, t94: int)
    requires startPos < |s| && 0 <= t94
    ensures var th := WindowThresholds(s, startPos, t94);
      && th.low <= th.avg <= th.high
      && (forall k :: startPos <= k < Limit(s, startPos, t94) ==> s[k] <= WindowMax(s, startPos, Limit(s, startPos, t94)))
      && WindowMin(s, startPos, Limit(s, startPos, t94)) <= th.low
      && th.high <= WindowMax(s, startPos, Limit(s, startPos, t94))
  {
    var limit := Limit(s, startPos, t94);
    WindowExtremes(s, startPos, limit);
    MidlinesOrdered(WindowMax(s, startPos, limit), WindowMin(s, startPos, limit));
  }

  // ---------------------------------------------------------------------
  // The walks of the search

  /** Forward from p while the sample is above th, stopping at limit at the latest. */
  function WalkAbove(s: seq<real>, p: nat, limit: nat, th: real): (r: nat)
    requires p <= limit < |s|
    ensures p <= r <= limit
    decreases limit - p
  {
    if s[p] > th && p < limit then WalkAbove(s, p + 1, limit, th) else p
  }

  /** WalkAbove passes only samples above th and stops before limit only on one at or below it. */
  lemma {:induction false} WalkAboveStops(s: seq<real>, p: nat, limit: nat, th: real)
    requires p <= limit < |s|
    ensures var r := WalkAbove(s, p, limit, th);
      && (forall k :: p <= k < r ==> s[k] > th)
      && (r < limit ==> s[r] <= th)
    decreases limit - p
  {
    if s[p] > th && p < limit {
      WalkAboveStops(s, p + 1, limit, th);
    }
  }

  /** Forward from p while the sample is below th, stopping at limit at the latest. */
  function WalkBelow(s: seq<real>, p: nat, limit: nat, th: real): (r: nat)
    requires p <= limit < |s|
    ensures p <= r <= limit
    decreases limit - p
  {
    if s[p] < th && p < limit then WalkBelow(s, p + 1, limit, th) else p
  }

  /** WalkBelow passes only samples below th and stops before limit only on one at or above it. */
  lemma {:induction false} WalkBelowStops(s: seq<real>, p: nat, limit: nat, th: real)
    requires p <= limit < |s|
    ensures var r := WalkBelow(s, p, limit, th);
      && (forall k :: p <= k < r ==> s[k] < th)
      && (r < limit ==> s[r] >= th)
    decreases limit - p
  {
    if s[p] < th && p < limit {
      WalkBelowStops(s, p + 1, limit, th);
    }
  }

  /** Back from p while the sample is at or above th, stopping at floor at the latest. */
  function WalkBack(s: seq<real>, p: nat, floor: nat, th: real): (r: nat)
    requires floor <= p < |s|
    ensures floor <= r <= p
  {
    if s[p] >= th && p > floor then WalkBack(s, p - 1, floor, th) else p
  }

  /** WalkBack passes only samples at or above th and stops above floor only on one below it. */
  lemma {:induction false} WalkBackStops(s: seq<real>, p: nat, floor: nat, th: real)
    requires floor <= p < |s|
    ensures var r := WalkBack(s, p, floor, th);
      && (forall k :: r < k <= p ==> s[k] >= th)
      && (r > floor ==> s[r] < th)
  {
    if s[p] >= th && p > floor {
      WalkBackStops(s, p - 1, floor, th);
    }
  }

  /**
   * A search from startPos reads inside the buffer: the window ends before
   * the buffer does, and the first walk starts inside the window.
   */
  predicate SearchFits(s: seq<real>, startPos: int, t34: int, t94: int)
  {
    0 <= startPos && 0 <= t34 < t94 && startPos + t94 < |s|
  }

  /** Where the two forward walks stop: down to low, then up to high. */
  function ForwardStop(s: seq<real>, startPos: nat, t34: int, t94: int): (p: nat)
    requires SearchFits(s, startPos, t34, t94)
    ensures startPos + t34 <= p <= startPos + t94
  {
    var th := WindowThresholds(s, startPos, t94);
    var limit := Limit(s, startPos, t94);
    var p1 := WalkAbove(s, startPos + t34, limit, th.low);
    WalkBelow(s, p1, limit, th.high)
  }

  /** The search gives up at the end of the window when the signal is still high there. */
  predicate EarlyReturn(s: seq<real>, startPos: nat, t34: int, t94: int)
    requires SearchFits(s, startPos, t34, t94)
  {
    var p := ForwardStop(s, startPos, t34, t94);
    s[p] >= WindowThresholds(s, startPos, t94).avg && p >= Limit(s, startPos, t94)
  }

  /**
   * `getNextZeroPosition`: from t34 samples past startPos, forward until
   * the signal has gone below low and then up to high, then back to the
   * last sample below the midline; one short of the window end if the
   * signal never came down again.
   */
  function ZeroPosition(s: seq<real>, startPos: nat, t34: int, t94: int): (r: int)
    requires SearchFits(s, startPos, t34, t94)
    ensures startPos + t34 <= r <= startPos + t94
  {
    var p := ForwardStop(s, startPos, t34, t94);
    if EarlyReturn(s, startPos, t34, t94) then p - 1
    else WalkBack(s, p, startPos + t34, WindowThresholds(s, startPos, t94).avg)
  }

  /** ZeroPosition in terms of the forward stop and the window's midline. */
  lemma ZeroPositionUnfold(s: seq<real>, startPos: nat, t34: int, t94: int, stop: nat, avg: real)
    requires SearchFits(s, startPos, t34, t94)
    requires stop == ForwardStop(s, startPos, t34, t94) && avg == WindowThresholds(s, startPos, t94).avg
    ensures startPos + t34 <= stop < |s|
    ensures ZeroPosition(s, startPos, t34, t94)
            == if s[stop] >= avg && stop >= startPos + t94 then stop - 1 else WalkBack(s, stop, startPos + t34, avg)
  {
  }

  /**
   * Unless the search gave up at the window end, the position found is a
   * crossing of the midline: below it (when the walk back did not hit its
   * floor) with every sample from there to the forward stop at or above it.
   */
  lemma ZeroPositionCrossing(s: seq<real>, startPos: nat, t34: int, t94: int)
    requires SearchFits(s, startPos, t34, t94)
    ensures var r := ZeroPosition(s, startPos, t34, t94);
      var avg := WindowThresholds(s, startPos, t94).avg;
      var stop := ForwardStop(s, startPos, t34, t94);
      !EarlyReturn(s, startPos, t34, t94) ==>
        && r <= stop
        && (r > startPos + t34 ==> s[r] < avg)
        && (forall k :: r < k <= stop ==> s[k] >= avg)
  {
    var avg := WindowThresholds(s, startPos, t94).avg;
    var stop := ForwardStop(s, startPos, t34, t94);
    ZeroPositionUnfold(s, startPos, t34, t94, stop, avg);
    if !EarlyReturn(s, startPos, t34, t94) {
      WalkBackStops(s, stop, startPos + t34, avg);
    }
  }

  /**
   * Before turning back the search passed a stretch above low and then a
   * stretch below high; ending short of the window end, it ended on a
   * sample at or above high.
   */
  lemma ForwardStopShape(s: seq<real>, startPos: nat, t34: int, t94: int)
    requires SearchFits(s, startPos, t34, t94)
    ensures var th := WindowThresholds(s, startPos, t94);
      var stop := ForwardStop(s, startPos, t34, t94);
      var p1 := WalkAbove(s, startPos + t34, startPos + t94, th.low);
      && startPos + t34 <= p1 <= stop
      && (forall k :: startPos + t34 <= k < p1 ==> s[k] > th.low)
      && (forall k :: p1 <= k < stop ==> s[k] < th.high)
      && (stop < startPos + t94 ==> s[stop] >= th.high)
  {
    var th := WindowThresholds(s, startPos, t94);
    var p1 := WalkAbove(s, startPos + t34, startPos + t94, th.low);
    WalkAboveStops(s, startPos + t34, startPos + t94, th.low);
    WalkBelowStops(s, p1, startPos + t94, th.high);
  }

  /**
   * On a flat window the search returns exactly startPos + t34: with
   * t34 = 0 it does not move at all.
   */
  lemma ZeroPositionFlat(s: seq<real>, startPos: nat, t34: int, t94: int, v: real)
    requires SearchFits(s, startPos, t34, t94)
    requires forall k :: startPos <= k <= startPos + t94 ==> s[k] == v
    ensures ZeroPosition(s, startPos, t34, t94) == startPos + t34
  {
    var limit := startPos + t94;
    var mx := WindowMax(s, startPos, limit);
    var mn := WindowMin(s, startPos, limit);
    WindowExtremes(s, startPos, limit);
    assert mx == v && mn == v;
    var th := WindowThresholds(s, startPos, t94);
    assert th.avg == v && th.low == v && th.high == v;
  }

  // ---------------------------------------------------------------------
  // The confidence table

  predicate Ordered(th: Thresholds)
  {
    th.low <= th.avg <= th.high
  }

  /** The band of a sample: below low, below avg, below high, or above. */
  function Band(v: real, th: Thresholds): (b: nat)
    ensures b <= 3
  {
    if v < th.low then 0 else if v < th.avg then 1 else if v < th.high then 2 else 3
  }

  /** `judgeBit`'s table, on the samples at t34 and t54 and the frequency hint. */
  function Judge(v34: real, v54: real, th: Thresholds, isHighFreq: bool): SignalJudge
  {
    if v34 < th.low then
      if v54 < th.low then C
      else if v54 < th.avg then (if isHighFreq then B else D)
      else (if isHighFreq then A else D)
    else if v34 < th.avg then
      if v54 < th.low then (if isHighFreq then D else B)
      else if v54 < th.avg then C
      else if v54 < th.high then (if isHighFreq then B else D)
      else (if isHighFreq then A else D)
    else if v34 < th.high then
      if v54 < th.low then (if isHighFreq then D else A)
      else if v54 < th.avg then (if isHighFreq then D else B)
      else if v54 < th.high then C
      else (if isHighFreq then B else D)
    else
      if v54 < th.avg then (if isHighFreq then D else A)
      else if v54 < th.high then (if isHighFreq then D else B)
      else C
  }

  /**
   * The table as a rule on bands: C when both samples share a band; D when
   * the signal moves against the hint (rising between t34 and t54 for a low
   * frequency, falling for a high one); otherwise A across two bands or
   * more and B across one.
   */
  function JudgeByBands(v34: real, v54: real, th: Thresholds, isHighFreq: bool): SignalJudge
  {
    var b34 := Band(v34, th);
    var b54 := Band(v54, th);
    if b34 == b54 then C
    else if (b54 > b34) != isHighFreq then D
    else if b54 - b34 >= 2 || b34 - b54 >= 2 then A
    else B
  }

  lemma JudgeMatchesBands(v34: real, v54: real, th: Thresholds, isHighFreq: bool)
    requires Ordered(th)
    ensures Judge(v34, v54, th, isHighFreq) == JudgeByBands(v34, v54, th, isHighFreq)
  {
    var b34 := Band(v34, th);
    var b54 := Band(v54, th);
    if v34 < th.low {
      assert b34 == 0;
    } else if v34 < th.avg {
      assert b34 == 1;
    } else if v34 < th.high {
      assert b34 == 2;
    } else {
      assert b34 == 3;
    }
  }

  /** C exactly when both samples fall in the same band, whatever the hint. */
  lemma JudgeSameBand(v34: real, v54: real, th: Thresholds, isHighFreq: bool)
    requires Ordered(th)
    ensures Judge(v34, v54, th, isHighFreq) == C <==> Band(v34, th) == Band(v54, th)
  {
    JudgeMatchesBands(v34, v54, th, isHighFreq);
  }

  /** Outside C, flipping the hint turns D into A or B and A or B into D. */
  lemma JudgeHintFlip(v34: real, v54: real, th: Thresholds, isHighFreq: bool)
    requires Ordered(th) && Judge(v34, v54, th, isHighFreq) != C
    ensures var j1 := Judge(v34, v54, th, isHighFreq);
      var j2 := Judge(v34, v54, th, !isHighFreq);
      && j2 != C
      && (j1 == D <==> j2 != D)
      && (j1 != D ==> j1 == j2 || j2 == D)
      && (j2 != D ==> j1 == D)
  {
    JudgeMatchesBands(v34, v54, th, isHighFreq);
    JudgeMatchesBands(v34, v54, th, !isHighFreq);
  }

  // ---------------------------------------------------------------------
  // The analyser

  /** `FSKBitAnalyzer`: three offsets fixed at construction and the thresholds of the last search. */
  class FskBitAnalyzer {
    const t34: int
    const t54: int
    const t94: int
    var avg: real
    var low: real
    var high: real

    /** The offsets are those of a positive rate and frequency. */
    predicate Valid()
    {
      0 <= t34 <= t54 < t94
    }

    function Current(): Thresholds
      reads this
    {
      Thresholds(avg, low, high)
    }

    constructor (sampleRate: int, lowFreq: real)
      requires sampleRate > 0 && lowFreq > 0.0
      ensures MakeOffsets(sampleRate, lowFreq) == Some(Offsets(t34, t54, t94)) && Valid()
      ensures avg == 0.0 && low == -0.1 && high == 0.1 && Ordered(Current())
    {
      var o := MakeOffsets(sampleRate, lowFreq).value;
      t34, t54, t94 := o.t34, o.t54, o.t94;
      avg, low, high := 0.0, -0.1, 0.1;
    }

    /** `new FSKBitAnalyzer(...)`, which throws (here: null) when a parameter is not positive. */
    static method Create(sampleRate: int, lowFreq: real) returns (a: FskBitAnalyzer?)
      ensures a == null <==> MakeOffsets(sampleRate, lowFreq).None?
      ensures a != null ==> fresh(a) && a.Valid() && MakeOffsets(sampleRate, lowFreq) == Some(Offsets(a.t34, a.t54, a.t94))
    {
      if sampleRate <= 0 || lowFreq <= 0.0 {
        return null;
      }
      a := new FskBitAnalyzer(sampleRate, lowFreq);
    }

    /**
     * `getNextZeroPosition(buf, startPos)`: the position ZeroPosition finds;
     * the thresholds are left as the window's.
     */
    method GetNextZeroPosition(buf: array<real>, startPos: int) returns (r: int)
      requires Valid() && SearchFits(buf[..], startPos, t34, t94)
      modifies this
      ensures r == ZeroPosition(buf[..], startPos, t34, t94)
      ensures Current() == WindowThresholds(buf[..], startPos, t94) && Ordered(Current())
    {
      ghost var s := buf[..];
      var limitPos := Min(startPos + t94, buf.Length);
      var max, min := Extremes(buf, startPos, limitPos);
      var th := Midlines(max, min);
      assert limitPos == Limit(s, startPos, t94);
      assert th == WindowThresholds(s, startPos, t94);
      WindowThresholdsOrdered(s, startPos, t94);
      avg, low, high := th.avg, th.low, th.high;

      var spos := startPos + t34;
      var pos := WalkAboveLoop(buf, spos, limitPos, th.low);
      pos := WalkBelowLoop(buf, pos, limitPos, th.high);
      ZeroPositionUnfold(s, startPos, t34, t94, pos, th.avg);
      if buf[pos] >= th.avg && pos >= limitPos {
        pos := pos - 1;
        return pos;
      }
      pos := WalkBackLoop(buf, pos, spos, th.avg);
      return pos;
    }

    /** Forward while the sample is above th, as WalkAbove. */
    static method WalkAboveLoop(buf: array<real>, start: nat, limitPos: nat, th: real) returns (pos: nat)
      requires start <= limitPos < buf.Length
      ensures pos == WalkAbove(buf[..], start, limitPos, th)
    {
      pos := start;
      while buf[pos] > th && pos < limitPos
        invariant start <= pos <= limitPos
        invariant WalkAbove(buf[..], pos, limitPos, th) == WalkAbove(buf[..], start, limitPos, th)
        decreases limitPos - pos
      {
        pos := pos + 1;
      }
    }

    /** Forward while the sample is below th, as WalkBelow. */
    static method WalkBelowLoop(buf: array<real>, start: nat, limitPos: nat, th: real) returns (pos: nat)
      requires start <= limitPos < buf.Length
      ensures pos == WalkBelow(buf[..], start, limitPos, th)
    {
      pos := start;
      while buf[pos] < th && pos < limitPos
        invariant start <= pos <= limitPos
        invariant WalkBelow(buf[..], pos, limitPos, th) == WalkBelow(buf[..], start, limitPos, th)
        decreases limitPos - pos
      {
        pos := pos + 1;
      }
    }

    /** Back while the sample is at or above th, as WalkBack. */
    static method WalkBackLoop(buf: array<real>, start: nat, floor: nat, th: real) returns (pos: nat)
      requires floor <= start < buf.Length
      ensures pos == WalkBack(buf[..], start, floor, th)
    {
      pos := start;
      while buf[pos] >= th && pos > floor
        invariant floor <= pos <= start
        invariant WalkBack(buf[..], pos, floor, th) == WalkBack(buf[..], start, floor, th)
        decreases pos
      {
        pos := pos - 1;
      }
    }

    /** The min/max scan of buf[startPos..limitPos), from buf[startPos]. */
    static method Extremes(buf: array<real>, startPos: nat, limitPos: nat) returns (max: real, min: real)
      requires startPos <= limitPos <= buf.Length && startPos < buf.Length
      ensures max == WindowMax(buf[..], startPos, limitPos) && min == WindowMin(buf[..], startPos, limitPos)
    {
      max := buf[startPos];
      min := buf[startPos];
      var i := startPos;
      while i < limitPos
        invariant startPos <= i <= limitPos
        invariant max == WindowMax(buf[..], startPos, i) && min == WindowMin(buf[..], startPos, i)
      {
        max := MaxReal(max, buf[i]);
        min := MinReal(min, buf[i]);
        i := i + 1;
      }
    }

    /** `isHighFrequency(pos1, pos2)`: the interval is at most t54 samples long. */
    predicate IsHighFrequency(pos1: int, pos2: int)
    {
      pos2 - pos1 <= t54
    }

    /**
     * `judgeBit(buf, pos1, pos2, isHighFreq)`: the table on the samples t34
     * and t54 past pos1 under the current thresholds; pos2 plays no part.
     */
    function JudgeBit(buf: array<real>, pos1: int, pos2: int, isHighFreq: bool): (j: SignalJudge)
      requires 0 <= pos1 + t34 < buf.Length && 0 <= pos1 + t54 < buf.Length
      reads this, buf
      ensures Ordered(Current()) ==> j == JudgeByBands(buf[pos1 + t34], buf[pos1 + t54], Current(), isHighFreq)
    {
      if Ordered(Current()) then
        JudgeMatchesBands(buf[pos1 + t34], buf[pos1 + t54], Current(), isHighFreq);
        Judge(buf[pos1 + t34], buf[pos1 + t54], Current(), isHighFreq)
      else
        Judge(buf[pos1 + t34], buf[pos1 + t54], Current(), isHighFreq)
    }
  }

  /**
   * The classifier is monotone: an interval no longer than a high-frequency
   * one is high-frequency, and only the interval's length matters, not where
   * it lies.
   */
  lemma IsHighFrequencyMonotone(a: FskBitAnalyzer, p1: int, p2: int, q1: int, q2: int)
    requires q2 - q1 <= p2 - p1
    ensures a.IsHighFrequency(p1, p2) ==> a.IsHighFrequency(q1, q2)
  {
  }

  /** t54 is the one length that splits the intervals classified high from those classified low. */
  lemma IsHighFrequencyThreshold(a: FskBitAnalyzer, t: int)
    requires forall d :: a.IsHighFrequency(0, d) <==> d <= t
    ensures t == a.t54
  {
    assert a.IsHighFrequency(0, t);
    assert a.IsHighFrequency(0, a.t54);
  }
}
