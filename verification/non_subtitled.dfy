/** The pure middle of `find_non_subtitled_intervals` in
    bin/transcribe_non_subtitled_voice.py: the voiced intervals of the audio
    that subtitles do not cover, merged across short pauses and trimmed of
    short pieces. Times are sample counts; the subtitle times arrive already
    converted to samples. */
module NonSubtitled {

  import opened Wrappers
  import opened Seqs
  import opened Intervals
  import opened Merge
  import opened OverlapFilter

  /** `ms * sample_rate // 1000`: the whole number of samples in `ms`
      milliseconds, rounded down. */
  function MsToSamples(ms: nat, sampleRate: nat): (n: nat)
    ensures n * 1000 <= ms * sampleRate < (n + 1) * 1000
  {
    ms * sampleRate / 1000
  }

  /** The subtitle coverage above which a voiced interval is dropped, 0.7. */
  const Coverage70: Coverage := Ratio(7, 10)

  /** The thresholds of one run, in milliseconds. */
  datatype Thresholds = Thresholds(mergeSubtitlesMs: nat, mergeVoicedMs: nat, trimMs: nat)

  const DefaultThresholds := Thresholds(300, 500, 500)

  /** A numpy array of intervals: `np.array([])`, what an empty list of rows
      becomes, is one-dimensional and has no columns; any other list of rows
      becomes an n-by-2 table. */
  datatype Array = Flat | Table(rows: seq<Interval>)

  /** `np.array(rows)`. */
  function ArrayOf(rows: seq<Interval>): (a: Array)
    ensures a.Flat? <==> |rows| == 0
  {
    if |rows| == 0 then Flat else Table(rows)
  }

  /** `merge_intervals` on an array: fewer than two rows are returned as
      they are, whatever their shape. */
  function MergeArray(a: Array, gap: int): (r: Array)
    ensures a.Flat? ==> r.Flat?
    ensures a.Table? ==> r == Table(MergeIntervals(a.rows, gap))
  {
    match a
    case Flat => Flat
    case Table(rows) => if |rows| < 2 then a else Table(MergeIntervals(rows, gap))
  }

  /** `trim_intervals` on an array: the column slice `intervals[:,1]` of a
      one-dimensional array raises `IndexError`. */
  function TrimArray(a: Array, trimLength: int): (r: Result<seq<Interval>>)
    ensures r.Err? <==> a.Flat?
    ensures r.Err? ==> r.error == IndexError
    ensures a.Table? ==> r == Ok(TrimIntervals(a.rows, trimLength))
  {
    match a
    case Flat => Err(IndexError)
    case Table(rows) => Ok(TrimIntervals(rows, trimLength))
  }

  /** The voiced intervals the subtitles, merged across `merge_duration`
      gaps, cover less than 70%. */
  function Uncovered(voiced: seq<Interval>, subtitles: seq<Interval>, sampleRate: nat, t: Thresholds): (r: seq<Interval>)
    ensures IsSubsequence(r, voiced)
  {
    assert voiced[0..] == voiced;
    var subtitled := MergeIntervals(subtitles, MsToSamples(t.mergeSubtitlesMs, sampleRate));
    Sweep(voiced, subtitled, 0, 0, Coverage70)
  }

  /** The intervals as the source computes them, array shapes included. */
  function NonSubtitledAsWritten(voiced: seq<Interval>, subtitles: seq<Interval>, sampleRate: nat, t: Thresholds)
    : (r: Result<seq<Interval>>)
    ensures r.Err? <==> Uncovered(voiced, subtitles, sampleRate, t) == []
    ensures r.Err? ==> r.error == IndexError
  {
    var kept := ArrayOf(Uncovered(voiced, subtitles, sampleRate, t));
    TrimArray(MergeArray(kept, MsToSamples(t.mergeVoicedMs, sampleRate)), MsToSamples(t.trimMs, sampleRate))
  }

  /** The intervals as intended: an empty filter result gives no intervals. */
  function NonSubtitledIntervals(voiced: seq<Interval>, subtitles: seq<Interval>, sampleRate: nat, t: Thresholds)
    : (r: seq<Interval>)
    ensures forall x :: x in r ==> x.Length() > MsToSamples(t.trimMs, sampleRate)
  {
    var kept := Uncovered(voiced, subtitles, sampleRate, t);
    TrimIntervals(MergeIntervals(kept, MsToSamples(t.mergeVoicedMs, sampleRate)), MsToSamples(t.trimMs, sampleRate))
  }

  /** Whenever the source does not fail, it computes the intended intervals. */
  lemma AsWrittenAgrees(voiced: seq<Interval>, subtitles: seq<Interval>, sampleRate: nat, t: Thresholds)
    ensures NonSubtitledAsWritten(voiced, subtitles, sampleRate, t).Ok? ==>
              NonSubtitledAsWritten(voiced, subtitles, sampleRate, t).value == NonSubtitledIntervals(voiced, subtitles, sampleRate, t)
  {
  }

  /** A voiced interval fully under a subtitle is dropped by the filter; the
      empty list then reaches `trim_intervals` as `np.array([])` and raises
      `IndexError`, where no intervals were meant. */
  lemma FullyCoveredCrashes()
    ensures NonSubtitledAsWritten([Interval(0, 100)], [Interval(0, 100)], 16000, DefaultThresholds) == Err(IndexError)
    ensures NonSubtitledIntervals([Interval(0, 100)], [Interval(0, 100)], 16000, DefaultThresholds) == []
  {
    var subtitled := MergeIntervals([Interval(0, 100)], MsToSamples(300, 16000));
    assert subtitled == [Interval(0, 100)];
    assert ScanFilters(Interval(0, 100), subtitled, 1) == (0, 1);
    assert ScanFilters(Interval(0, 100), subtitled, 0) == (100, 1);
    assert Sweep([Interval(0, 100)], subtitled, 1, 1, Coverage70) == [];
    assert Uncovered([Interval(0, 100)], [Interval(0, 100)], 16000, DefaultThresholds) == [];
  }

  /** Every intended interval is longer than the trim threshold, comes from
      merging intervals the subtitles leave mostly uncovered, and the result
      keeps the voiced intervals' start order. */
  lemma NonSubtitledIntervalsProperties(voiced: seq<Interval>, subtitles: seq<Interval>, sampleRate: nat, t: Thresholds)
    ensures forall x :: x in NonSubtitledIntervals(voiced, subtitles, sampleRate, t) ==>
              x.Length() > MsToSamples(t.trimMs, sampleRate)
    ensures SortedByStart(voiced) && WellFormed(voiced) ==>
              SortedByStart(NonSubtitledIntervals(voiced, subtitles, sampleRate, t))
              && WellFormed(NonSubtitledIntervals(voiced, subtitles, sampleRate, t))
    ensures |NonSubtitledIntervals(voiced, subtitles, sampleRate, t)| <= |Uncovered(voiced, subtitles, sampleRate, t)|
  {
    var kept := Uncovered(voiced, subtitles, sampleRate, t);
    var merged := MergeIntervals(kept, MsToSamples(t.mergeVoicedMs, sampleRate));
    var r := NonSubtitledIntervals(voiced, subtitles, sampleRate, t);
    Sweep0IsSubsequence(voiced, MergeIntervals(subtitles, MsToSamples(t.mergeSubtitlesMs, sampleRate)), Coverage70);
    SubsequenceKeepsOrder(kept, voiced);
    if SortedByStart(voiced) && WellFormed(voiced) {
      MergeIntervalsSorted(kept, MsToSamples(t.mergeVoicedMs, sampleRate));
    }
    SubsequenceKeepsOrder(r, merged);
    SubsequenceLength(r, merged);
  }

  /** A NumPy float64: a finite value, an infinity of either sign, or NaN. */
  datatype Float = Finite(value: real) | Infinity(negative: bool) | NaN

  /** `a / b` for a NumPy integer `a`: true division, which for a zero
      divisor warns and gives an infinity with the sign of `a`, or NaN for
      `0 / 0`, instead of raising. */
  function Divide(a: int, b: nat): (q: Float)
    ensures b > 0 ==> q.Finite? && q.value * b as real == a as real
    ensures b == 0 ==> !q.Finite?
    ensures b == 0 ==> (q.NaN? <==> a == 0)
    ensures q.Infinity? ==> q.negative == (a < 0)
  {
    if b > 0 then Finite(a as real / b as real) else if a == 0 then NaN else Infinity(a < 0)
  }

  /** One yielded segment: its ends in seconds. */
  datatype Segment = Segment(start: Float, end: Float)

  /** `start / sample_rate, end / sample_rate` for each interval in order. */
  function Segments(intervals: seq<Interval>, sampleRate: nat): (r: seq<Segment>)
    ensures |r| == |intervals|
    ensures sampleRate > 0 ==> forall k :: 0 <= k < |intervals| ==>
              && r[k].start.Finite? && r[k].start.value * sampleRate as real == intervals[k].start as real
              && r[k].end.Finite? && r[k].end.value * sampleRate as real == intervals[k].end as real
    ensures sampleRate == 0 ==> forall k :: 0 <= k < |intervals| ==>
              && (r[k].start.NaN? <==> intervals[k].start == 0) && (r[k].end.NaN? <==> intervals[k].end == 0)
              && !r[k].start.Finite? && !r[k].end.Finite?
  {
    seq(|intervals|, k requires 0 <= k < |intervals| =>
      Segment(Divide(intervals[k].start, sampleRate), Divide(intervals[k].end, sampleRate)))
  }
}
