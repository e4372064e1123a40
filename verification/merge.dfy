/** `merge_intervals` and `merge_annotated_intervals` of
    multimodal/intervals.py: one left-to-right pass that merges an interval
    into the running one when it starts less than `gap` after the running
    interval's end. */
module Merge {

  import opened Intervals

  /** The pass from input index `i`, with the running interval
      `[runStart, runEnd)`.  A merged interval takes the end of the interval
      merged last, not the largest end. */
  function MergeFrom(intervals: seq<Interval>, gap: int, i: nat, runStart: int, runEnd: int): (r: seq<Interval>)
    requires 1 <= i <= |intervals|
    ensures 1 <= |r| <= |intervals| - i + 1
    ensures r[0].start == runStart
    decreases |intervals| - i
  {
    if i == |intervals| then [Interval(runStart, runEnd)]
    else if intervals[i].start < runEnd + gap then MergeFrom(intervals, gap, i + 1, runStart, intervals[i].end)
    else [Interval(runStart, runEnd)] + MergeFrom(intervals, gap, i + 1, intervals[i].start, intervals[i].end)
  }

  function MergeIntervals(intervals: seq<Interval>, gap: int): (r: seq<Interval>)
    ensures |r| <= |intervals|
    ensures |intervals| < 2 ==> r == intervals
  {
    if |intervals| < 2 then intervals
    else MergeFrom(intervals, gap, 1, intervals[0].start, intervals[0].end)
  }

  // ---------------------------------------------------------------------
  // Reference: runs between breaks

  /** Index `i` starts a new merged interval: it does not start less than
      `gap` after the end of its predecessor. */
  predicate IsBreak(intervals: seq<Interval>, gap: int, i: nat)
    requires 1 <= i < |intervals|
  {
    intervals[i].start >= intervals[i - 1].end + gap
  }

  /** The break indices from `i` on, ascending. */
  function BreaksFrom(intervals: seq<Interval>, gap: int, i: nat): (r: seq<nat>)
    requires 1 <= i <= |intervals|
    ensures forall k :: 0 <= k < |r| ==> i <= r[k] < |intervals| && IsBreak(intervals, gap, r[k])
    ensures forall k :: 0 <= k < |r| - 1 ==> r[k] < r[k + 1]
    decreases |intervals| - i
  {
    if i == |intervals| then []
    else (if IsBreak(intervals, gap, i) then [i] else []) + BreaksFrom(intervals, gap, i + 1)
  }

  /** Boundaries of the merged groups: 0, every break index, and the length. */
  function Boundaries(intervals: seq<Interval>, gap: int): (b: seq<nat>)
    requires |intervals| >= 1
    ensures Ascending(b, |intervals|) && b[0] == 0
  {
    GroupsFromBreaks(intervals, gap, 0, 1);
    [0] + BreaksFrom(intervals, gap, 1) + [|intervals|]
  }

  /** Strictly ascending indices ending at `n`. */
  predicate Ascending(b: seq<nat>, n: nat) {
    && |b| >= 1
    && b[|b| - 1] == n
    && (forall k :: 0 <= k < |b| ==> b[k] <= n)
    && (forall k :: 0 <= k < |b| - 1 ==> b[k] < n && b[k] < b[k + 1])
  }

  /** `r` holds one interval per group between consecutive boundaries `b`:
      group `k` spans inputs `b[k] .. b[k + 1] - 1`, and its interval runs
      from the first one's start to the last one's end. */
  predicate MergedByGroups(r: seq<Interval>, intervals: seq<Interval>, b: seq<nat>)
    requires Ascending(b, |intervals|)
  {
    && |r| == |b| - 1
    && forall k :: 0 <= k < |r| ==> r[k] == Interval(intervals[b[k]].start, intervals[b[k + 1] - 1].end)
  }

  lemma GroupsFromBreaks(intervals: seq<Interval>, gap: int, a: nat, i: nat)
    requires a < i <= |intervals|
    ensures Ascending([a] + BreaksFrom(intervals, gap, i) + [|intervals|], |intervals|)
  {
    var bs := BreaksFrom(intervals, gap, i);
    var b := [a] + bs + [|intervals|];
    forall k | 0 <= k < |b| - 1 ensures b[k] < |intervals| && b[k] < b[k + 1] {
      if k == 0 && |bs| > 0 {
        assert b[1] == bs[0];
      } else if 0 < k < |bs| {
        assert b[k] == bs[k - 1] && b[k + 1] == bs[k];
      } else if k == |bs| && k > 0 {
        assert b[k] == bs[k - 1];
      }
    }
  }

  /** One more group in front: the interval from input `a`'s start to input
      `b'[0] - 1`'s end. */
  lemma MergedByGroupsCons(r': seq<Interval>, intervals: seq<Interval>, a: nat, b': seq<nat>)
    requires Ascending(b', |intervals|) && a < b'[0]
    requires MergedByGroups(r', intervals, b')
    ensures Ascending([a] + b', |intervals|)
    ensures MergedByGroups([Interval(intervals[a].start, intervals[b'[0] - 1].end)] + r', intervals, [a] + b')
  {
    var b := [a] + b';
    var r := [Interval(intervals[a].start, intervals[b'[0] - 1].end)] + r';
    assert Ascending(b, |intervals|) by {
      forall k | 0 <= k < |b| ensures b[k] <= |intervals| {
        if k > 0 {
          assert b[k] == b'[k - 1];
        }
      }
      forall k | 0 <= k < |b| - 1 ensures b[k] < |intervals| && b[k] < b[k + 1] {
        if k > 0 {
          assert b[k] == b'[k - 1] && b[k + 1] == b'[k];
        }
      }
    }
    forall k | 0 <= k < |r| ensures r[k] == Interval(intervals[b[k]].start, intervals[b[k + 1] - 1].end) {
      if k > 0 {
        assert r[k] == r'[k - 1] && b[k] == b'[k - 1] && b[k + 1] == b'[k];
      }
    }
  }

  /** The pass from `i`, with a running interval that began at input `a`,
      yields one interval per group between `a`, the later breaks and the end. */
  lemma {:induction false} MergeFromGroups(intervals: seq<Interval>, gap: int, a: nat, i: nat)
    requires a < i <= |intervals|
    ensures Ascending([a] + BreaksFrom(intervals, gap, i) + [|intervals|], |intervals|)
    ensures MergedByGroups(MergeFrom(intervals, gap, i, intervals[a].start, intervals[i - 1].end), intervals,
                           [a] + BreaksFrom(intervals, gap, i) + [|intervals|])
    decreases |intervals| - i
  {
    GroupsFromBreaks(intervals, gap, a, i);
    var n := |intervals|;
    if i == n {
      assert [a] + BreaksFrom(intervals, gap, i) + [n] == [a, n];
    } else if intervals[i].start < intervals[i - 1].end + gap {
      MergeFromGroups(intervals, gap, a, i + 1);
      JoinStep(intervals, gap, a, i);
    } else {
      MergeFromGroups(intervals, gap, i, i + 1);
      SplitStep(intervals, gap, a, i);
    }
  }

  /** Input `i` joins the running interval: the groups are those from `i + 1`. */
  lemma JoinStep(intervals: seq<Interval>, gap: int, a: nat, i: nat)
    requires a < i < |intervals| && intervals[i].start < intervals[i - 1].end + gap
    requires Ascending([a] + BreaksFrom(intervals, gap, i + 1) + [|intervals|], |intervals|)
    requires MergedByGroups(MergeFrom(intervals, gap, i + 1, intervals[a].start, intervals[i].end), intervals,
                            [a] + BreaksFrom(intervals, gap, i + 1) + [|intervals|])
    ensures Ascending([a] + BreaksFrom(intervals, gap, i) + [|intervals|], |intervals|)
    ensures MergedByGroups(MergeFrom(intervals, gap, i, intervals[a].start, intervals[i - 1].end), intervals,
                           [a] + BreaksFrom(intervals, gap, i) + [|intervals|])
  {
    assert BreaksFrom(intervals, gap, i) == BreaksFrom(intervals, gap, i + 1);
  }

  /** Input `i` is a break: the running interval closes at `i - 1` and the
      groups from `i` follow it. */
  lemma SplitStep(intervals: seq<Interval>, gap: int, a: nat, i: nat)
    requires a < i < |intervals| && intervals[i].start >= intervals[i - 1].end + gap
    requires Ascending([i] + BreaksFrom(intervals, gap, i + 1) + [|intervals|], |intervals|)
    requires MergedByGroups(MergeFrom(intervals, gap, i + 1, intervals[i].start, intervals[i].end), intervals,
                            [i] + BreaksFrom(intervals, gap, i + 1) + [|intervals|])
    ensures Ascending([a] + BreaksFrom(intervals, gap, i) + [|intervals|], |intervals|)
    ensures MergedByGroups(MergeFrom(intervals, gap, i, intervals[a].start, intervals[i - 1].end), intervals,
                           [a] + BreaksFrom(intervals, gap, i) + [|intervals|])
  {
    var b' := [i] + BreaksFrom(intervals, gap, i + 1) + [|intervals|];
    var r' := MergeFrom(intervals, gap, i + 1, intervals[i].start, intervals[i].end);
    MergedByGroupsCons(r', intervals, a, b');
    assert [a] + BreaksFrom(intervals, gap, i) + [|intervals|] == [a] + b';
  }

  /** Merged interval `k` runs from the start of the first input of group
      `k` to the end of the LAST input of that group (not the largest end),
      where the groups are the runs of inputs between the break indices. */
  lemma MergeIntervalsGroups(intervals: seq<Interval>, gap: int)
    requires |intervals| >= 2
    ensures MergedByGroups(MergeIntervals(intervals, gap), intervals, Boundaries(intervals, gap))
  {
    MergeFromGroups(intervals, gap, 0, 1);
  }

  lemma {:induction false} BreaksFromComplete(intervals: seq<Interval>, gap: int, i: nat, j: nat)
    requires 1 <= i <= j < |intervals| && IsBreak(intervals, gap, j)
    ensures j in BreaksFrom(intervals, gap, i)
    decreases j - i
  {
    if i < j {
      BreaksFromComplete(intervals, gap, i + 1, j);
    }
  }

  /** Every interior boundary is a break, and every break is a boundary. */
  lemma BoundariesAreBreaks(intervals: seq<Interval>, gap: int)
    requires |intervals| >= 1
    ensures var b := Boundaries(intervals, gap);
      && (forall k :: 0 < k < |b| - 1 ==> 1 <= b[k] < |intervals| && IsBreak(intervals, gap, b[k]))
      && (forall j :: 1 <= j < |intervals| && IsBreak(intervals, gap, j) ==> j in b)
  {
    var b := Boundaries(intervals, gap);
    var bs := BreaksFrom(intervals, gap, 1);
    forall k | 0 < k < |b| - 1 ensures 1 <= b[k] < |intervals| && IsBreak(intervals, gap, b[k]) {
      assert b[k] == bs[k - 1];
    }
    forall j | 1 <= j < |intervals| && IsBreak(intervals, gap, j) ensures j in b {
      BreaksFromComplete(intervals, gap, 1, j);
    }
  }

  lemma SeparatedByBreaks(r: seq<Interval>, intervals: seq<Interval>, b: seq<nat>, gap: int)
    requires Ascending(b, |intervals|) && MergedByGroups(r, intervals, b)
    requires forall k :: 0 < k < |b| - 1 ==> 1 <= b[k] < |intervals| && IsBreak(intervals, gap, b[k])
    ensures forall k :: 0 <= k < |r| - 1 ==> r[k + 1].start >= r[k].end + gap
  {
    forall k | 0 <= k < |r| - 1 ensures r[k + 1].start >= r[k].end + gap {
      var j := b[k + 1];
      assert 1 <= j < |intervals| && IsBreak(intervals, gap, j);
      assert r[k] == Interval(intervals[b[k]].start, intervals[j - 1].end);
      assert r[k + 1] == Interval(intervals[j].start, intervals[b[k + 2] - 1].end);
    }
  }

  /** Consecutive merged intervals are separated by at least `gap`, because
      merging uses a strict `<`. */
  lemma MergeIntervalsSeparated(intervals: seq<Interval>, gap: int)
    ensures var r := MergeIntervals(intervals, gap);
      forall k :: 0 <= k < |r| - 1 ==> r[k + 1].start >= r[k].end + gap
  {
    if |intervals| >= 2 {
      MergeIntervalsGroups(intervals, gap);
      BoundariesAreBreaks(intervals, gap);
      SeparatedByBreaks(MergeIntervals(intervals, gap), intervals, Boundaries(intervals, gap), gap);
    }
  }

  lemma AscendingPairwise(b: seq<nat>, n: nat)
    requires Ascending(b, n)
    ensures forall k, l :: 0 <= k < l < |b| ==> b[k] < b[l]
  {
    forall k, l | 0 <= k < l < |b| ensures b[k] < b[l] {
      var m := k + 1;
      while m < l
        invariant k < m <= l
        invariant b[k] < b[m]
      {
        m := m + 1;
      }
    }
  }

  /** Merging keeps start order and well-formedness. */
  lemma MergeIntervalsSorted(intervals: seq<Interval>, gap: int)
    requires SortedByStart(intervals) && WellFormed(intervals)
    ensures SortedByStart(MergeIntervals(intervals, gap))
    ensures WellFormed(MergeIntervals(intervals, gap))
  {
    if |intervals| >= 2 {
      var r := MergeIntervals(intervals, gap);
      var b := Boundaries(intervals, gap);
      MergeIntervalsGroups(intervals, gap);
      assert MergedByGroups(r, intervals, b);
      AscendingPairwise(b, |intervals|);
      forall k, l | 0 <= k < l < |r| ensures r[k].start <= r[l].start {
        assert b[k] < b[l] < |intervals|;
        assert r[k] == Interval(intervals[b[k]].start, intervals[b[k + 1] - 1].end);
        assert r[l] == Interval(intervals[b[l]].start, intervals[b[l + 1] - 1].end);
      }
      forall k | 0 <= k < |r| ensures r[k].start <= r[k].end {
        var last := b[k + 1] - 1;
        assert b[k] <= last < |intervals|;
        assert r[k] == Interval(intervals[b[k]].start, intervals[last].end);
        assert intervals[b[k]].start <= intervals[last].start;
      }
    }
  }

  /** With every consecutive pair already separated by `gap`, merging changes
      nothing. */
  lemma {:induction false} MergeFromSeparated(intervals: seq<Interval>, gap: int, i: nat)
    requires 1 <= i <= |intervals|
    requires forall k :: 1 <= k < |intervals| ==> IsBreak(intervals, gap, k)
    ensures MergeFrom(intervals, gap, i, intervals[i - 1].start, intervals[i - 1].end) == intervals[i - 1..]
    decreases |intervals| - i
  {
    if i < |intervals| {
      assert IsBreak(intervals, gap, i);
      MergeFromSeparated(intervals, gap, i + 1);
      assert intervals[i - 1..] == [intervals[i - 1]] + intervals[i..];
    } else {
      assert intervals[i - 1..] == [intervals[i - 1]];
    }
  }

  /** Merging twice with the same gap is merging once. */
  lemma MergeIntervalsIdempotent(intervals: seq<Interval>, gap: int)
    ensures MergeIntervals(MergeIntervals(intervals, gap), gap) == MergeIntervals(intervals, gap)
  {
    var r := MergeIntervals(intervals, gap);
    MergeIntervalsSeparated(intervals, gap);
    if |r| >= 2 {
      forall k | 1 <= k < |r| ensures IsBreak(r, gap, k) {
        assert r[k - 1 + 1].start >= r[k - 1].end + gap;
      }
      MergeFromSeparated(r, gap, 1);
      assert r[0..] == r;
    }
  }

  // ---------------------------------------------------------------------
  // merge_annotated_intervals

  /** An interval with one payload field (a transcript word, for one). */
  datatype Annotated<T> = Annotated(start: int, end: int, data: T)

  /** A merged interval with its constituents' payloads in input order. */
  datatype Group<T> = Group(start: int, end: int, data: seq<T>)

  /** Input of fewer than two intervals comes back as it is, not wrapped in
      groups; longer input comes back as groups. */
  datatype MergedAnnotated<T> = Unchanged(items: seq<Annotated<T>>) | Grouped(groups: seq<Group<T>>)

  function MergeAnnotatedFrom<T>(intervals: seq<Annotated<T>>, minOverlap: int, i: nat,
                                 runStart: int, runEnd: int, data: seq<T>): seq<Group<T>>
    requires 1 <= i <= |intervals|
    decreases |intervals| - i
  {
    if i == |intervals| then [Group(runStart, runEnd, data)]
    else
      var iv := intervals[i];
      if iv.start < runEnd + minOverlap then
        MergeAnnotatedFrom(intervals, minOverlap, i + 1, runStart, iv.end, data + [iv.data])
      else
        [Group(runStart, runEnd, data)] + MergeAnnotatedFrom(intervals, minOverlap, i + 1, iv.start, iv.end, [iv.data])
  }

  function MergeAnnotatedIntervals<T>(intervals: seq<Annotated<T>>, minOverlap: int): (r: MergedAnnotated<T>)
    ensures r.Unchanged? <==> |intervals| < 2
    ensures r.Unchanged? ==> r.items == intervals
  {
    if |intervals| < 2 then Unchanged(intervals)
    else
      var first := intervals[0];
      Grouped(MergeAnnotatedFrom(intervals, minOverlap, 1, first.start, first.end, [first.data]))
  }

  function Bounds<T>(intervals: seq<Annotated<T>>): (r: seq<Interval>)
    ensures |r| == |intervals|
    ensures forall k :: 0 <= k < |r| ==> r[k] == Interval(intervals[k].start, intervals[k].end)
  {
    seq(|intervals|, k requires 0 <= k < |intervals| => Interval(intervals[k].start, intervals[k].end))
  }

  /** The bounds of the groups: each group read as an interval annotated
      with its payloads. */
  function GroupBounds<T>(groups: seq<Group<T>>): (r: seq<Interval>)
    ensures |r| == |groups|
    ensures forall k :: 0 <= k < |r| ==> r[k] == Interval(groups[k].start, groups[k].end)
  {
    Bounds(seq(|groups|, k requires 0 <= k < |groups| => Annotated(groups[k].start, groups[k].end, groups[k].data)))
  }

  function Payloads<T>(intervals: seq<Annotated<T>>): (r: seq<T>)
    ensures |r| == |intervals|
    ensures forall k :: 0 <= k < |r| ==> r[k] == intervals[k].data
  {
    seq(|intervals|, k requires 0 <= k < |intervals| => intervals[k].data)
  }

  function FlattenPayloads<T>(groups: seq<Group<T>>): seq<T>
    decreases |groups|
  {
    if |groups| == 0 then [] else groups[0].data + FlattenPayloads(groups[1..])
  }

  /** The grouping pass bounds its groups exactly as the plain pass merges. */
  lemma {:induction false} MergeAnnotatedFromBounds<T>(intervals: seq<Annotated<T>>, minOverlap: int, i: nat,
                                                       runStart: int, runEnd: int, data: seq<T>)
    requires 1 <= i <= |intervals|
    ensures GroupBounds(MergeAnnotatedFrom(intervals, minOverlap, i, runStart, runEnd, data))
         == MergeFrom(Bounds(intervals), minOverlap, i, runStart, runEnd)
    decreases |intervals| - i
  {
    if i < |intervals| {
      var iv := intervals[i];
      if iv.start < runEnd + minOverlap {
        MergeAnnotatedFromBounds(intervals, minOverlap, i + 1, runStart, iv.end, data + [iv.data]);
      } else {
        MergeAnnotatedFromBounds(intervals, minOverlap, i + 1, iv.start, iv.end, [iv.data]);
        var rest := MergeAnnotatedFrom(intervals, minOverlap, i + 1, iv.start, iv.end, [iv.data]);
        assert GroupBounds([Group(runStart, runEnd, data)] + rest) == [Interval(runStart, runEnd)] + GroupBounds(rest);
      }
    }
  }

  /** The grouping pass loses no payload and reorders none. */
  lemma {:induction false} MergeAnnotatedFromPayloads<T>(intervals: seq<Annotated<T>>, minOverlap: int, i: nat,
                                                         runStart: int, runEnd: int, data: seq<T>)
    requires 1 <= i <= |intervals|
    ensures FlattenPayloads(MergeAnnotatedFrom(intervals, minOverlap, i, runStart, runEnd, data))
         == data + Payloads(intervals)[i..]
    decreases |intervals| - i
  {
    var p := Payloads(intervals);
    if i == |intervals| {
      var g := MergeAnnotatedFrom(intervals, minOverlap, i, runStart, runEnd, data);
      assert FlattenPayloads(g) == data + FlattenPayloads(g[1..]);
      assert p[i..] == [];
    } else {
      var iv := intervals[i];
      assert p[i..] == [iv.data] + p[i + 1..];
      if iv.start < runEnd + minOverlap {
        MergeAnnotatedFromPayloads(intervals, minOverlap, i + 1, runStart, iv.end, data + [iv.data]);
      } else {
        MergeAnnotatedFromPayloads(intervals, minOverlap, i + 1, iv.start, iv.end, [iv.data]);
        var rest := MergeAnnotatedFrom(intervals, minOverlap, i + 1, iv.start, iv.end, [iv.data]);
        assert ([Group(runStart, runEnd, data)] + rest)[1..] == rest;
      }
    }
  }

  /** `merge_annotated_intervals` groups exactly like `merge_intervals`, and
      the groups' payloads, concatenated, are the input payloads in order;
      so there are as many payloads as inputs. */
  lemma MergeAnnotatedMatchesMerge<T>(intervals: seq<Annotated<T>>, minOverlap: int)
    requires |intervals| >= 2
    ensures var r := MergeAnnotatedIntervals(intervals, minOverlap);
      && GroupBounds(r.groups) == MergeIntervals(Bounds(intervals), minOverlap)
      && FlattenPayloads(r.groups) == Payloads(intervals)
      && |FlattenPayloads(r.groups)| == |intervals|
  {
    var first := intervals[0];
    MergeAnnotatedFromBounds(intervals, minOverlap, 1, first.start, first.end, [first.data]);
    MergeAnnotatedFromPayloads(intervals, minOverlap, 1, first.start, first.end, [first.data]);
    assert Payloads(intervals) == [first.data] + Payloads(intervals)[1..];
  }
}
