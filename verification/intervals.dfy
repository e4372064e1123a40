/** Half-open integer intervals `[start, end)` and the order-preserving
    interval functions of multimodal/intervals.py that need no sweep:
    `trim_intervals` and `limit_length`. */
module Intervals {

  import opened Seqs

  datatype Interval = Interval(start: int, end: int) {
    function Length(): int {
      end - start
    }
  }

  predicate WellFormed(xs: seq<Interval>) {
    forall i :: 0 <= i < |xs| ==> xs[i].start <= xs[i].end
  }

  /** Start-ascending order, the precondition the source's callers meet. */
  predicate SortedByStart(xs: seq<Interval>) {
    forall i, j :: 0 <= i < j < |xs| ==> xs[i].start <= xs[j].start
  }

  /** Every interval ends before any later one starts. */
  predicate Disjoint(xs: seq<Interval>) {
    forall i, j :: 0 <= i < j < |xs| ==> xs[i].end <= xs[j].start
  }

  predicate StartLe(a: Interval, b: Interval) {
    a.start <= b.start
  }

  predicate EndLeStart(a: Interval, b: Interval) {
    a.end <= b.start
  }

  /** A subsequence of a start-sorted (or disjoint) sequence is again
      start-sorted (or disjoint). */
  lemma SubsequenceKeepsOrder(a: seq<Interval>, b: seq<Interval>)
    requires IsSubsequence(a, b)
    ensures SortedByStart(b) ==> SortedByStart(a)
    ensures Disjoint(b) ==> Disjoint(a)
    ensures WellFormed(b) ==> WellFormed(a)
  {
    if SortedByStart(b) {
      SubsequencePairwise(a, b, StartLe);
    }
    if Disjoint(b) {
      SubsequencePairwise(a, b, EndLeStart);
    }
    SubsequenceMembers(a, b);
    if WellFormed(b) {
      forall i | 0 <= i < |a| ensures a[i].start <= a[i].end {
        assert a[i] in b;
      }
    }
  }

  // ---------------------------------------------------------------------
  // trim_intervals

  /** The intervals strictly longer than `trimLength`, in input order. */
  function TrimIntervals(intervals: seq<Interval>, trimLength: int): (r: seq<Interval>)
    ensures IsSubsequence(r, intervals)
    ensures forall x :: x in r ==> x.Length() > trimLength
    ensures forall x :: x in intervals && x.Length() > trimLength ==> x in r
    decreases |intervals|
  {
    if |intervals| == 0 then []
    else
      var rest := TrimIntervals(intervals[1..], trimLength);
      var keep := intervals[0].Length() > trimLength;
      ConsSubsequence(keep, intervals, rest);
      (if keep then [intervals[0]] else []) + rest
  }

  /** Trimming keeps every long interval as many times as it occurs and
      drops every copy of a short one. */
  lemma {:induction false} TrimIntervalsCounts(intervals: seq<Interval>, trimLength: int)
    ensures forall x :: multiset(TrimIntervals(intervals, trimLength))[x]
                          == if x.Length() > trimLength then multiset(intervals)[x] else 0
    decreases |intervals|
  {
    if |intervals| > 0 {
      TrimIntervalsCounts(intervals[1..], trimLength);
      assert intervals == [intervals[0]] + intervals[1..];
    }
  }

  // ---------------------------------------------------------------------
  // limit_length

  /** `ceil(a / b)` for non-negative `a` and positive `b`. */
  function CeilDiv(a: nat, b: nat): nat
    requires b > 0
  {
    (a + b - 1) / b
  }

  lemma CeilDivBounds(a: nat, b: nat)
    requires b > 0
    ensures (CeilDiv(a, b) - 1) * b < a <= CeilDiv(a, b) * b
  {
    var q := CeilDiv(a, b);
    var m := (a + b - 1) % b;
    assert a + b - 1 == q * b + m;
    assert (q - 1) * b == q * b - b;
  }

  lemma MulMonotone(x: nat, y: nat, z: nat)
    requires y <= z
    ensures x * y <= x * z
  {
  }

  /** The pieces `limit_length` yields for one interval. */
  function SplitInterval(iv: Interval, limit: int): (r: seq<Interval>)
    requires limit > 0
    ensures |r| >= 1 && r[0].start == iv.start && r[|r| - 1].end == iv.end
  {
    var len := iv.Length();
    if len >= limit then
      var n := CeilDiv(len, limit);
      var sub := CeilDiv(len, n);
      seq(n - 1, k requires 0 <= k < n - 1 => Interval(iv.start + k * sub, iv.start + k * sub + sub))
        + [Interval(iv.start + (n - 1) * sub, iv.end)]
    else
      [iv]
  }

  /** Consecutive pieces that exactly cover `[iv.start, iv.end)`. */
  predicate Tiles(pieces: seq<Interval>, iv: Interval) {
    && |pieces| > 0
    && pieces[0].start == iv.start
    && pieces[|pieces| - 1].end == iv.end
    && forall k :: 0 <= k < |pieces| - 1 ==> pieces[k].end == pieces[k + 1].start
  }

  /** The piece count and piece length `limit_length` computes for a
      length `len >= limit`: all but the last piece have length `sub`, and the
      last, `len - (n - 1) * sub`, is non-empty and no longer than `limit`. */
  lemma SplitArithmetic(len: nat, limit: nat)
    requires 0 < limit <= len
    ensures var n := CeilDiv(len, limit); var sub := CeilDiv(len, n);
      && n >= 1 && 0 < sub <= limit
      && (n - 1) * sub < len
      && len - (n - 1) * sub <= limit
  {
    var n := CeilDiv(len, limit);
    CeilDivBounds(len, limit);
    assert n >= 1;
    var sub := CeilDiv(len, n);
    CeilDivBounds(len, n);
    assert sub - 1 < limit by {
      if sub - 1 >= limit {
        MulMonotone(n, limit, sub - 1);
      }
    }
    MulMonotone(n - 1, sub, limit);
    assert n * sub == (n - 1) * sub + sub;
  }

  /** An interval shorter than the limit passes through; a longer one is cut
      into `ceil(L / limit)` non-empty pieces of at most `limit` that tile it. */
  lemma SplitIntervalTiles(iv: Interval, limit: int)
    requires limit > 0
    ensures iv.Length() < limit ==> SplitInterval(iv, limit) == [iv]
    ensures iv.Length() >= limit ==>
      && |SplitInterval(iv, limit)| == CeilDiv(iv.Length(), limit)
      && Tiles(SplitInterval(iv, limit), iv)
      && forall p :: p in SplitInterval(iv, limit) ==> 0 < p.Length() <= limit
  {
    var len := iv.Length();
    if len >= limit {
      var n := CeilDiv(len, limit);
      var sub := CeilDiv(len, n);
      SplitArithmetic(len, limit);
      var r := SplitInterval(iv, limit);
      assert |r| == n;
      assert r[n - 1] == Interval(iv.start + (n - 1) * sub, iv.end);
      forall k | 0 <= k < n - 1 ensures r[k].end == r[k + 1].start {
        assert r[k] == Interval(iv.start + k * sub, iv.start + k * sub + sub);
        if k + 1 < n - 1 {
          assert r[k + 1] == Interval(iv.start + (k + 1) * sub, iv.start + (k + 1) * sub + sub);
          assert (k + 1) * sub == k * sub + sub;
        } else {
          assert (n - 1) * sub == k * sub + sub;
        }
      }
      forall p | p in r ensures 0 < p.Length() <= limit {
        var k :| 0 <= k < |r| && r[k] == p;
      }
    }
  }

  /** Sum of the lengths of `xs`. */
  function TotalLength(xs: seq<Interval>): int
    decreases |xs|
  {
    if |xs| == 0 then 0 else xs[0].Length() + TotalLength(xs[1..])
  }

  lemma {:induction false} TotalLengthAppend(a: seq<Interval>, b: seq<Interval>)
    ensures TotalLength(a + b) == TotalLength(a) + TotalLength(b)
    decreases |a|
  {
    if |a| == 0 {
      assert a + b == b;
    } else {
      assert (a + b)[0] == a[0];
      assert (a + b)[1..] == a[1..] + b;
      TotalLengthAppend(a[1..], b);
    }
  }

  /** Contiguous pieces add up to the span from the first start to the last end. */
  lemma {:induction false} TotalLengthTelescopes(pieces: seq<Interval>)
    requires |pieces| > 0
    requires forall k :: 0 <= k < |pieces| - 1 ==> pieces[k].end == pieces[k + 1].start
    ensures TotalLength(pieces) == pieces[|pieces| - 1].end - pieces[0].start
    decreases |pieces|
  {
    if |pieces| > 1 {
      TotalLengthTelescopes(pieces[1..]);
    }
  }

  /** `limit_length`: every interval's pieces, in input order. */
  function LimitLength(intervals: seq<Interval>, limit: int): (r: seq<Interval>)
    requires limit > 0
    ensures |r| >= |intervals|
    decreases |intervals|
  {
    if |intervals| == 0 then []
    else SplitInterval(intervals[0], limit) + LimitLength(intervals[1..], limit)
  }

  /** Splitting invents and loses no time: the pieces cover exactly as much
      as the inputs, and every piece that is not an input passed through is
      non-empty and at most `limit` long. */
  lemma {:induction false} LimitLengthPreservesLength(intervals: seq<Interval>, limit: int)
    requires limit > 0
    ensures TotalLength(LimitLength(intervals, limit)) == TotalLength(intervals)
    ensures forall x :: x in LimitLength(intervals, limit) ==>
      (x in intervals && x.Length() < limit) || 0 < x.Length() <= limit
    decreases |intervals|
  {
    if |intervals| > 0 {
      var iv := intervals[0];
      var pieces := SplitInterval(iv, limit);
      LimitLengthPreservesLength(intervals[1..], limit);
      SplitIntervalTiles(iv, limit);
      TotalLengthAppend(pieces, LimitLength(intervals[1..], limit));
      if iv.Length() >= limit {
        TotalLengthTelescopes(pieces);
      }
      forall x | x in LimitLength(intervals, limit)
        ensures (x in intervals && x.Length() < limit) || 0 < x.Length() <= limit
      {
        if x !in pieces {
          assert x in LimitLength(intervals[1..], limit);
        }
      }
    }
  }
}
