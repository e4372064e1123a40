/** `filter_overlapping_intervals` of multimodal/intervals.py: a two-cursor
    sweep that drops every candidate interval covered by the filter
    intervals at least up to a coverage ratio. */
module OverlapFilter {

  import opened Seqs
  import opened Intervals

  /** The coverage threshold, a ratio `num / den` (the source takes a
      float; here it is an exact rational). */
  datatype Ratio = Ratio(num: int, den: int)
  type Coverage = r: Ratio | r.den > 0 witness Ratio(0, 1)

  function Max(a: int, b: int): int { if a >= b then a else b }
  function Min(a: int, b: int): int { if a <= b then a else b }

  /** The source's per-filter contribution: the filter's length minus how far
      it sticks out on the left and on the right of the candidate. */
  function FilterOverlap(c: Interval, f: Interval): int {
    (f.end - f.start) - (Max(0, c.start - f.start) + Max(0, f.end - c.end))
  }

  /** Reference: the length of `[c.start, c.end) ∩ [f.start, f.end)`. */
  function Intersection(c: Interval, f: Interval): nat {
    if Min(c.end, f.end) > Max(c.start, f.start) then Min(c.end, f.end) - Max(c.start, f.start) else 0
  }

  /** Where the sweep adds a filter's contribution, that contribution is
      exactly the length of the intersection. */
  lemma FilterOverlapIsIntersection(c: Interval, f: Interval)
    requires c.start <= c.end && f.start <= f.end
    requires f.start <= c.end && c.start < f.end
    ensures FilterOverlap(c, f) == Intersection(c, f)
  {
  }

  /** `overlap / length < coverage`, with numpy's division: a zero length
      gives +inf, nan or -inf, of which only -inf (a negative overlap)
      compares below the threshold. */
  predicate BelowCoverage(overlap: int, length: int, coverage: Coverage) {
    if length > 0 then overlap * coverage.den < coverage.num * length
    else if length < 0 then overlap * coverage.den > coverage.num * length
    else overlap < 0
  }

  /** The inner loop for one candidate `c`, starting at filter cursor `k`:
      the summed overlap and the cursor it stops at.  A filter beyond the
      candidate stops the loop unconsumed; a filter ending after the
      candidate is counted and stops the loop unconsumed; any other filter
      is consumed. */
  function ScanFilters(c: Interval, filters: seq<Interval>, k: nat): (r: (int, nat))
    requires k <= |filters|
    ensures k <= r.1 <= |filters|
    decreases |filters| - k
  {
    if k == |filters| then (0, k)
    else
      var f := filters[k];
      if f.start > c.end then (0, k)
      else
        var contribution := if c.start < f.end then FilterOverlap(c, f) else 0;
        if c.end < f.end then (contribution, k)
        else
          var rest := ScanFilters(c, filters, k + 1);
          (contribution + rest.0, rest.1)
  }

  /** The outer loop from candidate cursor `i` and filter cursor `k`: it
      stops as soon as either cursor is exhausted. */
  function Sweep(candidates: seq<Interval>, filters: seq<Interval>, i: nat, k: nat, coverage: Coverage): (r: seq<Interval>)
    requires i <= |candidates| && k <= |filters|
    ensures IsSubsequence(r, candidates[i..])
    decreases |candidates| - i
  {
    if k == |filters| || i == |candidates| then []
    else
      var c := candidates[i];
      var scan := ScanFilters(c, filters, k);
      var rest := Sweep(candidates, filters, i + 1, scan.1, coverage);
      var keep := BelowCoverage(scan.0, c.Length(), coverage);
      assert candidates[i..][1..] == candidates[i + 1..];
      ConsSubsequence(keep, candidates[i..], rest);
      (if keep then [c] else []) + rest
  }

  /** The sweep as the source writes it: two cursors that only move forward. */
  method FilterOverlappingIntervals(toBeFiltered: seq<Interval>, filterIntervals: seq<Interval>, filterCoverage: Coverage)
    returns (filtered: seq<Interval>)
    ensures filtered == Sweep(toBeFiltered, filterIntervals, 0, 0, filterCoverage)
    ensures IsSubsequence(filtered, toBeFiltered)
    ensures |filterIntervals| == 0 ==> filtered == []
    ensures SweepDomain(toBeFiltered, filterIntervals) ==>
      filtered == FilterSpec(toBeFiltered, filterIntervals, filterCoverage)
  {
    var currentFilter: nat := 0;
    var current: nat := 0;
    filtered := [];
    while currentFilter < |filterIntervals| && current < |toBeFiltered|
      invariant current <= |toBeFiltered| && currentFilter <= |filterIntervals|
      invariant filtered + Sweep(toBeFiltered, filterIntervals, current, currentFilter, filterCoverage)
             == Sweep(toBeFiltered, filterIntervals, 0, 0, filterCoverage)
      decreases |toBeFiltered| - current
    {
      var c := toBeFiltered[current];
      ghost var first := currentFilter;
      var overlap;
      overlap, currentFilter := ScanFrom(c, filterIntervals, currentFilter);
      SweepUnfold(toBeFiltered, filterIntervals, current, first, filterCoverage);
      ghost var rest := Sweep(toBeFiltered, filterIntervals, current + 1, currentFilter, filterCoverage);
      var keep := BelowCoverage(overlap, c.Length(), filterCoverage);
      KeepStep(filtered, keep, c, rest);
      if keep {
        filtered := filtered + [c];
      }
      current := current + 1;
    }
    assert Sweep(toBeFiltered, filterIntervals, current, currentFilter, filterCoverage) == [];
    assert filtered + [] == filtered;
    Sweep0IsSubsequence(toBeFiltered, filterIntervals, filterCoverage);
    if SweepDomain(toBeFiltered, filterIntervals) {
      SweepMatchesSpec(toBeFiltered, filterIntervals, filterCoverage);
    }
  }

  /** The inner loop for one candidate: it sums the contributions of the
      filters from cursor `k` and returns the cursor it stops at. */
  method ScanFrom(c: Interval, filters: seq<Interval>, k: nat) returns (overlap: int, next: nat)
    requires k <= |filters|
    ensures (overlap, next) == ScanFilters(c, filters, k)
  {
    overlap := 0;
    next := k;
    while next < |filters|
      invariant k <= next <= |filters|
      invariant ScanFilters(c, filters, k) == (overlap + ScanFilters(c, filters, next).0, ScanFilters(c, filters, next).1)
      decreases |filters| - next
    {
      var f := filters[next];
      ScanFiltersUnfold(c, filters, next);
      if f.start > c.end {
        break;
      } else if c.start < f.end {
        overlap := overlap + FilterOverlap(c, f);
      }
      if c.end < f.end {
        break;
      }
      next := next + 1;
    }
  }

  /** Keeping `x` or not, the kept prefix followed by the rest is unchanged. */
  lemma KeepStep<T>(kept: seq<T>, keep: bool, x: T, rest: seq<T>)
    ensures (if keep then kept + [x] else kept) + rest == kept + ((if keep then [x] else []) + rest)
  {
    if !keep {
      assert [] + rest == rest;
    }
  }

  lemma SweepUnfold(candidates: seq<Interval>, filters: seq<Interval>, i: nat, k: nat, coverage: Coverage)
    requires i < |candidates| && k < |filters|
    ensures var scan := ScanFilters(candidates[i], filters, k);
      Sweep(candidates, filters, i, k, coverage)
      == (if BelowCoverage(scan.0, candidates[i].Length(), coverage) then [candidates[i]] else [])
         + Sweep(candidates, filters, i + 1, scan.1, coverage)
  {
  }

  lemma ScanFiltersUnfold(c: Interval, filters: seq<Interval>, k: nat)
    requires k < |filters|
    ensures var f := filters[k];
      var contribution := if c.start < f.end then FilterOverlap(c, f) else 0;
      ScanFilters(c, filters, k)
      == if f.start > c.end then (0, k)
         else if c.end < f.end then (contribution, k)
         else (contribution + ScanFilters(c, filters, k + 1).0, ScanFilters(c, filters, k + 1).1)
  {
  }

  lemma Sweep0IsSubsequence(candidates: seq<Interval>, filters: seq<Interval>, coverage: Coverage)
    ensures IsSubsequence(Sweep(candidates, filters, 0, 0, coverage), candidates)
    ensures |filters| == 0 ==> Sweep(candidates, filters, 0, 0, coverage) == []
  {
    assert candidates[0..] == candidates;
  }

  // ---------------------------------------------------------------------
  // Reference specification

  /** Inputs on which the sweep's result has a closed form: well-formed,
      start-sorted, non-overlapping candidates and filters. */
  predicate SweepDomain(candidates: seq<Interval>, filters: seq<Interval>) {
    WellFormed(candidates) && Disjoint(candidates) && WellFormed(filters) && Disjoint(filters)
  }

  /** The total intersection of `c` with the filters from index `k` on. */
  function OverlapFrom(c: Interval, filters: seq<Interval>, k: nat): nat
    requires k <= |filters|
    decreases |filters| - k
  {
    if k == |filters| then 0 else Intersection(c, filters[k]) + OverlapFrom(c, filters, k + 1)
  }

  /** How much of `c` all the filters cover together. */
  function TotalOverlap(c: Interval, filters: seq<Interval>): nat {
    OverlapFrom(c, filters, 0)
  }

  /** Reference: keep a candidate iff its total overlap with all filters is
      below the coverage; nothing is kept without filters, and nothing after
      the first candidate that reaches the end of the last filter. */
  function FilterSpec(candidates: seq<Interval>, filters: seq<Interval>, coverage: Coverage): seq<Interval>
    decreases |candidates|
  {
    if |filters| == 0 || |candidates| == 0 then []
    else
      var c := candidates[0];
      (if BelowCoverage(TotalOverlap(c, filters), c.Length(), coverage) then [c] else [])
        + (if filters[|filters| - 1].end <= c.end then [] else FilterSpec(candidates[1..], filters, coverage))
  }

  /** Filters that all start at or after the candidate's end contribute nothing. */
  lemma {:induction false} OverlapFromBeyond(c: Interval, filters: seq<Interval>, k: nat)
    requires k <= |filters|
    requires forall j :: k <= j < |filters| ==> filters[j].start >= c.end
    ensures OverlapFrom(c, filters, k) == 0
    decreases |filters| - k
  {
    if k < |filters| {
      OverlapFromBeyond(c, filters, k + 1);
    }
  }

  /** Filters that all end at or before the candidate's start contribute nothing. */
  lemma {:induction false} OverlapFromSkipsConsumed(c: Interval, filters: seq<Interval>, k: nat)
    requires k <= |filters|
    requires forall j :: 0 <= j < k ==> filters[j].end <= c.start
    ensures OverlapFrom(c, filters, 0) == OverlapFrom(c, filters, k)
  {
    var j := k;
    while j > 0
      invariant 0 <= j <= k
      invariant OverlapFrom(c, filters, j) == OverlapFrom(c, filters, k)
    {
      j := j - 1;
      assert Intersection(c, filters[j]) == 0;
    }
  }

  /** On the sweep domain, the inner loop sums the overlap of every filter
      from its cursor on, consumes only filters ending within the candidate,
      and stops before the last filter only if that filter ends after the
      candidate. */
  lemma {:induction false} ScanFiltersComputesOverlap(c: Interval, filters: seq<Interval>, k: nat)
    requires c.start <= c.end && WellFormed(filters) && Disjoint(filters)
    requires k <= |filters|
    ensures ScanFilters(c, filters, k).0 == OverlapFrom(c, filters, k)
    ensures forall j :: k <= j < ScanFilters(c, filters, k).1 ==> filters[j].end <= c.end
    ensures ScanFilters(c, filters, k).1 < |filters| ==> c.end < filters[ScanFilters(c, filters, k).1].end
    decreases |filters| - k
  {
    if k < |filters| {
      var f := filters[k];
      if f.start > c.end {
        OverlapFromBeyond(c, filters, k);
      } else {
        if c.start < f.end {
          FilterOverlapIsIntersection(c, f);
        }
        if c.end < f.end {
          OverlapFromBeyond(c, filters, k + 1);
        } else {
          ScanFiltersComputesOverlap(c, filters, k + 1);
        }
      }
    }
  }

  /** The sweep from any reachable cursor pair agrees with the reference on
      the remaining candidates. */
  lemma {:induction false} SweepFromMatchesSpec(candidates: seq<Interval>, filters: seq<Interval>, i: nat, k: nat, coverage: Coverage)
    requires SweepDomain(candidates, filters)
    requires i <= |candidates| && k < |filters|
    requires i < |candidates| ==> forall j :: 0 <= j < k ==> filters[j].end <= candidates[i].start
    ensures Sweep(candidates, filters, i, k, coverage) == FilterSpec(candidates[i..], filters, coverage)
    decreases |candidates| - i
  {
    if i < |candidates| {
      var c := candidates[i];
      var scan := ScanFilters(c, filters, k);
      ScanFiltersComputesOverlap(c, filters, k);
      OverlapFromSkipsConsumed(c, filters, k);
      assert candidates[i..][0] == c;
      assert candidates[i..][1..] == candidates[i + 1..];
      var last := filters[|filters| - 1];
      if scan.1 == |filters| {
        assert last.end <= c.end;
      } else {
        assert c.end < filters[scan.1].end <= last.end;
        if i + 1 < |candidates| {
          forall j | 0 <= j < scan.1 ensures filters[j].end <= candidates[i + 1].start {
            assert c.end <= candidates[i + 1].start;
          }
        }
        SweepFromMatchesSpec(candidates, filters, i + 1, scan.1, coverage);
      }
    }
  }

  /** On well-formed, sorted, non-overlapping inputs the sweep keeps exactly
      the candidates the reference keeps: its per-candidate sum is the true
      total overlap with all filters. */
  lemma SweepMatchesSpec(candidates: seq<Interval>, filters: seq<Interval>, coverage: Coverage)
    requires SweepDomain(candidates, filters)
    ensures Sweep(candidates, filters, 0, 0, coverage) == FilterSpec(candidates, filters, coverage)
  {
    assert candidates[0..] == candidates;
    if |filters| > 0 {
      SweepFromMatchesSpec(candidates, filters, 0, 0, coverage);
    }
  }
}
