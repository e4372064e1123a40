/** `SubtitleFacet` of multimodal/dataset/facet/subtitle_facet.py: how
    `create_facet` lays a subtitle file out as flat datasets with a
    two-level index, and the three readers over those datasets. Times are
    integer ticks; reading the SubRip file and writing HDF5 are left to the
    caller. */
module SubtitleFacet {

  import opened Wrappers
  import opened Seqs
  import opened Intervals
  import opened SubtitleParser
  import opened SubRip

  /** One parsed SubRip subtitle: its span and the tokeniser events of its content. */
  datatype Subtitle = Subtitle(start: int, end: int, content: seq<Event>)

  /** The datasets of a subtitle facet. Subtitle `k` spans `times[k]` and
      owns the strings (with their colours and styles) at positions
      `stringIndex[k].0 .. stringIndex[k].1 - 1`. */
  datatype FacetData = FacetData(times: seq<Interval>, stringIndex: seq<(nat, nat)>,
                                 strings: seq<string>, colors: seq<Color>, styles: seq<Style>)

  /** The parser after a wipe, as each subtitle finds it. */
  const Fresh := Wipe(Parser([], [], [], NullColor, Plain))

  /** The ranges are consecutive: the first starts at 0, each starts where
      the previous one ends, and the last ends at `n`. */
  predicate Consecutive(index: seq<(nat, nat)>, n: nat) {
    && (|index| == 0 ==> n == 0)
    && (|index| > 0 ==> index[0].0 == 0 && index[|index| - 1].1 == n)
    && (forall k :: 0 <= k < |index| ==> index[k].0 <= index[k].1)
    && (forall k :: 0 <= k < |index| - 1 ==> index[k].1 == index[k + 1].0)
  }

  /** What `create_facet` promises about its datasets for `subtitles`. */
  predicate Laid(d: FacetData, subtitles: seq<Subtitle>) {
    && |d.times| == |d.stringIndex| == |subtitles|
    && |d.strings| == |d.colors| == |d.styles|
    && Consecutive(d.stringIndex, |d.strings|)
    && forall k :: 0 <= k < |subtitles| ==> Holds(d, k, subtitles[k])
  }

  /** Subtitle `k`'s span, and its strings, colours and styles are exactly
      what the wiped parser records for its content. */
  predicate Holds(d: FacetData, k: nat, s: Subtitle)
    requires k < |d.times| && k < |d.stringIndex|
  {
    var (lo, hi) := d.stringIndex[k];
    && d.times[k] == Interval(s.start, s.end)
    && Feed(Fresh, s.content).Ok?
    && lo <= hi <= |d.strings| && hi <= |d.colors| && hi <= |d.styles|
    && d.strings[lo..hi] == Feed(Fresh, s.content).value.strings
    && d.colors[lo..hi] == Feed(Fresh, s.content).value.colors
    && d.styles[lo..hi] == Feed(Fresh, s.content).value.styles
  }

  /** `create_facet`: each subtitle is parsed from a wiped parser and its
      records appended, with its index range; the first subtitle whose
      markup raises aborts the whole facet. */
  method CreateFacet(subtitles: seq<Subtitle>) returns (r: Result<FacetData>)
    ensures r.Err? <==> exists k :: 0 <= k < |subtitles| && Feed(Fresh, subtitles[k].content).Err?
    ensures r.Ok? ==> Laid(r.value, subtitles)
  {
    var parser := Fresh;
    var times: seq<Interval> := [];
    var index: seq<(nat, nat)> := [];
    var strings: seq<string> := [];
    var colors: seq<Color> := [];
    var styles: seq<Style> := [];
    var startSubtitle: nat := 0;
    for k := 0 to |subtitles|
      invariant |times| == |index| == k
      invariant |strings| == |colors| == |styles| == startSubtitle
      invariant Consecutive(index, startSubtitle)
      invariant forall j :: 0 <= j < k ==> Holds(FacetData(times, index, strings, colors, styles), j, subtitles[j])
    {
      parser := Wipe(parser);
      times := times + [Interval(subtitles[k].start, subtitles[k].end)];
      var fed := Feed(parser, subtitles[k].content);
      if fed.Err? {
        return Err(fed.error);
      }
      parser := fed.value;
      ghost var before := FacetData(times[..k], index, strings, colors, styles);
      AppendKeepsHolds(before, subtitles, k, parser, startSubtitle);
      strings := strings + parser.strings;
      colors := colors + parser.colors;
      styles := styles + parser.styles;
      index := index + [(startSubtitle, startSubtitle + |parser.strings|)];
      startSubtitle := startSubtitle + |parser.strings|;
    }
    return Ok(FacetData(times, index, strings, colors, styles));
  }

  /** Appending subtitle `k`'s records and range keeps what holds of the
      subtitles before it and makes it hold of subtitle `k`. */
  lemma AppendKeepsHolds(d: FacetData, subtitles: seq<Subtitle>, k: nat, parsed: Parser, n: nat)
    requires k < |subtitles| && |d.times| == |d.stringIndex| == k
    requires |d.strings| == |d.colors| == |d.styles| == n
    requires Feed(Fresh, subtitles[k].content) == Ok(parsed)
    requires forall j :: 0 <= j < k ==> Holds(d, j, subtitles[j])
    ensures var d' := FacetData(d.times + [Interval(subtitles[k].start, subtitles[k].end)],
                                d.stringIndex + [(n, n + |parsed.strings|)],
                                d.strings + parsed.strings, d.colors + parsed.colors, d.styles + parsed.styles);
            forall j :: 0 <= j <= k ==> Holds(d', j, subtitles[j])
  {
    var t := Interval(subtitles[k].start, subtitles[k].end);
    var range := (n, n + |parsed.strings|);
    forall j | 0 <= j < k
      ensures Holds(FacetData(d.times + [t], d.stringIndex + [range], d.strings + parsed.strings,
                              d.colors + parsed.colors, d.styles + parsed.styles), j, subtitles[j])
    {
      HoldsExtended(d, t, range, parsed, j, subtitles[j]);
    }
    HoldsAppended(d, subtitles[k], parsed, n);
  }

  /** Appending keeps an earlier subtitle's records where they were. */
  lemma HoldsExtended(d: FacetData, t: Interval, range: (nat, nat), parsed: Parser, j: nat, s: Subtitle)
    requires j < |d.times| && j < |d.stringIndex| && Holds(d, j, s)
    ensures Holds(FacetData(d.times + [t], d.stringIndex + [range], d.strings + parsed.strings,
                            d.colors + parsed.colors, d.styles + parsed.styles), j, s)
  {
    var (lo, hi) := d.stringIndex[j];
    assert (d.strings + parsed.strings)[lo..hi] == d.strings[lo..hi];
    assert (d.colors + parsed.colors)[lo..hi] == d.colors[lo..hi];
    assert (d.styles + parsed.styles)[lo..hi] == d.styles[lo..hi];
  }

  /** The appended subtitle's records sit in its range. */
  lemma HoldsAppended(d: FacetData, s: Subtitle, parsed: Parser, n: nat)
    requires |d.times| == |d.stringIndex| && |d.strings| == |d.colors| == |d.styles| == n
    requires Feed(Fresh, s.content) == Ok(parsed)
    ensures Holds(FacetData(d.times + [Interval(s.start, s.end)], d.stringIndex + [(n, n + |parsed.strings|)],
                            d.strings + parsed.strings, d.colors + parsed.colors, d.styles + parsed.styles),
                  |d.times|, s)
  {
    assert Aligned(parsed);
    assert (d.strings + parsed.strings)[n..n + |parsed.strings|] == parsed.strings;
    assert (d.colors + parsed.colors)[n..n + |parsed.strings|] == parsed.colors;
    assert (d.styles + parsed.styles)[n..n + |parsed.strings|] == parsed.styles;
  }

  /** Consecutive ranges partition `[0, n)`: each position lies in exactly
      one range. */
  lemma {:induction false} ConsecutivePartition(index: seq<(nat, nat)>, n: nat, j: nat)
    requires Consecutive(index, n) && j < n
    ensures exists k :: 0 <= k < |index| && index[k].0 <= j < index[k].1
    ensures forall k, k' :: (0 <= k < |index| && 0 <= k' < |index| && index[k].0 <= j < index[k].1
                             && index[k'].0 <= j < index[k'].1) ==> k == k'
    decreases |index|
  {
    var m := |index| - 1;
    ConsecutiveOrdered(index, n);
    if j >= index[m].0 {
      assert index[m].0 <= j < index[m].1;
    } else {
      var init := index[..m];
      assert Consecutive(init, index[m].0);
      ConsecutivePartition(init, index[m].0, j);
      var k :| 0 <= k < |init| && init[k].0 <= j < init[k].1;
      assert index[k] == init[k];
    }
  }

  /** Earlier ranges end no later than later ranges start. */
  lemma {:induction false} ConsecutiveOrdered(index: seq<(nat, nat)>, n: nat)
    requires Consecutive(index, n)
    ensures forall k, k' :: 0 <= k < k' < |index| ==> index[k].1 <= index[k'].0
    decreases |index|
  {
    if |index| > 1 {
      var m := |index| - 1;
      var init := index[..m];
      assert Consecutive(init, index[m].0);
      ConsecutiveOrdered(init, index[m].0);
      forall k, k' | 0 <= k < k' < |index| ensures index[k].1 <= index[k'].0 {
        if k' < m {
          assert index[k] == init[k] && index[k'] == init[k'];
        } else {
          assert index[k] == init[k];
          if k < m - 1 {
            assert init[k].1 <= init[m - 1].0;
          }
        }
      }
    }
  }

  // ---------------------------------------------------------------------
  // get_times_complement

  /** The rows `get_times_complement` fills in: from 0 to the first start,
      from each end to the next start, and from the last end to 0 (that
      row's end is never assigned and stays at its initial zero). */
  function ComplementRows(times: seq<Interval>): (rows: seq<Interval>)
    ensures |rows| == |times| + 1
  {
    seq(|times| + 1, k requires 0 <= k <= |times| =>
      Interval(if k == 0 then 0 else times[k - 1].end, if k == |times| then 0 else times[k].start))
  }

  /** `get_times_complement(minimum_time)`: the rows strictly longer than
      `minimum_time`, in order. A facet created from no subtitles stores
      `times` as the one-dimensional `np.array([])`, and its column slice
      `times[:, 1]` raises `IndexError`. */
  function GetTimesComplement(times: seq<Interval>, minimumTime: int): (r: Result<seq<Interval>>)
    ensures r.Err? <==> |times| == 0
    ensures r.Err? ==> r.error == IndexError
    ensures r.Ok? ==> IsSubsequence(r.value, ComplementRows(times))
    ensures r.Ok? ==> forall x :: x in r.value ==> x.Length() > minimumTime
  {
    if |times| == 0 then Err(IndexError) else Ok(TrimIntervals(ComplementRows(times), minimumTime))
  }

  /** The facet `create_facet` lays out for no subtitles has no times, so
      asking it for its complement raises `IndexError`. */
  lemma ComplementNoSubtitles(d: FacetData, minimumTime: int)
    requires Laid(d, [])
    ensures GetTimesComplement(d.times, minimumTime) == Err(IndexError)
  {
  }

  /** With subtitles, the trailing row's end is never assigned: it runs
      from the last end back to 0, and is reported whenever its negative
      length still exceeds the minimum. */
  lemma ComplementTrailingRow(times: seq<Interval>, minimumTime: int)
    requires |times| > 0
    ensures -times[|times| - 1].end > minimumTime ==>
              Interval(times[|times| - 1].end, 0) in GetTimesComplement(times, minimumTime).value
  {
    var rows := ComplementRows(times);
    assert rows[|times|] == Interval(times[|times| - 1].end, 0);
  }

  /** For ordered, non-overlapping subtitles from time 0 on and a
      non-negative minimum, every reported interval is a stretch without
      subtitles lying before the last subtitle: the time after the last
      subtitle is never reported. */
  lemma ComplementUncovered(times: seq<Interval>, minimumTime: int, x: Interval)
    requires WellFormed(times) && Disjoint(times) && |times| > 0 && times[0].start >= 0
    requires minimumTime >= 0 && x in GetTimesComplement(times, minimumTime).value
    ensures 0 <= x.start && x.start + minimumTime < x.end <= times[|times| - 1].start
    ensures forall k :: 0 <= k < |times| ==> x.end <= times[k].start || times[k].end <= x.start
  {
    LastEndNonNegative(times);
    var i := ComplementRowOf(times, minimumTime, x);
    assert x == Interval(if i == 0 then 0 else times[i - 1].end, times[i].start);
    forall k | 0 <= k < |times| ensures x.end <= times[k].start || times[k].end <= x.start {
      GapUncovered(times, i, k);
    }
    GapBounds(times, i);
  }

  /** A reported row is the gap before some subtitle, never the trailing row. */
  lemma ComplementRowOf(times: seq<Interval>, minimumTime: int, x: Interval) returns (i: nat)
    requires |times| > 0 && times[|times| - 1].end >= 0
    requires minimumTime >= 0 && x in GetTimesComplement(times, minimumTime).value
    ensures i < |times| && x == ComplementRows(times)[i]
  {
    var rows := ComplementRows(times);
    var r := TrimIntervals(rows, minimumTime);
    assert GetTimesComplement(times, minimumTime) == Ok(r);
    SubsequenceMembers(r, rows);
    i :| 0 <= i < |rows| && rows[i] == x;
    assert rows[|times|] == Interval(times[|times| - 1].end, 0);
  }

  /** Subtitles from time 0 on end at a non-negative time. */
  lemma LastEndNonNegative(times: seq<Interval>)
    requires WellFormed(times) && Disjoint(times) && |times| > 0 && times[0].start >= 0
    ensures times[|times| - 1].end >= 0
  {
    GapBounds(times, |times| - 1);
  }

  /** The gap before subtitle `i` and subtitle `k` do not overlap. */
  lemma GapUncovered(times: seq<Interval>, i: nat, k: nat)
    requires WellFormed(times) && Disjoint(times) && i < |times| && k < |times|
    ensures times[i].start <= times[k].start || times[k].end <= (if i == 0 then 0 else times[i - 1].end)
  {
    if i < k {
      assert times[i].start <= times[i].end <= times[k].start;
    } else if k < i - 1 {
      assert times[k].end <= times[i - 1].start <= times[i - 1].end;
    }
  }

  /** The gap before subtitle `i` lies between 0 and the last start. */
  lemma GapBounds(times: seq<Interval>, i: nat)
    requires WellFormed(times) && Disjoint(times) && i < |times| && times[0].start >= 0
    ensures 0 <= (if i == 0 then 0 else times[i - 1].end)
    ensures times[i].start <= times[|times| - 1].start
  {
    if i > 0 {
      assert times[0].start <= times[0].end <= times[i - 1].end;
    }
    if i < |times| - 1 {
      assert times[i].start <= times[i].end <= times[|times| - 1].start;
    }
  }

  /** Every stretch before a subtitle, from the previous subtitle's end (or
      from 0), that is longer than `minimum_time` is reported. */
  lemma ComplementComplete(times: seq<Interval>, minimumTime: int, k: nat)
    requires k < |times|
    requires (if k == 0 then times[k].start else times[k].start - times[k - 1].end) > minimumTime
    ensures Interval(if k == 0 then 0 else times[k - 1].end, times[k].start) in GetTimesComplement(times, minimumTime).value
  {
    assert ComplementRows(times)[k] == Interval(if k == 0 then 0 else times[k - 1].end, times[k].start);
  }

  /** The documented example: subtitles at [1, 2) and [5, 6) leave [0, 1) and [2, 5). */
  lemma ComplementExample()
    ensures GetTimesComplement([Interval(1, 2), Interval(5, 6)], 0) == Ok([Interval(0, 1), Interval(2, 5)])
  {
    var a, b, c := Interval(0, 1), Interval(2, 5), Interval(6, 0);
    ExampleRows();
    TrimCons(c, [], 0);
    TrimCons(b, [c], 0);
    TrimCons(a, [b, c], 0);
    assert [c] + [] == [c] && [b] + [c] == [b, c] && [a] + [b, c] == [a, b, c];
    assert TrimIntervals([c], 0) == [];
    assert TrimIntervals([b, c], 0) == [b];
    assert TrimIntervals([a, b, c], 0) == [a, b];
  }

  lemma ExampleRows()
    ensures ComplementRows([Interval(1, 2), Interval(5, 6)]) == [Interval(0, 1), Interval(2, 5), Interval(6, 0)]
  {
    var rows := ComplementRows([Interval(1, 2), Interval(5, 6)]);
    assert rows[0] == Interval(0, 1) && rows[1] == Interval(2, 5) && rows[2] == Interval(6, 0);
  }

  lemma TrimCons(x: Interval, rest: seq<Interval>, trimLength: int)
    ensures TrimIntervals([x] + rest, trimLength) == (if x.Length() > trimLength then [x] else []) + TrimIntervals(rest, trimLength)
  {
    assert ([x] + rest)[1..] == rest;
  }

  // ---------------------------------------------------------------------
  // get_times_filtered

  /** `xs[lo:hi]` for non-negative bounds: both clamp to the length, and a
      lower bound past the upper one gives nothing. */
  function Slice<T>(xs: seq<T>, lo: nat, hi: nat): (r: seq<T>)
    ensures |r| <= |xs|
    ensures lo <= hi <= |xs| ==> r == xs[lo..hi]
  {
    var a := if lo <= |xs| then lo else |xs|;
    var b := if hi <= |xs| then hi else |xs|;
    if a <= b then xs[a..b] else []
  }

  /** `[s for s in strings if keep(s)]`. */
  function Passing(strings: seq<string>, keep: string -> bool): (r: seq<string>)
    ensures IsSubsequence(r, strings)
    decreases |strings|
  {
    if |strings| == 0 then []
    else
      var rest := Passing(strings[1..], keep);
      ConsSubsequence(keep(strings[0]), strings, rest);
      (if keep(strings[0]) then [strings[0]] else []) + rest
  }

  /** The passing strings are exactly those the filter accepts. */
  lemma {:induction false} PassingMembers(strings: seq<string>, keep: string -> bool, s: string)
    ensures s in Passing(strings, keep) <==> s in strings && keep(s)
    decreases |strings|
  {
    if |strings| > 0 {
      PassingMembers(strings[1..], keep, s);
      assert s in strings <==> s == strings[0] || s in strings[1..];
    }
  }

  /** Subtitle `i`'s strings that pass the filter. */
  function PassingAt(d: FacetData, i: nat, keep: string -> bool): seq<string>
    requires i < |d.stringIndex|
  {
    Passing(Slice(d.strings, d.stringIndex[i].0, d.stringIndex[i].1), keep)
  }

  /** Subtitle `i` has a string that passes the filter. */
  predicate Reported(d: FacetData, i: nat, keep: string -> bool)
    requires i < |d.stringIndex|
  {
    |PassingAt(d, i, keep)| > 0
  }

  /** The row `get_times_filtered` would report for subtitle `i`. */
  function FilteredRow(d: FacetData, i: nat, keep: string -> bool): (Interval, string)
    requires i < |d.times| && i < |d.stringIndex|
  {
    (d.times[i], Join("\n", PassingAt(d, i, keep)))
  }

  /** The loop of `get_times_filtered` over the first `n` subtitles. */
  function FilteredRows(d: FacetData, n: nat, keep: string -> bool): (r: seq<(Interval, string)>)
    requires n <= |d.times| && n <= |d.stringIndex|
    ensures |r| <= n
    decreases n
  {
    if n == 0 then []
    else
      FilteredRows(d, n - 1, keep) + (if Reported(d, n - 1, keep) then [FilteredRow(d, n - 1, keep)] else [])
  }

  /** `get_times_filtered(filter)`: the span of each subtitle with at least
      one string the filter accepts, with those strings joined by newlines.
      A subtitle without an index row raises `IndexError`. */
  function GetTimesFiltered(d: FacetData, keep: string -> bool): (r: Result<seq<(Interval, string)>>)
    ensures r.Err? <==> |d.stringIndex| < |d.times|
    ensures r.Err? ==> r.error == IndexError
  {
    if |d.stringIndex| < |d.times| then Err(IndexError) else Ok(FilteredRows(d, |d.times|, keep))
  }

  /** A subtitle with a passing string is reported. */
  lemma {:induction false} FilteredRowsComplete(d: FacetData, n: nat, keep: string -> bool, i: nat)
    requires n <= |d.times| && n <= |d.stringIndex|
    requires i < n && Reported(d, i, keep)
    ensures FilteredRow(d, i, keep) in FilteredRows(d, n, keep)
    decreases n
  {
    if i < n - 1 {
      FilteredRowsComplete(d, n - 1, keep, i);
    }
  }

  /** Every reported row is the row of a subtitle with a passing string. */
  lemma {:induction false} FilteredRowsSound(d: FacetData, n: nat, keep: string -> bool, k: nat)
    requires n <= |d.times| && n <= |d.stringIndex|
    requires k < |FilteredRows(d, n, keep)|
    ensures exists i :: 0 <= i < n && Reported(d, i, keep) && FilteredRows(d, n, keep)[k] == FilteredRow(d, i, keep)
    decreases n
  {
    var rest := FilteredRows(d, n - 1, keep);
    assert FilteredRows(d, n, keep)
        == rest + (if Reported(d, n - 1, keep) then [FilteredRow(d, n - 1, keep)] else []);
    if k < |rest| {
      FilteredRowsSound(d, n - 1, keep, k);
      assert FilteredRows(d, n, keep)[k] == rest[k];
    } else {
      assert Reported(d, n - 1, keep);
    }
  }

  /** Reported rows keep subtitle order. */
  lemma {:induction false} FilteredRowsOrdered(d: FacetData, n: nat, keep: string -> bool)
    requires n <= |d.times| && n <= |d.stringIndex|
    ensures IsSubsequence(FilteredRows(d, n, keep), AllRows(d, n, keep))
    decreases n
  {
    if n > 0 {
      var rest := FilteredRows(d, n - 1, keep);
      var row := FilteredRow(d, n - 1, keep);
      FilteredRowsOrdered(d, n - 1, keep);
      SnocSubsequence(rest, AllRows(d, n - 1, keep), row);
      assert AllRows(d, n, keep) == AllRows(d, n - 1, keep) + [row];
      assert FilteredRows(d, n, keep) == if Reported(d, n - 1, keep) then rest + [row] else rest;
    }
  }

  /** The row of every one of the first `n` subtitles, reported or not. */
  function AllRows(d: FacetData, n: nat, keep: string -> bool): (r: seq<(Interval, string)>)
    requires n <= |d.times| && n <= |d.stringIndex|
    ensures |r| == n && forall i :: 0 <= i < n ==> r[i] == FilteredRow(d, i, keep)
  {
    if n == 0 then [] else AllRows(d, n - 1, keep) + [FilteredRow(d, n - 1, keep)]
  }

  /** The strings a reported row joins are exactly the subtitle's strings
      that pass the filter, in order. */
  lemma PassingAtExact(d: FacetData, i: nat, keep: string -> bool, s: string)
    requires i < |d.stringIndex| && d.stringIndex[i].0 <= d.stringIndex[i].1 <= |d.strings|
    ensures IsSubsequence(PassingAt(d, i, keep), d.strings[d.stringIndex[i].0..d.stringIndex[i].1])
    ensures s in PassingAt(d, i, keep) <==> s in d.strings[d.stringIndex[i].0..d.stringIndex[i].1] && keep(s)
  {
    PassingMembers(d.strings[d.stringIndex[i].0..d.stringIndex[i].1], keep, s);
  }

  // ---------------------------------------------------------------------
  // get_subrip_texts

  /** `''.join(parts)`. */
  function Concat(parts: seq<string>): string
    decreases |parts|
  {
    if |parts| == 0 then "" else parts[0] + Concat(parts[1..])
  }

  function Reverse<T>(xs: seq<T>): (r: seq<T>)
    ensures |r| == |xs|
    decreases |xs|
  {
    if |xs| == 0 then [] else Reverse(xs[1..]) + [xs[0]]
  }

  /** A font tag is written only when no colour component is -1. */
  predicate ColorShown(c: Color) {
    c.r != -1 && c.g != -1 && c.b != -1
  }

  /** The three components, each as `'{:02x}'` formats it. */
  function ColorHex(c: Color): string {
    Hex02(c.r) + Hex02(c.g) + Hex02(c.b)
  }

  function FontTag(c: Color): seq<string> {
    if ColorShown(c) then ["<font color=\"#" + ColorHex(c) + "\">"] else []
  }

  function FontEnd(c: Color): seq<string> {
    if ColorShown(c) then ["</font>"] else []
  }

  function FlagTag(tag: string, on: bool): seq<string> {
    if on then ["<" + tag + ">"] else []
  }

  function FlagEnd(tag: string, on: bool): seq<string> {
    if on then ["</" + tag + ">"] else []
  }

  /** The opening tags, in the order font, b, i, u. */
  function OpeningTags(c: Color, st: Style): seq<string> {
    FontTag(c) + FlagTag("b", st.bold) + FlagTag("i", st.italic) + FlagTag("u", st.underline)
  }

  /** The closing tags, collected in the same order as the opening ones. */
  function ClosingTags(c: Color, st: Style): seq<string> {
    FontEnd(c) + FlagEnd("b", st.bold) + FlagEnd("i", st.italic) + FlagEnd("u", st.underline)
  }

  /** One string with its markup: the opening tags, the text, and the
      closing tags in reverse. */
  function FormatRun(s: string, c: Color, st: Style): string {
    Concat(OpeningTags(c, st)) + s + Concat(Reverse(ClosingTags(c, st)))
  }

  /** Subtitle `i`'s strings can be read: its range is empty or ends within
      all three per-string datasets. */
  predicate RunsInRange(d: FacetData, i: nat)
    requires i < |d.stringIndex|
  {
    var (lo, hi) := d.stringIndex[i];
    lo >= hi || (hi <= |d.strings| && hi <= |d.colors| && hi <= |d.styles|)
  }

  /** The formatted strings of subtitle `i`, in order. */
  function Runs(d: FacetData, i: nat): (r: seq<string>)
    requires i < |d.stringIndex| && RunsInRange(d, i)
  {
    var (lo, hi) := d.stringIndex[i];
    if lo >= hi then []
    else seq(hi - lo, j requires 0 <= j < hi - lo => FormatRun(d.strings[lo + j], d.colors[lo + j], d.styles[lo + j]))
  }

  /** The entry for subtitle `i`: numbered `i + 1`, its formatted strings
      one per line. */
  function SubripEntry(d: FacetData, i: nat): Entry
    requires i < |d.times| && i < |d.stringIndex| && RunsInRange(d, i)
  {
    Entry(i + 1, d.times[i].start, d.times[i].end, Join("\n", Runs(d, i)))
  }

  /** The loop of `get_subrip_texts` over the first `n` subtitles. */
  function SubripEntries(d: FacetData, n: nat): (r: Result<seq<Entry>>)
    requires n <= |d.times|
    ensures r.Ok? <==> n <= |d.stringIndex| && forall i :: 0 <= i < n ==> RunsInRange(d, i)
    ensures r.Err? ==> r.error == IndexError
    ensures r.Ok? ==> |r.value| == n && forall i :: 0 <= i < n ==> r.value[i] == SubripEntry(d, i)
    decreases n
  {
    if n == 0 then Ok([])
    else
      var prev :- SubripEntries(d, n - 1);
      if n - 1 >= |d.stringIndex| || !RunsInRange(d, n - 1) then Err(IndexError)
      else Ok(prev + [SubripEntry(d, n - 1)])
  }

  /** `get_subrip_texts()` before `srt.compose`: one entry per subtitle, or
      `IndexError` when an index row or a string it names is missing. */
  function GetSubripTexts(d: FacetData): (r: Result<seq<Entry>>)
    ensures r.Ok? ==> forall i :: 0 <= i < |r.value| ==> r.value[i].index == i + 1
    ensures r.Ok? ==> |r.value| == |d.times|
  {
    SubripEntries(d, |d.times|)
  }

  /** What the parser recorded for one subtitle, formatted string by string. */
  function FormatParsed(p: Parser): (r: seq<string>)
    requires Aligned(p)
    ensures |r| == |p.strings|
  {
    seq(|p.strings|, j requires 0 <= j < |p.strings| => FormatRun(p.strings[j], p.colors[j], p.styles[j]))
  }

  /** A facet as `create_facet` lays it out never makes `get_subrip_texts`
      raise, and entry `i` shows subtitle `i`'s span and its parsed strings,
      formatted, one per line. */
  lemma SubripOfCreated(d: FacetData, subtitles: seq<Subtitle>, i: nat)
    requires Laid(d, subtitles) && i < |subtitles|
    ensures GetSubripTexts(d).Ok?
    ensures GetSubripTexts(d).value[i]
         == Entry(i + 1, subtitles[i].start, subtitles[i].end, Join("\n", FormatParsed(Feed(Fresh, subtitles[i].content).value)))
  {
    forall k | 0 <= k < |subtitles| ensures RunsInRange(d, k) {
      HeldRuns(d, k, subtitles[k]);
    }
    HeldRuns(d, i, subtitles[i]);
  }

  /** The formatted strings of a subtitle that holds its parsed records. */
  lemma HeldRuns(d: FacetData, i: nat, s: Subtitle)
    requires i < |d.times| && i < |d.stringIndex| && Holds(d, i, s)
    ensures RunsInRange(d, i) && Runs(d, i) == FormatParsed(Feed(Fresh, s.content).value)
  {
    var p := Feed(Fresh, s.content).value;
    var (lo, hi) := d.stringIndex[i];
    var runs := Runs(d, i);
    var parsed := FormatParsed(p);
    assert |runs| == |parsed| == hi - lo;
    forall j | 0 <= j < hi - lo ensures runs[j] == parsed[j] {
      assert d.strings[lo..hi][j] == d.strings[lo + j];
      assert d.colors[lo..hi][j] == d.colors[lo + j];
      assert d.styles[lo..hi][j] == d.styles[lo + j];
    }
  }
}
