/** The post-processing of recognition responses in
    bin/transcribe_non_subtitled_voice.py: responses without a result are
    dropped, and the rest become records sorted by start time with
    `list.sort`, which is stable. The recogniser's result (confidence,
    transcript and words) is a type parameter. */
module TranscriptRecords {

  import opened Wrappers

  /** `(pid, (start, end, result))` as a worker sends it back. */
  datatype Response<T> = Response(pid: int, start: int, end: int, result: Option<T>)

  /** `dict(start=..., end=..., confidence=..., transcript=..., words=...)`. */
  datatype Record<T> = Record(start: int, end: int, result: T)

  /** The records of the responses that carry a result, in arrival order. */
  function Kept<T>(responses: seq<Response<T>>): (r: seq<Record<T>>)
    ensures |r| <= |responses|
    decreases |responses|
  {
    if |responses| == 0 then []
    else
      var x := responses[0];
      (if x.result.Some? then [Record(x.start, x.end, x.result.value)] else []) + Kept(responses[1..])
  }

  /** A record is kept exactly for a response that carries its result. */
  lemma {:induction false} KeptMembers<T>(responses: seq<Response<T>>, rec: Record<T>)
    ensures rec in Kept(responses) <==> exists pid :: Response(pid, rec.start, rec.end, Some(rec.result)) in responses
    decreases |responses|
  {
    if |responses| > 0 {
      KeptMembers(responses[1..], rec);
      var x := responses[0];
      if rec in Kept(responses) && !(rec in Kept(responses[1..])) {
        assert x == Response(x.pid, rec.start, rec.end, Some(rec.result));
      }
      if exists pid :: Response(pid, rec.start, rec.end, Some(rec.result)) in responses {
        var pid :| Response(pid, rec.start, rec.end, Some(rec.result)) in responses;
        if Response(pid, rec.start, rec.end, Some(rec.result)) != x {
          assert Response(pid, rec.start, rec.end, Some(rec.result)) in responses[1..];
        }
      }
    }
  }

  predicate StartSorted<T>(xs: seq<Record<T>>) {
    forall i, j :: 0 <= i < j < |xs| ==> xs[i].start <= xs[j].start
  }

  /** Inserts `x` after every record that does not start later than it. */
  function Insert<T>(x: Record<T>, ys: seq<Record<T>>): (r: seq<Record<T>>)
    ensures |r| == |ys| + 1
    decreases |ys|
  {
    if |ys| == 0 then [x]
    else if ys[0].start > x.start then [x] + ys
    else [ys[0]] + Insert(x, ys[1..])
  }

  /** `sorted(xs, key=lambda r: r['start'])`, by insertion. */
  function SortByStart<T>(xs: seq<Record<T>>): (r: seq<Record<T>>)
    ensures |r| == |xs|
    decreases |xs|
  {
    if |xs| == 0 then [] else Insert(xs[|xs| - 1], SortByStart(xs[..|xs| - 1]))
  }

  /** The records that start at `s`, in order. */
  function StartingAt<T>(xs: seq<Record<T>>, s: int): seq<Record<T>>
    decreases |xs|
  {
    if |xs| == 0 then [] else (if xs[0].start == s then [xs[0]] else []) + StartingAt(xs[1..], s)
  }

  lemma {:induction false} InsertMultiset<T>(x: Record<T>, ys: seq<Record<T>>)
    ensures multiset(Insert(x, ys)) == multiset(ys) + multiset{x}
    decreases |ys|
  {
    if |ys| > 0 && ys[0].start <= x.start {
      InsertMultiset(x, ys[1..]);
      assert ys == [ys[0]] + ys[1..];
    }
  }

  lemma {:induction false} InsertSorted<T>(x: Record<T>, ys: seq<Record<T>>)
    requires StartSorted(ys)
    ensures StartSorted(Insert(x, ys))
    decreases |ys|
  {
    if |ys| > 0 && ys[0].start <= x.start {
      assert StartSorted(ys[1..]);
      InsertSorted(x, ys[1..]);
      InsertLowerBound(x, ys[1..], ys[0].start);
      ConsSorted(ys[0], Insert(x, ys[1..]));
    } else if |ys| > 0 {
      ConsSorted(x, ys);
    }
  }

  /** Inserting a record that starts no earlier than `b` among records that
      start no earlier than `b` keeps them all there. */
  lemma {:induction false} InsertLowerBound<T>(x: Record<T>, ys: seq<Record<T>>, b: int)
    requires b <= x.start && forall i :: 0 <= i < |ys| ==> b <= ys[i].start
    ensures forall i :: 0 <= i < |Insert(x, ys)| ==> b <= Insert(x, ys)[i].start
    decreases |ys|
  {
    if |ys| > 0 && ys[0].start <= x.start {
      InsertLowerBound(x, ys[1..], b);
      var r := Insert(x, ys);
      assert forall i :: 1 <= i < |r| ==> r[i] == Insert(x, ys[1..])[i - 1];
    }
  }

  lemma ConsSorted<T>(y: Record<T>, rest: seq<Record<T>>)
    requires StartSorted(rest) && forall j :: 0 <= j < |rest| ==> y.start <= rest[j].start
    ensures StartSorted([y] + rest)
  {
    var r := [y] + rest;
    forall i, j | 0 <= i < j < |r| ensures r[i].start <= r[j].start {
      assert r[j] == rest[j - 1];
      if i > 0 {
        assert r[i] == rest[i - 1];
      }
    }
  }

  lemma {:induction false} StartingAtNone<T>(ys: seq<Record<T>>, s: int)
    requires forall i :: 0 <= i < |ys| ==> ys[i].start > s
    ensures StartingAt(ys, s) == []
    decreases |ys|
  {
    if |ys| > 0 {
      StartingAtNone(ys[1..], s);
    }
  }

  lemma {:induction false} StartingAtAppend<T>(a: seq<Record<T>>, b: seq<Record<T>>, s: int)
    ensures StartingAt(a + b, s) == StartingAt(a, s) + StartingAt(b, s)
    decreases |a|
  {
    if |a| > 0 {
      assert (a + b)[1..] == a[1..] + b;
      StartingAtAppend(a[1..], b, s);
    } else {
      assert a + b == b;
    }
  }

  /** Insertion puts `x` after the records that start where it does. */
  lemma {:induction false} InsertStable<T>(x: Record<T>, ys: seq<Record<T>>, s: int)
    requires StartSorted(ys)
    ensures StartingAt(Insert(x, ys), s) == StartingAt(ys, s) + (if x.start == s then [x] else [])
    decreases |ys|
  {
    if |ys| == 0 {
      assert StartingAt([x], s) == (if x.start == s then [x] else []) + StartingAt([], s);
    } else if ys[0].start > x.start {
      assert ([x] + ys)[1..] == ys;
      if x.start == s {
        StartingAtNone(ys, s);
      }
    } else {
      assert StartSorted(ys[1..]);
      InsertStable(x, ys[1..], s);
      assert ([ys[0]] + Insert(x, ys[1..]))[1..] == Insert(x, ys[1..]);
    }
  }

  /** Sorting is a permutation into start order that keeps the arrival
      order of records starting at the same time. */
  lemma {:induction false} SortByStartCorrect<T>(xs: seq<Record<T>>)
    ensures StartSorted(SortByStart(xs))
    ensures multiset(SortByStart(xs)) == multiset(xs)
    ensures forall s :: StartingAt(SortByStart(xs), s) == StartingAt(xs, s)
    decreases |xs|
  {
    if |xs| > 0 {
      var init, last := xs[..|xs| - 1], xs[|xs| - 1];
      SortByStartCorrect(init);
      InsertSorted(last, SortByStart(init));
      InsertMultiset(last, SortByStart(init));
      assert xs == init + [last];
      forall s ensures StartingAt(SortByStart(xs), s) == StartingAt(xs, s) {
        InsertStable(last, SortByStart(init), s);
        StartingAtAppend(init, [last], s);
        assert StartingAt([last], s) == (if last.start == s then [last] else []) + StartingAt([], s);
      }
    }
  }

  /** The records written to the transcript file: one per response with a
      result, in start order, ties kept in arrival order. */
  function PostProcess<T>(responses: seq<Response<T>>): (r: seq<Record<T>>)
    ensures StartSorted(r)
    ensures multiset(r) == multiset(Kept(responses))
    ensures forall s :: StartingAt(r, s) == StartingAt(Kept(responses), s)
  {
    SortByStartCorrect(Kept(responses));
    SortByStart(Kept(responses))
  }

  /** A record is written exactly for a response that carries its result. */
  lemma PostProcessMembers<T>(responses: seq<Response<T>>, rec: Record<T>)
    ensures rec in PostProcess(responses) <==>
              exists pid :: Response(pid, rec.start, rec.end, Some(rec.result)) in responses
  {
    KeptMembers(responses, rec);
    var r := PostProcess(responses);
    assert rec in r <==> rec in multiset(r);
    assert rec in Kept(responses) <==> rec in multiset(Kept(responses));
  }
}
