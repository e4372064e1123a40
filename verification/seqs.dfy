/** Sequence and string helpers shared by the modules of the model. */
module Seqs {

  import opened Wrappers

  /** `a` is an order-preserving subsequence of `b`. */
  predicate IsSubsequence<T(==)>(a: seq<T>, b: seq<T>)
    decreases |b|
  {
    |a| == 0 ||
    (|b| > 0 && ((a[0] == b[0] && IsSubsequence(a[1..], b[1..])) || IsSubsequence(a, b[1..])))
  }

  lemma {:induction false} SubsequenceOfSelf<T>(a: seq<T>)
    ensures IsSubsequence(a, a)
    decreases |a|
  {
    if |a| > 0 {
      SubsequenceOfSelf(a[1..]);
    }
  }

  lemma {:induction false} SubsequenceMembers<T>(a: seq<T>, b: seq<T>)
    requires IsSubsequence(a, b)
    ensures forall x :: x in a ==> x in b
    decreases |b|
  {
    if |a| > 0 {
      if a[0] == b[0] && IsSubsequence(a[1..], b[1..]) {
        SubsequenceMembers(a[1..], b[1..]);
        forall x | x in a ensures x in b {
          if x != a[0] {
            assert x in a[1..];
          }
        }
      } else {
        SubsequenceMembers(a, b[1..]);
      }
    }
  }

  lemma {:induction false} SubsequenceLength<T>(a: seq<T>, b: seq<T>)
    requires IsSubsequence(a, b)
    ensures |a| <= |b|
    decreases |b|
  {
    if |a| > 0 {
      if a[0] == b[0] && IsSubsequence(a[1..], b[1..]) {
        SubsequenceLength(a[1..], b[1..]);
      } else {
        SubsequenceLength(a, b[1..]);
      }
    }
  }

  /** Keeping or dropping the head of `b` and a subsequence of its tail
      gives a subsequence of `b`. */
  lemma ConsSubsequence<T>(keep: bool, b: seq<T>, rest: seq<T>)
    requires |b| > 0
    requires IsSubsequence(rest, b[1..])
    ensures IsSubsequence((if keep then [b[0]] else []) + rest, b)
  {
    var a := (if keep then [b[0]] else []) + rest;
    if keep {
      assert a[0] == b[0] && a[1..] == rest;
    } else {
      assert a == rest;
    }
  }

  /** Every element of `a` satisfies `p` at its position, pairwise order
      relations carry over to subsequences. */
  lemma {:induction false} SubsequencePairwise<T>(a: seq<T>, b: seq<T>, le: (T, T) -> bool)
    requires IsSubsequence(a, b)
    requires forall i, j :: 0 <= i < j < |b| ==> le(b[i], b[j])
    ensures forall i, j :: 0 <= i < j < |a| ==> le(a[i], a[j])
    decreases |b|
  {
    if |a| > 0 {
      if a[0] == b[0] && IsSubsequence(a[1..], b[1..]) {
        SubsequencePairwise(a[1..], b[1..], le);
        SubsequenceMembers(a[1..], b[1..]);
        forall i, j | 0 <= i < j < |a| ensures le(a[i], a[j]) {
          if i == 0 {
            assert a[j] == a[1..][j - 1];
            assert a[j] in b[1..];
            var k :| 0 <= k < |b[1..]| && b[1..][k] == a[j];
            assert le(b[0], b[k + 1]);
          } else {
            assert a[i] == a[1..][i - 1] && a[j] == a[1..][j - 1];
          }
        }
      } else {
        SubsequencePairwise(a, b[1..], le);
      }
    }
  }

  /** Appending to both sides, or only to the longer one, keeps a subsequence. */
  lemma {:induction false} SnocSubsequence<T>(a: seq<T>, b: seq<T>, x: T)
    requires IsSubsequence(a, b)
    ensures IsSubsequence(a, b + [x]) && IsSubsequence(a + [x], b + [x])
    decreases |b|
  {
    if |a| > 0 {
      assert (b + [x])[1..] == b[1..] + [x];
      assert (a + [x])[1..] == a[1..] + [x];
      if a[0] == b[0] && IsSubsequence(a[1..], b[1..]) {
        SnocSubsequence(a[1..], b[1..], x);
      } else {
        SnocSubsequence(a, b[1..], x);
      }
    } else {
      assert IsSubsequence([x], [x]) by {
        assert [x][1..] == [];
      }
      if |b| > 0 {
        SnocSubsequence(a, b[1..], x);
        assert (b + [x])[1..] == b[1..] + [x];
      }
    }
  }

  /** Concatenation of `parts` with `sep` between consecutive parts
      (Python's `sep.join(parts)`). */
  function Join(sep: string, parts: seq<string>): (r: string)
    ensures |parts| == 0 ==> r == ""
    ensures |parts| == 1 ==> r == parts[0]
    decreases |parts|
  {
    if |parts| == 0 then ""
    else if |parts| == 1 then parts[0]
    else parts[0] + sep + Join(sep, parts[1..])
  }

  /** The one-character strings of `s` (iterating a Python string). */
  function Chars(s: string): (r: seq<string>)
    ensures |r| == |s|
    ensures forall i :: 0 <= i < |s| ==> r[i] == [s[i]]
  {
    seq(|s|, i requires 0 <= i < |s| => [s[i]])
  }

  predicate IsPrefix(p: string, s: string) {
    |p| <= |s| && s[..|p|] == p
  }

  /** Python's `needle in haystack` for strings. */
  predicate Contains(haystack: string, needle: string) {
    exists i :: 0 <= i <= |haystack| - |needle| && IsPrefix(needle, haystack[i..])
  }

  predicate EndsWith(s: string, suffix: string) {
    |suffix| <= |s| && s[|s| - |suffix|..] == suffix
  }

  /** Index of the last occurrence of `c` in `s`, if any. */
  function LastIndexOf(s: string, c: char): (r: Option<nat>)
    ensures r.Some? ==> r.value < |s| && s[r.value] == c
    ensures r.Some? ==> forall j :: r.value < j < |s| ==> s[j] != c
    ensures r.None? ==> forall j :: 0 <= j < |s| ==> s[j] != c
    decreases |s|
  {
    if |s| == 0 then None
    else if s[|s| - 1] == c then Some(|s| - 1)
    else LastIndexOf(s[..|s| - 1], c)
  }

  /** Number of entries of `s` equal to `x`. */
  function Count<T(==)>(s: seq<T>, x: T): (r: nat)
    ensures r <= |s|
  {
    if |s| == 0 then 0 else (if s[|s| - 1] == x then 1 else 0) + Count(s[..|s| - 1], x)
  }
}
