/** `main` of bin/transcript_to_subrip.py: which paths are transcript
    files, and the numbered SubRip entries built from one transcript file.
    Parsing the JSON and composing the SubRip text are left to the caller;
    the entries are what is composed. */
module TranscriptSubrip {

  import opened Wrappers
  import opened Seqs
  import opened Paths
  import opened Intervals
  import opened Merge
  import opened SubRip

  /** The `--min-overlap` default, 0.1 s. Transcript times are counted in
      integer nanoseconds, not in the float seconds of the JSON file. */
  const DefaultMinOverlap: int := 100_000_000

  /** One record of a transcript file: its span, its text and, when the
      recogniser gave them, its timed words. */
  datatype Transcription = Transcription(start: int, end: int, transcript: string,
                                         words: Option<seq<Annotated<string>>>)

  /** The transcript files named by the arguments: a folder stands for the
      `.json` files a recursive glob finds in it, a path containing `.json`
      for itself, and anything else raises `ValueError`. */
  function TranscriptPaths(arguments: seq<string>, isDir: string -> bool, globJson: string -> seq<string>)
    : (r: Result<seq<string>>)
    ensures r.Err? <==> exists a :: a in arguments && !isDir(a) && !Contains(a, ".json")
    ensures r.Err? ==> r.error.ValueError?
    decreases |arguments|
  {
    if |arguments| == 0 then Ok([])
    else
      var init := arguments[..|arguments| - 1];
      var a := arguments[|arguments| - 1];
      assert arguments == init + [a];
      var prev :- TranscriptPaths(init, isDir, globJson);
      if isDir(a) then Ok(prev + globJson(a))
      else if Contains(a, ".json") then Ok(prev + [a])
      else Err(ValueError("Not a directory os transcripts json file"))
  }

  /** A non-folder argument that names a `.json` file is kept as it is, in
      its place after the files found for the arguments before it. */
  lemma TranscriptPathsFile(arguments: seq<string>, a: string, isDir: string -> bool, globJson: string -> seq<string>)
    requires !isDir(a) && Contains(a, ".json")
    requires TranscriptPaths(arguments, isDir, globJson).Ok?
    ensures TranscriptPaths(arguments + [a], isDir, globJson)
         == Ok(TranscriptPaths(arguments, isDir, globJson).value + [a])
  {
    assert (arguments + [a])[..|arguments|] == arguments;
  }

  /** The entries of one transcription, numbered from `first`. With timed
      words, one entry per merged group, its words joined by single spaces.
      A list of fewer than two words is not grouped: iterating the single
      word as if it were a group makes its characters the group's words. */
  function TranscriptionEntries(t: Transcription, minOverlap: int, first: nat): (r: seq<Entry>)
  {
    match t.words
    case None => [Entry(first, t.start, t.end, t.transcript)]
    case Some(words) =>
      match MergeAnnotatedIntervals(words, minOverlap)
      case Unchanged(items) =>
        seq(|items|, k requires 0 <= k < |items| =>
          Entry(first + k, items[k].start, items[k].end, Join(" ", Chars(items[k].data))))
      case Grouped(groups) =>
        seq(|groups|, k requires 0 <= k < |groups| =>
          Entry(first + k, groups[k].start, groups[k].end, Join(" ", groups[k].data)))
  }

  /** The entries of a transcript file, numbered on from `first`. */
  function EntriesFrom(transcript: seq<Transcription>, minOverlap: int, first: nat): (r: seq<Entry>)
    decreases |transcript|
  {
    if |transcript| == 0 then []
    else
      var head := TranscriptionEntries(transcript[0], minOverlap, first);
      head + EntriesFrom(transcript[1..], minOverlap, first + |head|)
  }

  /** The entries of a transcript file, numbered from 1. */
  function Entries(transcript: seq<Transcription>, minOverlap: int): seq<Entry> {
    EntriesFrom(transcript, minOverlap, 1)
  }

  /** A transcription's entries are numbered consecutively from `first`. */
  lemma TranscriptionNumbering(t: Transcription, minOverlap: int, first: nat)
    ensures forall k :: 0 <= k < |TranscriptionEntries(t, minOverlap, first)| ==>
              TranscriptionEntries(t, minOverlap, first)[k].index == first + k
  {
  }

  /** Entry numbers run consecutively across all transcriptions of a file. */
  lemma {:induction false} EntriesNumbering(transcript: seq<Transcription>, minOverlap: int, first: nat)
    ensures forall k :: 0 <= k < |EntriesFrom(transcript, minOverlap, first)| ==>
              EntriesFrom(transcript, minOverlap, first)[k].index == first + k
    decreases |transcript|
  {
    if |transcript| > 0 {
      var head := TranscriptionEntries(transcript[0], minOverlap, first);
      var tail := EntriesFrom(transcript[1..], minOverlap, first + |head|);
      TranscriptionNumbering(transcript[0], minOverlap, first);
      EntriesNumbering(transcript[1..], minOverlap, first + |head|);
      var r := head + tail;
      assert EntriesFrom(transcript, minOverlap, first) == r;
      forall k | 0 <= k < |r| ensures r[k].index == first + k {
        if k < |head| {
          assert r[k] == head[k];
        } else {
          assert r[k] == tail[k - |head|];
        }
      }
    }
  }

  /** The entries of a file are numbered 1, 2, ... in order. */
  lemma EntriesNumberedFromOne(transcript: seq<Transcription>, minOverlap: int)
    ensures forall k :: 0 <= k < |Entries(transcript, minOverlap)| ==> Entries(transcript, minOverlap)[k].index == k + 1
  {
    EntriesNumbering(transcript, minOverlap, 1);
    assert Entries(transcript, minOverlap) == EntriesFrom(transcript, minOverlap, 1);
  }

  /** A transcription without timed words gives exactly one entry with its
      span and transcript. */
  lemma UntimedEntry(t: Transcription, minOverlap: int, first: nat)
    requires t.words.None?
    ensures TranscriptionEntries(t, minOverlap, first) == [Entry(first, t.start, t.end, t.transcript)]
  {
  }

  /** With at least two timed words there is one entry per merged group,
      spanning it and holding its words separated by single spaces. */
  lemma GroupedEntries(t: Transcription, minOverlap: int, first: nat)
    requires t.words.Some? && |t.words.value| >= 2
    ensures var groups := MergeAnnotatedIntervals(t.words.value, minOverlap).groups;
            var r := TranscriptionEntries(t, minOverlap, first);
            && |r| == |groups|
            && GroupBounds(groups) == MergeIntervals(Bounds(t.words.value), minOverlap)
            && forall k :: 0 <= k < |r| ==>
                 r[k] == Entry(first + k, groups[k].start, groups[k].end, Join(" ", groups[k].data))
  {
    MergeAnnotatedMatchesMerge(t.words.value, minOverlap);
  }

  /** An empty word list gives no entries; a single word gives one entry
      whose content is that word with a space between its characters. */
  lemma FewWordsEntries(t: Transcription, minOverlap: int, first: nat)
    requires t.words.Some? && |t.words.value| < 2
    ensures |t.words.value| == 0 ==> TranscriptionEntries(t, minOverlap, first) == []
    ensures |t.words.value| == 1 ==>
              var w := t.words.value[0];
              TranscriptionEntries(t, minOverlap, first) == [Entry(first, w.start, w.end, Join(" ", Chars(w.data)))]
  {
  }

  /** The spacing-out, on one word. */
  lemma SingleWordSpacedOut(minOverlap: int)
    ensures TranscriptionEntries(Transcription(0, 5, "hi", Some([Annotated(1, 2, "hi")])), minOverlap, 1)
         == [Entry(1, 1, 2, "h i")]
  {
    var words := [Annotated(1, 2, "hi")];
    assert MergeAnnotatedIntervals(words, minOverlap) == Unchanged(words);
    assert Chars("hi") == ["h", "i"];
    assert Join(" ", ["h", "i"]) == "h i" by {
      assert ["h", "i"][1..] == ["i"];
    }
  }

  /** `os.path.splitext(path)[0] + '_transcript.srt'`. */
  function OutputPath(path: string): (out: string)
    ensures EndsWith(out, "_transcript.srt")
  {
    SplitExt(path).0 + "_transcript.srt"
  }

  /** The output file sits next to the transcript: the transcript's path
      without its extension, followed by `_transcript.srt`. */
  lemma OutputPathReplacesExtension(path: string)
    ensures var (root, ext) := SplitExt(path);
            OutputPath(path) == root + "_transcript.srt" && root + ext == path
            && (ext == "" || (ext[0] == '.' && '.' !in ext[1..] && '/' !in ext[1..]))
  {
    SplitExtParts(path);
  }
}
