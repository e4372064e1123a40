# multimodal-dataset, modelled in Dafny

This project models the verifiable core of `multimodal-dataset`, a Python
library and set of scripts. They turn videos with subtitles into HDF5
"multimodal datasets". Each dataset holds modalities such as audio, video and
subtitles, and each modality holds facets such as tracks and encodings.
The model covers five parts:

- **Interval algebra** (`multimodal/intervals.py`). Start-sorted lists of
  `(start, end)` sample intervals:
  - the two-cursor overlap filter;
  - `merge_intervals` and `merge_annotated_intervals`;
  - `trim_intervals` and `limit_length`.

  Modules `Intervals`, `Merge` and `OverlapFilter`.
- **Voice-activity segmentation** (`multimodal/dataset/add_vad_signal.py`).
  The two-state ring-buffer machine of `vad_slice_audio_signal`, and the
  overwrite-or-skip decision of `add_voiced_segment_facet`. The classifier
  is a function parameter that gives a verdict or raises. Modules `Vad`, `VadProofs`, `VadSignal` and
  `VoicedSegments`.
- **The subtitle facet** (`multimodal/dataset/facet/subtitle_facet.py`):
  - the `SubtitleParser` callbacks, with the HTML tokeniser's output given
    as a sequence of start-tag, end-tag and data events;
  - the two-level string index `create_facet` builds;
  - `get_times_complement` and `get_times_filtered`;
  - the SubRip run formatter, and a round trip from that formatter back
    through the parser.

  Modules `SubtitleParser`, `SubtitleFacet` and `SubripMarkup`.
- **Facet dispatch and modality bookkeeping**
  (`multimodal/dataset/facet/__init__.py`, `multimodal/dataset/multimodal.py`):
  - `make_facet` on the `FacetHandler` tag;
  - default-facet selection and facet lookup with fallback;
  - opening a file into modalities;
  - modality removal.

  HDF5 groups are reduced to their attributes, their dataset names and their
  child groups. Modules `Facets` and `MultiModal`.
- **The pure middle of the scripts**:
  - the non-subtitled-speech pipeline and its post-processing
    (`bin/transcribe_non_subtitled_voice.py`);
  - the transcript-to-SubRip entry builder;
  - the name-key pairing of `bin/add_subtitles.py` and
    `bin/match_transcripts.py`;
  - the input splitting of `bin/make_multimodal_dataset.py`.

  Modules `NonSubtitled`, `TranscriptRecords`, `TranscriptSubrip`,
  `Pairing`, `Paths` and `DatasetCli`.

Shared modules:

- `Wrappers`: `Option`, and `Result` with the Python exceptions the code can
  raise.
- `Dicts`: a Python `dict`, as a sequence of entries in insertion order.
- `Seqs`: subsequences and string helpers.

Times on the audio side are integer sample counts. The subtitle facet
stores float seconds; the model's subtitle times are already converted to
sample counts (see "Left out"). The
transcripts give times in float seconds (a word's `seconds + nanos * 1e-9`).
The transcript model counts them in integer nanoseconds instead. So the
`--min-overlap` default of 0.1 s is `TranscriptSubrip.DefaultMinOverlap`,
100000000 ns. Externals become parameters:

- the classifier, `os.path.isdir` and `glob`;
- the CSV reader;
- the tokeniser's events.

Two behaviours of the code are modelled as written:

- **Empty filter list.** The docstring of `filter_overlapping_intervals`
  (`multimodal/intervals.py:5-10`) describes removing the covered
  intervals. With no filter intervals that would keep every candidate.
  The loop condition at `multimodal/intervals.py:15` fails at once, so the
  function returns an empty array.
- **Modalities without facets.** `Modality.setup_facets`
  (`multimodal/dataset/multimodal.py:22-33`) accepts a group with no facet
  children, and leaves the default facet `None`.

## Model

| member | source | states |
|---|---|---|
| Intervals.TrimIntervals | multimodal/intervals.py:132-134 | the result is an order-preserving subsequence of the input; every kept interval is longer than the trim length, and every input interval longer than it is kept |
| Intervals.TrimIntervalsCounts | multimodal/intervals.py:132-134 | every interval longer than the trim length is kept as many times as it occurs, and every copy of a shorter one is dropped |
| Intervals.SplitArithmetic | multimodal/intervals.py:142-151 | for a length at least the limit, the piece count `ceil(L/limit)` is at least 1, the common piece length `ceil(L/n)` is positive and at most the limit, and the last piece is non-empty and at most the limit |
| Intervals.SplitInterval | multimodal/intervals.py:138-153 | one interval yields at least one piece; the first starts at the interval's start and the last ends at its end |
| Intervals.SplitIntervalTiles | multimodal/intervals.py:137-153 | an interval shorter than the limit passes through unchanged; a longer one becomes `ceil(L/limit)` pieces, each non-empty and at most the limit, that tile it exactly from start to end |
| Intervals.LimitLengthPreservesLength | multimodal/intervals.py:137-153 | the pieces of all intervals cover exactly as much time as the intervals, and every piece is an unchanged short input or a non-empty piece of at most the limit |
| Intervals.LimitLength | multimodal/intervals.py:137-153 | the pieces of all intervals, in input order, are never fewer than the intervals, since each interval yields at least one |
| Merge.MergeIntervals | multimodal/intervals.py:83-102 | the output is no longer than the input, and an input of fewer than two intervals is returned unchanged |
| Merge.MergeFrom | multimodal/intervals.py:92-102 | the loop from position i of an open run emits at least one and at most one more than the remaining intervals, the first starting where the open run started |
| Merge.MergeIntervalsGroups | multimodal/intervals.py:90-102 | output interval k runs from the start of the first input in group k to the end of the last input in that group (the last end, not the largest) |
| Merge.BoundariesAreBreaks | multimodal/intervals.py:96-100 | a new group starts exactly at the indices whose start is not below the previous end plus the merge duration |
| Merge.MergeIntervalsSeparated | multimodal/intervals.py:96-101 | consecutive merged intervals satisfy `next.start >= prev.end + merge_duration`, because merging uses a strict `<` |
| Merge.MergeIntervalsSorted | multimodal/intervals.py:83-102 | merging start-sorted, well-formed intervals gives start-sorted, well-formed intervals |
| Merge.MergeIntervalsIdempotent | multimodal/intervals.py:83-102 | merging twice with the same duration gives the same result as merging once |
| Merge.MergeAnnotatedIntervals | multimodal/intervals.py:105-129 | the input comes back unwrapped exactly when it has fewer than two items |
| Merge.MergeAnnotatedMatchesMerge | multimodal/intervals.py:113-129 | the annotated pass groups exactly as `merge_intervals` merges the bare intervals, and the groups' payload lists, concatenated, are the input payloads in input order, so they number as many as the inputs |
| OverlapFilter.FilterOverlapIsIntersection | multimodal/intervals.py:27-34 | where the sweep adds a filter's contribution, `filter_length - left_excess - right_excess` is the length of the intersection of filter and candidate |
| OverlapFilter.ScanFiltersComputesOverlap | multimodal/intervals.py:21-39 | the inner loop sums the intersections of all filters from the cursor on; the filters it consumes end at or before the candidate's end, and the one it stops at ends after it and is kept for the next candidate |
| OverlapFilter.ScanFilters | multimodal/intervals.py:21-39 | the inner loop's filter cursor never moves backwards and never passes the last filter |
| OverlapFilter.BelowCoverage | multimodal/intervals.py:40 | defines `overlap/interval_length < filter_coverage` in exact arithmetic, including NumPy's zero-length case where only a negative overlap (-inf) is below the coverage; no contract of its own |
| OverlapFilter.OverlapFromSkipsConsumed | multimodal/intervals.py:35-42 | filters ending at or before a candidate's start contribute nothing to it, so skipping the consumed ones loses no overlap |
| OverlapFilter.Sweep | multimodal/intervals.py:15-43 | from any pair of cursors, what the sweep keeps is an order-preserving subsequence of the remaining candidates |
| OverlapFilter.FilterOverlappingIntervals | multimodal/intervals.py:4-43 | the two-cursor loop returns an order-preserving subsequence of the candidates, nothing when there are no filters, and on well-formed, sorted, non-overlapping inputs exactly the reference result |
| OverlapFilter.SweepMatchesSpec | multimodal/intervals.py:15-43 | on sorted, non-overlapping inputs the sweep keeps exactly the candidates whose total intersection with all filters is below the coverage, up to the first candidate that reaches the end of the last filter |
| Vad.Push | multimodal/dataset/add_vad_signal.py:34-36 | appending to the ring buffer grows it by one below capacity and keeps it at capacity otherwise |
| Vad.PushKeepsRecent | multimodal/dataset/add_vad_signal.py:34-36 | the appended frame is the newest entry, preceded by the most recent of the old entries |
| Vad.Step | multimodal/dataset/add_vad_signal.py:46-86 | the loop body never lets the ring buffer exceed its capacity |
| Vad.FrameLength | multimodal/dataset/add_vad_signal.py:32 | the window length is the floor of `frame_duration_ms * sample_rate / 1000` |
| Vad.RingCapacity | multimodal/dataset/add_vad_signal.py:34 | the buffer size is the quotient of padding over frame duration, truncated |
| Vad.Exceeds | multimodal/dataset/add_vad_signal.py:58 | the 90 % trigger test on integer counts; no contract of its own (Vad.ExceedsIsComparison states what it decides) |
| Vad.ExceedsIsComparison | multimodal/dataset/add_vad_signal.py:58 | `Exceeds(count, capacity)` holds exactly when `count > 0.9 * capacity` in real arithmetic |
| Vad.Run | multimodal/dataset/add_vad_signal.py:46-86 | the state after n windows is `Step` folded over them from the initial state, and its ring buffer never exceeds the capacity |
| Vad.Finish | multimodal/dataset/add_vad_signal.py:87-92 | the spans emitted so far are kept; one more span is added exactly when collected audio is left, starting at the span start and carrying exactly that audio |
| VadProofs.OffsetSub | multimodal/dataset/add_vad_signal.py:68-69 | `start - (len(ring_buffer) - 1) * frame_length` is the first sample of the oldest buffered window |
| VadProofs.TriggerPointExceeds | multimodal/dataset/add_vad_signal.py:58 | more than 90% of the capacity is voiced exactly when the count reaches the trigger point, and the trigger point never exceeds a positive capacity |
| VadProofs.FlushedAudio | multimodal/dataset/add_vad_signal.py:61-70 | on triggering, the flushed buffer's audio is exactly the samples from the computed span start up to the current window's end |
| VadProofs.EmitSegments | multimodal/dataset/add_vad_signal.py:80-86 | an emitted span starts after every earlier span ends, lies on window boundaries, and carries exactly the samples it spans |
| VadProofs.StepKeepsInvariant | multimodal/dataset/add_vad_signal.py:46-86 | every loop pass keeps the run invariant: the buffer holds the most recent windows, the collected audio is the samples since the span start, and the spans emitted so far are sound and in order |
| VadProofs.FinishSound | multimodal/dataset/add_vad_signal.py:87-92 | after the last window, the emitted spans together with the leftover one lie on window boundaries within the classified windows, carry exactly their samples, and come out in order without overlapping |
| VadProofs.SilentStep | multimodal/dataset/add_vad_signal.py:52-58 | an unvoiced window never triggers a state that has seen only unvoiced windows |
| VadProofs.FinishVoiced | multimodal/dataset/add_vad_signal.py:52-92 | when every window is voiced, there is one span covering all classified windows once enough windows were seen to pass 90% of the buffer, and no span otherwise |
| VadSignal.Examined | multimodal/dataset/add_vad_signal.py:41 | only `len(audio) // frame_length` whole windows are examined: they cover all but fewer than `frame_length` trailing samples |
| VadSignal.Classify | multimodal/dataset/add_vad_signal.py:46-50 | the verdicts on the first n windows, taken in order, number n when no window makes the classifier raise |
| VadSignal.ClassifyWindows | multimodal/dataset/add_vad_signal.py:46-50 | verdict k is the classifier's answer on samples `[k*frame_length, (k+1)*frame_length)` |
| VadSignal.ClassifyFirstFailure | multimodal/dataset/add_vad_signal.py:46-50 | when classification raises, some window k made the classifier raise exactly that error, and every window before k was classified, so the loop stops at the first error |
| VadSignal.ClassifyAll | multimodal/dataset/add_vad_signal.py:41-50 | when no window raises, there is one verdict per whole window |
| VadSignal.RunKeepsRunInvariant | multimodal/dataset/add_vad_signal.py:46-86 | the `Step` fold keeps the run invariant after any number of windows |
| VadSignal.RunSilent | multimodal/dataset/add_vad_signal.py:52-58 | with no voiced window, the fold stays untriggered with nothing collected or emitted |
| VadSignal.RunVoiced | multimodal/dataset/add_vad_signal.py:52-86 | with every window voiced, the fold is untriggered with every window buffered before the trigger point, and triggered from the first sample from then on, with nothing emitted |
| VadSignal.RunKeepsInvariant | multimodal/dataset/add_vad_signal.py:46-86 | the state after any number of windows, `Step` folded from the initial state (`Vad.Run`), keeps the run invariant and the all-unvoiced and all-voiced shapes |
| VadSignal.SegmentWindows | multimodal/dataset/add_vad_signal.py:46-92 | the spans are exactly those of `Step` folded over every window, with the last collected span flushed; they are sound, ordered and non-overlapping; no speech yields no spans; all speech yields the single span `[0, n*frame_length)` once the trigger point is reached |
| VadSignal.SliceError | multimodal/dataset/add_vad_signal.py:32-50 | defines the exception of a call: ZeroDivisionError for a zero window length (line 34 or 41, before any window is classified), otherwise the classifier's first error; no contract of its own |
| VadSignal.Spans | multimodal/dataset/add_vad_signal.py:46-92 | the spans of a call that does not raise lie on window boundaries within the examined samples, carry exactly their samples, and come in order without overlapping |
| VadSignal.VadSliceAudioSignal | multimodal/dataset/add_vad_signal.py:24-92 | raises ZeroDivisionError when the window length is zero, and otherwise raises exactly when the classifier raises on some whole window, with the first such error; otherwise it returns exactly the spans of the `Step` fold over the classified whole windows (`VadSignal.Spans`), which lie within the examined samples, start and end on multiples of the window length, carry exactly `audio[start:end]`, and are disjoint and increasing, with the all-unvoiced and all-voiced cases as above |
| VoicedSegments.Decide | multimodal/dataset/add_vad_signal.py:15-19 | a facet is changed only when overwriting or when it lacks `voiced_segments`, and then only under that name |
| VoicedSegments.Recompute | multimodal/dataset/add_vad_signal.py:15 | defines the condition `overwrite or not has_time_intervals('voiced_segments')`; no contract of its own |
| VoicedSegments.VoicedRows | multimodal/dataset/add_vad_signal.py:16-18 | the stored rows are the `[start, end]` of the segmenter's spans with a 100 ms padding, so non-empty, within the audio, in order and disjoint; it raises exactly what the segmenter raises: ZeroDivisionError for a zero window length, or the classifier's first error |
| VoicedSegments.UpdateTrack | multimodal/dataset/add_vad_signal.py:15-21 | one facet is recomputed exactly when overwriting or lacking voiced segments; it fails exactly when it is recomputed and the segmenter raises, with the segmenter's error; otherwise a recomputed facet stores the segmenter's rows under `voiced_segments`; it is otherwise untouched, and every other interval set is kept |
| VoicedSegments.UpdateTracks | multimodal/dataset/add_vad_signal.py:14-21 | the loop fails exactly when some recomputed facet makes the segmenter raise, with the error of the first such facet; otherwise every audio facet is updated as above, in order |
| VoicedSegments.AddVoicedSegmentFacet | multimodal/dataset/add_vad_signal.py:8-21 | a dataset without an `audio` modality raises KeyError('audio') from `get_all_facets` (line 13); otherwise its audio facets are processed as by the loop above |
| SubtitleParser.Wipe | multimodal/dataset/facet/subtitle_facet.py:70-77 | after a wipe the lists are empty and aligned, the colour is `NULL_COLOR` and bold, italic and underline are all off, whatever came before |
| SubtitleParser.ParseHex | multimodal/dataset/facet/subtitle_facet.py:47 | `int(s, 16)` of hex digits is their value, and of an empty string raises ValueError |
| SubtitleParser.Hex02 | multimodal/dataset/facet/subtitle_facet.py:197 | `'{:02x}'` writes exactly two characters for -15..255, and at least two otherwise |
| SubtitleParser.Hex02RoundTrip | multimodal/dataset/facet/subtitle_facet.py:197 | for every integer, `int(_, 16)` reads back what `'{:02x}'` writes |
| SubtitleParser.StripChar | multimodal/dataset/facet/subtitle_facet.py:46 | the stripped string neither starts nor ends with the character, and a string without it is unchanged |
| SubtitleParser.FontColor | multimodal/dataset/facet/subtitle_facet.py:43-47 | a font tag without a `color` attribute leaves the colour unchanged |
| SubtitleParser.ParseColor | multimodal/dataset/facet/subtitle_facet.py:46-47 | defines the colour read from `value.strip('#')` as `int(_, 16)` of the slices `[:2]`, `[2:4]` and `[4:]`, with ValueError from any of them; no contract of its own (SubripMarkup.ParseShownColor states its round trip) |
| SubtitleParser.Handle | multimodal/dataset/facet/subtitle_facet.py:42-68 | a callback raises only on a font tag with a bad colour; tags never record anything, and a data event records exactly its text with the current colour and flags |
| SubtitleParser.Feed | multimodal/dataset/facet/subtitle_facet.py:42-68 | feeding fails exactly when some event is faulty, and otherwise records exactly the texts of the data events, in order, keeping the lists aligned |
| SubtitleParser.FeedColor | multimodal/dataset/facet/subtitle_facet.py:42-62 | after feeding, the colour is the one set by the latest font tag, or `NULL_COLOR` after a later `</font>`; an outer colour is never restored |
| SubtitleParser.FeedStyle | multimodal/dataset/facet/subtitle_facet.py:48-68 | after feeding, each of b, i and u is on exactly when its latest start or end tag was a start tag |
| SubtitleParser.FeedRecords | multimodal/dataset/facet/subtitle_facet.py:55-58 | each data event records its text together with the colour and flags in force just before it |
| SubtitleFacet.CreateFacet | multimodal/dataset/facet/subtitle_facet.py:95-108 | fails exactly when some subtitle's content makes a callback raise; otherwise subtitle k's span is at position k, its string ranges are consecutive from 0 and partition the strings, colours and styles are as long as the strings, and range k holds exactly what parsing subtitle k records |
| SubtitleFacet.ConsecutivePartition | multimodal/dataset/facet/subtitle_facet.py:107-108 | every string position lies in exactly one subtitle's range |
| SubtitleFacet.ConsecutiveOrdered | multimodal/dataset/facet/subtitle_facet.py:107-108 | an earlier subtitle's range ends no later than a later one starts |
| SubtitleFacet.GetTimesComplement | multimodal/dataset/facet/subtitle_facet.py:129-136 | raises IndexError exactly when the facet has no times; otherwise the result is an order-preserving subsequence of the gap rows, each longer than the minimum time |
| SubtitleFacet.ComplementRows | multimodal/dataset/facet/subtitle_facet.py:131-133 | the gap table has one row more than there are subtitles |
| SubtitleFacet.ComplementNoSubtitles | multimodal/dataset/facet/subtitle_facet.py:129-133 | a facet created from no subtitles stores its times as the one-dimensional `np.array([])` (line 112), so its complement raises IndexError |
| SubtitleFacet.ComplementTrailingRow | multimodal/dataset/facet/subtitle_facet.py:131-136 | the trailing row, from the last end back to the unassigned 0, is reported whenever its negative length exceeds the minimum |
| SubtitleFacet.ComplementUncovered | multimodal/dataset/facet/subtitle_facet.py:129-136 | for ordered, disjoint subtitles from time 0, every reported gap is longer than the minimum, ends by the last subtitle's start, and overlaps no subtitle (so the trailing row is never kept) |
| SubtitleFacet.ComplementComplete | multimodal/dataset/facet/subtitle_facet.py:129-136 | every stretch before a subtitle, from the previous end or from 0, that is longer than the minimum is reported |
| SubtitleFacet.ComplementExample | multimodal/dataset/facet/subtitle_facet.py:129-136 | subtitles at [1, 2) and [5, 6) with minimum 0 leave [0, 1) and [2, 5) |
| SubtitleFacet.Slice | multimodal/dataset/facet/subtitle_facet.py:170 | an in-range slice is the Dafny slice, and no slice is longer than the list |
| SubtitleFacet.PassingMembers | multimodal/dataset/facet/subtitle_facet.py:170 | a string passes exactly when it is in the list and the filter accepts it |
| SubtitleFacet.GetTimesFiltered | multimodal/dataset/facet/subtitle_facet.py:160-173 | raises IndexError exactly when the string index has fewer rows than the times |
| SubtitleFacet.FilteredRows | multimodal/dataset/facet/subtitle_facet.py:166-173 | the loop over the first n subtitles reports at most one row per subtitle |
| SubtitleFacet.FilteredRowsComplete | multimodal/dataset/facet/subtitle_facet.py:166-173 | a subtitle with a passing string is reported, with its span and its passing strings joined by newlines |
| SubtitleFacet.FilteredRowsSound | multimodal/dataset/facet/subtitle_facet.py:166-173 | every reported row is that of a subtitle with at least one passing string |
| SubtitleFacet.FilteredRowsOrdered | multimodal/dataset/facet/subtitle_facet.py:166-173 | reported rows come in subtitle order |
| SubtitleFacet.PassingAtExact | multimodal/dataset/facet/subtitle_facet.py:169-172 | the strings a row joins are, in order, exactly the subtitle's strings that pass the filter |
| SubtitleFacet.SubripEntries | multimodal/dataset/facet/subtitle_facet.py:186-213 | raises IndexError exactly when a subtitle's string range cannot be read; otherwise it gives one entry per subtitle, entry i holding the formatted runs of range i |
| SubtitleFacet.GetSubripTexts | multimodal/dataset/facet/subtitle_facet.py:178-214 | the entries are numbered 1..n in subtitle order, one per subtitle |
| SubtitleFacet.SubripOfCreated | multimodal/dataset/facet/subtitle_facet.py:186-213 | on a facet laid out by `create_facet`, `get_subrip_texts` never fails, and entry i holds subtitle i's span and its parsed strings, each formatted with its own colour and style |
| SubtitleFacet.HeldRuns | multimodal/dataset/facet/subtitle_facet.py:188-210 | the runs of a subtitle are its parsed records, each formatted |
| SubtitleFacet.FormatRun | multimodal/dataset/facet/subtitle_facet.py:191-209 | defines one formatted string: opening tags, text, closing tags reversed; no contract of its own (SubripMarkup.RunMarkup and SubripMarkup.RunRoundTrip state its properties) |
| SubtitleFacet.SubripEntry | multimodal/dataset/facet/subtitle_facet.py:186-212 | defines entry i: number i+1, subtitle i's span, its formatted strings joined by newlines; no contract of its own (SubtitleFacet.SubripEntries and SubtitleFacet.SubripOfCreated state its properties) |
| SubripMarkup.RunMarkup | multimodal/dataset/facet/subtitle_facet.py:190-209 | the formatted string is the rendering of the start tags (font, b, i, u), the text, and the matching end tags in reverse order, so the tags are well nested |
| SubripMarkup.ParseShownColor | multimodal/dataset/facet/subtitle_facet.py:196-198 | a colour written into a font tag is read back by `strip('#')` and the three `int(_, 16)` slices |
| SubripMarkup.FeedFontOpen | multimodal/dataset/facet/subtitle_facet.py:42-47 | reading the written font tag sets exactly the colour it was written from, and a hidden colour writes no tag |
| SubripMarkup.FeedFontClose | multimodal/dataset/facet/subtitle_facet.py:60-62 | reading `</font>` resets the colour to `NULL_COLOR` |
| SubripMarkup.FeedFlagOpen | multimodal/dataset/facet/subtitle_facet.py:48-53 | reading `<b>`, `<i>` or `<u>` sets exactly that flag |
| SubripMarkup.FeedFlagClose | multimodal/dataset/facet/subtitle_facet.py:63-68 | reading the end tag clears exactly that flag |
| SubripMarkup.RunRoundTrip | multimodal/dataset/facet/subtitle_facet.py:190-209 | a formatted non-empty string, read back from a wiped parser, records exactly one string, with the colour that was written (or `NULL_COLOR`) and the style, and leaves the parser with no colour and no flags |
| SubripMarkup.RunRoundTripExact | multimodal/dataset/facet/subtitle_facet.py:190-209 | for `NULL_COLOR` and every colour with components in 0..255, reading back gives exactly the string, colour and style that were formatted |
| SubripMarkup.PartialNullColorLost | multimodal/dataset/facet/subtitle_facet.py:196 | a colour with only some components -1 is not written, so it reads back as `NULL_COLOR` |
| Facets.KindOf | multimodal/dataset/facet/__init__.py:10-16 | a tag names a handler class exactly when it is one of the three registered tags |
| Facets.IsFacet | multimodal/dataset/facet/__init__.py:5-6 | defines a facet group as one carrying the `FacetHandler` attribute; no contract of its own |
| Facets.MakeFacet | multimodal/dataset/facet/__init__.py:9-18 | without the `FacetHandler` attribute it raises KeyError; an unknown tag raises NotImplementedError; a handler whose constructor opens a missing dataset raises KeyError naming it; otherwise it returns the handler the tag names, over the same group |
| Facets.CreateFacetGroup | multimodal/dataset/facet/audio_facet.py:8-13 | a created facet group carries its class's tag and every dataset its creator writes |
| Facets.CreatedFacetDispatch | multimodal/dataset/facet/__init__.py:9-16 | reading a freshly created facet of any class gives back a handler of that class over the same group |
| Facets.UnknownTagRejected | multimodal/dataset/facet/__init__.py:17-18 | any tag other than the three registered ones raises NotImplementedError with the tag in the message |
| MultiModal.SetupFrom | multimodal/dataset/multimodal.py:22-33 | setting up facets fails exactly when some child carrying a facet tag cannot be made into a facet |
| MultiModal.NewModality | multimodal/dataset/multimodal.py:14-20 | a modality fails to open exactly when its facets fail to set up, and keeps its name |
| MultiModal.SetupFacetsMembers | multimodal/dataset/multimodal.py:28-33 | the facets are exactly the children carrying a facet tag, each under its own name |
| MultiModal.SetupFacetsDefault | multimodal/dataset/multimodal.py:23-32 | the default is the facet the `DefaultFacet` attribute names, if there is one; else the first facet; else none |
| MultiModal.GetFacet | multimodal/dataset/multimodal.py:38-39 | a present id gives its facet; an absent or missing id gives the default |
| MultiModal.GetFacetFallback | multimodal/dataset/multimodal.py:38-39 | on a modality read from a group, lookup by any name gives that child's facet, or the default when the child is not a facet |
| MultiModal.SetupModalities | multimodal/dataset/multimodal.py:54-57 | opening fails exactly when some top-level group fails to open as a modality |
| MultiModal.SetupModalitiesKeys | multimodal/dataset/multimodal.py:54-57 | the modalities are keyed by exactly the names of the top-level groups |
| MultiModal.ModalityOfGroup | multimodal/dataset/multimodal.py:54-57 | each modality is the one opened from the group of the same name |
| MultiModal.Open | multimodal/dataset/multimodal.py:47-52 | an opened dataset keeps its file, and opening fails exactly when setting up the modalities fails |
| MultiModal.RemoveModality | multimodal/dataset/multimodal.py:68-74 | raises KeyError exactly when the modality is missing from the file or the map; otherwise it is gone from both and every other modality is unchanged |
| MultiModal.RemoveOpened | multimodal/dataset/multimodal.py:68-74 | on an opened dataset, removal fails exactly when the file has no such group |
| MultiModal.RemovedModalityGone | multimodal/dataset/multimodal.py:68-77 | after a removal, `get_facet` on that modality raises KeyError, and on every other modality answers as before |
| MultiModal.DatasetGetFacet | multimodal/dataset/multimodal.py:76-77 | raises KeyError exactly for an absent modality, and otherwise delegates to the modality's lookup |
| MultiModal.GetAllFacets | multimodal/dataset/multimodal.py:79-85 | gives one facet list per requested modality, in request order, or a KeyError naming a requested modality that is absent |
| MultiModal.RemoveFromFile | multimodal/dataset/multimodal.py:88-91 | removes the group when present, is a no-op when it is absent, and leaves every other group unchanged |
| Dicts.Get | multimodal/dataset/multimodal.py:39 | `d.get(k)` is absent exactly when `k` is not a key, and otherwise a stored entry |
| Dicts.SetGet | bin/add_subtitles.py:32 | after `d[k] = v`, `k` maps to `v` and every other key to its old value, so a later path with the same key replaces the earlier one |
| Dicts.SetKeys | multimodal/dataset/multimodal.py:33 | assignment keeps the key order and appends a new key at the end |
| Dicts.Remove | multimodal/dataset/multimodal.py:73-74 | `del d[k]` raises KeyError exactly when `k` is absent, and otherwise removes only `k` |
| NonSubtitled.MsToSamples | bin/transcribe_non_subtitled_voice.py:274-276 | the sample count is the floor of `ms * sample_rate / 1000` |
| NonSubtitled.Uncovered | bin/transcribe_non_subtitled_voice.py:278-280 | the voiced intervals kept by the 70% filter against the merged subtitles are an order-preserving subsequence of the voiced intervals |
| NonSubtitled.ArrayOf | multimodal/intervals.py:43 | `np.array` of an empty list is the one-dimensional, column-less array |
| NonSubtitled.MergeArray | multimodal/intervals.py:90-91 | the column-less array passes through `merge_intervals` unchanged; a table is merged |
| NonSubtitled.TrimArray | multimodal/intervals.py:132-134 | the column slice of the column-less array raises IndexError; a table is trimmed |
| NonSubtitled.NonSubtitledAsWritten | bin/transcribe_non_subtitled_voice.py:278-282 | the pipeline as written raises IndexError exactly when the filter keeps no voiced interval |
| NonSubtitled.AsWrittenAgrees | bin/transcribe_non_subtitled_voice.py:278-282 | whenever the pipeline as written does not raise, it gives the intended intervals |
| NonSubtitled.NonSubtitledIntervals | bin/transcribe_non_subtitled_voice.py:278-282 | the intended pipeline, with no intervals when the filter keeps none: every resulting interval is longer than the trim duration |
| NonSubtitled.FullyCoveredCrashes | bin/transcribe_non_subtitled_voice.py:280-282 | one voiced interval entirely under a subtitle makes the pipeline raise IndexError, where no intervals were intended |
| NonSubtitled.NonSubtitledIntervalsProperties | bin/transcribe_non_subtitled_voice.py:278-282 | every resulting interval is longer than the trim duration; start-sorted, well-formed voiced intervals give start-sorted, well-formed results; there are no more results than uncovered voiced intervals |
| NonSubtitled.Divide | bin/transcribe_non_subtitled_voice.py:287 | NumPy true division of a sample count, as real-valued division: by a positive rate the real quotient; by a zero rate no exception, but NaN for 0 and an infinity of the dividend's sign otherwise |
| NonSubtitled.Segments | bin/transcribe_non_subtitled_voice.py:284-287 | one segment per interval, in order; with a positive rate its ends, real-valued quotients, times the rate are the interval's ends; with a zero rate every end is NaN (for 0) or infinite, and nothing raises |
| TranscriptRecords.KeptMembers | bin/transcribe_non_subtitled_voice.py:209-213 | a record is kept exactly for a response that carries its result |
| TranscriptRecords.Kept | bin/transcribe_non_subtitled_voice.py:209-213 | there are never more kept records than responses |
| TranscriptRecords.SortByStart | bin/transcribe_non_subtitled_voice.py:214 | sorting keeps the number of records (TranscriptRecords.SortByStartCorrect states the order and the permutation) |
| TranscriptRecords.SortByStartCorrect | bin/transcribe_non_subtitled_voice.py:214 | sorting by start is a permutation into start order that keeps the arrival order of records with equal starts |
| TranscriptRecords.PostProcess | bin/transcribe_non_subtitled_voice.py:208-214 | the written records are start-sorted, are a permutation of the kept ones, and keep ties in arrival order |
| TranscriptRecords.PostProcessMembers | bin/transcribe_non_subtitled_voice.py:208-214 | a record is written exactly for a response that carries its result |
| TranscriptSubrip.TranscriptPaths | bin/transcript_to_subrip.py:15-23 | raises ValueError exactly when some argument is neither a folder nor contains `.json` |
| TranscriptSubrip.TranscriptPathsFile | bin/transcript_to_subrip.py:20-21 | a `.json` argument that is not a folder is appended as it is |
| TranscriptSubrip.TranscriptionEntries | bin/transcript_to_subrip.py:32-52 | defines the entries of one transcription; no contract of its own (the numbering and grouping lemmas below state its properties) |
| TranscriptSubrip.Entries | bin/transcript_to_subrip.py:28-52 | defines the entries of one transcript file, numbered from 1; no contract of its own (TranscriptSubrip.EntriesNumberedFromOne states its numbering) |
| TranscriptSubrip.TranscriptionNumbering | bin/transcript_to_subrip.py:38-52 | one transcription's entries are numbered consecutively from the running counter |
| TranscriptSubrip.EntriesNumbering | bin/transcript_to_subrip.py:32-52 | the counter runs on across all transcriptions of a file |
| TranscriptSubrip.EntriesNumberedFromOne | bin/transcript_to_subrip.py:32-52 | a file's entries are numbered 1, 2, ... in order |
| TranscriptSubrip.UntimedEntry | bin/transcript_to_subrip.py:44-52 | a transcription without words gives exactly one entry with its start, end and transcript |
| TranscriptSubrip.GroupedEntries | bin/transcript_to_subrip.py:34-43 | with at least two words there is one entry per merged group, spanning the group and holding its words joined by single spaces |
| TranscriptSubrip.FewWordsEntries | bin/transcript_to_subrip.py:34-43 | no words give no entries; one word gives one entry whose content is that word's characters joined by spaces |
| TranscriptSubrip.SingleWordSpacedOut | bin/transcript_to_subrip.py:36-41 | the one word "hi" becomes the content "h i" |
| TranscriptSubrip.OutputPath | bin/transcript_to_subrip.py:54-55 | the output path ends in `_transcript.srt` |
| TranscriptSubrip.OutputPathReplacesExtension | bin/transcript_to_subrip.py:54-55 | the output path is the input path without its extension, followed by `_transcript.srt` |
| Paths.Basename | bin/add_subtitles.py:31 | the base name has no `/`, ends the path, and follows the path's last `/` |
| Paths.RSplitUnderscore | bin/add_subtitles.py:28 | unpacking `rsplit('_', 1)` raises ValueError exactly when there is no `_`; otherwise the parts rejoin to the path and the second has no `_` |
| Paths.NameKey | bin/add_subtitles.py:28-31 | the key fails exactly for a path without `_`, and is otherwise a base name |
| Paths.SplitExtParts | bin/transcript_to_subrip.py:54 | `splitext`'s two parts rejoin to the path, and the extension is empty or a dot followed by no dot or `/` |
| Paths.SplitExt | bin/transcript_to_subrip.py:54 | defines `os.path.splitext`; no contract of its own (Paths.SplitExtParts states its properties) |
| Pairing.KeyMap | bin/add_subtitles.py:26-32 | building the map raises ValueError exactly when some path has no `_` |
| Pairing.KeyMapGet | bin/add_subtitles.py:26-32 | a key maps to the last path with that key, and no key is stored twice |
| Pairing.LastWithKey | bin/add_subtitles.py:26-32 | a path found for a key is one of the paths and has that key; when none is found, no path has that key |
| Pairing.Discover | bin/add_subtitles.py:12-24 | defines the paths the recursive glob finds under each folder, in argument order; no contract of its own |
| Pairing.PairByKey | bin/add_subtitles.py:42-48 | each dataset lands in exactly one of the two lists |
| Pairing.PairByKeyComplete | bin/add_subtitles.py:42-48 | a dataset whose key has a subtitle is paired with that subtitle; any other dataset is listed as having none |
| Pairing.PairedSound | bin/add_subtitles.py:44-46 | every pair is a dataset with the subtitle stored under its key |
| Pairing.UnpairedSound | bin/add_subtitles.py:47-48 | every unpaired entry is a dataset whose key has no subtitle |
| Pairing.KeyMapEntry | bin/add_subtitles.py:26-32 | every entry of a key map holds one of the paths, stored under that path's own key |
| Pairing.AddSubtitlesPairs | bin/add_subtitles.py:12-48 | a non-folder argument raises ValueError; the pairing succeeds exactly when every argument is a folder and every discovered path has a `_`; the result is the pairing of the two key maps of the discovered `.h5` and `.srt` files |
| Pairing.AddSubtitlesPairsSound | bin/add_subtitles.py:12-48 | each returned pair is a discovered dataset with the last discovered subtitle file of the same key, and each dataset listed without subtitles has no discovered subtitle file with its key |
| Pairing.MatchByKey | bin/match_transcripts.py:40-43 | at most one dataset is matched per transcript |
| Pairing.MatchByKeySound | bin/match_transcripts.py:40-43 | only values of the dataset map are reported, and every transcript whose key is a dataset key reports that dataset |
| Pairing.MatchTranscripts | bin/match_transcripts.py:12-43 | a dataset argument that is not a folder raises ValueError; the call succeeds exactly when the dataset argument is a folder and every discovered path has a `_`; a transcript argument that is not a folder yields no matches; every match is a discovered dataset |
| DatasetCli.SplitFiles | bin/make_multimodal_dataset.py:23-29 | every input lands in exactly one of the two lists |
| DatasetCli.SplitFilesPartition | bin/make_multimodal_dataset.py:23-29 | the subtitles are exactly the inputs containing `.srt` and the videos exactly the others, each list keeping input order |
| DatasetCli.Zip | bin/make_multimodal_dataset.py:33 | job k pairs video k with subtitle file k |
| DatasetCli.RowJobs | bin/make_multimodal_dataset.py:44-47 | one job per CSV row, in row order, or a KeyError for a row missing a column |
| DatasetCli.RowJob | bin/make_multimodal_dataset.py:44-47 | defines one row's job, with KeyError for a missing `mp4` or `srt` column; no contract of its own (DatasetCli.RowJobColumns states it) |
| DatasetCli.RowJobColumns | bin/make_multimodal_dataset.py:44-47 | a row gives a job exactly when it has both columns, and the job holds their values |
| DatasetCli.Jobs | bin/make_multimodal_dataset.py:18-33 | outside CSV mode, ValueError is raised exactly when there is no video or the counts differ; otherwise the k-th video is paired with the k-th subtitle file |

## Left out

- HDF5 storage (h5py groups, datasets, chunking and compression) is reduced to attributes, dataset names and child groups. The byte layout is outside the logic.
- Numeric widths are not modelled: float32 subtitle times, uint32 string indices and int16 colours (`multimodal/dataset/facet/subtitle_facet.py:112-123`). The model uses unbounded integers; a colour component from a longer hex string could wrap in int16, which is not modelled.
- The float conversion of subtitle times to samples (`(sample_rate*subtitle_times).astype(np.uint)`) is not modelled. Subtitle intervals arrive in samples already.
- The float comparison `num_voiced > 0.9 * maxlen` is modelled exactly as `10 * count > 9 * capacity`. The two agree for every buffer size the code can reach.
- Transcript times and `--min-overlap` are float seconds in the code (`bin/transcript_to_subrip.py:12`). They are modelled as integer nanoseconds. The rounding of `seconds + nanos * 1e-9` and of float differences in `merge_annotated_intervals` is not modelled.
- The coverage test `overlap/interval_length < filter_coverage` (`multimodal/intervals.py:40`) is modelled in exact rational arithmetic. Float rounding of the quotient and of the constant 0.7 could flip a candidate whose coverage is within rounding of 0.7.
- Intervals.LimitLength: requires a positive limit. With a zero limit the source divides by zero (ZeroDivisionError on Python integers; on NumPy integers the quotient is inf or nan and `int` raises), and a negative limit gives pieces of no use. No modelled code calls `limit_length`. Intervals.SplitInterval, Intervals.SplitIntervalTiles and Intervals.LimitLengthPreservesLength carry the same requirement.
- NonSubtitled.Divide: `start/sample_rate` is float64 division; the model gives the real quotient. So the NonSubtitled.Segments clause that an end times the rate is the interval's end holds in exact arithmetic only; float64 rounding is not modelled.
- `int(padding_duration_ms / frame_duration_ms)` is modelled as integer division. The two agree for non-negative integer durations of practical size.
- VadSignal.VadSliceAudioSignal: the `webrtcvad` detector is a stateless function parameter that gives a verdict on one window or raises. The real `Vad` object adapts to the windows it has seen, within a call and, because `add_voiced_segment_facet` shares one detector, across the facets of a dataset; the model's verdicts depend on the window and the rate alone. Which rates and window lengths make it raise (`webrtcvad.Error`) is left to the parameter; the model computes only the divisions by zero. VadSignal.Classify, VoicedSegments.VoicedRows and VoicedSegments.UpdateTrack share this.
- VoicedSegments.AddVoicedSegmentFacet: the detector is the same stateless, possibly raising parameter for every facet, so a verdict does not depend on the facets processed before.
- The HTML tokeniser is not modelled. The content of a subtitle is given as its start-tag, end-tag and data events. Not modelled: tag-name case folding, entity conversion, how text is split into data events, and text `HTMLParser` buffers because `feed` is never followed by `close`.
- `srt.parse` and `srt.compose` are not modelled. Subtitles arrive parsed, and `get_subrip_texts` is modelled up to the entries it passes to `srt.compose`.
- `int(_, 16)` accepting surrounding whitespace and `_` digit separators is not modelled. Hex strings from the formatter never contain them.
- `SubtitleFacet.__getitem__` (`multimodal/dataset/facet/subtitle_facet.py:141-155`) is not modelled. It relies on NumPy fancy indexing and is not used by the modelled code.
- Trivial accessors are not modelled: `get_times`, `get_texts`, `__len__`, `get_facets`, `get_samplerate` and `group_name`.
- The audio returned by `get_frames` in `find_non_subtitled_intervals` is not modelled. Only the yielded times are.
- `has_time_intervals` and `add_time_intervals` are not part of this model, because their definitions are not available. A facet's interval sets are a dict from names to rows.
- VoicedSegments.AddVoicedSegmentFacet: on an error it returns only the error. The source has already written the facets processed before the failing one.
- MultiModal.RemoveModality: on a KeyError from the second deletion, the model does not keep the first deletion. That deletion is already done in the file. On an opened dataset the two maps agree, so this cannot happen (see MultiModal.RemoveOpened).
- MultiModal.SetupModalities: its own contract states only when opening fails. The keys and the modalities are stated by MultiModal.SetupModalitiesKeys and MultiModal.ModalityOfGroup.
- Pairing.MatchTranscripts: its contract does not state that every transcript whose key has a dataset is matched. That is stated at the level of the key maps by Pairing.MatchByKeySound.
- DatasetCli.Jobs: the CSV branch is stated by DatasetCli.RowJobs, not in Jobs' own contract.
- SubtitleFacet.GetSubripTexts: its error case is stated by SubtitleFacet.SubripEntries.
- NonSubtitled.NonSubtitledIntervalsProperties: does not restate the 70% coverage bound for the merged intervals. Merging joins intervals, so the bound holds only for the filter's output.
- Not modelled: the worker processes, queues, rate limiting and Google Speech calls of `bin/transcribe_non_subtitled_voice.py`. This is concurrency and network I/O.
- The `multiprocessing.Pool` of `bin/make_multimodal_dataset.py` is not modelled. The jobs are the same with and without it.
- Filesystem access is not modelled: `os.path.isdir`, recursive `glob` and the CSV reader are function parameters.
- Ingest and maintenance code outside the core is not modelled. This covers `multimodal/dataset/video.py`, `multimodal/dataset/make_video_dataset.py`, `VideoFacet`/`AudioFacet` frame access and the other scripts under `bin/`.
- `old_filter_overlapping_intervals` is not modelled. It is unused.

## Findings

| source | as written | input that shows it | evidently intended | confidence | as-written member | corrected member |
|---|---|---|---|---|---|---|
| bin/transcribe_non_subtitled_voice.py:280-282 | when the overlap filter keeps nothing, `np.array([])` is one-dimensional and the column slice in `trim_intervals` (multimodal/intervals.py:133) raises IndexError | one voiced interval [0, 100) fully under one subtitle [0, 100), at 16000 Hz with the default thresholds | no non-subtitled intervals, so nothing is yielded | high; not executed | NonSubtitled.NonSubtitledAsWritten | NonSubtitled.NonSubtitledIntervals |

`NonSubtitled.FullyCoveredCrashes` shows the as-written pipeline raising on
this input while the corrected one returns no intervals.
`NonSubtitled.AsWrittenAgrees` shows that the two agree whenever the
as-written pipeline does not raise.
`NonSubtitled.NonSubtitledIntervalsProperties` proves the intended
properties of the corrected pipeline.
