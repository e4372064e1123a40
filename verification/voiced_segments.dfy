/** `add_voiced_segment_facet` of multimodal/dataset/add_vad_signal.py: for
    each audio facet of a dataset, the voiced spans are computed and stored
    as the `voiced_segments` time intervals, unless the facet has them and
    overwriting was not asked for. The facet's interval store
    (`has_time_intervals`, `add_time_intervals`) is modelled as a dict from
    names to rows. */
module VoicedSegments {

  import opened Wrappers
  import opened Dicts
  import opened Vad
  import opened VadProofs
  import opened VadSignal

  /** An audio facet as the function uses it: its samples, its sample rate
      and its named sets of time intervals. */
  datatype AudioTrack = AudioTrack(samples: seq<int>, sampleRate: nat, timeIntervals: Dict<string, seq<(int, int)>>)

  const VoicedKey := "voiced_segments"

  /** `overwrite or not audio_facet.has_time_intervals('voiced_segments')`. */
  predicate Recompute(t: AudioTrack, overwrite: bool) {
    overwrite || VoicedKey !in Keys(t.timeIntervals)
  }

  /** The facet after the decision, given the rows the segmenter produced:
      they are stored under `voiced_segments` when the facet is recomputed,
      and the facet is left untouched otherwise. */
  function Decide(t: AudioTrack, rows: seq<(int, int)>, overwrite: bool): (r: AudioTrack)
    ensures !Recompute(t, overwrite) ==> r == t
    ensures Recompute(t, overwrite) ==> Get(r.timeIntervals, VoicedKey) == Some(rows)
    ensures r.samples == t.samples && r.sampleRate == t.sampleRate
    ensures forall k :: k != VoicedKey ==> Get(r.timeIntervals, k) == Get(t.timeIntervals, k)
  {
    if Recompute(t, overwrite) then
      SetGetAll(t.timeIntervals, VoicedKey, rows);
      t.(timeIntervals := Set(t.timeIntervals, VoicedKey, rows))
    else t
  }

  lemma SetGetAll<V>(d: Dict<string, V>, k: string, v: V)
    ensures forall k' :: Get(Set(d, k, v), k') == if k' == k then Some(v) else Get(d, k')
  {
    forall k' ensures Get(Set(d, k, v), k') == if k' == k then Some(v) else Get(d, k') {
      SetGet(d, k, v, k');
    }
  }

  /** Rows that lie within `n` samples, each non-empty, in order and
      without overlapping. */
  predicate RowsOk(rows: seq<(int, int)>, n: nat) {
    && (forall k :: 0 <= k < |rows| ==> 0 <= rows[k].0 < rows[k].1 <= n)
    && (forall j, k :: 0 <= j < k < |rows| ==> rows[j].1 <= rows[k].0)
  }

  /** The rows stored for the spans of the segmenter keep its guarantees. */
  lemma SpanRowsOk(segments: seq<VoicedSegment>, audio: seq<int>, frameLength: nat, m: nat)
    requires frameLength > 0 && m <= |audio| && SpansOk(segments, audio, frameLength, m)
    ensures RowsOk(SpanIntervals(segments), |audio|)
  {
  }

  /** The voiced rows of one facet, or the segmenter's error. */
  method VoicedRows(t: AudioTrack, classify: Classifier, frameDurationMs: nat)
    returns (r: Result<seq<(int, int)>>)
    ensures r.Err? <==> SliceError(t.samples, t.sampleRate, classify, frameDurationMs).Some?
    ensures r.Err? ==> r.error == SliceError(t.samples, t.sampleRate, classify, frameDurationMs).value
    ensures r.Ok? ==> r.value == SpanIntervals(Spans(t.samples, t.sampleRate, classify, frameDurationMs, 100))
    ensures r.Ok? ==> RowsOk(r.value, |t.samples|)
  {
    var segments := VadSliceAudioSignal(t.samples, t.sampleRate, classify, frameDurationMs, 100);
    if segments.Err? {
      return Err(segments.error);
    }
    var frameLength := FrameLength(frameDurationMs, t.sampleRate);
    SpanRowsOk(segments.value, t.samples, frameLength, Examined(t.samples, frameLength));
    return Ok(SpanIntervals(segments.value));
  }

  /** The facet is recomputed and the segmenter raises on it. */
  predicate Fails(t: AudioTrack, classify: Classifier, frameDurationMs: nat, overwrite: bool) {
    Recompute(t, overwrite) && SliceError(t.samples, t.sampleRate, classify, frameDurationMs).Some?
  }

  /** `u` is what the function leaves of facet `t`: untouched when it is
      not recomputed, and otherwise the same samples with the segmenter's
      spans, well-formed, as its `voiced_segments` rows; every other
      interval set is kept. */
  ghost predicate Updated(t: AudioTrack, u: AudioTrack, classify: Classifier, frameDurationMs: nat,
                          overwrite: bool) {
    && (!Recompute(t, overwrite) ==> u == t)
    && (Recompute(t, overwrite) ==>
          && u.samples == t.samples && u.sampleRate == t.sampleRate
          && SliceError(t.samples, t.sampleRate, classify, frameDurationMs).None?
          && Get(u.timeIntervals, VoicedKey) == Some(SpanIntervals(Spans(t.samples, t.sampleRate, classify, frameDurationMs, 100)))
          && RowsOk(Get(u.timeIntervals, VoicedKey).value, |t.samples|))
    && (forall name :: name != VoicedKey ==> Get(u.timeIntervals, name) == Get(t.timeIntervals, name))
  }

  /** The loop body for one facet. */
  method UpdateTrack(t: AudioTrack, classify: Classifier, frameDurationMs: nat, overwrite: bool)
    returns (r: Result<AudioTrack>)
    ensures r.Err? <==> Fails(t, classify, frameDurationMs, overwrite)
    ensures r.Err? ==> r.error == SliceError(t.samples, t.sampleRate, classify, frameDurationMs).value
    ensures r.Ok? ==> Updated(t, r.value, classify, frameDurationMs, overwrite)
  {
    if !Recompute(t, overwrite) {
      return Ok(t);
    }
    var rows := VoicedRows(t, classify, frameDurationMs);
    if rows.Err? {
      return Err(rows.error);
    }
    return Ok(Decide(t, rows.value, overwrite));
  }

  /** What the loop over the audio facets leaves: it fails exactly when some
      recomputed facet makes the segmenter raise, with the error of the
      first such facet; otherwise every facet is updated, in order. */
  ghost predicate TracksUpdated(tracks: seq<AudioTrack>, r: Result<seq<AudioTrack>>, classify: Classifier,
                                frameDurationMs: nat, overwrite: bool) {
    && (r.Err? <==> exists k :: 0 <= k < |tracks| && Fails(tracks[k], classify, frameDurationMs, overwrite))
    && (r.Err? ==> exists k :: 0 <= k < |tracks| && Fails(tracks[k], classify, frameDurationMs, overwrite)
                              && r.error == SliceError(tracks[k].samples, tracks[k].sampleRate, classify, frameDurationMs).value
                              && forall j :: 0 <= j < k ==> !Fails(tracks[j], classify, frameDurationMs, overwrite))
    && (r.Ok? ==> |r.value| == |tracks|)
    && (r.Ok? ==> forall k :: 0 <= k < |tracks| ==> Updated(tracks[k], r.value[k], classify, frameDurationMs, overwrite))
  }

  /** The loop of `add_voiced_segment_facet` over the audio facets, the
      detector set up with `vad_mode` given as `classify`. */
  method UpdateTracks(tracks: seq<AudioTrack>, classify: Classifier, frameDurationMs: nat, overwrite: bool)
    returns (r: Result<seq<AudioTrack>>)
    ensures TracksUpdated(tracks, r, classify, frameDurationMs, overwrite)
  {
    var done: seq<AudioTrack> := [];
    for i := 0 to |tracks|
      invariant |done| == i
      invariant forall k :: 0 <= k < i ==> !Fails(tracks[k], classify, frameDurationMs, overwrite)
      invariant forall k :: 0 <= k < i ==> Updated(tracks[k], done[k], classify, frameDurationMs, overwrite)
    {
      var u := UpdateTrack(tracks[i], classify, frameDurationMs, overwrite);
      if u.Err? {
        return Err(u.error);
      }
      done := done + [u.value];
    }
    return Ok(done);
  }

  const AudioKey := "audio"

  /** `add_voiced_segment_facet(dataset, vad_mode, frame_duration_ms,
      overwrite)`, the dataset given by its modalities' audio facets.
      `get_all_facets(['audio'])` raises `KeyError` when the dataset has
      no audio modality; otherwise the facets are updated in order. */
  method AddVoicedSegmentFacet(modalities: Dict<string, seq<AudioTrack>>, classify: Classifier,
                               frameDurationMs: nat, overwrite: bool)
    returns (r: Result<seq<AudioTrack>>)
    ensures Get(modalities, AudioKey).None? ==> r == Err(KeyError(AudioKey))
    ensures Get(modalities, AudioKey).Some? ==>
              TracksUpdated(Get(modalities, AudioKey).value, r, classify, frameDurationMs, overwrite)
  {
    var tracks := Get(modalities, AudioKey);
    if tracks.None? {
      return Err(KeyError(AudioKey));
    }
    r := UpdateTracks(tracks.value, classify, frameDurationMs, overwrite);
  }
}
