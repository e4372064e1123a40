/** `vad_slice_audio_signal` and `add_voiced_segment_facet` of
    multimodal/dataset/add_vad_signal.py at the level of a whole signal:
    the window count, the classification of each window, the loop over the
    windows, and the intervals stored for the voiced spans. */
module VadSignal {

  import opened Wrappers
  import opened Vad
  import opened VadProofs

  /** `len(audio_frames) // frame_length` whole windows; the trailing samples
      that do not fill a window are dropped. */
  function NumWindows(audio: seq<int>, frameLength: nat): nat
    requires frameLength > 0
  {
    |audio| / frameLength
  }

  /** The samples the windows cover, `num_windows * frame_length`: all of the
      signal but its last partial window. */
  function Examined(audio: seq<int>, frameLength: nat): (m: nat)
    requires frameLength > 0
    ensures m == NumWindows(audio, frameLength) * frameLength
    ensures m <= |audio| < m + frameLength
    ensures m == Offset(NumWindows(audio, frameLength), frameLength)
  {
    OffsetIsProduct(NumWindows(audio, frameLength), frameLength);
    Offset(NumWindows(audio, frameLength), frameLength)
  }

  /** `vad.is_speech(window, sample_rate)`: a verdict on one window, or the
      error the detector raises (webrtcvad raises for a sample rate or a
      window length it does not support). The verdict depends on the window
      and the rate alone; the detector's adaptation to earlier windows is
      not modelled. */
  type Classifier = (seq<int>, nat) -> Result<bool>

  /** The classifier's verdicts on the first `n` windows, taken in order;
      the first error ends the loop and is raised. */
  function Classify(audio: seq<int>, frameLength: nat, sampleRate: nat, classify: Classifier, n: nat)
    : (speech: Result<seq<bool>>)
    requires Offset(n, frameLength) <= |audio|
    ensures speech.Ok? ==> |speech.value| == n
    decreases n
  {
    if n == 0 then Ok([])
    else
      OffsetMonotone(n - 1, n, frameLength);
      var prefix := Classify(audio, frameLength, sampleRate, classify, n - 1);
      if prefix.Err? then prefix
      else
        var verdict := classify(Window(audio, frameLength, n - 1), sampleRate);
        if verdict.Err? then Err(verdict.error) else Ok(prefix.value + [verdict.value])
  }

  /** When the verdicts are taken, entry `k` is the classifier's verdict on
      window `k`, and nothing else. */
  lemma {:induction false} ClassifyWindows(audio: seq<int>, frameLength: nat, sampleRate: nat,
                                           classify: Classifier, n: nat, k: nat)
    requires Offset(n, frameLength) <= |audio| && k < n
    ensures Offset(k + 1, frameLength) <= |audio|
    ensures Classify(audio, frameLength, sampleRate, classify, n).Ok? ==>
              classify(Window(audio, frameLength, k), sampleRate).Ok?
              && Classify(audio, frameLength, sampleRate, classify, n).value[k]
                 == classify(Window(audio, frameLength, k), sampleRate).value
    decreases n
  {
    OffsetMonotone(n - 1, n, frameLength);
    if k < n - 1 {
      ClassifyWindows(audio, frameLength, sampleRate, classify, n - 1, k);
    }
  }

  /** When the verdicts are not taken, some window `k` made the classifier
      raise, its error is the one raised, and every window before it was
      classified. */
  lemma {:induction false} ClassifyFirstFailure(audio: seq<int>, frameLength: nat, sampleRate: nat,
                                                classify: Classifier, n: nat)
    returns (k: nat)
    requires Offset(n, frameLength) <= |audio|
    requires Classify(audio, frameLength, sampleRate, classify, n).Err?
    ensures k < n && Offset(k + 1, frameLength) <= |audio|
    ensures classify(Window(audio, frameLength, k), sampleRate)
            == Err(Classify(audio, frameLength, sampleRate, classify, n).error)
    ensures Classify(audio, frameLength, sampleRate, classify, k).Ok?
    decreases n
  {
    OffsetMonotone(n - 1, n, frameLength);
    if Classify(audio, frameLength, sampleRate, classify, n - 1).Err? {
      k := ClassifyFirstFailure(audio, frameLength, sampleRate, classify, n - 1);
      OffsetMonotone(k + 1, n - 1, frameLength);
    } else {
      k := n - 1;
    }
  }

  /** `vad.is_speech` applied to every whole window of the signal. */
  function ClassifyAll(audio: seq<int>, frameLength: nat, sampleRate: nat, classify: Classifier)
    : (speech: Result<seq<bool>>)
    requires frameLength > 0
    ensures speech.Ok? ==> |speech.value| == NumWindows(audio, frameLength)
  {
    assert Offset(NumWindows(audio, frameLength), frameLength) == Examined(audio, frameLength);
    Classify(audio, frameLength, sampleRate, classify, NumWindows(audio, frameLength))
  }

  /** Everything the loop of `SegmentWindows` keeps after `i` windows. */
  predicate LoopInvariant(s: VadState, audio: seq<int>, speech: seq<bool>, frameLength: nat, capacity: nat, i: nat)
    requires i <= |speech| && Offset(|speech|, frameLength) <= |audio|
  {
    && RunInvariant(s, audio, speech, frameLength, capacity, i)
    && (true !in speech ==> Silent(s))
    && (capacity >= 1 && false !in speech ==> Voiced(s, i, capacity))
  }

  /** The fold after `n` windows is one more step after `n - 1`. */
  lemma RunSucc(audio: seq<int>, speech: seq<bool>, frameLength: nat, capacity: nat, n: nat)
    requires 0 < n <= |speech| && Offset(|speech|, frameLength) <= |audio|
    ensures Run(audio, speech, frameLength, capacity, n)
            == Step(Run(audio, speech, frameLength, capacity, n - 1), n - 1,
                    NextFrame(audio, speech, frameLength, n - 1), frameLength, capacity)
  {
  }

  /** One more window keeps the run invariant of the fold. */
  lemma RunInvariantStep(audio: seq<int>, speech: seq<bool>, frameLength: nat, capacity: nat, n: nat)
    requires 0 < n <= |speech| && Offset(|speech|, frameLength) <= |audio|
    requires RunInvariant(Run(audio, speech, frameLength, capacity, n - 1), audio, speech, frameLength, capacity, n - 1)
    ensures RunInvariant(Run(audio, speech, frameLength, capacity, n), audio, speech, frameLength, capacity, n)
  {
    StepKeepsInvariant(Run(audio, speech, frameLength, capacity, n - 1), audio, speech, frameLength, capacity, n);
  }

  /** The fold keeps the run invariant after any number of windows. */
  lemma {:induction false} RunKeepsRunInvariant(audio: seq<int>, speech: seq<bool>, frameLength: nat, capacity: nat,
                                                n: nat)
    requires frameLength > 0 && n <= |speech| && Offset(|speech|, frameLength) <= |audio|
    ensures RunInvariant(Run(audio, speech, frameLength, capacity, n), audio, speech, frameLength, capacity, n)
    decreases n
  {
    if n == 0 {
      InitialInvariant(audio, speech, frameLength, capacity);
    } else {
      RunKeepsRunInvariant(audio, speech, frameLength, capacity, n - 1);
      RunInvariantStep(audio, speech, frameLength, capacity, n);
    }
  }

  /** With no voiced window, the fold never leaves the silent state. */
  lemma {:induction false} RunSilent(audio: seq<int>, speech: seq<bool>, frameLength: nat, capacity: nat, n: nat)
    requires n <= |speech| && Offset(|speech|, frameLength) <= |audio| && true !in speech
    ensures Silent(Run(audio, speech, frameLength, capacity, n))
    decreases n
  {
    if n > 0 {
      RunSilent(audio, speech, frameLength, capacity, n - 1);
      RunSucc(audio, speech, frameLength, capacity, n);
      assert speech[n - 1] in speech;
      SilentStep(Run(audio, speech, frameLength, capacity, n - 1), n - 1,
                 NextFrame(audio, speech, frameLength, n - 1), frameLength, capacity);
    }
  }

  /** With every window voiced, the fold is in the all-voiced shape for the
      number of windows seen. */
  lemma {:induction false} RunVoiced(audio: seq<int>, speech: seq<bool>, frameLength: nat, capacity: nat, n: nat)
    requires n <= |speech| && Offset(|speech|, frameLength) <= |audio| && capacity >= 1 && false !in speech
    ensures Voiced(Run(audio, speech, frameLength, capacity, n), n, capacity)
    decreases n
  {
    if n > 0 {
      RunVoiced(audio, speech, frameLength, capacity, n - 1);
      RunSucc(audio, speech, frameLength, capacity, n);
      assert speech[n - 1] in speech;
      VoicedStep(Run(audio, speech, frameLength, capacity, n - 1), n - 1,
                 NextFrame(audio, speech, frameLength, n - 1), frameLength, capacity);
    }
  }

  /** The state after any number of windows keeps the loop invariant. */
  lemma RunKeepsInvariant(audio: seq<int>, speech: seq<bool>, frameLength: nat, capacity: nat, n: nat)
    requires frameLength > 0 && n <= |speech| && Offset(|speech|, frameLength) <= |audio|
    ensures LoopInvariant(Run(audio, speech, frameLength, capacity, n), audio, speech, frameLength, capacity, n)
  {
    RunKeepsRunInvariant(audio, speech, frameLength, capacity, n);
    if true !in speech {
      RunSilent(audio, speech, frameLength, capacity, n);
    }
    if capacity >= 1 && false !in speech {
      RunVoiced(audio, speech, frameLength, capacity, n);
    }
  }

  /** The loop of `vad_slice_audio_signal` over the classified windows, with
      the span still being collected emitted at the end. */
  method SegmentWindows(audio: seq<int>, speech: seq<bool>, frameLength: nat, capacity: nat)
    returns (segments: seq<VoicedSegment>)
    requires frameLength > 0 && Offset(|speech|, frameLength) <= |audio|
    ensures segments == Finish(Run(audio, speech, frameLength, capacity, |speech|))
    ensures SegmentsOk(segments, audio, frameLength, Offset(|speech|, frameLength))
    ensures true !in speech ==> segments == []
    ensures capacity >= 1 && false !in speech ==>
              segments == if |speech| >= TriggerPoint(capacity)
                          then [VoicedSegment(0, Offset(|speech|, frameLength), audio[..Offset(|speech|, frameLength)])]
                          else []
  {
    var s := InitialState;
    var i := 0;
    while i < |speech|
      invariant i <= |speech|
      invariant s == Run(audio, speech, frameLength, capacity, i)
    {
      s := Step(s, i, NextFrame(audio, speech, frameLength, i), frameLength, capacity);
      i := i + 1;
    }
    RunKeepsInvariant(audio, speech, frameLength, capacity, |speech|);
    FinishSound(s, audio, speech, frameLength, capacity);
    if capacity >= 1 && false !in speech {
      FinishVoiced(s, audio, speech, frameLength, capacity);
    }
    segments := Finish(s);
  }

  /** What the spans of a successful call satisfy, in the source's own
      arithmetic: they lie within the `m` samples the windows cover, start
      and end on multiples of the window length, carry exactly the samples
      they span, and come in order without overlapping. */
  predicate SpansOk(segments: seq<VoicedSegment>, audio: seq<int>, frameLength: nat, m: nat)
    requires frameLength > 0 && m <= |audio|
  {
    && (forall k :: 0 <= k < |segments| ==>
          && 0 <= segments[k].start < segments[k].end <= m
          && segments[k].audio == audio[segments[k].start..segments[k].end]
          && segments[k].start % frameLength == 0
          && segments[k].end % frameLength == 0)
    && InOrder(segments)
  }

  lemma SegmentsOkSpans(segments: seq<VoicedSegment>, audio: seq<int>, frameLength: nat, n: nat)
    requires frameLength > 0 && Offset(n, frameLength) <= |audio|
    requires SegmentsOk(segments, audio, frameLength, Offset(n, frameLength))
    ensures SpansOk(segments, audio, frameLength, Offset(n, frameLength))
  {
    forall k | 0 <= k < |segments|
      ensures segments[k].start % frameLength == 0 && segments[k].end % frameLength == 0
    {
      OnGridMod(segments[k].start, frameLength);
      OnGridMod(segments[k].end, frameLength);
    }
  }

  /** A positive window length needs a positive frame duration. */
  lemma FrameDurationPositive(frameDurationMs: nat, sampleRate: nat)
    requires FrameLength(frameDurationMs, sampleRate) > 0
    ensures frameDurationMs > 0
  {
  }

  /** The exception `vad_slice_audio_signal` raises, if any. A zero window
      length divides by zero before any window is classified: by a zero
      frame duration when the buffer size is computed, and otherwise when
      the windows are counted. Else the classifier's first error, if it
      raises on some window. */
  function SliceError(audio: seq<int>, sampleRate: nat, classify: Classifier, frameDurationMs: nat): Option<Error> {
    var frameLength := FrameLength(frameDurationMs, sampleRate);
    if frameLength == 0 then Some(ZeroDivisionError)
    else
      var speech := ClassifyAll(audio, frameLength, sampleRate, classify);
      if speech.Err? then Some(speech.error) else None
  }

  /** The spans `vad_slice_audio_signal` returns when it does not raise: the
      loop over every whole window, with the span still being collected
      emitted at the end. */
  function Spans(audio: seq<int>, sampleRate: nat, classify: Classifier,
                 frameDurationMs: nat, paddingDurationMs: nat): (r: seq<VoicedSegment>)
    requires SliceError(audio, sampleRate, classify, frameDurationMs).None?
    ensures var frameLength := FrameLength(frameDurationMs, sampleRate);
            frameLength > 0 && SpansOk(r, audio, frameLength, Examined(audio, frameLength))
  {
    var frameLength := FrameLength(frameDurationMs, sampleRate);
    FrameDurationPositive(frameDurationMs, sampleRate);
    var capacity := RingCapacity(paddingDurationMs, frameDurationMs);
    var speech := ClassifyAll(audio, frameLength, sampleRate, classify).value;
    assert Offset(|speech|, frameLength) == Examined(audio, frameLength);
    var s := Run(audio, speech, frameLength, capacity, |speech|);
    RunKeepsInvariant(audio, speech, frameLength, capacity, |speech|);
    FinishSound(s, audio, speech, frameLength, capacity);
    SegmentsOkSpans(Finish(s), audio, frameLength, |speech|);
    Finish(s)
  }

  /** `vad_slice_audio_signal(audio_frames, sample_rate, vad, frame_duration_ms,
      padding_duration_ms)`, the detector `vad.is_speech` given as
      `classify`. It raises exactly what `SliceError` names; otherwise its
      spans are those of the `Step` fold over the classified windows. */
  method VadSliceAudioSignal(audio: seq<int>, sampleRate: nat, classify: Classifier,
                             frameDurationMs: nat, paddingDurationMs: nat)
    returns (r: Result<seq<VoicedSegment>>)
    ensures FrameLength(frameDurationMs, sampleRate) == 0 ==> r == Err(ZeroDivisionError)
    ensures r.Err? <==> SliceError(audio, sampleRate, classify, frameDurationMs).Some?
    ensures r.Err? ==> r.error == SliceError(audio, sampleRate, classify, frameDurationMs).value
    ensures r.Ok? ==> r.value == Spans(audio, sampleRate, classify, frameDurationMs, paddingDurationMs)
    ensures r.Ok? ==>
              var frameLength := FrameLength(frameDurationMs, sampleRate);
              var capacity := RingCapacity(paddingDurationMs, frameDurationMs);
              var m := Examined(audio, frameLength);
              var speech := ClassifyAll(audio, frameLength, sampleRate, classify).value;
              && SpansOk(r.value, audio, frameLength, m)
              && (true !in speech ==> r.value == [])
              && (capacity >= 1 && false !in speech ==>
                    r.value == if |speech| >= TriggerPoint(capacity) then [VoicedSegment(0, m, audio[..m])] else [])
  {
    var frameLength := FrameLength(frameDurationMs, sampleRate);
    if frameDurationMs == 0 {
      return Err(ZeroDivisionError);
    }
    var capacity := RingCapacity(paddingDurationMs, frameDurationMs);
    if frameLength == 0 {
      return Err(ZeroDivisionError);
    }
    var m := Examined(audio, frameLength);
    var speech := ClassifyAll(audio, frameLength, sampleRate, classify);
    if speech.Err? {
      return Err(speech.error);
    }
    var segments := SegmentWindows(audio, speech.value, frameLength, capacity);
    SegmentsOkSpans(segments, audio, frameLength, |speech.value|);
    return Ok(segments);
  }

  /** The `[start, end]` rows `add_voiced_segment_facet` stores for the spans. */
  function SpanIntervals(segments: seq<VoicedSegment>): (rows: seq<(int, int)>)
    ensures |rows| == |segments|
    ensures forall k :: 0 <= k < |segments| ==> rows[k] == (segments[k].start, segments[k].end)
  {
    if |segments| == 0 then [] else SpanIntervals(segments[..|segments| - 1]) + [(segments[|segments| - 1].start, segments[|segments| - 1].end)]
  }
}
