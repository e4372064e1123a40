/** What the voice-activity segmentation guarantees about the spans it emits. */
module VadProofs {

  import opened Vad

  lemma {:induction false} OffsetAdd(a: nat, b: nat, frameLength: nat)
    ensures Offset(a + b, frameLength) == Offset(a, frameLength) + Offset(b, frameLength)
    decreases b
  {
    if b > 0 {
      OffsetAdd(a, b - 1, frameLength);
    }
  }

  /** The source's `start - (len(ring_buffer) - 1) * frame_length` is the
      first sample of the oldest buffered window. */
  lemma OffsetSub(n: nat, m: nat, frameLength: nat)
    requires 1 <= m <= n
    ensures Offset(n - 1, frameLength) - Offset(m - 1, frameLength) == Offset(n - m, frameLength)
  {
    var j := n - m;
    OffsetAdd(j, m - 1, frameLength);
    assert j + (m - 1) == n - 1;
  }

  /** The repeated addition is the product the source computes. */
  lemma {:induction false} OffsetIsProduct(k: nat, frameLength: nat)
    ensures Offset(k, frameLength) == k * frameLength
    decreases k
  {
    if k > 0 {
      OffsetIsProduct(k - 1, frameLength);
    }
  }

  /** `x` is a window boundary: a whole number of windows from sample 0. */
  predicate OnGrid(x: int, frameLength: nat)
    decreases if x > 0 then x else 0
  {
    x == 0 || (frameLength > 0 && x >= frameLength && OnGrid(x - frameLength, frameLength))
  }

  lemma {:induction false} OffsetOnGrid(k: nat, frameLength: nat)
    ensures OnGrid(Offset(k, frameLength), frameLength)
    decreases k
  {
    if k > 0 {
      OffsetOnGrid(k - 1, frameLength);
      if frameLength == 0 {
        OffsetIsProduct(k, 0);
      }
    }
  }

  lemma {:induction false} OnGridIsOffset(x: int, frameLength: nat) returns (k: nat)
    requires OnGrid(x, frameLength)
    ensures x == Offset(k, frameLength)
    decreases if x > 0 then x else 0
  {
    if x == 0 {
      k := 0;
    } else {
      k := OnGridIsOffset(x - frameLength, frameLength);
      k := k + 1;
    }
  }

  lemma MulBounds(d: int, frameLength: nat)
    requires frameLength > 0
    ensures d >= 1 ==> d * frameLength >= frameLength
    ensures d <= -1 ==> d * frameLength <= -(frameLength as int)
  {
    if d >= 1 {
      OffsetIsProduct(d, frameLength);
      OffsetMonotone(1, d, frameLength);
    } else if d <= -1 {
      OffsetIsProduct(-d, frameLength);
      OffsetMonotone(1, -d, frameLength);
    }
  }

  lemma MulMod(k: nat, frameLength: nat)
    requires frameLength > 0
    ensures (k * frameLength) % frameLength == 0
  {
    var q := (k * frameLength) / frameLength;
    var m := (k * frameLength) % frameLength;
    assert (k - q) * frameLength == m;
    MulBounds(k - q, frameLength);
  }

  /** A window boundary is a multiple of the window length. */
  lemma OnGridMod(x: int, frameLength: nat)
    requires frameLength > 0 && OnGrid(x, frameLength)
    ensures x % frameLength == 0
  {
    var k := OnGridIsOffset(x, frameLength);
    OffsetIsProduct(k, frameLength);
    MulMod(k, frameLength);
  }

  /** A span starts and ends on window boundaries inside the audio and
      carries exactly the samples between its ends. */
  predicate SegmentOk(g: VoicedSegment, audio: seq<int>, frameLength: nat) {
    && 0 <= g.start < g.end <= |audio|
    && g.audio == audio[g.start..g.end]
    && OnGrid(g.start, frameLength)
    && OnGrid(g.end, frameLength)
  }

  /** Spans come out in order and do not overlap. */
  predicate InOrder(segments: seq<VoicedSegment>) {
    forall j, k :: 0 <= j < k < |segments| ==> segments[j].end <= segments[k].start
  }

  /** No emitted span reaches past this sample. */
  function Frontier(s: VadState, n: nat, frameLength: nat): int {
    if s.triggered then s.voicedStart else if |s.ring| <= n then Offset(n - |s.ring|, frameLength) else 0
  }

  /** The ring buffer holds the most recent windows, at most `capacity` of them. */
  predicate RingOk(s: VadState, audio: seq<int>, speech: seq<bool>, frameLength: nat, capacity: nat, n: nat)
    requires n <= |speech| && Offset(|speech|, frameLength) <= |audio|
  {
    |s.ring| <= capacity && |s.ring| <= n && s.ring == Frames(audio, speech, frameLength, n - |s.ring|, n)
  }

  /** While triggered, the collected audio is the samples from the span's
      start, a window boundary, up to the current window's end. */
  predicate VoicedOk(s: VadState, audio: seq<int>, frameLength: nat, end: nat)
    requires end <= |audio|
  {
    && (!s.triggered ==> s.voiced == [])
    && (s.triggered ==>
          && 0 <= s.voicedStart && OnGrid(s.voicedStart, frameLength)
          && 0 < |s.voiced| && s.voicedStart + |s.voiced| == end
          && s.voiced == audio[s.voicedStart..end])
  }

  /** Well-formed spans, in order, none reaching past `frontier`. */
  predicate SegmentsOk(segments: seq<VoicedSegment>, audio: seq<int>, frameLength: nat, frontier: int) {
    && (forall k :: 0 <= k < |segments| ==> SegmentOk(segments[k], audio, frameLength))
    && InOrder(segments)
    && (forall k :: 0 <= k < |segments| ==> segments[k].end <= frontier)
  }

  /** What holds of the loop state after the first `n` windows. */
  predicate RunInvariant(s: VadState, audio: seq<int>, speech: seq<bool>, frameLength: nat, capacity: nat, n: nat)
    requires n <= |speech| && Offset(|speech|, frameLength) <= |audio|
  {
    && frameLength > 0
    && Offset(n, frameLength) <= |audio|
    && RingOk(s, audio, speech, frameLength, capacity, n)
    && VoicedOk(s, audio, frameLength, Offset(n, frameLength))
    && SegmentsOk(s.segments, audio, frameLength, Frontier(s, n, frameLength))
  }

  lemma SegmentsOkWiden(segments: seq<VoicedSegment>, audio: seq<int>, frameLength: nat, frontier: int, wider: int)
    requires frontier <= wider && SegmentsOk(segments, audio, frameLength, frontier)
    ensures SegmentsOk(segments, audio, frameLength, wider)
  {
  }

  lemma SegmentsOkAppend(segments: seq<VoicedSegment>, g: VoicedSegment, audio: seq<int>, frameLength: nat,
                         frontier: int, wider: int)
    requires SegmentsOk(segments, audio, frameLength, frontier)
    requires SegmentOk(g, audio, frameLength) && frontier <= g.start && g.end <= wider
    ensures SegmentsOk(segments + [g], audio, frameLength, wider)
  {
    var r := segments + [g];
    forall j, k | 0 <= j < k < |r| ensures r[j].end <= r[k].start {
      if k == |segments| {
        assert r[j] == segments[j];
      }
    }
  }

  lemma {:induction false} FramesSuffix(audio: seq<int>, speech: seq<bool>, frameLength: nat, a: nat, b: nat, m: nat)
    requires a <= b <= |speech| && Offset(|speech|, frameLength) <= |audio| && m <= b - a
    ensures Frames(audio, speech, frameLength, a, b)[m..] == Frames(audio, speech, frameLength, a + m, b)
    decreases b - a
  {
    if m < b - a {
      var prefix := Frames(audio, speech, frameLength, a, b - 1);
      var last := NextFrame(audio, speech, frameLength, b - 1);
      assert Frames(audio, speech, frameLength, a, b) == prefix + [last];
      FramesSuffix(audio, speech, frameLength, a, b - 1, m);
      assert (prefix + [last])[m..] == prefix[m..] + [last];
    }
  }

  lemma ConcatAudioSnoc(frames: seq<Frame>, f: Frame)
    ensures ConcatAudio(frames + [f]) == ConcatAudio(frames) + f.audio
  {
    assert (frames + [f])[..|frames|] == frames;
  }

  lemma LastFrameAudio(audio: seq<int>, speech: seq<bool>, frameLength: nat, a: nat, b: nat)
    requires a < b <= |speech| && Offset(|speech|, frameLength) <= |audio|
    ensures Offset(b - 1, frameLength) <= Offset(b, frameLength) <= |audio|
    ensures Frames(audio, speech, frameLength, a, b)
         == Frames(audio, speech, frameLength, a, b - 1) + [NextFrame(audio, speech, frameLength, b - 1)]
    ensures NextFrame(audio, speech, frameLength, b - 1).audio
         == audio[Offset(b - 1, frameLength)..Offset(b, frameLength)]
  {
    OffsetMonotone(b, |speech|, frameLength);
  }

  lemma ConcatFramesStep(audio: seq<int>, speech: seq<bool>, frameLength: nat, a: nat, b: nat)
    requires a < b <= |speech| && Offset(|speech|, frameLength) <= |audio|
    requires Offset(a, frameLength) <= Offset(b - 1, frameLength) <= |audio|
    requires ConcatAudio(Frames(audio, speech, frameLength, a, b - 1))
          == audio[Offset(a, frameLength)..Offset(b - 1, frameLength)]
    ensures Offset(a, frameLength) <= Offset(b, frameLength) <= |audio|
    ensures ConcatAudio(Frames(audio, speech, frameLength, a, b))
         == audio[Offset(a, frameLength)..Offset(b, frameLength)]
  {
    LastFrameAudio(audio, speech, frameLength, a, b);
    var prefix := Frames(audio, speech, frameLength, a, b - 1);
    var last := NextFrame(audio, speech, frameLength, b - 1);
    var p, q, r := Offset(a, frameLength), Offset(b - 1, frameLength), Offset(b, frameLength);
    calc {
      ConcatAudio(Frames(audio, speech, frameLength, a, b));
      ConcatAudio(prefix + [last]);
      { ConcatAudioSnoc(prefix, last); }
      ConcatAudio(prefix) + last.audio;
      audio[p..q] + audio[q..r];
      audio[p..r];
    }
  }

  /** The buffered windows' audio, concatenated, is the samples they span. */
  lemma {:induction false} ConcatFrames(audio: seq<int>, speech: seq<bool>, frameLength: nat, a: nat, b: nat)
    requires a <= b <= |speech| && Offset(|speech|, frameLength) <= |audio|
    ensures Offset(a, frameLength) <= Offset(b, frameLength) <= |audio|
    ensures ConcatAudio(Frames(audio, speech, frameLength, a, b))
         == audio[Offset(a, frameLength)..Offset(b, frameLength)]
    decreases b - a
  {
    if a == b {
      OffsetMonotone(b, |speech|, frameLength);
      assert Frames(audio, speech, frameLength, a, b) == [];
    } else {
      OffsetMonotone(a, b - 1, frameLength);
      ConcatFrames(audio, speech, frameLength, a, b - 1);
      ConcatFramesStep(audio, speech, frameLength, a, b);
    }
  }

  /** Pushing window `n - 1` onto a buffer that holds the windows just
      before it leaves a buffer that again holds the most recent windows. */
  lemma PushFrames(audio: seq<int>, speech: seq<bool>, frameLength: nat, capacity: nat, ring: seq<Frame>, n: nat)
    requires 0 < n <= |speech| && Offset(|speech|, frameLength) <= |audio|
    requires |ring| <= capacity && |ring| <= n - 1 && ring == Frames(audio, speech, frameLength, n - 1 - |ring|, n - 1)
    ensures var r := Push(ring, NextFrame(audio, speech, frameLength, n - 1), capacity);
            |r| <= n && r == Frames(audio, speech, frameLength, n - |r|, n)
  {
    var f := NextFrame(audio, speech, frameLength, n - 1);
    var r := Push(ring, f, capacity);
    PushKeepsRecent(ring, f, capacity);
    if |r| > 0 {
      var a, d := n - 1 - |ring|, |ring| + 1 - |r|;
      FramesSuffix(audio, speech, frameLength, a, n - 1, d);
      assert a + d == n - |r|;
      assert r == Frames(audio, speech, frameLength, n - |r|, n - 1) + [f];
      LastFrameAudio(audio, speech, frameLength, n - |r|, n);
    }
  }


  lemma ExceedsNonEmpty(ring: seq<Frame>, v: bool, capacity: nat)
    requires Exceeds(CountSpeech(ring, v), capacity)
    ensures |ring| > 0
  {
  }

  /** Facts about window `n - 1` that every case of the step needs. */
  lemma NextWindowFacts(audio: seq<int>, speech: seq<bool>, frameLength: nat, n: nat)
    requires 0 < n <= |speech| && Offset(|speech|, frameLength) <= |audio|
    ensures Offset(n, frameLength) <= |audio|
    ensures NextFrame(audio, speech, frameLength, n - 1).audio
         == audio[Offset(n - 1, frameLength)..Offset(n, frameLength)]
  {
    OffsetMonotone(n, |speech|, frameLength);
  }

  // The four shapes the loop body can take, each proved apart from the
  // invariant so that the case proofs below need not unfold `Step`.

  lemma QuietShape(s: VadState, i: nat, f: Frame, frameLength: nat, capacity: nat)
    requires |s.ring| <= capacity && !s.triggered
    requires !Exceeds(CountSpeech(Push(s.ring, f, capacity), true), capacity)
    ensures Step(s, i, f, frameLength, capacity) == s.(ring := Push(s.ring, f, capacity))
  {
  }

  lemma TriggerShape(s: VadState, i: nat, f: Frame, frameLength: nat, capacity: nat)
    requires |s.ring| <= capacity && !s.triggered && s.voiced == []
    requires Exceeds(CountSpeech(Push(s.ring, f, capacity), true), capacity)
    ensures var ring := Push(s.ring, f, capacity);
            |ring| > 0 &&
            Step(s, i, f, frameLength, capacity)
            == VadState(true, [], ConcatAudio(ring), Offset(i, frameLength) - Offset(|ring| - 1, frameLength), s.segments)
  {
    ExceedsNonEmpty(Push(s.ring, f, capacity), true, capacity);
  }

  /** The triggering shape with the span's start as a window offset: the
      oldest of the `|ring|` buffered windows, the last of which is window `n - 1`. */
  lemma TriggerShapeAt(s: VadState, n: nat, f: Frame, frameLength: nat, capacity: nat)
    requires 0 < n && |s.ring| <= capacity && |s.ring| <= n - 1 && !s.triggered && s.voiced == []
    requires Exceeds(CountSpeech(Push(s.ring, f, capacity), true), capacity)
    ensures var ring := Push(s.ring, f, capacity);
            |ring| > 0 &&
            Step(s, n - 1, f, frameLength, capacity)
            == VadState(true, [], ConcatAudio(ring), Offset(n - |ring|, frameLength), s.segments)
  {
    TriggerShape(s, n - 1, f, frameLength, capacity);
    OffsetSub(n, |Push(s.ring, f, capacity)|, frameLength);
  }

  lemma ExtendShape(s: VadState, i: nat, f: Frame, frameLength: nat, capacity: nat)
    requires |s.ring| <= capacity && s.triggered
    requires !Exceeds(CountSpeech(Push(s.ring, f, capacity), false), capacity)
    ensures Step(s, i, f, frameLength, capacity)
         == VadState(true, Push(s.ring, f, capacity), s.voiced + f.audio, s.voicedStart, s.segments)
  {
  }

  lemma EmitShape(s: VadState, i: nat, f: Frame, frameLength: nat, capacity: nat)
    requires |s.ring| <= capacity && s.triggered
    requires Exceeds(CountSpeech(Push(s.ring, f, capacity), false), capacity)
    ensures var voiced := s.voiced + f.audio;
            Step(s, i, f, frameLength, capacity)
            == VadState(false, [], [], s.voicedStart,
                        s.segments + [VoicedSegment(s.voicedStart, s.voicedStart + |voiced|, voiced)])
  {
  }

  // The parts of the invariant, each re-established on its own. In each
  // lemma `s` is the state after the first `n - 1` windows and `r` the state
  // after window `n - 1`, described by its shape rather than through `Step`.

  lemma RingCleared(r: VadState, audio: seq<int>, speech: seq<bool>, frameLength: nat, capacity: nat, n: nat)
    requires n <= |speech| && Offset(|speech|, frameLength) <= |audio| && r.ring == []
    ensures RingOk(r, audio, speech, frameLength, capacity, n)
  {
    assert Frames(audio, speech, frameLength, n, n) == [];
  }

  /** On triggering, the flushed buffer is exactly the audio from the
      oldest buffered window's first sample up to the current window's end. */
  lemma FlushedAudio(audio: seq<int>, speech: seq<bool>, frameLength: nat, capacity: nat, ring: seq<Frame>, n: nat)
    requires 0 < n <= |speech| && Offset(|speech|, frameLength) <= |audio|
    requires |ring| <= capacity && |ring| <= n - 1 && ring == Frames(audio, speech, frameLength, n - 1 - |ring|, n - 1)
    ensures var pushed := Push(ring, NextFrame(audio, speech, frameLength, n - 1), capacity);
            var start := Offset(n - |pushed|, frameLength);
            && |pushed| <= n
            && start <= Offset(n, frameLength) <= |audio|
            && OnGrid(start, frameLength)
            && ConcatAudio(pushed) == audio[start..Offset(n, frameLength)]
  {
    var pushed := Push(ring, NextFrame(audio, speech, frameLength, n - 1), capacity);
    PushFrames(audio, speech, frameLength, capacity, ring, n);
    ConcatFrames(audio, speech, frameLength, n - |pushed|, n);
    OffsetOnGrid(n - |pushed|, frameLength);
  }

  /** While triggered, the collected audio grows by exactly the next window,
      whose samples are `w`. */
  lemma ExtendVoiced(s: VadState, r: VadState, w: seq<int>, audio: seq<int>, frameLength: nat, n: nat)
    requires 0 < n && Offset(n, frameLength) <= |audio| && Offset(n - 1, frameLength) <= Offset(n, frameLength)
    requires w == audio[Offset(n - 1, frameLength)..Offset(n, frameLength)]
    requires VoicedOk(s, audio, frameLength, Offset(n - 1, frameLength))
    requires s.triggered && r.triggered && r.voicedStart == s.voicedStart && r.voiced == s.voiced + w
    ensures VoicedOk(r, audio, frameLength, Offset(n, frameLength))
  {
    var p, q, e := s.voicedStart, Offset(n - 1, frameLength), Offset(n, frameLength);
    assert audio[p..q] + audio[q..e] == audio[p..e];
  }

  lemma QuietFrontier(s: VadState, r: VadState, n: nat, frameLength: nat)
    requires 0 < n && !s.triggered && !r.triggered && |s.ring| <= n - 1 && |r.ring| <= |s.ring| + 1
    ensures Frontier(s, n - 1, frameLength) <= Frontier(r, n, frameLength)
  {
    OffsetMonotone(n - 1 - |s.ring|, n - |r.ring|, frameLength);
  }

  lemma TriggerFrontier(s: VadState, r: VadState, m: nat, n: nat, frameLength: nat)
    requires 0 < n && !s.triggered && r.triggered && |s.ring| <= n - 1 && 0 < m <= |s.ring| + 1
    requires r.voicedStart == Offset(n - m, frameLength)
    ensures Frontier(s, n - 1, frameLength) <= Frontier(r, n, frameLength)
  {
    OffsetMonotone(n - 1 - |s.ring|, n - m, frameLength);
  }

  /** The emitted span lies past every earlier one and becomes the new frontier. */
  lemma EmitSegments(s: VadState, r: VadState, w: seq<int>, audio: seq<int>, frameLength: nat, n: nat)
    requires 0 < n && Offset(n, frameLength) <= |audio| && Offset(n - 1, frameLength) <= Offset(n, frameLength)
    requires w == audio[Offset(n - 1, frameLength)..Offset(n, frameLength)]
    requires VoicedOk(s, audio, frameLength, Offset(n - 1, frameLength))
    requires s.triggered && SegmentsOk(s.segments, audio, frameLength, s.voicedStart)
    requires var voiced := s.voiced + w;
             r.segments == s.segments + [VoicedSegment(s.voicedStart, s.voicedStart + |voiced|, voiced)]
    ensures SegmentsOk(r.segments, audio, frameLength, Offset(n, frameLength))
  {
    var end := Offset(n, frameLength);
    var g := r.segments[|r.segments| - 1];
    var p, q := s.voicedStart, Offset(n - 1, frameLength);
    assert audio[p..q] + audio[q..end] == audio[p..end];
    OffsetOnGrid(n, frameLength);
    assert SegmentOk(g, audio, frameLength);
    SegmentsOkAppend(s.segments, g, audio, frameLength, s.voicedStart, end);
  }

  // One lemma per shape of the loop body, in two halves. The `Case` lemma
  // re-establishes the invariant for a new state `r` given by its shape, with
  // the new buffer `ring` and the new window's samples `w` as plain values;
  // the `Step` lemma relates that shape to `Step`. Kept apart, neither has to
  // unfold `Push`, `Step` and the invariant at once.

  lemma TriggerCase(s: VadState, r: VadState, m: nat, audio: seq<int>, speech: seq<bool>,
                    frameLength: nat, capacity: nat, n: nat)
    requires 0 < n <= |speech| && Offset(|speech|, frameLength) <= |audio| && frameLength > 0
    requires 0 < m <= n && Offset(n - m, frameLength) <= Offset(n, frameLength) <= |audio|
    requires OnGrid(Offset(n - m, frameLength), frameLength)
    requires !s.triggered && |s.ring| <= n - 1 && m <= |s.ring| + 1
    requires SegmentsOk(s.segments, audio, frameLength, Frontier(s, n - 1, frameLength))
    requires var start := Offset(n - m, frameLength);
             r == VadState(true, [], audio[start..Offset(n, frameLength)], start, s.segments)
    ensures RunInvariant(r, audio, speech, frameLength, capacity, n)
  {
    OffsetMonotone(n - m, n - 1, frameLength);
    OffsetMonotone(n - 1, n, frameLength);
    RingCleared(r, audio, speech, frameLength, capacity, n);
    TriggerFrontier(s, r, m, n, frameLength);
    SegmentsOkWiden(s.segments, audio, frameLength, Frontier(s, n - 1, frameLength), Frontier(r, n, frameLength));
  }

  lemma TriggerStep(s: VadState, audio: seq<int>, speech: seq<bool>, frameLength: nat, capacity: nat, n: nat)
    requires 0 < n <= |speech| && Offset(|speech|, frameLength) <= |audio|
    requires RunInvariant(s, audio, speech, frameLength, capacity, n - 1) && !s.triggered
    requires Exceeds(CountSpeech(Push(s.ring, NextFrame(audio, speech, frameLength, n - 1), capacity), true), capacity)
    ensures RunInvariant(Step(s, n - 1, NextFrame(audio, speech, frameLength, n - 1), frameLength, capacity),
                         audio, speech, frameLength, capacity, n)
  {
    var f := NextFrame(audio, speech, frameLength, n - 1);
    var ring := Push(s.ring, f, capacity);
    TriggerShapeAt(s, n, f, frameLength, capacity);
    FlushedAudio(audio, speech, frameLength, capacity, s.ring, n);
    TriggerCase(s, Step(s, n - 1, f, frameLength, capacity), |ring|, audio, speech, frameLength, capacity, n);
  }

  lemma QuietCase(s: VadState, r: VadState, ring: seq<Frame>, audio: seq<int>, speech: seq<bool>,
                  frameLength: nat, capacity: nat, n: nat)
    requires 0 < n <= |speech| && Offset(|speech|, frameLength) <= |audio| && frameLength > 0
    requires |ring| <= capacity && |ring| <= n && ring == Frames(audio, speech, frameLength, n - |ring|, n)
    requires !s.triggered && s.voiced == [] && |s.ring| <= n - 1 && |ring| <= |s.ring| + 1
    requires SegmentsOk(s.segments, audio, frameLength, Frontier(s, n - 1, frameLength))
    requires r == s.(ring := ring)
    ensures RunInvariant(r, audio, speech, frameLength, capacity, n)
  {
    OffsetMonotone(n, |speech|, frameLength);
    QuietFrontier(s, r, n, frameLength);
    SegmentsOkWiden(s.segments, audio, frameLength, Frontier(s, n - 1, frameLength), Frontier(r, n, frameLength));
  }

  lemma QuietStep(s: VadState, audio: seq<int>, speech: seq<bool>, frameLength: nat, capacity: nat, n: nat)
    requires 0 < n <= |speech| && Offset(|speech|, frameLength) <= |audio|
    requires RunInvariant(s, audio, speech, frameLength, capacity, n - 1) && !s.triggered
    requires !Exceeds(CountSpeech(Push(s.ring, NextFrame(audio, speech, frameLength, n - 1), capacity), true), capacity)
    ensures RunInvariant(Step(s, n - 1, NextFrame(audio, speech, frameLength, n - 1), frameLength, capacity),
                         audio, speech, frameLength, capacity, n)
  {
    var f := NextFrame(audio, speech, frameLength, n - 1);
    var ring := Push(s.ring, f, capacity);
    QuietShape(s, n - 1, f, frameLength, capacity);
    PushFrames(audio, speech, frameLength, capacity, s.ring, n);
    QuietCase(s, Step(s, n - 1, f, frameLength, capacity), ring, audio, speech, frameLength, capacity, n);
  }

  lemma EmitCase(s: VadState, r: VadState, w: seq<int>, audio: seq<int>, speech: seq<bool>,
                 frameLength: nat, capacity: nat, n: nat)
    requires 0 < n <= |speech| && Offset(|speech|, frameLength) <= |audio| && frameLength > 0
    requires Offset(n, frameLength) <= |audio| && Offset(n - 1, frameLength) <= Offset(n, frameLength)
    requires w == audio[Offset(n - 1, frameLength)..Offset(n, frameLength)]
    requires s.triggered && VoicedOk(s, audio, frameLength, Offset(n - 1, frameLength))
    requires SegmentsOk(s.segments, audio, frameLength, s.voicedStart)
    requires var voiced := s.voiced + w;
             r == VadState(false, [], [], s.voicedStart,
                           s.segments + [VoicedSegment(s.voicedStart, s.voicedStart + |voiced|, voiced)])
    ensures RunInvariant(r, audio, speech, frameLength, capacity, n)
  {
    RingCleared(r, audio, speech, frameLength, capacity, n);
    EmitSegments(s, r, w, audio, frameLength, n);
  }

  lemma EmitStep(s: VadState, audio: seq<int>, speech: seq<bool>, frameLength: nat, capacity: nat, n: nat)
    requires 0 < n <= |speech| && Offset(|speech|, frameLength) <= |audio|
    requires RunInvariant(s, audio, speech, frameLength, capacity, n - 1) && s.triggered
    requires Exceeds(CountSpeech(Push(s.ring, NextFrame(audio, speech, frameLength, n - 1), capacity), false), capacity)
    ensures RunInvariant(Step(s, n - 1, NextFrame(audio, speech, frameLength, n - 1), frameLength, capacity),
                         audio, speech, frameLength, capacity, n)
  {
    var f := NextFrame(audio, speech, frameLength, n - 1);
    EmitShape(s, n - 1, f, frameLength, capacity);
    NextWindowFacts(audio, speech, frameLength, n);
    OffsetMonotone(n - 1, n, frameLength);
    EmitCase(s, Step(s, n - 1, f, frameLength, capacity), f.audio, audio, speech, frameLength, capacity, n);
  }

  lemma ExtendCase(s: VadState, r: VadState, ring: seq<Frame>, w: seq<int>, audio: seq<int>, speech: seq<bool>,
                   frameLength: nat, capacity: nat, n: nat)
    requires 0 < n <= |speech| && Offset(|speech|, frameLength) <= |audio| && frameLength > 0
    requires |ring| <= capacity && |ring| <= n && ring == Frames(audio, speech, frameLength, n - |ring|, n)
    requires Offset(n, frameLength) <= |audio| && Offset(n - 1, frameLength) <= Offset(n, frameLength)
    requires w == audio[Offset(n - 1, frameLength)..Offset(n, frameLength)]
    requires s.triggered && VoicedOk(s, audio, frameLength, Offset(n - 1, frameLength))
    requires SegmentsOk(s.segments, audio, frameLength, s.voicedStart)
    requires r == VadState(true, ring, s.voiced + w, s.voicedStart, s.segments)
    ensures RunInvariant(r, audio, speech, frameLength, capacity, n)
  {
    ExtendVoiced(s, r, w, audio, frameLength, n);
  }

  lemma ExtendStep(s: VadState, audio: seq<int>, speech: seq<bool>, frameLength: nat, capacity: nat, n: nat)
    requires 0 < n <= |speech| && Offset(|speech|, frameLength) <= |audio|
    requires RunInvariant(s, audio, speech, frameLength, capacity, n - 1) && s.triggered
    requires !Exceeds(CountSpeech(Push(s.ring, NextFrame(audio, speech, frameLength, n - 1), capacity), false), capacity)
    ensures RunInvariant(Step(s, n - 1, NextFrame(audio, speech, frameLength, n - 1), frameLength, capacity),
                         audio, speech, frameLength, capacity, n)
  {
    var f := NextFrame(audio, speech, frameLength, n - 1);
    var ring := Push(s.ring, f, capacity);
    ExtendShape(s, n - 1, f, frameLength, capacity);
    PushFrames(audio, speech, frameLength, capacity, s.ring, n);
    NextWindowFacts(audio, speech, frameLength, n);
    OffsetMonotone(n - 1, n, frameLength);
    ExtendCase(s, Step(s, n - 1, f, frameLength, capacity), ring, f.audio, audio, speech, frameLength, capacity, n);
  }

  /** The loop body keeps the invariant. */
  lemma StepKeepsInvariant(s: VadState, audio: seq<int>, speech: seq<bool>, frameLength: nat, capacity: nat, n: nat)
    requires 0 < n <= |speech| && Offset(|speech|, frameLength) <= |audio|
    requires RunInvariant(s, audio, speech, frameLength, capacity, n - 1)
    ensures RunInvariant(Step(s, n - 1, NextFrame(audio, speech, frameLength, n - 1), frameLength, capacity),
                         audio, speech, frameLength, capacity, n)
  {
    var ring := Push(s.ring, NextFrame(audio, speech, frameLength, n - 1), capacity);
    if !s.triggered {
      if Exceeds(CountSpeech(ring, true), capacity) {
        TriggerStep(s, audio, speech, frameLength, capacity, n);
      } else {
        QuietStep(s, audio, speech, frameLength, capacity, n);
      }
    } else {
      if Exceeds(CountSpeech(ring, false), capacity) {
        EmitStep(s, audio, speech, frameLength, capacity, n);
      } else {
        ExtendStep(s, audio, speech, frameLength, capacity, n);
      }
    }
  }

  /** The invariant holds before the first window. */
  lemma InitialInvariant(audio: seq<int>, speech: seq<bool>, frameLength: nat, capacity: nat)
    requires frameLength > 0 && Offset(|speech|, frameLength) <= |audio|
    ensures RunInvariant(InitialState, audio, speech, frameLength, capacity, 0)
  {
    RingCleared(InitialState, audio, speech, frameLength, capacity, 0);
  }

  /** Once every window is classified, the spans emitted, together with the
      one still being collected, lie on window boundaries within the
      classified windows, carry exactly the samples they span, and come out
      in order without overlapping. */
  lemma FinishSound(s: VadState, audio: seq<int>, speech: seq<bool>, frameLength: nat, capacity: nat)
    requires Offset(|speech|, frameLength) <= |audio|
    requires RunInvariant(s, audio, speech, frameLength, capacity, |speech|)
    ensures SegmentsOk(Finish(s), audio, frameLength, Offset(|speech|, frameLength))
  {
    var n := |speech|;
    if |s.voiced| > 0 {
      var g := VoicedSegment(s.voicedStart, s.voicedStart + |s.voiced|, s.voiced);
      OffsetOnGrid(n, frameLength);
      assert SegmentOk(g, audio, frameLength);
      SegmentsOkAppend(s.segments, g, audio, frameLength, s.voicedStart, Offset(n, frameLength));
    } else {
      OffsetMonotone(n - |s.ring|, n, frameLength);
      SegmentsOkWiden(s.segments, audio, frameLength, Frontier(s, n, frameLength), Offset(n, frameLength));
    }
  }

  predicate AllSpeech(ring: seq<Frame>, v: bool) {
    forall j :: 0 <= j < |ring| ==> ring[j].isSpeech == v
  }

  lemma {:induction false} CountAll(ring: seq<Frame>, v: bool)
    requires AllSpeech(ring, v)
    ensures CountSpeech(ring, v) == |ring| && CountSpeech(ring, !v) == 0
    decreases |ring|
  {
    if |ring| > 0 {
      CountAll(ring[..|ring| - 1], v);
    }
  }

  lemma PushAll(ring: seq<Frame>, f: Frame, capacity: nat, v: bool)
    requires |ring| <= capacity && AllSpeech(ring, v) && f.isSpeech == v
    ensures AllSpeech(Push(ring, f, capacity), v)
  {
    var r := Push(ring, f, capacity);
    PushKeepsRecent(ring, f, capacity);
    if |r| > 0 {
      var d := |ring| + 1 - |r|;
      forall j | 0 <= j < |r| ensures r[j].isSpeech == v {
        if j < |r| - 1 {
          assert r[j] == ring[d + j];
        }
      }
    }
  }

  /** A buffer with no frame classified `v` holds only frames classified `!v`. */
  lemma {:induction false} CountNone(ring: seq<Frame>, v: bool)
    requires CountSpeech(ring, v) == 0
    ensures AllSpeech(ring, !v)
    decreases |ring|
  {
    if |ring| > 0 {
      CountNone(ring[..|ring| - 1], v);
      assert forall j :: 0 <= j < |ring| - 1 ==> ring[j] == ring[..|ring| - 1][j];
    }
  }

  predicate Silent(s: VadState) {
    !s.triggered && s.voiced == [] && s.segments == [] && CountSpeech(s.ring, true) == 0
  }

  lemma SilentStep(s: VadState, i: nat, f: Frame, frameLength: nat, capacity: nat)
    requires |s.ring| <= capacity && Silent(s) && !f.isSpeech
    ensures Silent(Step(s, i, f, frameLength, capacity))
  {
    CountNone(s.ring, true);
    PushAll(s.ring, f, capacity, false);
    CountAll(Push(s.ring, f, capacity), false);
    QuietShape(s, i, f, frameLength, capacity);
  }

  /** The number of voiced windows that fill more than 90% of the ring buffer. */
  function TriggerPoint(capacity: nat): nat {
    9 * capacity / 10 + 1
  }

  lemma TriggerPointExceeds(k: nat, capacity: nat)
    ensures Exceeds(k, capacity) <==> k >= TriggerPoint(capacity)
    ensures capacity >= 1 ==> TriggerPoint(capacity) <= capacity
  {
  }

  /** What holds after `n` windows of speech: untriggered with every window
      buffered until the buffer is more than 90% full, triggered from the
      first sample on afterwards. */
  predicate Voiced(s: VadState, n: nat, capacity: nat) {
    && s.segments == [] && CountSpeech(s.ring, false) == 0
    && (n < TriggerPoint(capacity) ==> !s.triggered && |s.ring| == n && s.voiced == [])
    && (n >= TriggerPoint(capacity) ==> s.triggered && s.voicedStart == 0)
  }

  lemma VoicedStep(s: VadState, i: nat, f: Frame, frameLength: nat, capacity: nat)
    requires capacity >= 1 && |s.ring| <= capacity && Voiced(s, i, capacity) && f.isSpeech
    ensures Voiced(Step(s, i, f, frameLength, capacity), i + 1, capacity)
  {
    TriggerPointExceeds(i + 1, capacity);
    CountNone(s.ring, false);
    var ring := Push(s.ring, f, capacity);
    PushAll(s.ring, f, capacity, true);
    CountAll(ring, true);
    if !s.triggered {
      if i + 1 >= TriggerPoint(capacity) {
        TriggerShape(s, i, f, frameLength, capacity);
      } else {
        QuietShape(s, i, f, frameLength, capacity);
      }
    } else {
      ExtendShape(s, i, f, frameLength, capacity);
    }
  }

  /** After speech throughout, one span covers every classified window once
      the ring buffer could fill past 90%, and there is none before. */
  lemma FinishVoiced(s: VadState, audio: seq<int>, speech: seq<bool>, frameLength: nat, capacity: nat)
    requires capacity >= 1 && Offset(|speech|, frameLength) <= |audio|
    requires RunInvariant(s, audio, speech, frameLength, capacity, |speech|) && Voiced(s, |speech|, capacity)
    ensures Finish(s) == if |speech| >= TriggerPoint(capacity)
                         then [VoicedSegment(0, Offset(|speech|, frameLength), audio[..Offset(|speech|, frameLength)])]
                         else []
  {
  }
}
