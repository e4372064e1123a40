/** `vad_slice_audio_signal` of multimodal/dataset/add_vad_signal.py: a
    two-state hysteresis machine over fixed-length windows of PCM samples.
    The external per-window speech classifier becomes a function parameter;
    the machine proper is a fold over the windows and their classifications. */
module Vad {

  import opened Wrappers

  /** One classified window, as the ring buffer holds it. */
  datatype Frame = Frame(audio: seq<int>, isSpeech: bool)

  /** An emitted span: its first sample, one past its last, and its audio. */
  datatype VoicedSegment = VoicedSegment(start: int, end: int, audio: seq<int>)

  /** The loop state: the trigger flag, the ring buffer, the audio collected
      for the span being built, where that span starts, and the spans
      emitted so far. */
  datatype VadState = VadState(triggered: bool, ring: seq<Frame>, voiced: seq<int>, voicedStart: int,
                               segments: seq<VoicedSegment>)

  /** Before the first window. The source's `None` for the span start is
      never read before it is set; 0 stands in for it. */
  const InitialState := VadState(false, [], [], 0, [])

  /** `frame_duration_ms * sample_rate // 1000` samples per window. */
  function FrameLength(frameDurationMs: nat, sampleRate: nat): (n: nat)
    ensures n * 1000 <= frameDurationMs * sampleRate < n * 1000 + 1000
  {
    frameDurationMs * sampleRate / 1000
  }

  /** The ring buffer's `maxlen`, `int(padding_duration_ms / frame_duration_ms)`. */
  function RingCapacity(paddingDurationMs: nat, frameDurationMs: nat): (n: nat)
    requires frameDurationMs > 0
    ensures n * frameDurationMs <= paddingDurationMs < n * frameDurationMs + frameDurationMs
  {
    paddingDurationMs / frameDurationMs
  }

  /** The first sample of window `k`, `k * frameLength`, written as repeated
      addition (`OffsetIsProduct` relates the two) so that the proofs below
      stay within linear arithmetic. */
  function Offset(k: nat, frameLength: nat): nat {
    if k == 0 then 0 else Offset(k - 1, frameLength) + frameLength
  }

  lemma {:induction false} OffsetMonotone(a: nat, b: nat, frameLength: nat)
    requires a <= b
    ensures Offset(a, frameLength) <= Offset(b, frameLength)
    ensures frameLength > 0 && a < b ==> Offset(a, frameLength) < Offset(b, frameLength)
    decreases b
  {
    if a < b {
      OffsetMonotone(a, b - 1, frameLength);
    }
  }

  /** `deque.append` on a deque with `maxlen = capacity`: the oldest entry
      falls out when the deque is full. */
  function Push(ring: seq<Frame>, f: Frame, capacity: nat): (r: seq<Frame>)
    requires |ring| <= capacity
    ensures |r| == if |ring| < capacity then |ring| + 1 else capacity
  {
    var b := ring + [f];
    if |b| > capacity then b[|b| - capacity..] else b
  }

  /** The pushed frame is the newest entry, after the most recent of the old ones. */
  lemma PushKeepsRecent(ring: seq<Frame>, f: Frame, capacity: nat)
    requires |ring| <= capacity
    ensures var r := Push(ring, f, capacity);
            |r| > 0 ==> r == ring[|ring| + 1 - |r|..] + [f]
  {
  }

  /** Number of buffered frames whose classification is `v`. */
  function CountSpeech(ring: seq<Frame>, v: bool): (r: nat)
    ensures r <= |ring|
  {
    if |ring| == 0 then 0 else CountSpeech(ring[..|ring| - 1], v) + (if ring[|ring| - 1].isSpeech == v then 1 else 0)
  }

  /** `count > 0.9 * capacity`, in exact arithmetic. */
  predicate Exceeds(count: nat, capacity: nat) {
    10 * count > 9 * capacity
  }

  /** The integer form is the source's comparison, read in real arithmetic. */
  lemma ExceedsIsComparison(count: nat, capacity: nat)
    ensures Exceeds(count, capacity) <==> count as real > 0.9 * capacity as real
  {
  }

  /** `np.concatenate` of the buffered frames' audio. */
  function ConcatAudio(frames: seq<Frame>): seq<int> {
    if |frames| == 0 then [] else ConcatAudio(frames[..|frames| - 1]) + frames[|frames| - 1].audio
  }

  /** The loop body for window `i`. */
  function Step(s: VadState, i: nat, f: Frame, frameLength: nat, capacity: nat): (r: VadState)
    requires |s.ring| <= capacity
    ensures |r.ring| <= capacity
  {
    if !s.triggered then
      var ring := Push(s.ring, f, capacity);
      if Exceeds(CountSpeech(ring, true), capacity) then
        // The span starts at the oldest buffered window, and the buffered audio is flushed into it.
        VadState(true, [], s.voiced + ConcatAudio(ring), Offset(i, frameLength) - Offset(|ring| - 1, frameLength),
                 s.segments)
      else
        s.(ring := ring)
    else
      var voiced := s.voiced + f.audio;
      var ring := Push(s.ring, f, capacity);
      if Exceeds(CountSpeech(ring, false), capacity) then
        VadState(false, [], [], s.voicedStart,
                 s.segments + [VoicedSegment(s.voicedStart, s.voicedStart + |voiced|, voiced)])
      else
        VadState(true, ring, voiced, s.voicedStart, s.segments)
  }

  /** Samples `[k * frameLength, (k + 1) * frameLength)`. */
  function Window(audio: seq<int>, frameLength: nat, k: nat): (w: seq<int>)
    requires Offset(k + 1, frameLength) <= |audio|
    ensures |w| == frameLength
  {
    audio[Offset(k, frameLength)..Offset(k + 1, frameLength)]
  }

  /** Window `n` together with its classification. */
  function NextFrame(audio: seq<int>, speech: seq<bool>, frameLength: nat, n: nat): Frame
    requires n < |speech| && Offset(|speech|, frameLength) <= |audio|
  {
    OffsetMonotone(n + 1, |speech|, frameLength);
    Frame(Window(audio, frameLength, n), speech[n])
  }

  /** The classified windows `a .. b - 1`. */
  function Frames(audio: seq<int>, speech: seq<bool>, frameLength: nat, a: nat, b: nat): (r: seq<Frame>)
    requires a <= b <= |speech| && Offset(|speech|, frameLength) <= |audio|
    ensures |r| == b - a
    decreases b - a
  {
    if a == b then [] else Frames(audio, speech, frameLength, a, b - 1) + [NextFrame(audio, speech, frameLength, b - 1)]
  }

  /** The state after the first `n` classified windows: `Step` folded over
      them from `InitialState`. */
  function Run(audio: seq<int>, speech: seq<bool>, frameLength: nat, capacity: nat, n: nat): (s: VadState)
    requires n <= |speech| && Offset(|speech|, frameLength) <= |audio|
    ensures |s.ring| <= capacity
    decreases n
  {
    if n == 0 then InitialState
    else Step(Run(audio, speech, frameLength, capacity, n - 1), n - 1, NextFrame(audio, speech, frameLength, n - 1),
              frameLength, capacity)
  }

  /** Audio still collected when the input runs out is emitted as a last span. */
  function Finish(s: VadState): (r: seq<VoicedSegment>)
    ensures |r| == if |s.voiced| > 0 then |s.segments| + 1 else |s.segments|
    ensures r[..|s.segments|] == s.segments
    ensures |r| > |s.segments| ==>
              r[|r| - 1].audio == s.voiced && r[|r| - 1].start == s.voicedStart
              && r[|r| - 1].end - r[|r| - 1].start == |s.voiced|
  {
    if |s.voiced| > 0 then s.segments + [VoicedSegment(s.voicedStart, s.voicedStart + |s.voiced|, s.voiced)]
    else s.segments
  }
}
