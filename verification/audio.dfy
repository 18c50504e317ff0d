/**
 The audio side both copies own: the started flag guarding every tone, the
 frequency list rebuilt from the scale table on every transposition, and the
 two voices (bell and low saw). Frequencies are semitone offsets above C2
 (`Tone.Frequency("C2")`); a voice played at a multiple of a frequency is the
 pair (semitone, multiplier).
 */
module Audio {
  import opened Scale

  /**
   `started` is `isToneStarted`; `pendingStarts` counts `Tone.start()` calls
   whose promise has not resolved yet.
   */
  datatype AudioState = AudioState(started: bool, pendingStarts: nat, frequencies: seq<int>)

  /** What is sent to the synthesisers. */
  datatype AudioAction =
    | Bell(note: int)                  // one percussive note on the poly synth
    | ReleaseLow                       // `lowSynth.releaseAll()`
    | Low(root: int, factor: real)     // a low voice at `factor` times the frequency of `root`

  /** `freqObj.transpose(transpose).harmonize(scale)`: the scale shifted by `transpose` semitones. */
  function ConstructFrequencies(scale: seq<int>, transpose: int): (r: seq<int>)
    ensures |r| == |scale|
  {
    seq(|scale|, i requires 0 <= i < |scale| => transpose + scale[i])
  }

  /** Undoing the shift gives the scale back. */
  function Untranspose(freqs: seq<int>, transpose: int): seq<int>
  {
    seq(|freqs|, i requires 0 <= i < |freqs| => freqs[i] - transpose)
  }

  lemma UntransposeInverts(scale: seq<int>, transpose: int)
    ensures Untranspose(ConstructFrequencies(scale, transpose), transpose) == scale
  {
  }

  /** Transposing preserves the order of the table, so its first entry stays its lowest. */
  lemma TransposeKeepsOrder(scale: seq<int>, transpose: int)
    requires StrictlyIncreasing(scale)
    ensures StrictlyIncreasing(ConstructFrequencies(scale, transpose))
    ensures |scale| > 0 ==> forall i :: 0 <= i < |scale| ==>
              ConstructFrequencies(scale, transpose)[0] <= ConstructFrequencies(scale, transpose)[i]
  {
  }

  /** The state at load time: flag off, `constructFrequencies()` with transpose 0, i.e. the scale itself. */
  function Init(scale: seq<int>): (st: AudioState)
    ensures !st.started && st.pendingStarts == 0
    ensures st.frequencies == scale
  {
    AudioState(false, 0, ConstructFrequencies(scale, 0))
  }

  /**
   `constructFrequencies(transpose)`: the list is replaced wholesale, one
   entry per scale element, and nothing else changes.
   */
  function SetTranspose(st: AudioState, scale: seq<int>, transpose: int): (r: AudioState)
    ensures |r.frequencies| == |scale|
    ensures Untranspose(r.frequencies, transpose) == scale
    ensures r.started == st.started && r.pendingStarts == st.pendingStarts
  {
    UntransposeInverts(scale, transpose);
    st.(frequencies := ConstructFrequencies(scale, transpose))
  }

  /** The new list does not depend on the old one. */
  lemma SetTransposeForgetsOld(s1: AudioState, s2: AudioState, scale: seq<int>, transpose: int)
    ensures SetTranspose(s1, scale, transpose).frequencies == SetTranspose(s2, scale, transpose).frequencies
  {
  }

  /**
   The synchronous part of `ensureTone`: with the flag off it calls
   `Tone.start()` (one more pending start) and suspends; with the flag on it
   does nothing. It never sets the flag itself.
   */
  function EnsureTone(st: AudioState): (r: AudioState)
    ensures r.started == st.started && r.frequencies == st.frequencies
    ensures st.started ==> r == st
    ensures !st.started ==> r.pendingStarts == st.pendingStarts + 1
  {
    if st.started then st else st.(pendingStarts := st.pendingStarts + 1)
  }

  /** The continuation after `await Tone.start()`: the flag is set only here. */
  function StartResolved(st: AudioState): (r: AudioState)
    requires st.pendingStarts > 0
    ensures r.started
    ensures r.pendingStarts == st.pendingStarts - 1 && r.frequencies == st.frequencies
  {
    st.(started := true, pendingStarts := st.pendingStarts - 1)
  }

  /** `await ensureTone()`: the call and, if it started the engine, its completion. */
  function EnsureToneAwaited(st: AudioState): (r: AudioState)
    ensures r.started
    ensures r.pendingStarts == st.pendingStarts && r.frequencies == st.frequencies
    ensures st.started ==> r == st
  {
    if st.started then st else StartResolved(EnsureTone(st))
  }

  /** Awaiting `ensureTone` twice is awaiting it once. */
  lemma EnsureToneIdempotent(st: AudioState)
    ensures EnsureToneAwaited(EnsureToneAwaited(st)) == EnsureToneAwaited(st)
    ensures EnsureTone(EnsureToneAwaited(st)) == EnsureToneAwaited(st)
  {
  }

  /** `triggerBell`: a note drawn from the list (`pick` is the random index), played only once audio has started. */
  function TriggerBell(st: AudioState, pick: nat): (r: seq<AudioAction>)
    requires pick < |st.frequencies|
    ensures |r| <= 1
    ensures r != [] <==> st.started
    ensures forall a :: a in r ==> a.Bell? && a.note in st.frequencies
    // the note played is the one drawn
    ensures st.started ==> r == [Bell(st.frequencies[pick])]
  {
    var note := st.frequencies[pick];
    if st.started then [Bell(note)] else []
  }

  /**
   `triggerSaw`: once audio has started, release every low voice and play
   three at 0.995, 1.5 and 1.005 times half the first frequency.
   */
  function TriggerSaw(st: AudioState): (r: seq<AudioAction>)
    requires |st.frequencies| > 0
    ensures !st.started ==> r == []
    ensures st.started ==> |r| == 4 && r[0] == ReleaseLow
    ensures st.started ==> forall i :: 1 <= i < |r| ==> r[i].Low? && r[i].root == st.frequencies[0]
    ensures st.started ==> r[1].factor == 0.4975 && r[2].factor == 0.75 && r[3].factor == 0.5025
  {
    var root := st.frequencies[0];
    if st.started then
      [ReleaseLow, Low(root, 0.995 / 2.0), Low(root, 1.5 / 2.0), Low(root, 1.005 / 2.0)]
    else []
  }

  /** After a transposition of an increasing scale, the saw's root is the lowest entry of the list. */
  lemma SawRootIsLowest(st: AudioState, scale: seq<int>, transpose: int)
    requires StrictlyIncreasing(scale) && |scale| > 0
    ensures var st' := SetTranspose(st, scale, transpose);
            forall a :: a in TriggerSaw(st') && a.Low? ==>
              a.root == transpose + scale[0] && forall f :: f in st'.frequencies ==> a.root <= f
  {
    TransposeKeepsOrder(scale, transpose);
  }
}
