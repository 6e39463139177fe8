// Cutting long audio into chunks near the quietest half second of a search range.

module SplitPoints {
  import opened Common

  // Samples per second: 16000; a window is half a second, 8000 samples.

  /** Chunk lengths in seconds, as configured. */
  datatype Limits = Limits(target: real, max: real)

  /** Where the search range starts and ends, in samples from the start of a chunk (`int` truncates). */
  function RangeStart(lim: Limits): int {
    (lim.target * 0.85 * 16000.0).Floor
  }

  function RangeEnd(lim: Limits): int {
    (lim.max * 16000.0).Floor
  }

  ghost predicate ValidLimits(lim: Limits) {
    lim.target >= 0.0 && lim.max >= 0.0
  }

  /** The number of whole windows in the search range. */
  function Windows(lim: Limits): nat {
    if RangeEnd(lim) <= RangeStart(lim) then 0 else (RangeEnd(lim) - RangeStart(lim)) / 8000
  }

  /** The range lies between 0.85 of the target and the longest chunk, and the windows leave less than one of it over. */
  lemma RangeIs(lim: Limits)
    ensures RangeStart(lim) as real <= lim.target * 0.85 * 16000.0 < RangeStart(lim) as real + 1.0
    ensures RangeEnd(lim) as real <= lim.max * 16000.0 < RangeEnd(lim) as real + 1.0
    ensures RangeStart(lim) <= RangeEnd(lim) ==>
      Windows(lim) * 8000 <= RangeEnd(lim) - RangeStart(lim) < (Windows(lim) + 1) * 8000
    ensures RangeEnd(lim) <= RangeStart(lim) ==> Windows(lim) == 0
  {
  }

  predicate TooLong(lim: Limits, samples: int) {
    samples as real > lim.max * 16000.0
  }

  /** The energy of `pcm[i..j]`; its mean and the root of that order windows the same way. */
  function Energy(pcm: seq<real>, i: nat, j: nat): real
    requires i <= j <= |pcm|
    decreases j
  {
    if i == j then 0.0 else Energy(pcm, i, j - 1) + pcm[j - 1] * pcm[j - 1]
  }

  /** The energy of one sample is its square, and energies of adjoining stretches add up. */
  lemma {:induction false} EnergyAddsUp(pcm: seq<real>, i: nat, j: nat, k: nat)
    requires i <= j <= k <= |pcm|
    ensures Energy(pcm, i, k) == Energy(pcm, i, j) + Energy(pcm, j, k)
    ensures forall s: nat :: s < |pcm| ==> Energy(pcm, s, s + 1) == pcm[s] * pcm[s]
  {
    if j < k { EnergyAddsUp(pcm, i, j, k - 1); }
  }

  /** The energy of window `w` of the range starting at `lo`. */
  function WindowEnergy(pcm: seq<real>, lo: nat, windows: nat, w: nat): real
    requires w < windows && lo + windows * 8000 <= |pcm|
  {
    Energy(pcm, lo + w * 8000, lo + w * 8000 + 8000)
  }

  /** `w` is the first window of least energy. */
  ghost predicate IsQuietest(pcm: seq<real>, lo: nat, windows: nat, w: nat)
    requires lo + windows * 8000 <= |pcm|
  {
    && w < windows
    && (forall v: nat :: v < windows ==> WindowEnergy(pcm, lo, windows, w) <= WindowEnergy(pcm, lo, windows, v))
    && (forall v: nat :: v < w ==> WindowEnergy(pcm, lo, windows, w) < WindowEnergy(pcm, lo, windows, v))
  }

  /** `argmin`. */
  method Quietest(pcm: seq<real>, lo: nat, windows: nat) returns (best: nat)
    requires windows > 0 && lo + windows * 8000 <= |pcm|
    ensures IsQuietest(pcm, lo, windows, best)
  {
    best := 0;
    var least := WindowEnergy(pcm, lo, windows, 0);
    for w := 1 to windows
      invariant best < w && least == WindowEnergy(pcm, lo, windows, best)
      invariant forall v: nat :: v < w ==> least <= WindowEnergy(pcm, lo, windows, v)
      invariant forall v: nat :: v < best ==> least < WindowEnergy(pcm, lo, windows, v)
    {
      var e := WindowEnergy(pcm, lo, windows, w);
      if e < least { best, least := w, e; }
    }
  }

  datatype Chunk = Chunk(start: nat, end: nat)

  /** The chunks follow each other from `from` to `to`. */
  ghost predicate Contiguous(chunks: seq<Chunk>, from: nat, to: nat) {
    && (chunks == [] ==> from == to)
    && (chunks != [] ==> chunks[0].start == from && chunks[|chunks| - 1].end == to)
    && (forall i :: 0 <= i < |chunks| - 1 ==> chunks[i].end == chunks[i + 1].start)
    && (forall i :: 0 <= i < |chunks| ==> chunks[i].start <= chunks[i].end)
  }

  /** The cut is the middle of the first quietest window of the search range after `start`. */
  ghost predicate QuietCut(pcm: seq<real>, lim: Limits, start: nat, cut: nat) {
    exists w: nat :: CutAt(pcm, lim, start, cut, w)
  }

  /** The cut is the middle of window `w`, the first quietest one. */
  ghost predicate CutAt(pcm: seq<real>, lim: Limits, start: nat, cut: nat, w: nat) {
    var lo := start + RangeStart(lim);
    && lo >= 0 && lo + Windows(lim) * 8000 <= |pcm|
    && IsQuietest(pcm, lo, Windows(lim), w) && cut == lo + w * 8000 + 4000
  }

  /** A chunk made by a cut: not too long, at least 0.85 of the target, and cut at a quiet point. */
  ghost predicate Fits(pcm: seq<real>, lim: Limits, c: Chunk) {
    && c.start < c.end && (c.end - c.start) as real <= lim.max * 16000.0
    && (c.end - c.start) as real >= lim.target * 0.85 * 16000.0
    && QuietCut(pcm, lim, c.start, c.end)
  }

  /**
   * `split_points`; None for the ValueError of an empty search range. It
   * succeeds exactly if the audio is short enough or the range holds a window.
   */
  method SplitLoop(pcm: seq<real>, lim: Limits) returns (r: Option<seq<Chunk>>)
    requires ValidLimits(lim)
    ensures r.None? <==> |pcm| as real > lim.max * 16000.0 && Windows(lim) == 0
    ensures r.Some? ==> var chunks := r.value;
      && chunks != [] && Contiguous(chunks, 0, |pcm|)
      && (forall i :: 0 <= i < |chunks| - 1 ==>
            Fits(pcm, lim, chunks[i]) && (|pcm| - chunks[i].start) as real > lim.max * 16000.0)
      && (chunks[|chunks| - 1].end - chunks[|chunks| - 1].start) as real <= lim.max * 16000.0
  {
    var n := |pcm|;
    if !TooLong(lim, n) { return Some([Chunk(0, n)]); }
    if Windows(lim) == 0 { return None; }
    var chunks, start := [], 0;
    while TooLong(lim, n - start)
      invariant start <= n && Contiguous(chunks, 0, start)
      invariant forall i :: 0 <= i < |chunks| ==> Fits(pcm, lim, chunks[i]) && TooLong(lim, n - chunks[i].start)
      decreases n - start
    {
      var lo := start + RangeStart(lim);
      RangeFits(lim, n - start);
      var w := Quietest(pcm, lo, Windows(lim));
      var cut := lo + w * 8000 + 4000;
      CutFits(pcm, lim, start, w);
      Extend(chunks, start, cut);
      chunks := chunks + [Chunk(start, cut)];
      start := cut;
    }
    Extend(chunks, start, n);
    r := Some(chunks + [Chunk(start, n)]);
  }

  lemma Extend(chunks: seq<Chunk>, start: nat, end: nat)
    requires Contiguous(chunks, 0, start) && start <= end
    ensures Contiguous(chunks + [Chunk(start, end)], 0, end)
  {
  }

  lemma CutFits(pcm: seq<real>, lim: Limits, start: nat, w: nat)
    requires ValidLimits(lim) && start <= |pcm| && TooLong(lim, |pcm| - start) && Windows(lim) > 0
    requires 0 <= RangeStart(lim) && start + RangeStart(lim) + Windows(lim) * 8000 <= |pcm|
    requires IsQuietest(pcm, start + RangeStart(lim), Windows(lim), w)
    ensures Fits(pcm, lim, Chunk(start, start + RangeStart(lim) + w * 8000 + 4000))
    ensures start + RangeStart(lim) + w * 8000 + 4000 <= |pcm|
  {
    CutInRange(lim, w);
    assert CutAt(pcm, lim, start, start + RangeStart(lim) + w * 8000 + 4000, w);
  }

  /** If the rest is too long, the whole search range lies inside it. */
  lemma RangeFits(lim: Limits, rest: int)
    requires ValidLimits(lim) && TooLong(lim, rest) && Windows(lim) > 0
    ensures 0 <= RangeStart(lim) && RangeStart(lim) + Windows(lim) * 8000 <= RangeEnd(lim) <= rest
  {
  }

  /** Every cut lies strictly inside the range. */
  lemma CutInRange(lim: Limits, w: nat)
    requires ValidLimits(lim) && w < Windows(lim)
    ensures var length := RangeStart(lim) + w * 8000 + 4000;
            && 0 <= RangeStart(lim) < length < RangeEnd(lim) && !TooLong(lim, length)
            && length as real >= lim.target * 0.85 * 16000.0
  {
  }
}
