/** The values of the regression data, written out. */
module DatasetValues {
  import opened SplitMix
  import opened Datasets

  /** A seed moves every counter by that many steps of the generator. */
  lemma SeedSteps(x: int, seed: nat)
    ensures 0 <= SeedOffset(seed) < 0x1_0000_0000_0000_0000
    ensures Uniform(x + SeedOffset(seed)) == Draw(State(x, seed)).0
  {
    StreamIsCounter(x, seed);
    SameWord(x, seed * GAMMA);
  }

  lemma SameWord(x: int, offset: int)
    ensures SplitMix64(x + offset % M) == SplitMix64(x + offset)
  {
    ModAbsorb(offset, x + GAMMA);
    assert (x + offset % M) + GAMMA == offset % M + (x + GAMMA);
    assert (x + offset) + GAMMA == offset + (x + GAMMA);
  }

  /** So a cell is the draw after `seed` others, from its own place as the start. */
  lemma CellIsDraw(nRows: nat, seed: nat, r: nat, f: nat)
    ensures Cell(nRows, seed, r, f) == Draw(State(f * nRows + r, seed)).0
  {
    SeedSteps(f * nRows + r, seed);
  }

  lemma NoiseIsDraw(nRows: nat, nFeatures: nat, seed: nat, r: nat)
    ensures Noise(nRows, nFeatures, seed, r) == Draw(State(nFeatures * nRows + r, seed)).0
  {
    var x := nFeatures * nRows + r;
    assert NoiseCounter(nRows, nFeatures, seed, r) == x + SeedOffset(seed);
    SeedSteps(x, seed);
  }

  /** The signal is zero at its centre, grows by 5 with the first feature, by 4 times the
      one with the other of the next two, and by 3 with the square of the distance of the
      fourth from a half; the label adds a tenth of the centred noise. */
  lemma SignalMeans(x0: real, x1: real, x2: real, x3: real, h: real)
    ensures Signal(0.0, 0.0, 0.0, 0.5) == 0.0
    ensures Signal(x0 + h, x1, x2, x3) == Signal(x0, x1, x2, x3) + 5.0 * h
    ensures Signal(x0, x1 + h, x2, x3) == Signal(x0, x1, x2, x3) + 4.0 * h * x2
    ensures Signal(x0, x1, x2 + h, x3) == Signal(x0, x1, x2, x3) + 4.0 * x1 * h
    ensures Signal(x0, x1, x2, 0.5 + h) == Signal(x0, x1, x2, 0.5) + 3.0 * (h * h)
  {}

  lemma NoiseMeans(x0: real, x1: real, x2: real, x3: real, u: real)
    ensures 10.0 * (NoisyLabel(x0, x1, x2, x3, u) - Signal(x0, x1, x2, x3)) == u - 0.5
  {}
}
