/** The three synthetic data sets: column by column (bench/bench_lightgbm.py), as one
    reshaped array (bench/bench_custom_objective.py) and row by row from a threaded
    state (examples/install_smoke.py). Floats are exact rationals. */
module Datasets {
  import opened SplitMix

  /** The seed's place in the counter sequence. */
  function SeedOffset(seed: int): int {
    seed * GAMMA % M
  }

  /** The counters of cell (r, f) and of the label noise of row r. */
  function CellCounter(nRows: nat, seed: int, r: nat, f: nat): int {
    r + f * nRows + SeedOffset(seed)
  }

  function NoiseCounter(nRows: nat, nFeatures: nat, seed: int, r: nat): int {
    r + SeedOffset(seed) + nRows * nFeatures
  }

  function Cell(nRows: nat, seed: int, r: nat, f: nat): real {
    Uniform(CellCounter(nRows, seed, r, f))
  }

  function Noise(nRows: nat, nFeatures: nat, seed: int, r: nat): real {
    Uniform(NoiseCounter(nRows, nFeatures, seed, r))
  }

  /** The signal both regression labels are built from. */
  function Signal(x0: real, x1: real, x2: real, x3: real): real {
    5.0 * x0 + 4.0 * x1 * x2 + 3.0 * (x3 - 0.5) * (x3 - 0.5)
  }

  function NoisyLabel(x0: real, x1: real, x2: real, x3: real, u: real): real {
    Signal(x0, x1, x2, x3) + 0.1 * (u - 0.5)
  }

  /** make_data, regression labels: one column at a time into a preallocated matrix,
      then one noise draw per row from the counters after the last column. */
  method MakeData(nRows: nat, nFeatures: nat, seed: int) returns (x: array2<real>, y: array<real>)
    requires 4 <= nFeatures
    ensures fresh(x) && fresh(y)
    ensures x.Length0 == nRows && x.Length1 == nFeatures && y.Length == nRows
    ensures forall r, f | 0 <= r < nRows && 0 <= f < nFeatures :: x[r, f] == Cell(nRows, seed, r, f)
    ensures forall r | 0 <= r < nRows ::
      y[r] == NoisyLabel(x[r, 0], x[r, 1], x[r, 2], x[r, 3], Noise(nRows, nFeatures, seed, r))
  {
    x := new real[nRows, nFeatures];
    for f := 0 to nFeatures
      invariant forall r, g | 0 <= r < nRows && 0 <= g < f :: x[r, g] == Cell(nRows, seed, r, g)
    {
      forall r | 0 <= r < nRows {
        x[r, f] := Cell(nRows, seed, r, f);
      }
    }
    y := new real[nRows];
    forall r | 0 <= r < nRows {
      y[r] := NoisyLabel(x[r, 0], x[r, 1], x[r, 2], x[r, 3], Noise(nRows, nFeatures, seed, r));
    }
  }

  // ----- the whole-array form

  function Values(nRows: nat, nFeatures: nat): seq<real> {
    seq(nRows * nFeatures, k requires 0 <= k => Uniform(k))
  }

  lemma CellBelow(nRows: nat, nFeatures: nat, r: nat, f: nat)
    requires r < nRows && f < nFeatures
    ensures 0 <= f * nRows + r < nRows * nFeatures
  {
    assert (f + 1) * nRows <= nFeatures * nRows;
  }

  /** values.reshape(nFeatures, nRows).T, row r. */
  function ReshapedRow(values: seq<real>, nRows: nat, nFeatures: nat, r: nat): seq<real>
    requires |values| == nRows * nFeatures && r < nRows
  {
    seq(nFeatures, f requires 0 <= f < nFeatures => CellBelow(nRows, nFeatures, r, f); values[f * nRows + r])
  }

  function MakeDataset(nRows: nat, nFeatures: nat): seq<seq<real>> {
    seq(nRows, r requires 0 <= r < nRows => ReshapedRow(Values(nRows, nFeatures), nRows, nFeatures, r))
  }

  function DatasetLabel(row: seq<real>): real
    requires 4 <= |row|
  {
    5.0 * row[0] + 4.0 * row[1] * row[2] + 3.0 * ((row[3] - 0.5) * (row[3] - 0.5))
  }

  /** At seed 0 the two generators fill the same matrix. */
  lemma SameMatrix(nRows: nat, nFeatures: nat, r: nat, f: nat)
    requires r < nRows && f < nFeatures
    ensures MakeDataset(nRows, nFeatures)[r][f] == Cell(nRows, 0, r, f)
  {
    CellBelow(nRows, nFeatures, r, f);
    ModUnique(0, 0, 0);
    assert CellCounter(nRows, 0, r, f) == f * nRows + r;
    var values := Values(nRows, nFeatures);
    assert values[f * nRows + r] == Uniform(f * nRows + r);
    assert ReshapedRow(values, nRows, nFeatures, r)[f] == values[f * nRows + r];
  }

  /** ... and their labels differ by the noise term alone. */
  lemma SameLabel(row: seq<real>, u: real)
    requires 4 <= |row|
    ensures NoisyLabel(row[0], row[1], row[2], row[3], u) == DatasetLabel(row) + 0.1 * (u - 0.5)
  {}

  // ----- no two cells share a word

  /** The counter of value number f of row r: a cell, or after the last one the noise. */
  function Counter(nRows: nat, nFeatures: nat, seed: int, r: nat, f: nat): int {
    if f < nFeatures then CellCounter(nRows, seed, r, f) else NoiseCounter(nRows, nFeatures, seed, r)
  }

  lemma NoiseIsAColumn(nRows: nat, nFeatures: nat, seed: int, r: nat)
    ensures NoiseCounter(nRows, nFeatures, seed, r) == CellCounter(nRows, seed, r, nFeatures)
  {}

  /** Place of a cell in the counter sequence; column nFeatures is the label noise. */
  function Place(nRows: nat, r: nat, f: nat): nat {
    f * nRows + r
  }

  lemma PlaceInjective(nRows: nat, r: nat, f: nat, r': nat, f': nat)
    requires r < nRows && r' < nRows
    ensures Place(nRows, r, f) == Place(nRows, r', f') <==> r == r' && f == f'
  {
    if f < f' {
      assert (f + 1) * nRows <= f' * nRows;
    } else if f' < f {
      assert (f' + 1) * nRows <= f * nRows;
    }
  }

  lemma PlaceBelow(nRows: nat, columns: nat, r: nat, f: nat)
    requires r < nRows && f < columns
    ensures Place(nRows, r, f) < nRows * columns
  {
    assert (f + 1) * nRows <= columns * nRows;
  }

  ghost predicate AllDistinct(nRows: nat, nFeatures: nat, seed: int) {
    forall r, f, r', f' | 0 <= r < nRows && 0 <= r' < nRows && 0 <= f <= nFeatures && 0 <= f' <= nFeatures
      && (r != r' || f != f') ::
      SplitMix64(Counter(nRows, nFeatures, seed, r, f)) != SplitMix64(Counter(nRows, nFeatures, seed, r', f'))
  }

  lemma WordsMeet(nRows: nat, seed: int, r: nat, f: nat, r': nat, f': nat)
    ensures SplitMix64(CellCounter(nRows, seed, r, f)) == SplitMix64(CellCounter(nRows, seed, r', f')) <==>
            Place(nRows, r, f) % M == Place(nRows, r', f') % M
  {
    var a, b := Place(nRows, r, f), Place(nRows, r', f');
    SplitMixBijective(CellCounter(nRows, seed, r, f), CellCounter(nRows, seed, r', f'), 0);
    ModShift(a, b, SeedOffset(seed));
  }

  lemma Apart(nRows: nat, nFeatures: nat, seed: int, r: nat, f: nat, r': nat, f': nat)
    requires nRows * (nFeatures + 1) <= M && (r != r' || f != f')
    requires r < nRows && r' < nRows && f <= nFeatures && f' <= nFeatures
    ensures SplitMix64(Counter(nRows, nFeatures, seed, r, f)) != SplitMix64(Counter(nRows, nFeatures, seed, r', f'))
  {
    NoiseIsAColumn(nRows, nFeatures, seed, r);
    NoiseIsAColumn(nRows, nFeatures, seed, r');
    WordsMeet(nRows, seed, r, f, r', f');
    PlaceInjective(nRows, r, f, r', f');
    PlaceBelow(nRows, nFeatures + 1, r, f);
    PlaceBelow(nRows, nFeatures + 1, r', f');
    ModUnique(Place(nRows, r, f), 0, Place(nRows, r, f));
    ModUnique(Place(nRows, r', f'), 0, Place(nRows, r', f'));
  }

  lemma PlaceM(nRows: nat) returns (r: nat, f: nat)
    requires 0 < nRows
    ensures r < nRows && Place(nRows, r, f) == M && f * nRows <= M
  {
    r, f := M % nRows, M / nRows;
  }

  /** Beyond 2^64 values the first counter comes back. */
  lemma FirstComesBack(nRows: nat, nFeatures: nat, seed: int) returns (r: nat, f: nat)
    requires 0 < nRows && M < nRows * (nFeatures + 1)
    ensures r < nRows && f <= nFeatures && (r != 0 || f != 0)
    ensures SplitMix64(Counter(nRows, nFeatures, seed, 0, 0)) == SplitMix64(Counter(nRows, nFeatures, seed, r, f))
  {
    r, f := PlaceM(nRows);
    MeetAtM(nRows, seed, r, f);
    ColumnBelow(nRows, nFeatures + 1, f);
    NoiseIsAColumn(nRows, nFeatures, seed, 0);
    NoiseIsAColumn(nRows, nFeatures, seed, r);
    assert Place(nRows, 0, 0) == 0;
  }

  lemma ColumnBelow(nRows: nat, columns: nat, f: nat)
    requires f * nRows <= M < nRows * columns
    ensures f < columns
  {
    if columns <= f { MulMonotone(columns, f, nRows); }
  }

  lemma MeetAtM(nRows: nat, seed: int, r: nat, f: nat)
    requires Place(nRows, r, f) == M
    ensures SplitMix64(CellCounter(nRows, seed, 0, 0)) == SplitMix64(CellCounter(nRows, seed, r, f))
  {
    ModUnique(M, 1, 0);
    ModUnique(0, 0, 0);
    WordsMeet(nRows, seed, 0, 0, r, f);
  }

  lemma MulMonotone(a: nat, b: nat, c: nat)
    requires a <= b
    ensures a * c <= b * c
  {}

  /** All feature cells and noise draws of a data set use distinct words exactly when
      there are at most 2^64 of them. */
  lemma DistinctExactly(nRows: nat, nFeatures: nat, seed: int)
    ensures AllDistinct(nRows, nFeatures, seed) <==> nRows * (nFeatures + 1) <= M
  {
    if nRows * (nFeatures + 1) <= M {
      forall r, f, r', f' | 0 <= r < nRows && 0 <= r' < nRows && 0 <= f <= nFeatures && 0 <= f' <= nFeatures
        && (r != r' || f != f')
        ensures SplitMix64(Counter(nRows, nFeatures, seed, r, f)) != SplitMix64(Counter(nRows, nFeatures, seed, r', f'))
      {
        Apart(nRows, nFeatures, seed, r, f, r', f');
      }
    } else {
      var r, f := FirstComesBack(nRows, nFeatures, seed);
    }
  }

  // ----- the smoke test's rows

  /** Value number n of the stream of `seed`, in the counter form. */
  function Nth(seed: int, n: nat): real {
    Uniform(seed + n * GAMMA)
  }

  /** `count` consecutive values from number n on. */
  function Stretch(seed: int, n: nat, count: nat): seq<real> {
    seq(count, f requires 0 <= f => Nth(seed, n + f))
  }

  /** Draw number n gives value number n and the state after it. */
  lemma DrawNth(seed: int, n: nat)
    ensures Draw(State(seed, n)) == (Nth(seed, n), State(seed, n + 1))
  {
    StreamIsCounter(seed, n);
  }

  /** One step of the threaded state. */
  method DrawOne(ghost seed: int, ghost n: nat, state: Word) returns (u: real, next: Word)
    requires state == State(seed, n)
    ensures u == Nth(seed, n) && next == State(seed, n + 1)
  {
    DrawNth(seed, n);
    var drawn := Draw(state);
    u, next := drawn.0, drawn.1;
  }

  lemma StretchSnoc(seed: int, n: nat, count: nat)
    ensures Stretch(seed, n, 0) == []
    ensures Stretch(seed, n, count + 1) == Stretch(seed, n, count) + [Nth(seed, n + count)]
  {}

  /** The features of one row and then its noise, from the state after n draws. */
  method DrawRow(ghost seed: int, ghost n: nat, nFeatures: nat, start: Word) returns (row: seq<real>, noise: real, state: Word)
    requires start == State(seed, n)
    ensures row == Stretch(seed, n, nFeatures) && noise == Nth(seed, n + nFeatures)
    ensures state == State(seed, n + nFeatures + 1)
  {
    state := start;
    row := [];
    StretchSnoc(seed, n, 0);
    for f := 0 to nFeatures
      invariant state == State(seed, n + f)
      invariant row == Stretch(seed, n, f)
    {
      StretchSnoc(seed, n, f);
      var u, next := DrawOne(seed, n + f, state);
      state := next;
      row := row + [u];
    }
    noise, state := DrawOne(seed, n + nFeatures, state);
  }

  /** Draws made before row r: r * (nFeatures + 1) of them. */
  function Before(nFeatures: nat, r: nat): nat {
    if r == 0 then 0 else Before(nFeatures, r - 1) + nFeatures + 1
  }

  lemma {:induction false} BeforeIs(nFeatures: nat, r: nat)
    ensures Before(nFeatures, r) == r * (nFeatures + 1)
  {
    if r > 0 { BeforeIs(nFeatures, r - 1); }
  }

  /** Row r of the data set in the counter form: its features and its noise. */
  function SmokeRow(seed: int, nFeatures: nat, r: nat): (seq<real>, real) {
    var n := Before(nFeatures, r);
    (Stretch(seed, n, nFeatures), Nth(seed, n + nFeatures))
  }

  /** One pass of the row loop: row r and the state the next one starts from. */
  method DrawSmokeRow(ghost seed: int, ghost r: nat, nFeatures: nat, start: Word) returns (row: seq<real>, noise: real, state: Word)
    requires start == State(seed, Before(nFeatures, r))
    ensures (row, noise) == SmokeRow(seed, nFeatures, r) && state == State(seed, Before(nFeatures, r + 1))
  {
    row, noise, state := DrawRow(seed, Before(nFeatures, r), nFeatures, start);
  }

  predicate IsSmoke(seed: int, nFeatures: nat, target: (seq<real>, real) -> real, r: nat, row: seq<real>, y: real) {
    var (features, noise) := SmokeRow(seed, nFeatures, r);
    row == features && y == target(features, noise)
  }

  /** make_data of the smoke test: the state runs on through features and noise, so row
      r starts at value r * (nFeatures + 1) of the counter form and its noise follows.
      The trigonometric target of a row and its noise is a parameter. */
  method SmokeData(nRows: nat, nFeatures: nat, seed: int, target: (seq<real>, real) -> real)
    returns (x: seq<seq<real>>, y: seq<real>)
    ensures |x| == |y| == nRows
    ensures forall r | 0 <= r < nRows :: IsSmoke(seed, nFeatures, target, r, x[r], y[r])
  {
    var state: Word := seed % M;
    x, y := [], [];
    for r := 0 to nRows
      invariant state == State(seed, Before(nFeatures, r)) && |x| == |y| == r
      invariant forall q | 0 <= q < r :: IsSmoke(seed, nFeatures, target, q, x[q], y[q])
    {
      var row, noise, next := DrawSmokeRow(seed, r, nFeatures, state);
      assert IsSmoke(seed, nFeatures, target, r, row, target(row, noise));
      state := next;
      x := x + [row];
      y := y + [target(row, noise)];
    }
  }
}
