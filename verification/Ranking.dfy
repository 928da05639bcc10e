/** The learning-to-rank data set of bench/compare_ranking.py: queries of varying length,
    graded inside each query by a stable sort, and split by whole queries. Floats are
    exact rationals. */
module Ranking {
  import opened SplitMix
  import Datasets

  // ----- the stable sort, best first

  /** Row i comes before row j: a larger utility, or the same and an earlier row. */
  predicate Before(us: seq<real>, i: nat, j: nat) {
    i < |us| && j < |us| && (us[i] > us[j] || (us[i] == us[j] && i < j))
  }

  predicate IsFirst(us: seq<real>, left: set<nat>, i: nat) {
    i in left && forall j | j in left && j != i :: Before(us, i, j)
  }

  lemma {:induction false} FirstExists(us: seq<real>, left: set<nat>)
    requires left != {} && forall i | i in left :: i < |us|
    ensures exists i: nat :: IsFirst(us, left, i)
    decreases |left|
  {
    var i: nat :| i in left;
    var rest := left - {i};
    if rest == {} {
      assert left == {i};
      assert IsFirst(us, left, i);
    } else {
      FirstExists(us, rest);
      var j: nat :| IsFirst(us, rest, j);
      var first := if Before(us, i, j) then i else j;
      forall k | k in left && k != first
        ensures Before(us, first, k)
      {
        if k != i && k != j { assert Before(us, j, k); }
      }
      assert IsFirst(us, left, first);
    }
  }

  function First(us: seq<real>, left: set<nat>): (i: nat)
    requires left != {} && forall i | i in left :: i < |us|
    ensures IsFirst(us, left, i)
  {
    FirstExists(us, left);
    var i: nat :| IsFirst(us, left, i);
    i
  }

  function Order(us: seq<real>, left: set<nat>): seq<nat>
    requires forall i | i in left :: i < |us|
    decreases |left|
  {
    if left == {} then [] else [First(us, left)] + Order(us, left - {First(us, left)})
  }

  /** The first n rows. */
  function Rows(n: nat): (s: set<nat>)
    ensures |s| == n && forall i: nat :: i in s <==> i < n
  {
    if n == 0 then {} else Rows(n - 1) + {n - 1}
  }

  /** np.argsort(-us, kind="stable") */
  function ArgSort(us: seq<real>): seq<nat> {
    Order(us, Rows(|us|))
  }

  function Ahead(us: seq<real>, left: set<nat>, i: nat): set<nat> {
    set j | j in left && Before(us, j, i)
  }

  lemma {:induction false} OrderElems(us: seq<real>, left: set<nat>)
    requires forall i | i in left :: i < |us|
    ensures forall i :: i in Order(us, left) <==> i in left
    ensures |Order(us, left)| == |left|
    decreases |left|
  {
    if left != {} { OrderElems(us, left - {First(us, left)}); }
  }

  lemma {:induction false} OrderRank(us: seq<real>, left: set<nat>, r: nat)
    requires forall i | i in left :: i < |us|
    requires r < |Order(us, left)|
    ensures |Ahead(us, left, Order(us, left)[r])| == r
    decreases |left|
  {
    var first := First(us, left);
    var rest := left - {first};
    var i := Order(us, left)[r];
    if r == 0 {
      assert Ahead(us, left, i) == {};
    } else {
      OrderElems(us, rest);
      assert i == Order(us, rest)[r - 1] && i in rest;
      OrderRank(us, rest, r - 1);
      assert Ahead(us, left, i) == Ahead(us, rest, i) + {first};
    }
  }

  /** How many rows beat row i. */
  function Rank(us: seq<real>, i: nat): (r: nat)
    requires i < |us|
    ensures r < |us|
  {
    Smaller(Ahead(us, Rows(|us|), i), Rows(|us|), i);
    |Ahead(us, Rows(|us|), i)|
  }

  lemma {:induction false} Smaller(a: set<nat>, b: set<nat>, x: nat)
    requires a <= b && x in b && x !in a
    ensures |a| < |b|
  {
    if a != {} {
      var y :| y in a;
      Smaller(a - {y}, b - {y}, x);
    }
  }

  /** The sort is a permutation that puts every row at its rank. */
  lemma RankOfIndex(us: seq<real>, r: nat)
    requires r < |us|
    ensures |ArgSort(us)| == |us| && ArgSort(us)[r] < |us| && Rank(us, ArgSort(us)[r]) == r
  {
    OrderElems(us, Rows(|us|));
    assert ArgSort(us)[r] in Rows(|us|);
    OrderRank(us, Rows(|us|), r);
  }

  lemma IndexOfRank(us: seq<real>, i: nat)
    requires i < |us|
    ensures |ArgSort(us)| == |us| && ArgSort(us)[Rank(us, i)] == i
  {
    OrderElems(us, Rows(|us|));
    assert i in ArgSort(us);
    var r: nat :| r < |ArgSort(us)| && ArgSort(us)[r] == i;
    RankOfIndex(us, r);
  }

  lemma OnlyRow(us: seq<real>, r: nat)
    requires r < |us| == |ArgSort(us)|
    ensures forall i: nat | i < |us| && Rank(us, i) == r :: i == ArgSort(us)[r]
  {
    forall i: nat | i < |us| && Rank(us, i) == r
      ensures i == ArgSort(us)[r]
    {
      IndexOfRank(us, i);
    }
  }

  lemma RankFollows(us: seq<real>, i: nat, j: nat)
    requires Before(us, i, j)
    ensures Rank(us, i) < Rank(us, j)
  {
    Smaller(Ahead(us, Rows(|us|), i), Ahead(us, Rows(|us|), j), i);
  }

  // ----- the grades

  /** num / den to the nearest integer, halves to the even one. */
  function RoundHalfEven(num: nat, den: nat): nat
    requires den > 0
  {
    var q, rem := num / den, num % den;
    if 2 * rem < den then q else if 2 * rem > den then q + 1 else if q % 2 == 0 then q else q + 1
  }

  /** np.rint(np.linspace(4.0, 0.0, size))[r] */
  function Grade(r: nat, size: nat): nat
    requires r < size
  {
    if size == 1 then 4 else RoundHalfEven(4 * (size - 1 - r), size - 1)
  }

  lemma RoundNearest(num: nat, den: nat)
    requires den > 0
    ensures var g := RoundHalfEven(num, den);
            && 2 * num - den <= 2 * (g * den) <= 2 * num + den
            && (2 * (g * den) == 2 * num - den || 2 * (g * den) == 2 * num + den ==> g % 2 == 0)
  {
    var q, rem := num / den, num % den;
    assert num == q * den + rem;
    assert (q + 1) * den == q * den + den;
  }

  /** Nothing else is as near. */
  lemma RoundUnique(num: nat, den: nat, g: nat)
    requires den > 0 && 2 * num - den < 2 * (g * den) < 2 * num + den
    ensures RoundHalfEven(num, den) == g
  {
    var h := RoundHalfEven(num, den);
    RoundNearest(num, den);
    Apart(g, h, den);
  }

  lemma Apart(g: nat, h: nat, den: nat)
    ensures g < h ==> g * den + den <= h * den
    ensures h < g ==> h * den + den <= g * den
  {
    if g < h { Beyond(g, h, den); }
    if h < g { Beyond(h, g, den); }
  }

  lemma {:induction false} Beyond(g: nat, h: nat, den: nat)
    requires g < h
    ensures g * den + den <= h * den
    decreases h
  {
    assert (h - 1) * den == h * den - den;
    if g < h - 1 { Beyond(g, h - 1, den); }
  }

  lemma RoundMonotone(a: nat, b: nat, den: nat)
    requires den > 0 && a <= b
    ensures RoundHalfEven(a, den) <= RoundHalfEven(b, den)
  {
    RoundNearest(a, den);
    RoundNearest(b, den);
    Apart(RoundHalfEven(a, den), RoundHalfEven(b, den), den);
  }

  lemma RoundExact(k: nat, den: nat)
    requires den > 0
    ensures RoundHalfEven(k * den, den) == k
  {
    RoundUnique(k * den, den, k);
  }

  /** Grades fall from 4 at the top to 0 at the bottom, and a lower rank never gets a
      lower grade. */
  lemma GradesFall(r: nat, s: nat, size: nat)
    requires r <= s < size
    ensures 0 <= Grade(s, size) <= Grade(r, size) <= 4
    ensures Grade(0, size) == 4 && (size > 1 ==> Grade(size - 1, size) == 0)
  {
    if size > 1 {
      var den := size - 1;
      RoundMonotone(4 * (den - s), 4 * (den - r), den);
      RoundMonotone(4 * (den - r), 4 * den, den);
      RoundExact(4, den);
      RoundExact(0, den);
    }
  }

  predicate HasGrade(size: nat, k: nat) {
    exists r: nat :: r < size && Grade(r, size) == k
  }

  /** A query shows all five grades exactly when it has five documents. */
  lemma SpreadExactly(size: nat)
    ensures (forall k: nat | k <= 4 :: HasGrade(size, k)) <==> size >= 5
  {
    if size >= 5 {
      forall k: nat | k <= 4
        ensures HasGrade(size, k)
      {
        GradeAppears(size, k);
      }
    } else if size == 4 {
      assert Grade(0, 4) == 4 && Grade(1, 4) == 3 && Grade(2, 4) == 1 && Grade(3, 4) == 0;
      assert !HasGrade(4, 2);
    } else {
      assert size == 3 ==> Grade(0, 3) == 4 && Grade(1, 3) == 2 && Grade(2, 3) == 0;
      assert size == 2 ==> Grade(0, 2) == 4 && Grade(1, 2) == 0;
      assert !HasGrade(size, 3);
    }
  }

  lemma GradeAppears(size: nat, k: nat)
    requires size >= 5 && k <= 4
    ensures HasGrade(size, k)
  {
    var den := size - 1;
    var r := ((4 - k) * den + 2) / 4;
    assert r <= den;
    assert k * den == 4 * den - (4 - k) * den;
    if den == 4 {
      assert 4 * (den - r) == k * den;
      RoundExact(k, den);
    } else {
      RoundUnique(4 * (den - r), den, k);
    }
    assert Grade(r, size) == k;
  }

  // ----- grading in place

  /** Every row of a query has the grade of its rank. */
  predicate Graded(y: seq<int>, start: nat, us: seq<real>) {
    && start + |us| <= |y|
    && forall i: nat | i < |us| :: y[start + i] == Grade(Rank(us, i), |us|)
  }

  /** y[start + order] = grades */
  method GradeQuery(y: array<int>, start: nat, us: seq<real>)
    requires start + |us| <= y.Length
    modifies y
    ensures Graded(y[..], start, us)
    ensures forall k | 0 <= k < y.Length && !(start <= k < start + |us|) :: y[k] == old(y[k])
  {
    var order := ArgSort(us);
    OrderElems(us, Rows(|us|));
    for r := 0 to |us|
      invariant forall i: nat | i < |us| && Rank(us, i) < r :: y[start + i] == Grade(Rank(us, i), |us|)
      invariant forall k | 0 <= k < y.Length && !(start <= k < start + |us|) :: y[k] == old(y[k])
    {
      RankOfIndex(us, r);
      OnlyRow(us, r);
      y[start + order[r]] := Grade(r, |us|);
    }
  }

  function Sum(sizes: seq<nat>): nat {
    if sizes == [] then 0 else Sum(sizes[..|sizes| - 1]) + sizes[|sizes| - 1]
  }

  /** The first row of query q. */
  function Start(sizes: seq<nat>, q: nat): nat
    requires q <= |sizes|
  {
    Sum(sizes[..q])
  }

  lemma StartNext(sizes: seq<nat>, q: nat)
    requires q < |sizes|
    ensures Start(sizes, q + 1) == Start(sizes, q) + sizes[q]
  {
    assert sizes[..q + 1][..q] == sizes[..q];
  }

  lemma {:induction false} StartOrder(sizes: seq<nat>, p: nat, q: nat)
    requires p <= q <= |sizes|
    ensures Start(sizes, p) <= Start(sizes, q) <= Sum(sizes)
    decreases |sizes| - p
  {
    if q < |sizes| {
      StartNext(sizes, q);
      StartOrder(sizes, if p < q then p + 1 else q + 1, q + 1);
    }
    assert sizes[..|sizes|] == sizes;
    StartUp(sizes, p, q);
  }

  lemma {:induction false} StartUp(sizes: seq<nat>, p: nat, q: nat)
    requires p <= q <= |sizes|
    ensures Start(sizes, p) <= Start(sizes, q)
    decreases q - p
  {
    if p < q {
      StartNext(sizes, q - 1);
      StartUp(sizes, p, q - 1);
    }
  }

  function SeedBase(seed: nat): nat {
    seed * 1_000_003 % M
  }

  function SizeCounter(base: nat, q: nat): nat {
    base + q
  }

  function QuerySize(base: nat, q: nat, lo: nat, hi: nat): nat
    requires lo <= hi
  {
    lo + SplitMix64(SizeCounter(base, q)) % (hi - lo + 1)
  }

  function Sizes(base: nat, n: nat, lo: nat, hi: nat): seq<nat>
    requires lo <= hi
  {
    seq(n, q requires 0 <= q => QuerySize(base, q, lo, hi))
  }

  lemma SizeInRange(base: nat, q: nat, lo: nat, hi: nat)
    requires lo <= hi
    ensures lo <= QuerySize(base, q, lo, hi) <= hi
  {}

  /** The counters of a feature cell and of a row's noise. */
  function FeatureCounter(base: nat, nRows: nat, i: nat, f: nat): nat {
    Datasets.Place(nRows, i, f) + (base + 7)
  }

  function NoiseCounter(base: nat, i: nat): nat {
    i + (base + 9_000_017)
  }

  /** uniform(k).reshape(nFeatures, nRows).T */
  function Matrix(base: nat, nRows: nat, nFeatures: nat): (x: seq<seq<real>>)
    ensures |x| == nRows && forall i | 0 <= i < nRows :: |x[i]| == nFeatures
  {
    var values := seq(nRows * nFeatures, k requires 0 <= k => Uniform(k + (base + 7)));
    seq(nRows, i requires 0 <= i < nRows => Datasets.ReshapedRow(values, nRows, nFeatures, i))
  }

  lemma MatrixAt(base: nat, nRows: nat, nFeatures: nat, i: nat, f: nat)
    requires i < nRows && f < nFeatures
    ensures Matrix(base, nRows, nFeatures)[i][f] == Uniform(FeatureCounter(base, nRows, i, f))
  {
    Datasets.CellBelow(nRows, nFeatures, i, f);
    var values := seq(nRows * nFeatures, k requires 0 <= k => Uniform(k + (base + 7)));
    assert values[f * nRows + i] == Uniform(FeatureCounter(base, nRows, i, f));
    assert Datasets.ReshapedRow(values, nRows, nFeatures, i)[f] == values[f * nRows + i];
  }

  function Utility(row: seq<real>, noise: real): real
    requires 3 <= |row|
  {
    3.0 * row[0] + 2.0 * row[1] * row[2] + 0.3 * (noise - 0.5)
  }

  function Utilities(base: nat, x: seq<seq<real>>): seq<real>
    requires forall i | 0 <= i < |x| :: 3 <= |x[i]|
  {
    seq(|x|, i requires 0 <= i < |x| => Utility(x[i], Uniform(NoiseCounter(base, i))))
  }

  // ----- which draws of the data set are the same word

  lemma CountersMeet(base: nat, a: int, b: int)
    ensures SplitMix64(a + (base + 7)) == SplitMix64(b + (base + 7)) <==> a % M == b % M
  {
    SplitMixBijective(a + (base + 7), b + (base + 7), 0);
    ModShift(a, b, base + 7);
  }

  ghost predicate FeaturesDistinct(base: nat, nRows: nat, nFeatures: nat) {
    forall i: nat, f: nat, j: nat, g: nat | i < nRows && j < nRows && f < nFeatures && g < nFeatures && (i != j || f != g) ::
      SplitMix64(FeatureCounter(base, nRows, i, f)) != SplitMix64(FeatureCounter(base, nRows, j, g))
  }

  lemma FeaturesApart(base: nat, nRows: nat, nFeatures: nat, i: nat, f: nat, j: nat, g: nat)
    requires nRows * nFeatures <= M && i < nRows && j < nRows && f < nFeatures && g < nFeatures && (i != j || f != g)
    ensures SplitMix64(FeatureCounter(base, nRows, i, f)) != SplitMix64(FeatureCounter(base, nRows, j, g))
  {
    var a, b := Datasets.Place(nRows, i, f), Datasets.Place(nRows, j, g);
    Datasets.PlaceBelow(nRows, nFeatures, i, f);
    Datasets.PlaceBelow(nRows, nFeatures, j, g);
    Datasets.PlaceInjective(nRows, i, f, j, g);
    ModUnique(a, 0, a);
    ModUnique(b, 0, b);
    CountersMeet(base, a, b);
  }

  /** The feature cells use distinct words exactly when there are at most 2^64. */
  lemma FeaturesDistinctExactly(base: nat, nRows: nat, nFeatures: nat)
    ensures FeaturesDistinct(base, nRows, nFeatures) <==> nRows * nFeatures <= M
  {
    if nRows * nFeatures <= M {
      forall i: nat, f: nat, j: nat, g: nat | i < nRows && j < nRows && f < nFeatures && g < nFeatures && (i != j || f != g)
        ensures SplitMix64(FeatureCounter(base, nRows, i, f)) != SplitMix64(FeatureCounter(base, nRows, j, g))
      {
        FeaturesApart(base, nRows, nFeatures, i, f, j, g);
      }
    } else {
      FirstFeatureBack(base, nRows, nFeatures);
    }
  }

  lemma FirstFeatureBack(base: nat, nRows: nat, nFeatures: nat)
    requires M < nRows * nFeatures
    ensures !FeaturesDistinct(base, nRows, nFeatures)
  {
    var r, f := Datasets.PlaceM(nRows);
    Datasets.ColumnBelow(nRows, nFeatures, f);
    ModUnique(M, 1, 0);
    ModUnique(0, 0, 0);
    CountersMeet(base, 0, M);
    assert Datasets.Place(nRows, 0, 0) == 0;
    assert SplitMix64(FeatureCounter(base, nRows, 0, 0)) == SplitMix64(FeatureCounter(base, nRows, r, f));
  }

  predicate NoiseIsFeature(base: nat, nRows: nat, nFeatures: nat, k: nat, i: nat, f: nat) {
    && k < nRows && i < nRows && f < nFeatures
    && SplitMix64(NoiseCounter(base, k)) == SplitMix64(FeatureCounter(base, nRows, i, f))
  }

  /** The label noise is drawn from a fixed place in the sequence, so it shares a word
      with a feature exactly when the features reach that place. */
  lemma NoiseSharedExactly(base: nat, nRows: nat, nFeatures: nat)
    ensures (exists k: nat, i: nat, f: nat :: NoiseIsFeature(base, nRows, nFeatures, k, i, f)) <==>
            9_000_010 < nRows * nFeatures
  {
    if 9_000_010 < nRows * nFeatures {
      NoiseShared(base, nRows, nFeatures);
    } else {
      forall k: nat, i: nat, f: nat | k < nRows && i < nRows && f < nFeatures
        ensures SplitMix64(NoiseCounter(base, k)) != SplitMix64(FeatureCounter(base, nRows, i, f))
      {
        NoiseApart(base, nRows, nFeatures, k, i, f);
      }
    }
  }

  lemma NoiseApart(base: nat, nRows: nat, nFeatures: nat, k: nat, i: nat, f: nat)
    requires nRows * nFeatures <= 9_000_010 && k < nRows && i < nRows && f < nFeatures
    ensures SplitMix64(NoiseCounter(base, k)) != SplitMix64(FeatureCounter(base, nRows, i, f))
  {
    var a, b := k + 9_000_010, Datasets.Place(nRows, i, f);
    PlacesBelow(nRows, nFeatures, k, i, f);
    SmallApart(a, b);
    CountersMeet(base, a, b);
    assert NoiseCounter(base, k) == a + (base + 7) && FeatureCounter(base, nRows, i, f) == b + (base + 7);
  }

  lemma SmallApart(a: int, b: int)
    requires 0 <= b < a < M
    ensures a % M != b % M
  {
    ModUnique(a, 0, a);
    ModUnique(b, 0, b);
  }

  lemma PlacesBelow(nRows: nat, nFeatures: nat, k: nat, i: nat, f: nat)
    requires k < nRows && i < nRows && f < nFeatures
    ensures k < nRows * nFeatures && Datasets.Place(nRows, i, f) < nRows * nFeatures
  {
    Datasets.MulMonotone(1, nFeatures, nRows);
    Datasets.PlaceBelow(nRows, nFeatures, i, f);
  }

  lemma NoiseShared(base: nat, nRows: nat, nFeatures: nat)
    requires 9_000_010 < nRows * nFeatures
    ensures exists k: nat, i: nat, f: nat :: NoiseIsFeature(base, nRows, nFeatures, k, i, f)
  {
    var i, f := 9_000_010 % nRows, 9_000_010 / nRows;
    PlaceOf(9_000_010, nRows, nFeatures);
    assert NoiseCounter(base, 0) == FeatureCounter(base, nRows, i, f);
    assert NoiseIsFeature(base, nRows, nFeatures, 0, i, f);
  }

  predicate SizeIsFeature(base: nat, nQueries: nat, nRows: nat, nFeatures: nat, q: nat, i: nat, f: nat) {
    && q < nQueries && i < nRows && f < nFeatures
    && SplitMix64(SizeCounter(base, q)) == SplitMix64(FeatureCounter(base, nRows, i, f))
  }

  lemma SizeMeets(base: nat, nRows: nat, q: nat, i: nat, f: nat)
    ensures SplitMix64(SizeCounter(base, q)) == SplitMix64(FeatureCounter(base, nRows, i, f)) <==>
            q % M == (Datasets.Place(nRows, i, f) + 7) % M
  {
    var b := Datasets.Place(nRows, i, f);
    SplitMixBijective(base + q, b + (base + 7), 0);
    ModShift(q, b + 7, base);
  }

  lemma SizesShare(base: nat, nQueries: nat, nRows: nat, nFeatures: nat)
    requires 0 < nRows * nFeatures && (7 < nQueries || (0 < nQueries && M - 7 < nRows * nFeatures))
    ensures exists q: nat, i: nat, f: nat :: SizeIsFeature(base, nQueries, nRows, nFeatures, q, i, f)
  {
    if 7 < nQueries {
      assert Datasets.Place(nRows, 0, 0) == 0;
      SizeMeets(base, nRows, 7, 0, 0);
      assert SizeIsFeature(base, nQueries, nRows, nFeatures, 7, 0, 0);
    } else {
      var i, f := (M - 7) % nRows, (M - 7) / nRows;
      PlaceOf(M - 7, nRows, nFeatures);
      SizeMeets(base, nRows, 0, i, f);
      ModUnique(M, 1, 0);
      ModUnique(0, 0, 0);
      assert SizeIsFeature(base, nQueries, nRows, nFeatures, 0, i, f);
    }
  }

  /** The size of query q is drawn from the same word as feature cell q - 7: sizes and
      features share a word exactly when there are more than seven queries and a cell, or
      so many cells that their counters come round to the first size. */
  lemma SizeSharedExactly(base: nat, nQueries: nat, nRows: nat, nFeatures: nat)
    ensures (exists q: nat, i: nat, f: nat :: SizeIsFeature(base, nQueries, nRows, nFeatures, q, i, f)) <==>
            0 < nRows * nFeatures && (7 < nQueries || (0 < nQueries && M - 7 < nRows * nFeatures))
    ensures forall q: nat, i: nat, f: nat | q < nQueries && i < nRows && f < nFeatures ::
              SizeIsFeature(base, nQueries, nRows, nFeatures, q, i, f) <==> q % M == (Datasets.Place(nRows, i, f) + 7) % M
  {
    forall q: nat, i: nat, f: nat | q < nQueries && i < nRows && f < nFeatures
      ensures SizeIsFeature(base, nQueries, nRows, nFeatures, q, i, f) <==> q % M == (Datasets.Place(nRows, i, f) + 7) % M
    {
      SizeMeets(base, nRows, q, i, f);
    }
    if q: nat, i: nat, f: nat :| SizeIsFeature(base, nQueries, nRows, nFeatures, q, i, f) {
      var b := Datasets.Place(nRows, i, f);
      Datasets.PlaceBelow(nRows, nFeatures, i, f);
      assert q % M == (b + 7) % M;
      if nQueries <= 7 {
        ModUnique(q, 0, q);
        if b + 7 < M { ModUnique(b + 7, 0, b + 7); }
      }
    }
    if 0 < nRows * nFeatures && (7 < nQueries || (0 < nQueries && M - 7 < nRows * nFeatures)) {
      SizesShare(base, nQueries, nRows, nFeatures);
    }
  }

  lemma PlaceOf(n: nat, nRows: nat, nFeatures: nat)
    requires 0 < nRows && n < nRows * nFeatures
    ensures n % nRows < nRows && n / nRows < nFeatures && Datasets.Place(nRows, n % nRows, n / nRows) == n
  {
    assert n == (n / nRows) * nRows + n % nRows;
    if nFeatures <= n / nRows { Datasets.MulMonotone(nFeatures, n / nRows, nRows); }
  }

  // ----- the data set

  /** The utilities of query q's rows. */
  function Of(us: seq<real>, sizes: seq<nat>, q: nat): seq<real>
    requires q < |sizes| && |us| == Sum(sizes)
  {
    StartOrder(sizes, q, q + 1);
    us[Start(sizes, q)..Start(sizes, q + 1)]
  }

  /** The grading loop: one query after the other. */
  method GradeAll(utility: seq<real>, sizes: seq<nat>) returns (y: array<int>)
    requires |utility| == Sum(sizes)
    ensures fresh(y) && y.Length == |utility|
    ensures forall q: nat | q < |sizes| :: Graded(y[..], Start(sizes, q), Of(utility, sizes, q))
  {
    y := new int[|utility|](_ => 0);
    var start := 0;
    for q := 0 to |sizes|
      invariant start == Start(sizes, q) <= |utility|
      invariant forall p: nat | p < q :: Graded(y[..], Start(sizes, p), Of(utility, sizes, p))
    {
      StartNext(sizes, q);
      StartOrder(sizes, q, q + 1);
      var end := start + sizes[q];
      ghost var was := y[..];
      GradeQuery(y, start, utility[start..end]);
      StillGraded(was, y[..], utility, sizes, q);
      start := end;
    }
  }

  method MakeRankingData(nQueries: nat, nFeatures: nat, seed: nat, lo: nat, hi: nat)
    returns (x: seq<seq<real>>, y: array<int>, sizes: seq<nat>)
    requires 3 <= nFeatures && seed < M && lo <= hi
    ensures fresh(y)
    ensures sizes == Sizes(SeedBase(seed), nQueries, lo, hi) && y.Length == Sum(sizes)
    ensures |sizes| == nQueries && forall size | size in sizes :: lo <= size <= hi
    ensures x == Matrix(SeedBase(seed), Sum(sizes), nFeatures)
    ensures forall q: nat | q < |sizes| :: Graded(y[..], Start(sizes, q), Of(Utilities(SeedBase(seed), x), sizes, q))
  {
    var base := SeedBase(seed);
    sizes := Sizes(base, nQueries, lo, hi);
    x := Matrix(base, Sum(sizes), nFeatures);
    y := GradeAll(Utilities(base, x), sizes);
    forall size | size in sizes
      ensures lo <= size <= hi
    {
      var q :| 0 <= q < nQueries && sizes[q] == size;
      SizeInRange(base, q, lo, hi);
    }
  }

  lemma StillGraded(was: seq<int>, now: seq<int>, utility: seq<real>, sizes: seq<nat>, q: nat)
    requires q <= |sizes| && |utility| == Sum(sizes) == |was| == |now|
    requires forall p: nat | p < q :: Graded(was, Start(sizes, p), Of(utility, sizes, p))
    requires forall k | 0 <= k < |was| && k < Start(sizes, q) :: was[k] == now[k]
    ensures forall p: nat | p < q :: Graded(now, Start(sizes, p), Of(utility, sizes, p))
  {
    forall p: nat | p < q
      ensures Graded(now, Start(sizes, p), Of(utility, sizes, p))
    {
      StartNext(sizes, p);
      StartUp(sizes, p + 1, q);
      StartOrder(sizes, q, q);
      Untouched(was, now, Start(sizes, q), Start(sizes, p), Of(utility, sizes, p));
    }
  }

  lemma Untouched(was: seq<int>, now: seq<int>, start: nat, at: nat, us: seq<real>)
    requires Graded(was, at, us) && at + |us| <= start <= |was| == |now|
    requires forall k | 0 <= k < start :: was[k] == now[k]
    ensures Graded(now, at, us)
  {
    forall i: nat | i < |us|
      ensures now[at + i] == Grade(Rank(us, i), |us|)
    {
      assert was[at + i] == Grade(Rank(us, i), |us|);
    }
  }

  /** Labels are 0 to 4, and inside a query a document with a larger utility never has a
      smaller label. */
  lemma LabelsFollowUtility(y: seq<int>, start: nat, us: seq<real>, i: nat, j: nat)
    requires Graded(y, start, us) && i < |us| && j < |us|
    ensures 0 <= y[start + i] <= 4
    ensures us[i] > us[j] ==> y[start + i] >= y[start + j]
    ensures Rank(us, i) == 0 ==> y[start + i] == 4
  {
    GradesFall(Rank(us, i), Rank(us, i), |us|);
    if us[i] > us[j] {
      RankFollows(us, i, j);
      GradesFall(Rank(us, i), Rank(us, j), |us|);
    }
  }

  /** Row k is one of query q's. */
  predicate Owns(sizes: seq<nat>, q: nat, k: nat) {
    q < |sizes| && Start(sizes, q) <= k < Start(sizes, q + 1)
  }

  /** Every row belongs to exactly one query, so it is graded, and graded once. */
  lemma {:induction false} OneOwner(sizes: seq<nat>, k: nat)
    requires k < Sum(sizes)
    ensures exists q: nat :: Owns(sizes, q, k) && forall p: nat | Owns(sizes, p, k) :: p == q
  {
    assert sizes[..|sizes|] == sizes;
    var q := FindOwner(sizes, |sizes|, k);
    forall p: nat | Owns(sizes, p, k)
      ensures p == q
    {
      if p < q { StartUp(sizes, p + 1, q); }
      if q < p { StartUp(sizes, q + 1, p); }
    }
  }

  lemma {:induction false} FindOwner(sizes: seq<nat>, n: nat, k: nat) returns (q: nat)
    requires n <= |sizes| && k < Start(sizes, n)
    ensures Owns(sizes, q, k)
  {
    if k < Start(sizes, n - 1) { q := FindOwner(sizes, n - 1, k); } else { q := n - 1; }
  }

  // ----- holding out whole queries

  /** Where a Python slice bound falls in a sequence of length n. */
  function Bound(i: int, n: nat): (r: nat)
    ensures r <= n
  {
    if i < 0 then (if i + n < 0 then 0 else i + n) else if i < n then i else n
  }

  datatype Part<X> = Part(x: seq<X>, y: seq<int>, group: seq<nat>)

  /** The training and the validation part. */
  function SplitByQuery<X>(x: seq<X>, y: seq<int>, group: seq<nat>, nValid: int): (Part<X>, Part<X>) {
    var at := Bound(-nValid, |group|);
    var cut := |y| - Sum(group[at..]);
    (Part(x[..Bound(cut, |x|)], y[..Bound(cut, |y|)], group[..at]),
     Part(x[Bound(cut, |x|)..], y[Bound(cut, |y|)..], group[at..]))
  }

  lemma {:induction false} SumAppend(a: seq<nat>, b: seq<nat>)
    ensures Sum(a + b) == Sum(a) + Sum(b)
  {
    if b == [] {
      assert a + b == a;
    } else {
      assert (a + b)[..|a + b| - 1] == a + b[..|b| - 1];
      SumAppend(a, b[..|b| - 1]);
    }
  }

  /** Whatever number is asked for, the parts put back together are the data, each part's
      group sizes sum to its rows, and every query lies on one side. */
  lemma SplitKeepsQueries<X>(x: seq<X>, y: seq<int>, group: seq<nat>, nValid: int)
    requires |x| == |y| == Sum(group)
    ensures var (t, v) := SplitByQuery(x, y, group, nValid);
            && t.x + v.x == x && t.y + v.y == y && t.group + v.group == group
            && Sum(t.group) == |t.x| == |t.y| && Sum(v.group) == |v.x| == |v.y|
            && forall q: nat, k: nat | Owns(group, q, k) :: k < |t.y| <==> q < |t.group|
  {
    var at := Bound(-nValid, |group|);
    assert group[..at] + group[at..] == group;
    SumAppend(group[..at], group[at..]);
    var cut := Sum(group[..at]);
    assert cut == Start(group, at);
    forall q: nat, k: nat | Owns(group, q, k)
      ensures k < cut <==> q < at
    {
      if q < at { StartUp(group, q + 1, at); } else { StartUp(group, at, q); }
    }
  }

  /** As many queries are held out as were asked for, and some are left to train on,
      exactly when the number is at least one and less than all; asking for none holds
      out every query. */
  lemma HeldOutExactly<X>(x: seq<X>, y: seq<int>, group: seq<nat>, nValid: int)
    requires |x| == |y| == Sum(group)
    ensures var (t, v) := SplitByQuery(x, y, group, nValid);
            && (|v.group| == nValid && t.group != [] <==> 1 <= nValid < |group|)
            && (nValid == 0 ==> v == Part(x, y, group) && t == Part([], [], []))
  {
    if nValid == 0 { assert group[0..] == group && x[0..] == x && y[0..] == y; }
  }
}
