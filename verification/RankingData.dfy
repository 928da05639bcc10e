/** The values of the ranking data, written out: sizes, features, utilities and grades. */
module RankingData {
  import opened SplitMix
  import opened Ranking

  // ----- the draws

  /** The base of a seed: 1 000 003 for each step, modulo 2^64. */
  lemma BaseSteps(seed: nat)
    ensures SeedBase(0) == 0 && SeedBase(seed) < 0x1_0000_0000_0000_0000
    ensures SeedBase(seed + 1) == (SeedBase(seed) + 1_000_003) % 0x1_0000_0000_0000_0000
  {
    var x := seed * 1_000_003;
    assert (seed + 1) * 1_000_003 == x + 1_000_003;
    ModAbsorb(x, 1_000_003);
  }

  /** The size of a query is the smallest allowed plus what is left of its word modulo the
      number of sizes. */
  lemma SizeExactly(base: nat, n: nat, q: nat, lo: nat, hi: nat)
    requires q < n && lo <= hi
    ensures |Sizes(base, n, lo, hi)| == n && lo <= Sizes(base, n, lo, hi)[q] <= hi
    ensures var word, d := SplitMix64(base + q), hi - lo + 1; word == word / d * d + (Sizes(base, n, lo, hi)[q] - lo)
  {
    SizeInRange(base, q, lo, hi);
    Division(SplitMix64(base + q), hi - lo + 1);
  }

  lemma Division(word: nat, d: nat)
    requires 0 < d
    ensures word == word / d * d + word % d
  {}

  lemma CellExactly(base: nat, nRows: nat, nFeatures: nat, i: nat, f: nat)
    requires i < nRows && f < nFeatures
    ensures Matrix(base, nRows, nFeatures)[i][f] == Uniform(base + 7 + f * nRows + i)
  {
    MatrixAt(base, nRows, nFeatures, i, f);
  }

  /** The utility of a row from its first three features and its own noise. */
  lemma UtilityExactly(base: nat, x: seq<seq<real>>, i: nat)
    requires i < |x| && forall k | 0 <= k < |x| :: 3 <= |x[k]|
    ensures |Utilities(base, x)| == |x|
    ensures Utilities(base, x)[i] ==
            3.0 * x[i][0] + 2.0 * x[i][1] * x[i][2] + 0.3 * (Uniform(base + 9_000_017 + i) - 0.5)
  {}

  // ----- the grades

  /** Row j comes before row i: more useful, or as useful and earlier. */
  predicate Leads(us: seq<real>, j: nat, i: nat) {
    j < |us| && i < |us| && (us[j] > us[i] || (us[j] == us[i] && j < i))
  }

  /** The rank of a row is the number of rows that come before it. */
  lemma RankCounts(us: seq<real>, i: nat)
    requires i < |us|
    ensures Rank(us, i) == |set j: nat | j < |us| && Leads(us, j, i)|
  {
    assert (set j: nat | j < |us| && Leads(us, j, i)) == Ahead(us, Rows(|us|), i);
  }

  lemma RankOrder(us: seq<real>, i: nat, j: nat)
    requires i < |us| && j < |us| && i != j
    ensures Rank(us, i) < Rank(us, j) <==> us[i] > us[j] || (us[i] == us[j] && i < j)
  {
    if Before(us, i, j) { RankFollows(us, i, j); } else { RankFollows(us, j, i); }
  }

  /** The grade of rank r is the whole number nearest to the r-th of `size` points evenly
      spaced from 4 down to 0, and the even one of two. */
  lemma GradeNearest(r: nat, size: nat)
    requires r < size && 1 < size
    ensures var g, twice := Grade(r, size) * (size - 1), 2 * (4 * (size - 1 - r));
            && twice - (size - 1) <= 2 * g <= twice + (size - 1)
            && (2 * g == twice - (size - 1) || 2 * g == twice + (size - 1) ==> Grade(r, size) % 2 == 0)
  {
    RoundNearest(4 * (size - 1 - r), size - 1);
  }

  /** With one document there is nothing to space, and it gets a 4. */
  lemma OnlyDocument()
    ensures Grade(0, 1) == 4
  {}

  /** The label of a row of a graded query, from the rows that come before it. */
  lemma LabelExactly(y: seq<int>, start: nat, us: seq<real>, i: nat)
    requires Graded(y, start, us) && i < |us| && 1 < |us|
    ensures var r, grade, gaps := |set j: nat | j < |us| && Leads(us, j, i)|, y[start + i], |us| - 1;
            && r < |us| && 0 <= grade <= 4
            && 8 * (gaps - r) - gaps <= 2 * (grade * gaps) <= 8 * (gaps - r) + gaps
            && (2 * (grade * gaps) == 8 * (gaps - r) - gaps || 2 * (grade * gaps) == 8 * (gaps - r) + gaps ==> grade % 2 == 0)
  {
    RankCounts(us, i);
    GradeNearest(Rank(us, i), |us|);
    GradesFall(Rank(us, i), Rank(us, i), |us|);
  }

  // ----- the split

  /** For one query or more, the rows held out are those of the last queries, counted from
      the end of the labels. */
  lemma CutExactly<X>(x: seq<X>, y: seq<int>, group: seq<nat>, nValid: int)
    requires 1 <= nValid <= |group| && Sum(group[|group| - nValid..]) <= |y| <= |x|
    ensures var (a, b), at := SplitByQuery(x, y, group, nValid), |group| - nValid;
            && x == a.x + b.x && y == a.y + b.y && a.group == group[..at] && b.group == group[at..]
            && |a.x| == |a.y| == |y| - Sum(group[at..])
  {}
}
