/** The order in which the tools report: kind by kind, and name by name in ascending order. */
module Reporting {
  import opened Prelude
  import opened Sorting
  import CoverageFile
  import FixtureRegister
  import GuardCheck

  predicate InOrder<A(!new)>(xs: seq<A>, key: A -> string) {
    forall a, b | 0 <= a < b < |xs| :: Le(key(xs[a]), key(xs[b]))
  }

  /** What is reported name by name for sorted names stands in the order of the names. */
  lemma NamesInOrder<A(!new)>(f: string -> seq<A>, s: set<string>, key: A -> string)
    requires forall x, y | x in s && y in f(x) :: key(y) == x
    ensures InOrder(FlatMap(f, Sorted(s)), key)
  {
    var xs := Sorted(s);
    SortedElems(s);
    forall i, j | 0 <= i < j < |xs|
      ensures Le(xs[i], xs[j])
    {
      SortedOrder(s, i, j);
    }
    assert xs[..|xs|] == xs;
    forall i | 0 <= i < |xs|
      ensures forall y | y in f(xs[i]) :: key(y) == xs[i]
    {
      assert xs[i] in xs;
    }
    FirstInOrder(f, xs, |xs|, key);
  }

  lemma {:induction false} FirstInOrder<A(!new)>(f: string -> seq<A>, xs: seq<string>, n: nat, key: A -> string)
    requires n <= |xs| && forall i, j | 0 <= i < j < |xs| :: Le(xs[i], xs[j])
    requires forall i | 0 <= i < |xs| :: forall y | y in f(xs[i]) :: key(y) == xs[i]
    ensures InOrder(FlatMap(f, xs[..n]), key)
    ensures forall y | y in FlatMap(f, xs[..n]) :: exists i | 0 <= i < n :: key(y) == xs[i]
    decreases n
  {
    if n > 0 {
      var init, last := FlatMap(f, xs[..n - 1]), f(xs[n - 1]);
      FirstInOrder(f, xs, n - 1, key);
      FlatMapSnoc(f, xs, n - 1);
      LeTotal(xs[n - 1], xs[n - 1]);
      forall a, b | 0 <= a < b < |init + last|
        ensures Le(key((init + last)[a]), key((init + last)[b]))
      {
        if a < |init| { assert init[a] in init; } else { assert last[a - |init|] in last; }
        if |init| <= b { assert last[b - |init|] in last; }
      }
      forall y | y in init + last
        ensures exists i | 0 <= i < n :: key(y) == xs[i]
      {
        if y in last { assert key(y) == xs[n - 1]; }
      }
    }
  }

  // ----- the coverage tool

  /** Rule R1 before rule R2, and what is found before what is recorded. */
  function Rank(x: CoverageFile.Failure): int {
    match x
    case Unclassified(_) => 0
    case Vanished(_) => 1
    case ReachChanged(_, _, _) => 2
  }

  lemma CoverageInOrder(b: CoverageFile.Baseline, found: set<string>, refs: CoverageFile.Refs)
    ensures var r := CoverageFile.Reports(b, found, refs);
            forall i, j | 0 <= i < j < |r| ::
              Rank(r[i]) <= Rank(r[j]) && (Rank(r[i]) == Rank(r[j]) ==> Le(r[i].name, r[j].name))
  {
    var first, second, third :=
      f => CoverageFile.ReportFound(b, f), y => CoverageFile.ReportRecorded(found, y), l => CoverageFile.ReportMechanism(b, refs, l);
    var name := (x: CoverageFile.Failure) => x.name;
    NamesInOrder(first, found, name);
    NamesInOrder(second, b.bodies, name);
    NamesInOrder(third, b.mechanisms.Keys, name);
    var xs, ys, zs := FlatMap(first, Sorted(found)), FlatMap(second, Sorted(b.bodies)), FlatMap(third, Sorted(b.mechanisms.Keys));
    SameRank(first, Sorted(found), 0);
    SameRank(second, Sorted(b.bodies), 1);
    SameRank(third, Sorted(b.mechanisms.Keys), 2);
    Joined(xs, ys, zs);
  }

  lemma SameRank(f: string -> seq<CoverageFile.Failure>, names: seq<string>, rank: int)
    requires forall x, y | y in f(x) :: Rank(y) == rank
    ensures forall y | y in FlatMap(f, names) :: Rank(y) == rank
  {
    forall y | y in FlatMap(f, names)
      ensures Rank(y) == rank
    {
      FlatMapElems(f, names, y);
    }
  }

  lemma Joined(xs: seq<CoverageFile.Failure>, ys: seq<CoverageFile.Failure>, zs: seq<CoverageFile.Failure>)
    requires (forall x | x in xs :: Rank(x) == 0) && (forall y | y in ys :: Rank(y) == 1) && forall z | z in zs :: Rank(z) == 2
    requires forall part | part in [xs, ys, zs] :: InOrder(part, (x: CoverageFile.Failure) => x.name)
    ensures var r := xs + ys + zs;
            forall i, j | 0 <= i < j < |r| ::
              Rank(r[i]) <= Rank(r[j]) && (Rank(r[i]) == Rank(r[j]) ==> Le(r[i].name, r[j].name))
  {
    var r, parts := xs + ys + zs, [xs, ys, zs];
    assert parts[0] in parts && parts[1] in parts && parts[2] in parts;
    forall i | 0 <= i < |r|
      ensures Rank(r[i]) == if i < |xs| then 0 else if i < |xs| + |ys| then 1 else 2
    {
      if i < |xs| { assert r[i] == xs[i]; }
      else if i < |xs| + |ys| { assert r[i] == ys[i - |xs|]; }
      else { assert r[i] == zs[i - |xs| - |ys|]; }
    }
    forall i, j | 0 <= i < j < |r| && Rank(r[i]) == Rank(r[j])
      ensures Le(r[i].name, r[j].name)
    {
      if j < |xs| { assert r[i] == xs[i] && r[j] == xs[j]; }
      else if j < |xs| + |ys| { assert r[i] == ys[i - |xs|] && r[j] == ys[j - |xs|]; }
      else { assert r[i] == zs[i - |xs| - |ys|] && r[j] == zs[j - |xs| - |ys|]; }
    }
  }

  // ----- the fixture tool

  /** The differences stand in the order of the fixtures, and those of one fixture in the
      order of its roles. */
  lemma DifferencesInOrder(recorded: FixtureRegister.Register, computed: FixtureRegister.Register)
    ensures InOrder(FixtureRegister.Differences(recorded, computed), (p: FixtureRegister.Problem) => p.id)
    ensures forall id | id in recorded && id in computed ::
              InOrder(FixtureRegister.IdReport(recorded, computed, id), (p: FixtureRegister.Problem) => RoleOf(p))
  {
    forall id
      ensures forall p | p in FixtureRegister.IdReport(recorded, computed, id) :: p.id == id
      ensures id in recorded && id in computed ==>
                InOrder(FixtureRegister.IdReport(recorded, computed, id), (p: FixtureRegister.Problem) => RoleOf(p))
    {
      IdReportOrder(recorded, computed, id);
    }
    NamesInOrder(id => FixtureRegister.IdReport(recorded, computed, id), recorded.Keys + computed.Keys,
      (p: FixtureRegister.Problem) => p.id);
  }

  function RoleOf(p: FixtureRegister.Problem): string {
    if p.Missing? || p.Unrecorded? then "" else p.role
  }

  lemma IdReportOrder(recorded: FixtureRegister.Register, computed: FixtureRegister.Register, id: string)
    ensures forall p | p in FixtureRegister.IdReport(recorded, computed, id) :: p.id == id
    ensures id in recorded && id in computed ==>
              InOrder(FixtureRegister.IdReport(recorded, computed, id), (p: FixtureRegister.Problem) => RoleOf(p))
  {
    if id in recorded && id in computed {
      var report := role => FixtureRegister.RoleReport(id, recorded[id], computed[id], role);
      var roles := recorded[id].Keys + computed[id].Keys;
      NamesInOrder(report, roles, (p: FixtureRegister.Problem) => RoleOf(p));
      forall p: FixtureRegister.Problem | p in FlatMap(report, Sorted(roles))
        ensures p.id == id
      {
        FlatMapElems(report, Sorted(roles), p);
      }
    }
  }

  // ----- the guard checker

  /** Rule R1 before rule R2. */
  lemma RulesInOrder(sites: seq<GuardCheck.Site>, baseline: set<string>)
    ensures var r := GuardCheck.Reports(sites, baseline); forall i, j | 0 <= i < j < |r| && r[j].R1? :: r[i].R1?
  {
    var second := s => GuardCheck.ReportR2(s, baseline);
    var xs, ys := FlatMap(GuardCheck.ReportR1, sites), FlatMap(second, sites);
    forall x | x in xs
      ensures x.R1?
    {
      FlatMapElems(GuardCheck.ReportR1, sites, x);
    }
    forall y | y in ys
      ensures y.R2?
    {
      FlatMapElems(second, sites, y);
    }
    assert GuardCheck.Reports(sites, baseline) == xs + ys;
    forall i | 0 <= i < |xs + ys|
      ensures (xs + ys)[i].R1? <==> i < |xs|
    {
      if i < |xs| { assert xs[i] in xs; } else { assert ys[i - |xs|] in ys; }
    }
  }
}
