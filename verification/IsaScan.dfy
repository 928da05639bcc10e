/** The instruction-set gate of packaging/isa_baseline.py: a profile's live rules and the
    scan that counts what they catch. */
module IsaScan {
  import opened Prelude
  import Sorting

  /** What the line parser reads off a line. */
  datatype Instruction = Instruction(mnemonic: string, operands: string)

  /** A disassembly line: whether it is shaped like an instruction, and what was read. */
  datatype Line = Line(candidate: bool, parsed: Option<Instruction>)

  type Pattern = string -> bool

  datatype Rule = Rule(feature: string, mnemonic: Option<Pattern>, operands: Option<Pattern>)

  /** Profile.rules: what the baseline does not allow. */
  function Live(table: seq<Rule>, allowed: set<string>): seq<Rule> {
    if table == [] then []
    else (if table[0].feature in allowed then [] else [table[0]]) + Live(table[1..], allowed)
  }

  /** When a rule fires. Half-precision arithmetic takes both halves and knows exemptions. */
  predicate Fires(r: Rule, i: Instruction, exempt: Pattern) {
    && (r.mnemonic.None? || r.mnemonic.value(i.mnemonic))
    && (r.operands.None? || r.operands.value(i.operands))
    && (r.mnemonic.None? ==> r.operands.Some?)
    && (r.mnemonic.Some? && r.feature == "fullfp16" ==> r.operands.Some? && !exempt(i.mnemonic))
  }

  /** The feature of the first rule that fires. */
  function Verdict(rules: seq<Rule>, i: Instruction, exempt: Pattern): Option<string> {
    if rules == [] then None
    else if Fires(rules[0], i, exempt) then Some(rules[0].feature)
    else Verdict(rules[1..], i, exempt)
  }

  predicate FiresFirst(rules: seq<Rule>, j: nat, i: Instruction, exempt: Pattern) {
    && j < |rules| && Fires(rules[j], i, exempt)
    && forall m: nat | m < j :: !Fires(rules[m], i, exempt)
  }

  lemma {:induction false} VerdictIsFirst(rules: seq<Rule>, i: Instruction, exempt: Pattern)
    ensures Verdict(rules, i, exempt).Some? <==> exists j: nat :: j < |rules| && Fires(rules[j], i, exempt)
    ensures forall j: nat | FiresFirst(rules, j, i, exempt) :: Verdict(rules, i, exempt) == Some(rules[j].feature)
    decreases |rules|
  {
    if rules != [] && !Fires(rules[0], i, exempt) {
      var rest := rules[1..];
      VerdictIsFirst(rest, i, exempt);
      if j: nat :| j < |rest| && Fires(rest[j], i, exempt) { assert Fires(rules[j + 1], i, exempt); }
      forall j: nat | FiresFirst(rules, j, i, exempt)
        ensures Verdict(rules, i, exempt) == Some(rules[j].feature)
      {
        var m := j - 1;
        assert forall k: nat | k < m :: !Fires(rest[k], i, exempt) by {
          forall k: nat | k < m
            ensures !Fires(rest[k], i, exempt)
          {
            assert !Fires(rules[k + 1], i, exempt);
          }
        }
        assert FiresFirst(rest, m, i, exempt);
      }
    }
  }

  // ----- the scan

  function Candidates(lines: seq<Line>): set<nat> {
    set k: nat | k < |lines| && lines[k].candidate
  }

  function Parsed(lines: seq<Line>): set<nat> {
    set k: nat | k < |lines| && lines[k].parsed.Some?
  }

  predicate BlamedAt(lines: seq<Line>, k: nat, rules: seq<Rule>, exempt: Pattern, feature: string) {
    k < |lines| && lines[k].parsed.Some? && Verdict(rules, lines[k].parsed.value, exempt) == Some(feature)
  }

  /** The lines a feature is blamed for. */
  function Blamed(lines: seq<Line>, rules: seq<Rule>, exempt: Pattern, feature: string): set<nat> {
    set k: nat | k < |lines| && BlamedAt(lines, k, rules, exempt, feature)
  }

  function Features(rules: seq<Rule>): set<string> {
    set j | 0 <= j < |rules| :: rules[j].feature
  }

  function Hits(lines: seq<Line>, rules: seq<Rule>, exempt: Pattern): map<string, nat> {
    map f | f in Features(rules) && Blamed(lines, rules, exempt, f) != {} :: |Blamed(lines, rules, exempt, f)|
  }

  function Max(a: int, b: int): int {
    if a < b then b else a
  }

  datatype Scan = Scan(hits: map<string, nat>, instructions: nat, candidates: nat, unparsed: nat, readable: bool,
                       tolerated: nat)

  /** What a scan of these lines reports. */
  function Scanned(lines: seq<Line>, rules: seq<Rule>, exempt: Pattern): Scan {
    var candidates, parsed := Candidates(lines), Parsed(lines);
    var tolerated := Max(8, |candidates| / 100);
    Scan(Hits(lines, rules, exempt), |parsed|, |candidates|, |candidates - parsed|,
         |parsed| > 0 && |candidates - parsed| <= tolerated, tolerated)
  }

  function Plus(hits: map<string, nat>, verdict: Option<string>): map<string, nat> {
    match verdict
    case None => hits
    case Some(f) => hits[f := (if f in hits then hits[f] else 0) + 1]
  }

  /** The first-firing-rule loop over one instruction. */
  method Count(hits: map<string, nat>, rules: seq<Rule>, i: Instruction, exempt: Pattern)
    returns (out: map<string, nat>)
    ensures out == Plus(hits, Verdict(rules, i, exempt))
  {
    out := hits;
    for j := 0 to |rules|
      invariant Verdict(rules, i, exempt) == Verdict(rules[j..], i, exempt)
      invariant out == hits
    {
      var r, fired := rules[j], false;
      if r.mnemonic.Some? && r.mnemonic.value(i.mnemonic) {
        if r.feature == "fullfp16" {
          fired := r.operands.Some? && r.operands.value(i.operands) && !exempt(i.mnemonic);
        } else if r.operands.Some? {
          fired := r.operands.value(i.operands);
        } else {
          fired := true;
        }
      } else if r.operands.Some? && r.mnemonic.None? {
        fired := r.operands.value(i.operands);
      }
      assert fired == Fires(r, i, exempt);
      if fired {
        var count := if r.feature in hits then hits[r.feature] else 0;
        out := hits[r.feature := count + 1];
        return;
      }
    }
  }

  lemma {:induction false} VerdictInFeatures(rules: seq<Rule>, i: Instruction, exempt: Pattern)
    ensures Verdict(rules, i, exempt).Some? ==> Verdict(rules, i, exempt).value in Features(rules)
  {
    if rules != [] { VerdictInFeatures(rules[1..], i, exempt); }
  }

  lemma BlamedSnoc(lines: seq<Line>, line: Line, rules: seq<Rule>, exempt: Pattern, feature: string)
    ensures Blamed(lines + [line], rules, exempt, feature) == Blamed(lines, rules, exempt, feature)
      + if line.parsed.Some? && Verdict(rules, line.parsed.value, exempt) == Some(feature) then {|lines|} else {}
  {
    var all := lines + [line];
    forall k: nat
      ensures BlamedAt(all, k, rules, exempt, feature) <==>
              BlamedAt(lines, k, rules, exempt, feature)
              || (k == |lines| && line.parsed.Some? && Verdict(rules, line.parsed.value, exempt) == Some(feature))
    {
      if k < |lines| { assert all[k] == lines[k]; }
    }
  }

  /** What the hits say of one feature. */
  function HitAt(hits: map<string, nat>, f: string): nat {
    if f in hits then hits[f] else 0
  }

  lemma HitsAt(lines: seq<Line>, rules: seq<Rule>, exempt: Pattern, f: string)
    ensures HitAt(Hits(lines, rules, exempt), f) == |Blamed(lines, rules, exempt, f)|
    ensures f in Hits(lines, rules, exempt) <==> |Blamed(lines, rules, exempt, f)| > 0
  {
    if k :| k in Blamed(lines, rules, exempt, f) { VerdictInFeatures(rules, lines[k].parsed.value, exempt); }
  }

  lemma BlamedCount(lines: seq<Line>, line: Line, rules: seq<Rule>, exempt: Pattern, f: string)
    ensures |Blamed(lines + [line], rules, exempt, f)| == |Blamed(lines, rules, exempt, f)|
      + if line.parsed.Some? && Verdict(rules, line.parsed.value, exempt) == Some(f) then 1 else 0
  {
    BlamedSnoc(lines, line, rules, exempt, f);
    assert |lines| !in Blamed(lines, rules, exempt, f);
  }

  lemma SameHits(a: map<string, nat>, b: map<string, nat>)
    requires forall f :: f in a <==> f in b
    requires forall f :: HitAt(a, f) == HitAt(b, f)
    ensures a == b
  {
    forall f | f in a
      ensures a[f] == b[f]
    {
      assert HitAt(a, f) == HitAt(b, f);
    }
  }

  /** A line's verdict, if it has one. */
  function LineVerdict(line: Line, rules: seq<Rule>, exempt: Pattern): Option<string> {
    if line.parsed.None? then None else Verdict(rules, line.parsed.value, exempt)
  }

  lemma HitsSnoc(lines: seq<Line>, line: Line, rules: seq<Rule>, exempt: Pattern)
    ensures Hits(lines + [line], rules, exempt) == Plus(Hits(lines, rules, exempt), LineVerdict(line, rules, exempt))
  {
    var out, expected := Hits(lines + [line], rules, exempt), Plus(Hits(lines, rules, exempt), LineVerdict(line, rules, exempt));
    forall f
      ensures (f in out <==> f in expected) && HitAt(out, f) == HitAt(expected, f)
    {
      HitsAt(lines, rules, exempt, f);
      HitsAt(lines + [line], rules, exempt, f);
      BlamedCount(lines, line, rules, exempt, f);
    }
    SameHits(out, expected);
  }

  lemma LinesSnoc(lines: seq<Line>, line: Line)
    ensures Candidates(lines + [line]) == Candidates(lines) + if line.candidate then {|lines|} else {}
    ensures Parsed(lines + [line]) == Parsed(lines) + if line.parsed.Some? then {|lines|} else {}
  {
    var all := lines + [line];
    assert forall k: nat | k < |lines| :: all[k] == lines[k];
  }

  lemma UnparsedSnoc(lines: seq<Line>, line: Line)
    ensures Candidates(lines + [line]) - Parsed(lines + [line]) ==
            Candidates(lines) - Parsed(lines) + if line.candidate && line.parsed.None? then {|lines|} else {}
  {
    LinesSnoc(lines, line);
  }

  lemma ScanStep(lines: seq<Line>, n: nat, rules: seq<Rule>, exempt: Pattern)
    requires n < |lines|
    ensures var a, b := Scanned(lines[..n], rules, exempt), Scanned(lines[..n + 1], rules, exempt);
            && b.hits == Plus(a.hits, LineVerdict(lines[n], rules, exempt))
            && b.candidates == a.candidates + (if lines[n].candidate then 1 else 0)
            && b.instructions == a.instructions + (if lines[n].parsed.Some? then 1 else 0)
            && b.unparsed == a.unparsed + (if lines[n].candidate && lines[n].parsed.None? then 1 else 0)
  {
    assert lines[..n + 1] == lines[..n] + [lines[n]];
    LinesSnoc(lines[..n], lines[n]);
    HitsSnoc(lines[..n], lines[n], rules, exempt);
    UnparsedSnoc(lines[..n], lines[n]);
  }

  lemma NoLines(rules: seq<Rule>, exempt: Pattern)
    ensures var r := Scanned([], rules, exempt);
            r.hits == map[] && r.candidates == 0 && r.instructions == 0 && r.unparsed == 0
  {
    assert Candidates([]) == {} && Parsed([]) == {};
    assert Hits([], rules, exempt) == map[] by {
      forall f
        ensures Blamed([], rules, exempt, f) == {}
      {}
    }
  }

  method ScanObject(lines: seq<Line>, table: seq<Rule>, allowed: set<string>, exempt: Pattern) returns (r: Scan)
    ensures r == Scanned(lines, Live(table, allowed), exempt)
  {
    var rules := Live(table, allowed);
    var hits: map<string, nat>, total, candidates, unparsed := map[], 0, 0, 0;
    NoLines(rules, exempt);
    assert lines[..0] == [];
    for n := 0 to |lines|
      invariant Scanned(lines[..n], rules, exempt).hits == hits
      invariant Scanned(lines[..n], rules, exempt).candidates == candidates
      invariant Scanned(lines[..n], rules, exempt).instructions == total
      invariant Scanned(lines[..n], rules, exempt).unparsed == unparsed
    {
      var line := lines[n];
      ScanStep(lines, n, rules, exempt);
      if line.candidate {
        candidates := candidates + 1;
      }
      if line.parsed.None? {
        if line.candidate {
          unparsed := unparsed + 1;
        }
        continue;
      }
      total := total + 1;
      hits := Count(hits, rules, line.parsed.value, exempt);
    }
    assert lines[..|lines|] == lines;
    var tolerated := Max(8, candidates / 100);
    r := Scan(hits, total, candidates, unparsed, total > 0 && unparsed <= tolerated, tolerated);
  }

  // ----- what a clean verdict means

  /** A rule the profile does not allow fires on an instruction. */
  predicate Refuses(table: seq<Rule>, j: nat, allowed: set<string>, i: Instruction, exempt: Pattern) {
    j < |table| && table[j].feature !in allowed && Fires(table[j], i, exempt)
  }

  /** A rule the profile does not allow fires on what was read off line k. */
  predicate Caught(lines: seq<Line>, k: nat, table: seq<Rule>, j: nat, allowed: set<string>, exempt: Pattern) {
    k < |lines| && lines[k].parsed.Some? && Refuses(table, j, allowed, lines[k].parsed.value, exempt)
  }

  lemma LiveStep(table: seq<Rule>, allowed: set<string>, i: Instruction, exempt: Pattern)
    requires table != []
    ensures Verdict(Live(table, allowed), i, exempt) ==
            if Refuses(table, 0, allowed, i, exempt) then Some(table[0].feature)
            else Verdict(Live(table[1..], allowed), i, exempt)
  {
    var first, rest := table[0], Live(table[1..], allowed);
    if first.feature in allowed {
      assert Live(table, allowed) == [] + rest == rest;
    } else {
      var live := Live(table, allowed);
      assert live == [first] + rest;
      assert live[0] == first && live[1..] == rest;
    }
  }

  lemma {:induction false} LiveExactly(table: seq<Rule>, allowed: set<string>, i: Instruction, exempt: Pattern)
    ensures Verdict(Live(table, allowed), i, exempt).Some? <==> exists j: nat :: Refuses(table, j, allowed, i, exempt)
    decreases |table|
  {
    if table != [] {
      var rest := table[1..];
      LiveStep(table, allowed, i, exempt);
      LiveExactly(rest, allowed, i, exempt);
      if j: nat :| Refuses(rest, j, allowed, i, exempt) { assert Refuses(table, j + 1, allowed, i, exempt); }
      if j: nat :| Refuses(table, j, allowed, i, exempt) {
        if j > 0 {
          var m := j - 1;
          assert Refuses(rest, m, allowed, i, exempt);
        }
      }
    }
  }

  lemma {:induction false} LiveFeatures(table: seq<Rule>, allowed: set<string>)
    ensures Features(Live(table, allowed)) !! allowed
  {
    if table != [] { LiveFeatures(table[1..], allowed); }
  }

  /** The lines on which some rule fires. */
  function Firing(lines: seq<Line>, rules: seq<Rule>, exempt: Pattern): set<nat> {
    set k: nat | k < |lines| && lines[k].parsed.Some? && Verdict(rules, lines[k].parsed.value, exempt).Some?
  }

  lemma NoneFiring(lines: seq<Line>, rules: seq<Rule>, exempt: Pattern)
    ensures Hits(lines, rules, exempt) == map[] <==> Firing(lines, rules, exempt) == {}
  {
    var hits := Hits(lines, rules, exempt);
    if k :| k in Firing(lines, rules, exempt) {
      var f := Verdict(rules, lines[k].parsed.value, exempt).value;
      VerdictInFeatures(rules, lines[k].parsed.value, exempt);
      assert k in Blamed(lines, rules, exempt, f);
      assert f in hits;
    }
    if f :| f in hits {
      var k :| k in Blamed(lines, rules, exempt, f);
      assert k in Firing(lines, rules, exempt);
    }
  }

  /** No hits means that no rule outside the profile fires on anything that was read. */
  lemma CleanExactly(lines: seq<Line>, table: seq<Rule>, allowed: set<string>, exempt: Pattern)
    ensures Hits(lines, Live(table, allowed), exempt) == map[] <==>
            forall k: nat, j: nat :: !Caught(lines, k, table, j, allowed, exempt)
  {
    var rules := Live(table, allowed);
    NoneFiring(lines, rules, exempt);
    if k: nat, j: nat :| Caught(lines, k, table, j, allowed, exempt) {
      LiveExactly(table, allowed, lines[k].parsed.value, exempt);
      assert k in Firing(lines, rules, exempt);
    }
    if k :| k in Firing(lines, rules, exempt) {
      LiveExactly(table, allowed, lines[k].parsed.value, exempt);
      var j: nat :| Refuses(table, j, allowed, lines[k].parsed.value, exempt);
      assert Caught(lines, k, table, j, allowed, exempt);
    }
  }

  /** A readable scan has read something, and all but the tolerated candidates: one in a
      hundred, and never fewer than eight. */
  lemma ReadableMeans(lines: seq<Line>, rules: seq<Rule>, exempt: Pattern)
    ensures var r := Scanned(lines, rules, exempt);
            && r.candidates == r.unparsed + |Candidates(lines) * Parsed(lines)|
            && r.candidates <= r.unparsed + r.instructions
            && (r.readable <==> r.instructions > 0 && (r.unparsed <= 8 || 100 * r.unparsed <= r.candidates))
  {
    var c, p := Candidates(lines), Parsed(lines);
    assert c == (c - p) + (c * p);
    Within(c * p, p);
  }

  lemma {:induction false} Within(a: set<nat>, b: set<nat>)
    requires a <= b
    ensures |a| <= |b|
  {
    if a != {} {
      var x :| x in a;
      Within(a - {x}, b - {x});
    }
  }

  // ----- the counts

  function Sum(hits: map<string, nat>): nat
    decreases |hits|
  {
    if hits == map[] then 0
    else
      var f := Sorting.Least(hits.Keys);
      assert (hits - {f}).Keys == hits.Keys - {f};
      hits[f] + Sum(hits - {f})
  }

  function FiringIn(lines: seq<Line>, rules: seq<Rule>, exempt: Pattern, fs: set<string>): set<nat> {
    set k: nat | k in Firing(lines, rules, exempt) && Verdict(rules, lines[k].parsed.value, exempt).value in fs
  }

  lemma FiringSplit(lines: seq<Line>, rules: seq<Rule>, exempt: Pattern, fs: set<string>, f: string)
    requires f in fs
    ensures |FiringIn(lines, rules, exempt, fs)| == |Blamed(lines, rules, exempt, f)| + |FiringIn(lines, rules, exempt, fs - {f})|
  {
    var here, there := Blamed(lines, rules, exempt, f), FiringIn(lines, rules, exempt, fs - {f});
    assert FiringIn(lines, rules, exempt, fs) == here + there;
    assert here !! there;
  }

  lemma {:induction false} SumIn(lines: seq<Line>, rules: seq<Rule>, exempt: Pattern, hits: map<string, nat>)
    requires forall f | f in hits :: hits[f] == |Blamed(lines, rules, exempt, f)|
    ensures Sum(hits) == |FiringIn(lines, rules, exempt, hits.Keys)|
    decreases |hits|
  {
    if hits == map[] {
      assert FiringIn(lines, rules, exempt, hits.Keys) == {};
    } else {
      var f := Sorting.Least(hits.Keys);
      assert (hits - {f}).Keys == hits.Keys - {f};
      SumIn(lines, rules, exempt, hits - {f});
      FiringSplit(lines, rules, exempt, hits.Keys, f);
    }
  }

  /** Every instruction that some live rule catches is counted once, under one feature. */
  lemma HitsSum(lines: seq<Line>, rules: seq<Rule>, exempt: Pattern)
    ensures Sum(Hits(lines, rules, exempt)) == |Firing(lines, rules, exempt)|
  {
    var hits := Hits(lines, rules, exempt);
    SumIn(lines, rules, exempt, hits);
    forall k | k in Firing(lines, rules, exempt)
      ensures k in FiringIn(lines, rules, exempt, hits.Keys)
    {
      var i := lines[k].parsed.value;
      VerdictInFeatures(rules, i, exempt);
      assert BlamedAt(lines, k, rules, exempt, Verdict(rules, i, exempt).value);
      assert k in Blamed(lines, rules, exempt, Verdict(rules, i, exempt).value);
    }
    assert Firing(lines, rules, exempt) == FiringIn(lines, rules, exempt, hits.Keys);
  }

  lemma FewerFire(lines: seq<Line>, table: seq<Rule>, less: set<string>, more: set<string>, exempt: Pattern)
    requires less <= more
    ensures Firing(lines, Live(table, more), exempt) <= Firing(lines, Live(table, less), exempt)
  {
    forall k | k in Firing(lines, Live(table, more), exempt)
      ensures k in Firing(lines, Live(table, less), exempt)
    {
      var i := lines[k].parsed.value;
      LiveExactly(table, less, i, exempt);
      LiveExactly(table, more, i, exempt);
      var j: nat :| Refuses(table, j, more, i, exempt);
      assert Refuses(table, j, less, i, exempt);
    }
  }

  /** Allowing more never makes a clean object dirty and never raises the number of
      findings; what was readable stays so, and no finding is of an allowed feature. */
  lemma AllowingMore(lines: seq<Line>, table: seq<Rule>, less: set<string>, more: set<string>, exempt: Pattern)
    requires less <= more
    ensures var a, b := Scanned(lines, Live(table, less), exempt), Scanned(lines, Live(table, more), exempt);
            && (a.hits == map[] ==> b.hits == map[])
            && Sum(b.hits) <= Sum(a.hits)
            && b == a.(hits := b.hits)
            && forall f | f in b.hits :: f !in more
  {
    var rules, fewer := Live(table, less), Live(table, more);
    HitsSum(lines, rules, exempt);
    HitsSum(lines, fewer, exempt);
    FewerFire(lines, table, less, more, exempt);
    Within(Firing(lines, fewer, exempt), Firing(lines, rules, exempt));
    NoneFiring(lines, rules, exempt);
    NoneFiring(lines, fewer, exempt);
    LiveFeatures(table, more);
  }

  /** Rule j of the table is the first that a profile refuses an instruction for. */
  predicate RefusesFirst(table: seq<Rule>, j: nat, allowed: set<string>, i: Instruction, exempt: Pattern) {
    Refuses(table, j, allowed, i, exempt) && forall l: nat | l < j :: !Refuses(table, l, allowed, i, exempt)
  }

  lemma {:induction false} LiveVerdict(table: seq<Rule>, allowed: set<string>, i: Instruction, exempt: Pattern, f: string)
    ensures Verdict(Live(table, allowed), i, exempt) == Some(f) <==>
            exists j: nat :: RefusesFirst(table, j, allowed, i, exempt) && table[j].feature == f
    decreases |table|
  {
    if table != [] {
      var rest := table[1..];
      LiveStep(table, allowed, i, exempt);
      LiveVerdict(rest, allowed, i, exempt, f);
      if Refuses(table, 0, allowed, i, exempt) {
        assert RefusesFirst(table, 0, allowed, i, exempt);
      } else {
        forall l: nat
          ensures Refuses(rest, l, allowed, i, exempt) <==> Refuses(table, l + 1, allowed, i, exempt)
        {}
        if j: nat :| RefusesFirst(rest, j, allowed, i, exempt) && rest[j].feature == f {
          FirstShifts(table, j + 1, allowed, i, exempt);
        }
        if j: nat :| RefusesFirst(table, j, allowed, i, exempt) && table[j].feature == f {
          FirstShifts(table, j, allowed, i, exempt);
          var m := j - 1;
          assert RefusesFirst(rest, m, allowed, i, exempt) && rest[m].feature == f;
        }
      }
    }
  }

  lemma FirstShifts(table: seq<Rule>, j: nat, allowed: set<string>, i: Instruction, exempt: Pattern)
    requires table != [] && !Refuses(table, 0, allowed, i, exempt)
    ensures RefusesFirst(table, j, allowed, i, exempt) <==> j > 0 && RefusesFirst(table[1..], j - 1, allowed, i, exempt)
  {
    var rest := table[1..];
    forall l: nat
      ensures Refuses(rest, l, allowed, i, exempt) <==> Refuses(table, l + 1, allowed, i, exempt)
    {}
    if j > 0 {
      if RefusesFirst(table, j, allowed, i, exempt) {
        forall l: nat | l < j - 1
          ensures !Refuses(rest, l, allowed, i, exempt)
        {
          assert !Refuses(table, l + 1, allowed, i, exempt);
        }
      }
      if RefusesFirst(rest, j - 1, allowed, i, exempt) {
        forall l: nat | l < j
          ensures !Refuses(table, l, allowed, i, exempt)
        {
          if l > 0 { assert !Refuses(rest, l - 1, allowed, i, exempt); }
        }
      }
    }
  }

  /** Allowing more changes an instruction's verdict only by allowing the feature it was
      blamed on. */
  lemma {:induction false} VerdictMoves(table: seq<Rule>, less: set<string>, more: set<string>, i: Instruction, exempt: Pattern)
    requires less <= more
    ensures var a, b := Verdict(Live(table, less), i, exempt), Verdict(Live(table, more), i, exempt);
            a == b || (a.Some? && a.value in more)
    ensures Verdict(Live(table, more), i, exempt).Some? ==> Verdict(Live(table, more), i, exempt).value !in more
    decreases |table|
  {
    if table != [] {
      LiveStep(table, less, i, exempt);
      LiveStep(table, more, i, exempt);
      VerdictMoves(table[1..], less, more, i, exempt);
    }
  }

  /** Line k passes from a rule that the larger set allows to one of feature f. */
  predicate PassesOn(lines: seq<Line>, k: nat, table: seq<Rule>, j: nat, m: nat, less: set<string>, more: set<string>,
    exempt: Pattern, f: string)
  {
    && k < |lines| && lines[k].parsed.Some?
    && RefusesFirst(table, j, less, lines[k].parsed.value, exempt) && table[j].feature in more
    && RefusesFirst(table, m, more, lines[k].parsed.value, exempt) && table[m].feature == f
  }

  lemma BlamedGrows(lines: seq<Line>, table: seq<Rule>, less: set<string>, more: set<string>, exempt: Pattern, f: string)
    requires less <= more && f !in more
    ensures Blamed(lines, Live(table, less), exempt, f) <= Blamed(lines, Live(table, more), exempt, f)
  {
    forall k | k in Blamed(lines, Live(table, less), exempt, f)
      ensures k in Blamed(lines, Live(table, more), exempt, f)
    {
      VerdictMoves(table, less, more, lines[k].parsed.value, exempt);
      assert BlamedAt(lines, k, Live(table, more), exempt, f);
    }
  }

  /** The lines f is newly blamed for are those that pass on to it. */
  lemma NewlyBlamed(lines: seq<Line>, table: seq<Rule>, less: set<string>, more: set<string>, exempt: Pattern, f: string, k: nat)
    requires less <= more
    ensures BlamedAt(lines, k, Live(table, more), exempt, f) && !BlamedAt(lines, k, Live(table, less), exempt, f) <==>
            exists j: nat, m: nat :: PassesOn(lines, k, table, j, m, less, more, exempt, f)
  {
    if k < |lines| && lines[k].parsed.Some? {
      var i := lines[k].parsed.value;
      var a, b := Verdict(Live(table, less), i, exempt), Verdict(Live(table, more), i, exempt);
      VerdictMoves(table, less, more, i, exempt);
      LiveVerdict(table, more, i, exempt, f);
      if b == Some(f) && a != Some(f) {
        LiveVerdict(table, less, i, exempt, a.value);
        var j: nat :| RefusesFirst(table, j, less, i, exempt) && table[j].feature == a.value;
        var m: nat :| RefusesFirst(table, m, more, i, exempt) && table[m].feature == f;
        assert PassesOn(lines, k, table, j, m, less, more, exempt, f);
      }
      if j: nat, m: nat :| PassesOn(lines, k, table, j, m, less, more, exempt, f) {
        LiveVerdict(table, less, i, exempt, table[j].feature);
        assert f !in more;
      }
    }
  }

  /** What allowing more does to the count of one feature: an allowed one drops to nothing,
      any other never falls, and it rises exactly when some instruction passes on to it from
      a rule that is now allowed. */
  lemma CountRisesExactly(lines: seq<Line>, table: seq<Rule>, less: set<string>, more: set<string>, exempt: Pattern, f: string)
    requires less <= more
    ensures var a, b := HitAt(Hits(lines, Live(table, less), exempt), f), HitAt(Hits(lines, Live(table, more), exempt), f);
            && (if f in more then b == 0 else a <= b)
            && (a < b <==> exists k: nat, j: nat, m: nat :: PassesOn(lines, k, table, j, m, less, more, exempt, f))
  {
    var was, now := Blamed(lines, Live(table, less), exempt, f), Blamed(lines, Live(table, more), exempt, f);
    HitsAt(lines, Live(table, less), exempt, f);
    HitsAt(lines, Live(table, more), exempt, f);
    if f in more {
      forall k: nat
        ensures !BlamedAt(lines, k, Live(table, more), exempt, f)
      {
        if k < |lines| && lines[k].parsed.Some? { VerdictMoves(table, less, more, lines[k].parsed.value, exempt); }
      }
      assert now == {};
    } else {
      BlamedGrows(lines, table, less, more, exempt, f);
      Within(was, now);
    }
    if |was| < |now| {
      if now <= was { Within(now, was); }
      var k :| k in now && k !in was;
      NewlyBlamed(lines, table, less, more, exempt, f, k);
      var j: nat, m: nat :| PassesOn(lines, k, table, j, m, less, more, exempt, f);
    }
    if k: nat, j: nat, m: nat :| PassesOn(lines, k, table, j, m, less, more, exempt, f) {
      NewlyBlamed(lines, table, less, more, exempt, f, k);
      assert k in now && k !in was;
      Within(was + {k}, now);
    }
  }

  /** It does rise where the first rule that catches an instruction is allowed and the
      next one is not. */
  lemma CountsMove(lines: seq<Line>, first: Rule, second: Rule, exempt: Pattern, k: nat)
    requires first.feature != second.feature
    requires k < |lines| && lines[k].parsed.Some?
    requires forall m: nat | m < |lines| && lines[m].parsed.Some? :: Fires(first, lines[m].parsed.value, exempt)
    requires Fires(second, lines[k].parsed.value, exempt)
    ensures var table := [first, second];
            && second.feature !in Hits(lines, Live(table, {}), exempt)
            && second.feature in Hits(lines, Live(table, {first.feature}), exempt)
  {
    var table := [first, second];
    assert table[1..] == [second] && [second][1..] == [];
    assert Live([second], {}) == [second] + Live([], {}) && Live([second], {first.feature}) == [second] + Live([], {first.feature});
    assert Live(table, {}) == [first] + Live([second], {});
    assert Live(table, {first.feature}) == [] + Live([second], {first.feature});
    assert Live(table, {}) == table && Live(table, {first.feature}) == [second];
    assert Blamed(lines, table, exempt, second.feature) == {};
    assert BlamedAt(lines, k, [second], exempt, second.feature);
    assert k in Blamed(lines, [second], exempt, second.feature);
    assert second in [second];
  }

  /** A readable scan may have left an instruction-shaped line unread. */
  lemma UnreadButReadable(i: Instruction, exempt: Pattern)
    ensures var r := Scanned([Line(true, None), Line(true, Some(i))], [], exempt);
            r.readable && r.unparsed == 1 && r.candidates == 2 && r.instructions == 1
  {
    var lines := [Line(true, None), Line(true, Some(i))];
    assert lines == [Line(true, None)] + [Line(true, Some(i))] && [Line(true, None)] == [] + [Line(true, None)];
    LinesSnoc([Line(true, None)], Line(true, Some(i)));
    LinesSnoc([], Line(true, None));
    assert Candidates([]) == {} && Parsed([]) == {};
    assert Candidates(lines) == {0, 1} && Parsed(lines) == {1} && Candidates(lines) - Parsed(lines) == {0};
  }

  // ----- what a rule looks at

  /** A rule by its shape: patterns that are there must match, a rule without any never
      fires, and `fullfp16` with a mnemonic pattern needs an operand pattern as well and
      spares the exempt mnemonics. */
  lemma FiresByShape(f: string, m: Pattern, o: Pattern, i: Instruction, exempt: Pattern)
    ensures !Fires(Rule(f, None, None), i, exempt)
    ensures Fires(Rule(f, None, Some(o)), i, exempt) <==> o(i.operands)
    ensures f != "fullfp16" ==> (Fires(Rule(f, Some(m), None), i, exempt) <==> m(i.mnemonic))
    ensures f != "fullfp16" ==> (Fires(Rule(f, Some(m), Some(o)), i, exempt) <==> m(i.mnemonic) && o(i.operands))
    ensures !Fires(Rule("fullfp16", Some(m), None), i, exempt)
    ensures Fires(Rule("fullfp16", Some(m), Some(o)), i, exempt) <==> m(i.mnemonic) && o(i.operands) && !exempt(i.mnemonic)
  {}

  /** What the four counters of a scan count. */
  lemma CountersExactly(lines: seq<Line>, rules: seq<Rule>, exempt: Pattern)
    ensures var r := Scanned(lines, rules, exempt);
            && r.instructions == |set k: nat | k < |lines| && lines[k].parsed != None|
            && r.candidates == |set k: nat | k < |lines| && lines[k].candidate|
            && r.unparsed == |set k: nat | k < |lines| && lines[k].candidate && lines[k].parsed == None|
            && 8 <= r.tolerated && r.candidates < 100 * (r.tolerated + 1) && (8 < r.tolerated ==> 100 * r.tolerated <= r.candidates)
            && (r.readable <==> 0 < r.instructions && r.unparsed <= r.tolerated)
  {
    assert (set k: nat | k < |lines| && lines[k].parsed != None) == Parsed(lines);
    assert (set k: nat | k < |lines| && lines[k].candidate) == Candidates(lines);
    assert (set k: nat | k < |lines| && lines[k].candidate && lines[k].parsed == None) == Candidates(lines) - Parsed(lines);
  }
}
