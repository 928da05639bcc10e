/** The records and the rules of tools/check_gpu_guards.py told from the lines: what a
    record says of its line, and which lines fail the check. */
module GuardReport {
  import opened Prelude
  import opened GuardScan
  import opened GuardCheck
  import Text

  // ----- the kind text

  /** Where a name stands in the list. */
  function Position(name: string): int {
    if name == "launch" then 0 else if name == "devctx" then 1 else if name == "arch" then 2 else -1
  }

  predicate Tells(names: seq<string>, hz: set<Hazard>) {
    && ("launch" in names <==> Launch in hz) && ("devctx" in names <==> DevCtx in hz) && ("arch" in names <==> Arch in hz)
    && (forall x | x in names :: 0 <= Position(x))
    && forall i, j | 0 <= i < j < |names| :: Position(names[i]) < Position(names[j])
  }

  lemma NamesTell(hz: set<Hazard>)
    ensures Tells(Names(hz), hz)
  {
    var a, b, c := if Launch in hz then ["launch"] else [], if DevCtx in hz then ["devctx"] else [], if Arch in hz then ["arch"] else [];
    assert Names(hz) == a + b + c;
    forall x
      ensures x in Names(hz) <==> x in a || x in b || x in c
    {}
    assert Position("launch") == 0 && Position("devctx") == 1 && Position("arch") == 2;
  }

  /** The kind text lists the hazards of the line, launches first, then device contexts,
      then architecture queries, each once. */
  lemma KindTextMeans(hz: set<Hazard>)
    requires hz != {}
    ensures Tells(Text.Split(KindText(hz), ','), hz)
  {
    var h :| h in hz;
    NamesTell(hz);
    match h { case Launch => case DevCtx => case Arch => }
    forall x | x in Names(hz)
      ensures ',' !in x
    {
      assert x == "launch" || x == "devctx" || x == "arch";
    }
    Text.SplitJoin(Names(hz), ',');
  }

  /** Lines with other hazards have another kind text. */
  lemma KindTextTells(a: set<Hazard>, b: set<Hazard>)
    requires a != {} && b != {} && KindText(a) == KindText(b)
    ensures a == b
  {
    KindTextMeans(a);
    KindTextMeans(b);
    forall h: Hazard
      ensures h in a <==> h in b
    {
      match h case Launch => case DevCtx => case Arch =>
    }
  }

  // ----- the record of a line

  /** Line k is the last `struct` above line d and left of it. */
  predicate StructAbove(code: seq<Line>, k: nat, d: nat) {
    StructLeft(code, k, d) && forall m | k < m < d :: !StructLeft(code, m, d)
  }

  /** No guard between the `def` that is picked for line i and the line discards it. */
  ghost predicate Exposed(code: seq<Line>, i: nat) {
    i < |code| && forall d: nat, j: nat | Picked(code, d, i) && d < j < i :: !Discards(code, j, i)
  }

  lemma {:induction false} StructOfLast(code: seq<Line>, n: nat, column: nat)
    requires n <= |code|
    ensures (exists k | 0 <= k < n :: IsStruct(code[k]) && code[k].indent < column) ==>
              exists k | 0 <= k < n :: IsStruct(code[k]) && code[k].indent < column && StructOf(code[..n], column) == code[k].kind.name
                && forall m | k < m < n && IsStruct(code[m]) :: column <= code[m].indent
    ensures (forall k | 0 <= k < n && IsStruct(code[k]) :: column <= code[k].indent) ==> StructOf(code[..n], column) == ""
  {
    if n > 0 {
      assert code[..n][..n - 1] == code[..n - 1];
      StructOfLast(code, n - 1, column);
      if IsStruct(code[n - 1]) && code[n - 1].indent < column {
        assert StructOf(code[..n], column) == code[n - 1].kind.name;
      }
    }
  }

  /** The struct of the record is the one last opened above the `def` and left of it, and
      empty when there is none. */
  lemma StructMeans(code: seq<Line>, d: nat)
    requires d < |code| && code[d].Code?
    ensures forall k: nat | StructAbove(code, k, d) :: StructOf(code[..d], code[d].indent) == code[k].kind.name
    ensures (forall k: nat :: !StructLeft(code, k, d)) ==> StructOf(code[..d], code[d].indent) == ""
    ensures (exists k: nat :: StructLeft(code, k, d)) ==> exists k: nat :: StructAbove(code, k, d)
  {
    var column := code[d].indent;
    StructOfLast(code, d, column);
    if x: nat :| StructLeft(code, x, d) {
      assert 0 <= x < d && IsStruct(code[x]) && code[x].indent < column;
      var k :| 0 <= k < d && IsStruct(code[k]) && code[k].indent < column && StructOf(code[..d], column) == code[k].kind.name
        && forall m | k < m < d && IsStruct(code[m]) :: column <= code[m].indent;
      assert StructAbove(code, k, d);
      forall m: nat | StructAbove(code, m, d)
        ensures m == k
      {
        assert StructLeft(code, k, d) && StructLeft(code, m, d);
      }
    } else {
      assert forall k | 0 <= k < d && IsStruct(code[k]) :: StructLeft(code, k, d) || column <= code[k].indent;
    }
  }

  /** What the record of a line says, when a `def` is picked for it. */
  lemma RecordInFunction(file: string, code: seq<Line>, i: nat, d: nat, h: Hazard)
    requires i < |code| && code[i].Code? && h in code[i].hazards && Picked(code, d, i)
    ensures var s := SiteAt(file, code, i);
            && s.file == file && s.line == i + 1 && s.kind == KindText(code[i].hazards) && code[d].kind == Def(s.fn)
            && (s.moduleLevel <==> s.struct_ == "") && (s.guarded <==> !Exposed(code, i))
            && (forall k: nat | StructAbove(code, k, d) :: s.struct_ == code[k].kind.name)
            && ((forall k: nat :: !StructLeft(code, k, d)) ==> s.struct_ == "")
  {
    PickedIsEnclosing(code, i);
    StructMeans(code, d);
    assert forall e: nat | Picked(code, e, i) :: e == d;
  }

  /** ... and when none is. */
  lemma RecordOfModule(file: string, code: seq<Line>, i: nat, h: Hazard)
    requires i < |code| && code[i].Code? && h in code[i].hazards && forall d: nat :: !Picked(code, d, i)
    ensures SiteAt(file, code, i) == Site(file, i + 1, KindText(code[i].hazards), "<module>", "", true, false)
  {
    PickedIsEnclosing(code, i);
  }

  /** Line i has a hazard. */
  ghost predicate Hazardous(code: seq<Line>, i: nat) {
    i < |code| && code[i].Code? && exists h :: h in code[i].hazards
  }

  /** The record is that of one of the first n lines, which has a hazard. */
  ghost predicate RecordedAt(file: string, code: seq<Line>, n: nat, i: nat, s: Site) {
    i < n && Hazardous(code, i) && s == SiteAt(file, code, i)
  }

  lemma ListExactly(file: string, code: seq<Line>, i: nat, s: Site)
    requires i < |code|
    ensures s in SiteList(file, code, i) <==> Hazardous(code, i) && s == SiteAt(file, code, i)
  {
    if IsSite(code[i]) { var h :| h in code[i].hazards; }
  }

  lemma {:induction false} RecordFound(file: string, code: seq<Line>, n: nat, s: Site) returns (i: nat)
    requires n <= |code| && s in Sites(file, code, n)
    ensures RecordedAt(file, code, n, i, s)
  {
    var m := n - 1;
    if s in SiteList(file, code, m) {
      ListExactly(file, code, m, s);
      i := m;
    } else {
      i := RecordFound(file, code, m, s);
    }
  }

  /** One record for every line with a hazard... */
  lemma SitesExactly(file: string, code: seq<Line>, n: nat, s: Site)
    requires n <= |code|
    ensures s in Sites(file, code, n) <==> exists i: nat :: RecordedAt(file, code, n, i, s)
  {
    if s in Sites(file, code, n) { var i := RecordFound(file, code, n, s); }
    if i: nat :| RecordedAt(file, code, n, i, s) {
      ListExactly(file, code, i, s);
      SitesCover(file, code, n, i);
    }
  }

  /** The records stand in the order of their lines, the last one at most line n. */
  predicate LinesRise(sites: seq<Site>, n: int) {
    && (forall a | 0 <= a < |sites| :: sites[a].line <= n)
    && forall a, b | 0 <= a < b < |sites| :: sites[a].line < sites[b].line
  }

  lemma RiseSnoc(init: seq<Site>, last: seq<Site>, n: nat)
    requires LinesRise(init, n - 1) && |last| <= 1 && forall x | x in last :: x.line == n
    ensures LinesRise(init + last, n)
  {}

  /** ... in the order of the lines. */
  lemma {:induction false} SitesInOrder(file: string, code: seq<Line>, n: nat)
    requires n <= |code|
    ensures LinesRise(Sites(file, code, n), n)
  {
    if n > 0 {
      SitesInOrder(file, code, n - 1);
      RiseSnoc(Sites(file, code, n - 1), SiteList(file, code, n - 1), n);
    }
  }

  // ----- the check, line by line

  /** The key of a method's line: file, struct, function and hazards. */
  function MethodKey(f: string, code: seq<Line>, i: nat, d: nat, k: nat): string
    requires i < |code| && code[i].Code? && d < |code| && IsDef(code[d]) && k < |code| && IsStruct(code[k])
  {
    f + "::" + code[k].kind.name + "." + code[d].kind.name + "::" + KindText(code[i].hazards)
  }

  /** Line i has a struct: the one above the `def` that is picked for it. */
  predicate InStructOf(code: seq<Line>, i: nat, d: nat, k: nat) {
    Picked(code, d, i) && StructAbove(code, k, d)
  }

  /** Line i of file f fails the check: it has a hazard, no guard discards it, and it is
      more than a bare device context outside any struct, or in one and not in the
      baseline. */
  ghost predicate Fails(f: string, code: seq<Line>, i: nat, baseline: set<string>) {
    && Hazardous(code, i) && Exposed(code, i)
    && ((forall d: nat, k: nat :: !InStructOf(code, i, d, k)) ==> code[i].hazards != {DevCtx})
    && forall d: nat, k: nat | InStructOf(code, i, d, k) :: MethodKey(f, code, i, d, k) !in baseline
  }

  lemma FailsMeans(f: string, code: seq<Line>, i: nat, baseline: set<string>)
    requires StructsNamed(code) && Hazardous(code, i)
    ensures !Passes(SiteAt(f, code, i), baseline) <==> Fails(f, code, i, baseline)
  {
    var h :| h in code[i].hazards;
    var s := SiteAt(f, code, i);
    DevCtxOnly(code[i].hazards);
    if d: nat :| Picked(code, d, i) {
      PickedIsEnclosing(code, i);
      RecordInFunction(f, code, i, d, h);
      StructMeans(code, d);
      forall e: nat, k: nat
        ensures InStructOf(code, i, e, k) <==> e == d && StructAbove(code, k, d)
      {}
      if k: nat :| StructAbove(code, k, d) {
        assert InStructOf(code, i, d, k) && s.struct_ == code[k].kind.name != "";
        assert Key(s) == MethodKey(f, code, i, d, k);
        forall e: nat, m: nat | InStructOf(code, i, e, m)
          ensures MethodKey(f, code, i, e, m) == Key(s)
        {}
      }
    } else {
      RecordOfModule(f, code, i, h);
    }
  }

  lemma {:induction false} AllSitesExactly(files: map<string, seq<Line>>, names: seq<string>, s: Site)
    requires forall f | f in names :: f in files
    ensures s in AllSites(files, names) <==>
            exists f, i: nat :: f in names && Hazardous(files[f], i) && s == SiteAt(f, files[f], i)
  {
    if names != [] {
      var init, last := names[..|names| - 1], names[|names| - 1];
      assert last in names && names == init + [last];
      AllSitesExactly(files, init, s);
      LastSites(files, last, s);
    }
  }

  lemma LastSites(files: map<string, seq<Line>>, f: string, s: Site)
    requires f in files
    ensures s in Sites(f, files[f], |files[f]|) <==> exists i: nat :: Hazardous(files[f], i) && s == SiteAt(f, files[f], i)
  {
    var code := files[f];
    SitesExactly(f, code, |code|, s);
    if i: nat :| RecordedAt(f, code, |code|, i, s) { assert Hazardous(code, i) && s == SiteAt(f, code, i); }
    if i: nat :| Hazardous(code, i) && s == SiteAt(f, code, i) { assert RecordedAt(f, code, |code|, i, s); }
  }

  /** R1 and R2 together, told from the lines: the check reports something exactly when
      some line of some library file fails. */
  lemma CheckExactly(files: map<string, seq<Line>>, names: seq<string>, baseline: set<string>)
    requires (forall f | f in names :: f in files) && forall f | f in names :: StructsNamed(files[f])
    ensures Reports(AllSites(files, names), baseline) != [] <==>
            exists f, i: nat :: f in names && Fails(f, files[f], i, baseline)
  {
    var sites := AllSites(files, names);
    SilentReports(sites, baseline);
    if s :| s in sites && !Passes(s, baseline) {
      AllSitesExactly(files, names, s);
      var f, i: nat :| f in names && Hazardous(files[f], i) && s == SiteAt(f, files[f], i);
      FailsMeans(f, files[f], i, baseline);
    }
    if f, i: nat :| f in names && Fails(f, files[f], i, baseline) {
      var s := SiteAt(f, files[f], i);
      AllSitesExactly(files, names, s);
      FailsMeans(f, files[f], i, baseline);
    }
  }

  /** A failure names the rule and the line: R1 for a line of no struct, R2 with the key
      for one of a struct. */
  lemma FailureMeans(files: map<string, seq<Line>>, names: seq<string>, baseline: set<string>, x: Failure)
    requires (forall f | f in names :: f in files) && x in Reports(AllSites(files, names), baseline)
    ensures exists f, i: nat ::
              && f in names && Hazardous(files[f], i) && x.site == SiteAt(f, files[f], i)
              && !x.site.guarded && (x.R1? <==> x.site.struct_ == "")
              && (x.R2? ==> x.key == f + "::" + x.site.struct_ + "." + x.site.fn + "::" + x.site.kind)
  {
    ReportsMean(AllSites(files, names), baseline, x);
    AllSitesExactly(files, names, x.site);
    var f, i: nat :| f in names && Hazardous(files[f], i) && x.site == SiteAt(f, files[f], i);
    assert x.site.file == f && (x.site.moduleLevel <==> x.site.struct_ == "");
  }

  // ----- the baseline file

  /** What a baseline file says, line by line: blanks around a key do not matter, and
      comments and blank lines say nothing. */
  lemma LoadExactly(lines: seq<string>, k: string)
    ensures k in LoadBaseline(lines) <==>
            k != "" && Text.Trimmed(k) && k[0] != '#'
            && exists left, right :: Text.AllSpace(left) && Text.AllSpace(right) && left + k + right in lines
  {
    forall line | line in lines
      ensures Text.Strip(line) != "" ==> (IsComment(line) <==> Text.Strip(line)[0] == '#')
    {
      Text.RStripHead(Text.LStrip(line));
      Text.LStripTail(line);
    }
    if k in LoadBaseline(lines) {
      var line :| line in lines && Text.Strip(line) != "" && !IsComment(line) && Text.Strip(line) == k;
      Text.StripExactly(line, k);
    }
    if left, right :| Text.AllSpace(left) && Text.AllSpace(right) && left + k + right in lines && Text.Trimmed(k) {
      Text.StripExactly(left + k + right, k);
    }
  }
}
