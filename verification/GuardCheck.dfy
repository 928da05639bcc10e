/** Hazard sites, rules R1 and R2 and the baseline of tools/check_gpu_guards.py, and
    what a silent check says about a build without an accelerator. */
module GuardCheck {
  import opened Prelude
  import opened GuardScan
  import opened GuardTree
  import opened GuardLayout
  import opened GuardLines
  import Text
  import Sorting

  // ----- who owns a line, according to the tree

  /** The innermost `def` around line i, with the `struct` around that `def`. */
  function OwnerAt(t: Tree, at: nat, i: nat, struct_: string, cur: Option<Owner>): Option<Owner>
    requires Covers(t, at, i)
    decreases Size(t)
  {
    match Locate(t, at, i)
    case Here => cur
    case In(sub, a, _, role) =>
      var (s, c) := OwnerInside(t, at, role, struct_, cur);
      OwnerAt(sub, a, i, s, c)
  }

  /** What the owner and the struct become one block further in. */
  function OwnerInside(t: Tree, at: nat, role: Role, struct_: string, cur: Option<Owner>): (string, Option<Owner>) {
    if role == InBody && t.Compound? && t.head.Def? then (struct_, Some(Owner(at, t.head.name, struct_)))
    else if role == InBody && t.Compound? && t.head.Struct? then (t.head.name, None)
    else (struct_, cur)
  }

  datatype Level = File | InStruct | InFunction

  /** No nested definitions: structs only at file level, functions only at file level or
      directly in a struct. */
  predicate Flat(t: Tree, level: Level) {
    match t
    case End => true
    case Plain(_, rest) => Flat(rest, level)
    case Compound(head, _, sig, _, body, alt, rest) =>
      && (head.Struct? ==> level == File && head.name != "")
      && (head.Def? ==> level != InFunction)
      && (head.Struct? || head.Def? ==> alt.NoElse?)
      && Flat(body, if head.Struct? then InStruct else InFunction)
      && (alt.WithElse? ==> Flat(alt.arm, InFunction))
      && Flat(rest, level)
  }

  predicate IsDef(l: Line) { l.Code? && l.kind.Def? }

  predicate IsStruct(l: Line) { l.Code? && l.kind.Struct? }

  lemma FlatStep(t: Tree, at: nat, i: nat, level: Level)
    requires Covers(t, at, i) && Flat(t, level) && Locate(t, at, i).In? && Locate(t, at, i).role != InSig
    ensures var s := Locate(t, at, i);
            Flat(s.sub, if s.role == InRest then level
                        else if s.role == InBody && t.head.Struct? then InStruct else InFunction)
  {}

  /** The definitions a block holds are the ones its level allows. */
  lemma {:induction false} FlatKinds(t: Tree, at: nat, n: nat, i: nat, level: Level)
    requires WellIndented(t) && Flat(t, level) && Covers(t, at, i)
    ensures level != File ==> !IsStruct(LineAt(t, at, n, i))
    ensures level == InFunction ==> !IsDef(LineAt(t, at, n, i))
    decreases Size(t)
  {
    LocateWell(t, at, i);
    match Locate(t, at, i)
    case Here =>
    case In(sub, a, shift, role) =>
      if role == InSig {
        TextLine(sub, a, n + shift, i);
      } else if role == InRest {
        FlatKinds(sub, a, n + shift, i, level);
      } else if level != File {
        FlatStep(t, at, i, level);
        FlatKinds(sub, a, n + shift, i, InFunction);
      }
  }

  // ----- enclosing_def is right about every function body of a flat file

  ghost predicate NoDefs(code: seq<Line>, lo: int, hi: int)
    requires 0 <= lo && hi <= |code|
  {
    forall k | lo <= k < hi :: !IsDef(code[k])
  }

  ghost predicate NoStructs(code: seq<Line>, lo: int, hi: int)
    requires 0 <= lo && hi <= |code|
  {
    forall k | lo <= k < hi :: !IsStruct(code[k])
  }

  lemma {:induction false} EnclosingAt(code: seq<Line>, d: nat, i: nat, want: nat)
    requires d < i <= |code| && IsDef(code[d]) && code[d].indent < want && NoDefs(code, d + 1, i)
    ensures Enclosing(code[..i], want) ==
            Some(Owner(d, code[d].kind.name, StructOf(code[..d], code[d].indent)))
    decreases i
  {
    assert code[..i][..i - 1] == code[..i - 1];
    if d < i - 1 { EnclosingAt(code, d, i - 1, want); }
  }

  lemma {:induction false} StructAt(code: seq<Line>, s: nat, d: nat, column: nat)
    requires s < d <= |code| && IsStruct(code[s]) && code[s].indent < column && NoStructs(code, s + 1, d)
    ensures StructOf(code[..d], column) == code[s].kind.name
    decreases d
  {
    assert code[..d][..d - 1] == code[..d - 1];
    if s < d - 1 { StructAt(code, s, d - 1, column); }
  }

  lemma {:induction false} NoStructLeftOfZero(before: seq<Line>)
    ensures StructOf(before, 0) == ""
  {
    if before != [] { NoStructLeftOfZero(before[..|before| - 1]); }
  }

  /** Nothing inside a function changes hands. */
  lemma {:induction false} BodyKeepsOwner(t: Tree, at: nat, i: nat, struct_: string, cur: Option<Owner>)
    requires Flat(t, InFunction) && WellIndented(t) && Covers(t, at, i)
    ensures OwnerAt(t, at, i, struct_, cur) == cur
    decreases Size(t)
  {
    LocateWell(t, at, i);
    match Locate(t, at, i)
    case Here =>
    case In(sub, a, _, role) =>
      if role == InSig { TextKeepsOwner(sub, a, i, struct_, cur); }
      else { FlatStep(t, at, i, InFunction); BodyKeepsOwner(sub, a, i, struct_, cur); }
  }

  lemma {:induction false} TextKeepsOwner(t: Tree, at: nat, i: nat, struct_: string, cur: Option<Owner>)
    requires OnlyText(t) && Covers(t, at, i)
    ensures OwnerAt(t, at, i, struct_, cur) == cur
    decreases t
  {
    if at < i { TextKeepsOwner(t.rest, at + 1, i, struct_, cur); }
  }

  /** Between the header of a `def` (a `struct`) and the end of its body there is no
      other `def` (`struct`). */
  lemma BodyKinds(t: Tree, at: nat, n: nat, k: nat, level: Level)
    requires WellIndented(t) && Flat(t, level) && Covers(t, at, k)
    requires t.Compound? && at < k < ElseLine(t, at)
    ensures t.head.Def? ==> !IsDef(LineAt(t, at, n, k))
    ensures t.head.Struct? ==> !IsStruct(LineAt(t, at, n, k))
  {
    LocateWell(t, at, k);
    var In(sub, a, shift, role) := Locate(t, at, k);
    if role == InSig {
      TextLine(sub, a, n + shift, k);
    } else {
      FlatStep(t, at, k, level);
      FlatKinds(sub, a, n + shift, k, if t.head.Struct? then InStruct else InFunction);
    }
  }

  lemma BodyLines(code: seq<Line>, at: nat, t: Tree, n: nat, level: Level)
    requires LaidOut(code, at, t, n) && WellIndented(t) && Flat(t, level) && t.Compound?
    ensures at < ElseLine(t, at) <= |code| && code[at] == Code(n, t.head, t.hazards)
    ensures t.head.Def? ==> NoDefs(code, at + 1, ElseLine(t, at))
    ensures t.head.Struct? ==> NoStructs(code, at + 1, ElseLine(t, at))
  {
    forall k | at < k < ElseLine(t, at)
      ensures t.head.Def? ==> !IsDef(code[k])
      ensures t.head.Struct? ==> !IsStruct(code[k])
    {
      LaidLine(code, at, t, n, k);
      BodyKinds(t, at, n, k, level);
    }
  }

  lemma BodyColumn(code: seq<Line>, at: nat, t: Tree, n: nat, i: nat)
    requires LaidOut(code, at, t, n) && WellIndented(t) && t.Compound? && Covers(t, at, i)
    requires Locate(t, at, i).In? && Locate(t, at, i).role == InBody
    ensures code[i].Code? ==> n < code[i].indent
  {
    LaidLine(code, at, t, n, i);
    var In(sub, a, shift, _) := Locate(t, at, i);
    Column(sub, a, n + shift, i);
  }

  /** In the body of a flat function the scan stops at that function's `def`. */
  lemma FunctionBody(code: seq<Line>, at: nat, t: Tree, n: nat, i: nat, level: Level)
    requires LaidOut(code, at, t, n) && WellIndented(t) && Flat(t, level) && Covers(t, at, i) && code[i].Code?
    requires t.Compound? && t.head.Def? && Locate(t, at, i).In? && Locate(t, at, i).role == InBody
    ensures Enclosing(code[..i], code[i].indent) == Some(Owner(at, t.head.name, StructOf(code[..at], n)))
  {
    BodyLines(code, at, t, n, level);
    BodyColumn(code, at, t, n, i);
    EnclosingAt(code, at, i, code[i].indent);
  }

  /** ... and nothing in that body changes hands. */
  lemma FunctionOwns(t: Tree, at: nat, i: nat, level: Level, name: string)
    requires WellIndented(t) && Flat(t, level) && Covers(t, at, i)
    requires t.Compound? && t.head.Def? && Locate(t, at, i).In? && Locate(t, at, i).role == InBody
    ensures OwnerAt(t, at, i, name, None) == Some(Owner(at, t.head.name, name))
  {
    var In(sub, a, shift, role) := Locate(t, at, i);
    FlatStep(t, at, i, level);
    BodyKeepsOwner(sub, a, i, name, Some(Owner(at, t.head.name, name)));
  }

  /** Outside the bodies of its definitions a flat block gives no owner of its own. */
  lemma NobodyOwns(t: Tree, at: nat, i: nat, level: Level, name: string)
    requires WellIndented(t) && Flat(t, level) && Covers(t, at, i)
    requires Locate(t, at, i).In? && Locate(t, at, i).role != InRest
    requires Locate(t, at, i).role == InBody ==> !t.head.Def? && !t.head.Struct?
    ensures OwnerAt(t, at, i, name, None) == None
  {
    var In(sub, a, shift, role) := Locate(t, at, i);
    LocateWell(t, at, i);
    if role == InSig {
      TextKeepsOwner(sub, a, i, name, None);
    } else {
      FlatStep(t, at, i, level);
      BodyKeepsOwner(sub, a, i, name, None);
    }
  }

  /** A method: the `def`, its name, and the struct that line s opens. */
  lemma {:induction false} MethodOwner(code: seq<Line>, at: nat, t: Tree, n: nat, i: nat, s: nat, name: string)
    requires LaidOut(code, at, t, n) && WellIndented(t) && Flat(t, InStruct) && Covers(t, at, i)
    requires s < at && IsStruct(code[s]) && code[s].indent < n && code[s].kind.name == name
    requires NoStructs(code, s + 1, at + Size(t))
    requires code[i].Code?
    ensures var o := OwnerAt(t, at, i, name, None);
            o.Some? ==> Enclosing(code[..i], code[i].indent) == o
    decreases Size(t)
  {
    LocateLaid(code, at, t, n, i);
    match Locate(t, at, i)
    case Here =>
    case In(sub, a, shift, role) =>
      if role == InRest {
        FlatStep(t, at, i, InStruct);
        MethodOwner(code, a, sub, n + shift, i, s, name);
      } else if role == InBody && t.head.Def? {
        FunctionOwns(t, at, i, InStruct, name);
        FunctionBody(code, at, t, n, i, InStruct);
        StructAt(code, s, at, n);
      } else {
        NobodyOwns(t, at, i, InStruct, name);
      }
  }

  /** On a flat file the backward scan finds the function that owns a body line, and
      the struct that owns the function. */
  lemma {:induction false} OwnerExact(code: seq<Line>, at: nat, t: Tree, i: nat)
    requires LaidOut(code, at, t, 0) && WellIndented(t) && Flat(t, File) && Covers(t, at, i)
    requires code[i].Code?
    ensures var o := OwnerAt(t, at, i, "", None);
            o.Some? ==> Enclosing(code[..i], code[i].indent) == o
    decreases Size(t)
  {
    LocateLaid(code, at, t, 0, i);
    match Locate(t, at, i)
    case Here =>
    case In(sub, a, shift, role) =>
      if role == InRest {
        FlatStep(t, at, i, File);
        OwnerExact(code, a, sub, i);
      } else if role == InBody && t.head.Def? {
        FunctionOwns(t, at, i, File, "");
        FunctionBody(code, at, t, 0, i, File);
        NoStructLeftOfZero(code[..at]);
      } else if role == InBody && t.head.Struct? {
        FlatStep(t, at, i, File);
        BodyLines(code, at, t, 0, File);
        MethodOwner(code, a, sub, shift, i, at, t.head.name);
      } else {
        NobodyOwns(t, at, i, File, "");
      }
  }

  /** The guards that drop a line of a function stand inside that function. */
  lemma {:induction false} PrunersInFunction(t: Tree, at: nat, i: nat, level: Level, struct_: string, cur: Option<Owner>)
    requires WellIndented(t) && Flat(t, level) && Covers(t, at, i)
    requires cur.Some? ==> cur.value.line < at && level == InFunction
    ensures var o := OwnerAt(t, at, i, struct_, cur);
            o.Some? ==> forall j | j in Pruners(t, at, i) :: o.value.line < j
    decreases Size(t)
  {
    LocateWell(t, at, i);
    match Locate(t, at, i)
    case Here =>
    case In(sub, a, _, role) =>
      if role == InSig {
        TextPrunersEmpty(sub, a, i);
      } else if level == InFunction {
        BodyKeepsOwner(t, at, i, struct_, cur);
        PrunersBelow(t, at, i);
      } else {
        FlatStep(t, at, i, level);
        if role == InRest {
          PrunersInFunction(sub, a, i, level, struct_, cur);
        } else if role == InBody && t.head.Def? {
          PrunersInFunction(sub, a, i, InFunction, struct_, Some(Owner(at, t.head.name, struct_)));
        } else if role == InBody && t.head.Struct? {
          PrunersInFunction(sub, a, i, InStruct, t.head.name, None);
        } else {
          BodyKeepsOwner(sub, a, i, struct_, cur);
        }
      }
  }

  // ----- hazard sites

  datatype Site = Site(file: string, line: nat, kind: string, fn: string, struct_: string, moduleLevel: bool, guarded: bool)

  function Names(hz: set<Hazard>): seq<string> {
    (if Launch in hz then ["launch"] else []) + (if DevCtx in hz then ["devctx"] else [])
    + (if Arch in hz then ["arch"] else [])
  }

  function KindText(hz: set<Hazard>): string {
    Text.Join(Names(hz), ",")
  }

  /** R1 exempts a line by its kind text; that text means the bare context and no more. */
  lemma DevCtxOnly(hz: set<Hazard>)
    ensures KindText(hz) == "devctx" <==> hz == {DevCtx}
  {
    var names := Names(hz);
    if |names| <= 1 {
      forall h | h in hz
        ensures h == Launch || h == DevCtx || h == Arch
      {
        match h case Launch => case DevCtx => case Arch =>
      }
      if KindText(hz) == "devctx" { assert hz == {DevCtx}; }
    } else {
      assert KindText(hz) == names[0] + "," + Text.Join(names[1..], ",");
      assert KindText(hz)[|names[0]|] == ',';
    }
  }

  predicate IsSite(l: Line) {
    l.Code? && l.hazards != {}
  }

  /** The record hazard_sites makes of line i. */
  function SiteAt(file: string, code: seq<Line>, i: nat): Site
    requires i < |code| && IsSite(code[i])
  {
    match Enclosing(code[..i], code[i].indent)
    case None => Site(file, i + 1, KindText(code[i].hazards), "<module>", "", true, false)
    case Some(Owner(start, fn, struct_)) =>
      Site(file, i + 1, KindText(code[i].hazards), fn, struct_, struct_ == "", Guarded(code, i, start))
  }

  /** The record of line i, if it has one. */
  function SiteList(file: string, code: seq<Line>, i: nat): seq<Site>
    requires i < |code|
  {
    if IsSite(code[i]) then [SiteAt(file, code, i)] else []
  }

  function Sites(file: string, code: seq<Line>, n: nat): seq<Site>
    requires n <= |code|
  {
    if n == 0 then [] else Sites(file, code, n - 1) + SiteList(file, code, n - 1)
  }

  lemma {:induction false} SitesCover(file: string, code: seq<Line>, n: nat, i: nat)
    requires i < n <= |code|
    ensures forall s | s in SiteList(file, code, i) :: s in Sites(file, code, n)
    decreases n
  {
    if i < n - 1 { SitesCover(file, code, n - 1, i); }
  }

  method HazardSites(file: string, code: seq<Line>) returns (sites: seq<Site>)
    ensures sites == Sites(file, code, |code|)
  {
    sites := [];
    for i := 0 to |code|
      invariant sites == Sites(file, code, i)
    {
      if IsSite(code[i]) {
        var owner := EnclosingDef(code, i);
        var start: int, fn, struct_ := -1, "<module>", "";
        if owner.Some? {
          start, fn, struct_ := owner.value.line, owner.value.fn, owner.value.struct_;
        }
        var guarded := false;
        if start >= 0 {
          guarded := IsGuarded(code, i, start);
        }
        sites := sites + [Site(file, i + 1, KindText(code[i].hazards), fn, struct_, struct_ == "", guarded)];
      }
    }
  }

  // ----- the rules

  function Key(s: Site): string {
    s.file + "::" + (if s.struct_ != "" then s.struct_ + "." else "") + s.fn + "::" + s.kind
  }

  datatype Failure = R1(site: Site) | R2(site: Site, key: string)

  /** What R1 objects to: an unguarded site of no struct, but for a bare device context. */
  predicate BreaksR1(s: Site) {
    !s.guarded && s.moduleLevel && s.kind != "devctx"
  }

  /** What R2 objects to: an unguarded site of a struct that the baseline does not name. */
  predicate BreaksR2(s: Site, baseline: set<string>) {
    !s.guarded && !s.moduleLevel && Key(s) !in baseline
  }

  /** Neither rule objects to the site. */
  predicate Passes(s: Site, baseline: set<string>) {
    !BreaksR1(s) && !BreaksR2(s, baseline)
  }

  function AllSites(files: map<string, seq<Line>>, names: seq<string>): seq<Site>
    requires forall f | f in names :: f in files
  {
    if names == [] then []
    else
      var init, last := names[..|names| - 1], names[|names| - 1];
      assert last in names && forall f | f in init :: f in names;
      AllSites(files, init) + Sites(last, files[last], |files[last]|)
  }

  lemma {:induction false} AllSitesCover(files: map<string, seq<Line>>, names: seq<string>, f: string)
    requires (forall g | g in names :: g in files) && f in names
    ensures forall s | s in Sites(f, files[f], |files[f]|) :: s in AllSites(files, names)
  {
    var init, last := names[..|names| - 1], names[|names| - 1];
    if f != last {
      assert f in init;
      AllSitesCover(files, init, f);
    }
  }

  function ReportR1(s: Site): seq<Failure> {
    if BreaksR1(s) then [R1(s)] else []
  }

  function ReportR2(s: Site, baseline: set<string>): seq<Failure> {
    if BreaksR2(s, baseline) then [R2(s, Key(s))] else []
  }

  /** Rule R1. */
  method CheckModuleLevel(sites: seq<Site>) returns (failures: seq<Failure>)
    ensures failures == FlatMap(ReportR1, sites)
  {
    failures := [];
    for n := 0 to |sites|
      invariant failures == FlatMap(ReportR1, sites[..n])
    {
      FlatMapSnoc(ReportR1, sites, n);
      var s := sites[n];
      if !s.guarded && s.moduleLevel && s.kind != "devctx" {
        failures := failures + [R1(s)];
      }
    }
    assert sites[..|sites|] == sites;
  }

  /** Rule R2. */
  method CheckStructs(sites: seq<Site>, baseline: set<string>) returns (failures: seq<Failure>)
    ensures failures == FlatMap(s => ReportR2(s, baseline), sites)
  {
    failures := [];
    ghost var report := s => ReportR2(s, baseline);
    for n := 0 to |sites|
      invariant failures == FlatMap(report, sites[..n])
    {
      FlatMapSnoc(report, sites, n);
      var s := sites[n];
      if !s.guarded && !s.moduleLevel && Key(s) !in baseline {
        failures := failures + [R2(s, Key(s))];
      }
    }
    assert sites[..|sites|] == sites;
  }

  /** What the check reports, in order: every site that breaks R1, then every site that
      breaks R2. */
  function Reports(sites: seq<Site>, baseline: set<string>): seq<Failure> {
    FlatMap(ReportR1, sites) + FlatMap(s => ReportR2(s, baseline), sites)
  }

  lemma ReportsMean(sites: seq<Site>, baseline: set<string>, x: Failure)
    ensures x in Reports(sites, baseline) <==>
            x.site in sites && if x.R1? then BreaksR1(x.site) else BreaksR2(x.site, baseline) && x.key == Key(x.site)
  {
    var report := s => ReportR2(s, baseline);
    FlatMapElems(ReportR1, sites, x);
    FlatMapElems(report, sites, x);
    if x.site in sites && x.R1? && BreaksR1(x.site) { assert x in ReportR1(x.site); }
    if x.site in sites && x.R2? && BreaksR2(x.site, baseline) && x.key == Key(x.site) { assert x in report(x.site); }
  }

  lemma SilentReports(sites: seq<Site>, baseline: set<string>)
    ensures Reports(sites, baseline) == [] <==> forall s | s in sites :: Passes(s, baseline)
  {
    var failures := Reports(sites, baseline);
    if failures != [] {
      assert failures[0] in failures;
      ReportsMean(sites, baseline, failures[0]);
      assert !Passes(failures[0].site, baseline);
    }
    if s :| s in sites && !Passes(s, baseline) {
      ReportsMean(sites, baseline, R1(s));
      ReportsMean(sites, baseline, R2(s, Key(s)));
    }
  }

  /** Rules R1 and R2 over the library files. */
  method Check(files: map<string, seq<Line>>, names: seq<string>, baseline: set<string>) returns (failures: seq<Failure>)
    requires forall f | f in names :: f in files
    ensures failures == Reports(AllSites(files, names), baseline)
    ensures failures == [] <==> forall s | s in AllSites(files, names) :: Passes(s, baseline)
    ensures forall x :: x in failures <==>
      && x.site in AllSites(files, names)
      && if x.R1? then BreaksR1(x.site) else BreaksR2(x.site, baseline) && x.key == Key(x.site)
  {
    var all := [];
    for n := 0 to |names|
      invariant all == AllSites(files, names[..n])
    {
      assert names[..n + 1][..n] == names[..n];
      assert names[n] in names;
      var sites := HazardSites(names[n], files[names[n]]);
      all := all + sites;
    }
    assert names[..|names|] == names;
    var first := CheckModuleLevel(all);
    var second := CheckStructs(all, baseline);
    failures := first + second;
    SilentReports(all, baseline);
    forall x
      ensures x in Reports(all, baseline) <==>
        && x.site in all
        && if x.R1? then BreaksR1(x.site) else BreaksR2(x.site, baseline) && x.key == Key(x.site)
    {
      ReportsMean(all, baseline, x);
    }
  }

  // ----- end to end

  /** A file that is the printed form of a flat, well-indented program. */
  predicate FlatFile(code: seq<Line>, t: Tree) {
    code == Print(t, 0) && WellIndented(t) && Flat(t, File)
  }

  /** is_guarded against the tree, for any search bound: some two-armed guard below
      `start` drops the line. */
  lemma GuardedExact(code: seq<Line>, t: Tree, i: nat, start: int)
    requires code == Print(t, 0) && WellIndented(t) && -1 <= start && i < |code| && code[i].Code?
    ensures Guarded(code, i, start) <==> exists j | j in Pruners(t, 0, i) :: start < j
  {
    forall j: nat | j < i
      ensures Discards(code, j, i) <==> j in Pruners(t, 0, i)
    {
      PrunersByLines(code, t, j, i);
    }
    PrunersBelow(t, 0, i);
    if Guarded(code, i, start) {
      var j :| start < j < i && Discards(code, j, i);
      assert j in Pruners(t, 0, i);
    }
    if j :| j in Pruners(t, 0, i) && start < j {
      assert Discards(code, j, i);
    }
  }

  /** For a line of a function of a flat file the site record is the truth: its owner is
      the tree's, and it is unguarded exactly when the compiler reaches it or a positive
      guard without an `else` hides it. */
  lemma SiteExact(file: string, code: seq<Line>, t: Tree, i: nat)
    requires FlatFile(code, t) && i < |code| && IsSite(code[i]) && OwnerAt(t, 0, i, "", None).Some?
    ensures var s, o := SiteAt(file, code, i), OwnerAt(t, 0, i, "", None).value;
            && s == Site(file, i + 1, KindText(code[i].hazards), o.fn, o.struct_, o.struct_ == "", s.guarded)
            && (!s.guarded <==> Reached(t, 0, true, i) || (Pruners(t, 0, i) == {} && Bare(t, 0, i)))
  {
    FileLaidOut(code, t);
    OwnerExact(code, 0, t, i);
    var o := OwnerAt(t, 0, i, "", None).value;
    PrunersInFunction(t, 0, i, File, "", None);
    GuardedExact(code, t, i, o.line);
    ReachedExactly(t, 0, i);
  }

  /** What the compiler reaches is never recorded as guarded, whatever owner the scan
      takes for the line. */
  lemma ReachedUnguarded(file: string, code: seq<Line>, t: Tree, i: nat)
    requires PrintedFile(code, t) && i < |code| && IsSite(code[i]) && Reached(t, 0, true, i)
    ensures !SiteAt(file, code, i).guarded
  {
    ReachedExactly(t, 0, i);
    var o := Enclosing(code[..i], code[i].indent);
    if o.Some? { GuardedExact(code, t, i, o.value.line); }
  }

  /** What a silent check means for any well-indented file: in a build without an
      accelerator every elaborated hazard line is a bare device context of no struct, or
      is named in the baseline as the scan names it. */
  lemma SilentIsSafe(files: map<string, seq<Line>>, names: seq<string>, baseline: set<string>, f: string, t: Tree, i: nat)
    requires forall g | g in names :: g in files
    requires forall s | s in AllSites(files, names) :: Passes(s, baseline)
    requires f in names && PrintedFile(files[f], t) && i < |files[f]|
    requires IsSite(files[f][i]) && Reached(t, 0, true, i)
    ensures var s := SiteAt(f, files[f], i);
            if s.struct_ == "" then files[f][i].hazards == {DevCtx} else Key(s) in baseline
  {
    var code := files[f];
    assert SiteAt(f, code, i) in SiteList(f, code, i);
    SitesCover(f, code, |code|, i);
    AllSitesCover(files, names, f);
    assert SiteAt(f, code, i) in AllSites(files, names);
    ReachedUnguarded(f, code, t, i);
    DevCtxOnly(code[i].hazards);
  }

  /** ... and told from the lines alone: where columns are well laid out, a hazard line
      that no guard drops. */
  lemma SilentByLines(files: map<string, seq<Line>>, names: seq<string>, baseline: set<string>, f: string, i: nat)
    requires forall g | g in names :: g in files
    requires forall s | s in AllSites(files, names) :: Passes(s, baseline)
    requires f in names && WellLaid(files[f]) && i < |files[f]|
    requires IsSite(files[f][i]) && forall j | 0 <= j < i :: !Drops(files[f], j, i)
    ensures var s := SiteAt(f, files[f], i);
            if s.struct_ == "" then files[f][i].hazards == {DevCtx} else Key(s) in baseline
  {
    PrintedExactly(files[f]);
    ReachedByLines(files[f], TreeOf(files[f]), i);
    SilentIsSafe(files, names, baseline, f, TreeOf(files[f]), i);
  }

  /** ... and for a flat file, in terms of the program: no launch and no architecture query
      of a module-level function is elaborated, and every elaborated hazard of a method is
      named in the baseline under that method. */
  lemma SilentIsSafeFlat(files: map<string, seq<Line>>, names: seq<string>, baseline: set<string>, f: string, t: Tree, i: nat)
    requires forall g | g in names :: g in files
    requires forall s | s in AllSites(files, names) :: Passes(s, baseline)
    requires f in names && FlatFile(files[f], t) && i < |files[f]|
    requires IsSite(files[f][i]) && OwnerAt(t, 0, i, "", None).Some? && Reached(t, 0, true, i)
    ensures var o, hz := OwnerAt(t, 0, i, "", None).value, files[f][i].hazards;
            if o.struct_ == "" then hz == {DevCtx}
            else f + "::" + o.struct_ + "." + o.fn + "::" + KindText(hz) in baseline
  {
    SilentIsSafe(files, names, baseline, f, t, i);
    SiteExact(f, files[f], t, i);
    var s, o := SiteAt(f, files[f], i), OwnerAt(t, 0, i, "", None).value;
    if o.struct_ != "" {
      assert Key(s) == f + "::" + o.struct_ + "." + o.fn + "::" + KindText(files[f][i].hazards);
    }
  }

  /** Line d is the `def` the scan takes for the owner of line i: the nearest one above
      that stands left of it. */
  predicate Picked(code: seq<Line>, d: nat, i: nat) {
    && d < i < |code| && code[i].Code? && IsDef(code[d]) && code[d].indent < code[i].indent
    && forall k | d < k < i && IsDef(code[k]) :: code[i].indent <= code[k].indent
  }

  /** Line k is a `struct` above line d and left of it. */
  predicate StructLeft(code: seq<Line>, k: nat, d: nat) {
    k < d < |code| && code[d].Code? && IsStruct(code[k]) && code[k].indent < code[d].indent
  }

  predicate StructsNamed(code: seq<Line>) {
    forall k | 0 <= k < |code| && IsStruct(code[k]) :: code[k].kind.name != ""
  }

  lemma {:induction false} StructOfMeans(code: seq<Line>, n: nat, column: nat)
    requires n <= |code| && StructsNamed(code)
    ensures StructOf(code[..n], column) == "" <==>
            forall k | 0 <= k < n && IsStruct(code[k]) :: column <= code[k].indent
  {
    if n > 0 {
      assert code[..n][..n - 1] == code[..n - 1];
      StructOfMeans(code, n - 1, column);
    }
  }

  lemma PickedIsEnclosing(code: seq<Line>, i: nat)
    requires i < |code| && code[i].Code?
    ensures match Enclosing(code[..i], code[i].indent)
            case None => forall d: nat :: !Picked(code, d, i)
            case Some(o) =>
              && Picked(code, o.line, i) && code[o.line].kind == Def(o.fn)
              && o.struct_ == StructOf(code[..o.line], code[o.line].indent)
              && forall d: nat | Picked(code, d, i) :: d == o.line
  {
    EnclosingMeaning(code[..i], code[i].indent);
    assert forall k | 0 <= k < i :: code[..i][k] == code[k];
    match Enclosing(code[..i], code[i].indent)
    case None =>
    case Some(o) => assert code[..i][..o.line] == code[..o.line];
  }

  /** When R1 misses a hazard that the compiler reaches, other than a bare device context:
      exactly when some `struct` stands above the `def` the scan picks and left of it. */
  lemma EscapesR1Exactly(file: string, code: seq<Line>, t: Tree, i: nat)
    requires PrintedFile(code, t) && StructsNamed(code) && i < |code|
    requires IsSite(code[i]) && code[i].hazards != {DevCtx} && Reached(t, 0, true, i)
    ensures !BreaksR1(SiteAt(file, code, i)) <==> exists d: nat, k: nat :: Picked(code, d, i) && StructLeft(code, k, d)
  {
    ReachedUnguarded(file, code, t, i);
    DevCtxOnly(code[i].hazards);
    PickedIsEnclosing(code, i);
    var o := Enclosing(code[..i], code[i].indent);
    if o.Some? {
      var d := o.value.line;
      StructOfMeans(code, d, code[d].indent);
      if !BreaksR1(SiteAt(file, code, i)) {
        var k :| 0 <= k < d && IsStruct(code[k]) && code[k].indent < code[d].indent;
        assert Picked(code, d, i) && StructLeft(code, k, d);
      }
    }
  }

  /** When a line that is not elaborated is recorded as unguarded all the same: exactly when
      a guard without an `else` hides it or some guard drops it, and every guard that drops
      it stands at or above the `def` the scan picks. */
  lemma FalseAlarmExactly(file: string, code: seq<Line>, t: Tree, i: nat)
    requires PrintedFile(code, t) && i < |code| && IsSite(code[i])
    ensures !SiteAt(file, code, i).guarded && !Reached(t, 0, true, i) <==>
            && (Bare(t, 0, i) || Pruners(t, 0, i) != {})
            && forall j, d: nat | j in Pruners(t, 0, i) && Picked(code, d, i) :: j <= d
  {
    ReachedExactly(t, 0, i);
    PickedIsEnclosing(code, i);
    var o := Enclosing(code[..i], code[i].indent);
    if o.Some? { GuardedExact(code, t, i, o.value.line); }
  }

  // ----- outside flat files

  predicate OwnsAt(code: seq<Line>, cur: Option<Owner>, at: nat, n: nat) {
    match cur
    case None => true
    case Some(Owner(j, fn, _)) =>
      j < at && j < |code| && code[j].Code? && code[j].kind == Def(fn) && code[j].indent < n
  }

  lemma OwnsInside(code: seq<Line>, at: nat, t: Tree, n: nat, i: nat, struct_: string, cur: Option<Owner>)
    requires LaidOut(code, at, t, n) && WellIndented(t) && Covers(t, at, i) && Locate(t, at, i).In?
    requires OwnsAt(code, cur, at, n)
    ensures var In(sub, a, shift, role) := Locate(t, at, i);
            WellIndented(sub) && LaidOut(code, a, sub, n + shift)
            && OwnsAt(code, OwnerInside(t, at, role, struct_, cur).1, a, n + shift)
  {
    LocateLaid(code, at, t, n, i);
  }

  lemma {:induction false} OwnerIsDef(code: seq<Line>, at: nat, t: Tree, n: nat, i: nat, struct_: string, cur: Option<Owner>)
    requires LaidOut(code, at, t, n) && WellIndented(t) && Covers(t, at, i) && code[i].Code?
    requires OwnsAt(code, cur, at, n)
    ensures OwnsAt(code, OwnerAt(t, at, i, struct_, cur), i + 1, code[i].indent)
    decreases Size(t), 1
  {
    if Locate(t, at, i).In? {
      OwnsInside(code, at, t, n, i, struct_, cur);
      OwnerIsDefInside(code, at, t, n, i, struct_, cur);
    } else {
      LaidLine(code, at, t, n, i);
      Column(t, at, n, i);
    }
  }

  lemma {:induction false} OwnerIsDefInside(code: seq<Line>, at: nat, t: Tree, n: nat, i: nat, struct_: string, cur: Option<Owner>)
    requires Covers(t, at, i) && Locate(t, at, i).In? && i < |code| && code[i].Code?
    requires var In(sub, a, shift, role) := Locate(t, at, i);
             && WellIndented(sub) && LaidOut(code, a, sub, n + shift)
             && OwnsAt(code, OwnerInside(t, at, role, struct_, cur).1, a, n + shift)
    ensures OwnsAt(code, OwnerAt(t, at, i, struct_, cur), i + 1, code[i].indent)
    decreases Size(t), 0
  {
    var In(sub, a, shift, role) := Locate(t, at, i);
    var next := OwnerInside(t, at, role, struct_, cur);
    OwnerIsDef(code, a, sub, n + shift, i, next.0, next.1);
  }

  /** The line of the innermost `struct` around line d, according to the tree. */
  function StructAround(t: Tree, at: nat, d: nat, struct_: Option<nat>): Option<nat>
    requires Covers(t, at, d)
    decreases Size(t)
  {
    match Locate(t, at, d)
    case Here => struct_
    case In(sub, a, _, role) =>
      StructAround(sub, a, d, if role == InBody && t.Compound? && t.head.Struct? then Some(at) else struct_)
  }

  /** A struct by its line and by its name, around a block at column n from line `at` on. */
  predicate StructIs(code: seq<Line>, at: nat, n: nat, line: Option<nat>, name: string) {
    match line
    case None => name == ""
    case Some(k) => k < at && k < |code| && IsStruct(code[k]) && code[k].indent < n && code[k].kind.name == name
  }

  /** The owning `def` stands in the block and its struct is the one around it. */
  predicate Within(code: seq<Line>, t: Tree, at: nat, line: Option<nat>, o: Owner) {
    && Covers(t, at, o.line) && o.line < |code| && code[o.line].Code?
    && StructIs(code, o.line, code[o.line].indent, StructAround(t, at, o.line, line), o.struct_)
  }

  function LineInside(t: Tree, at: nat, role: Role, line: Option<nat>): Option<nat> {
    if role == InBody && t.Compound? && t.head.Struct? then Some(at) else line
  }

  lemma WithinOuter(code: seq<Line>, t: Tree, at: nat, i: nat, line: Option<nat>, o: Owner)
    requires Covers(t, at, i) && Locate(t, at, i).In?
    requires var In(sub, a, _, role) := Locate(t, at, i); Within(code, sub, a, LineInside(t, at, role, line), o)
    ensures Within(code, t, at, line, o)
  {
    assert Covers(t, at, o.line) && Locate(t, at, o.line) == Locate(t, at, i);
  }

  /** One block further in: the struct around it, and an owner that starts there. */
  lemma StructInside(code: seq<Line>, at: nat, t: Tree, n: nat, i: nat, line: Option<nat>, name: string, cur: Option<Owner>)
    requires LaidOut(code, at, t, n) && WellIndented(t) && Covers(t, at, i) && Locate(t, at, i).In?
    requires StructIs(code, at, n, line, name)
    ensures var In(sub, a, shift, role) := Locate(t, at, i);
            var (inner, owner) := OwnerInside(t, at, role, name, cur);
            && WellIndented(sub) && LaidOut(code, a, sub, n + shift)
            && StructIs(code, a, n + shift, LineInside(t, at, role, line), inner)
            && OwnStruct(code, t, at, line, cur, owner)
  {
    LocateLaid(code, at, t, n, i);
  }

  /** An owner that does not come from outside the block has the struct around it. */
  predicate OwnStruct(code: seq<Line>, t: Tree, at: nat, line: Option<nat>, cur: Option<Owner>, o: Option<Owner>) {
    o == cur || o.None? || Within(code, t, at, line, o.value)
  }

  lemma StructOutside(code: seq<Line>, t: Tree, at: nat, i: nat, line: Option<nat>, cur: Option<Owner>,
    owner: Option<Owner>, o: Option<Owner>)
    requires Covers(t, at, i) && Locate(t, at, i).In?
    requires OwnStruct(code, t, at, line, cur, owner)
    requires var In(sub, a, _, role) := Locate(t, at, i); OwnStruct(code, sub, a, LineInside(t, at, role, line), owner, o)
    ensures OwnStruct(code, t, at, line, cur, o)
  {
    if o != owner && o.Some? { WithinOuter(code, t, at, i, line, o.value); }
  }

  /** The owner's struct is the one around the owning `def`. */
  lemma {:induction false} OwnerStruct(code: seq<Line>, at: nat, t: Tree, n: nat, i: nat, line: Option<nat>,
    name: string, cur: Option<Owner>)
    requires LaidOut(code, at, t, n) && WellIndented(t) && Covers(t, at, i) && StructIs(code, at, n, line, name)
    ensures OwnStruct(code, t, at, line, cur, OwnerAt(t, at, i, name, cur))
    decreases Size(t), 1
  {
    if Locate(t, at, i).In? {
      StructInside(code, at, t, n, i, line, name, cur);
      OwnerStructInside(code, at, t, n, i, line, name, cur);
    }
  }

  lemma {:induction false} OwnerStructInside(code: seq<Line>, at: nat, t: Tree, n: nat, i: nat, line: Option<nat>,
    name: string, cur: Option<Owner>)
    requires Covers(t, at, i) && Locate(t, at, i).In?
    requires var In(sub, a, shift, role) := Locate(t, at, i);
             var (inner, owner) := OwnerInside(t, at, role, name, cur);
             && WellIndented(sub) && LaidOut(code, a, sub, n + shift)
             && StructIs(code, a, n + shift, LineInside(t, at, role, line), inner)
             && OwnStruct(code, t, at, line, cur, owner)
    ensures OwnStruct(code, t, at, line, cur, OwnerAt(t, at, i, name, cur))
    decreases Size(t), 0
  {
    var In(sub, a, shift, role) := Locate(t, at, i);
    var next := OwnerInside(t, at, role, name, cur);
    OwnerStruct(code, a, sub, n + shift, i, LineInside(t, at, role, line), next.0, next.1);
    StructOutside(code, t, at, i, line, cur, next.1, OwnerAt(t, at, i, name, cur));
  }

  /** Line k is the last `struct` from line lo on that is above line d and left of it. */
  predicate LastBetween(code: seq<Line>, lo: nat, k: nat, d: nat) {
    lo <= k && StructLeft(code, k, d) && forall m: nat | k < m < d :: !StructLeft(code, m, d)
  }

  /** What the backward search for a struct finds, given the struct that is around: the
      last one in between, or else the one around. */
  lemma {:induction false} StructFound(code: seq<Line>, n: nat, d: nat, around: Option<nat>, name: string)
    requires n <= d < |code| && code[d].Code? && StructIs(code, n, code[d].indent, around, name)
    requires forall m: nat | n <= m < d :: !StructLeft(code, m, d)
    ensures var lo := if around.None? then 0 else around.value + 1;
            StructOf(code[..n], code[d].indent) == name <==>
            forall k: nat | LastBetween(code, lo, k, d) :: code[k].kind.name == name
    decreases n
  {
    if n > 0 {
      var last, lo := n - 1, if around.None? then 0 else around.value + 1;
      assert code[..n][..last] == code[..last];
      if StructLeft(code, last, d) {
        assert forall k: nat | LastBetween(code, lo, k, d) :: k == last;
        if lo <= last { assert LastBetween(code, lo, last, d); }
      } else {
        StructFound(code, last, d, around, name);
      }
    }
  }

  /** Where the search for line d's struct is in danger: after the struct around it, or
      from the top of the file. */
  function From(t: Tree, d: nat): nat
    requires Covers(t, 0, d)
  {
    match StructAround(t, 0, d, None)
    case None => 0
    case Some(k) => k + 1
  }

  /** No other `def` left of line i stands between its owner d and it. */
  predicate NoDefBetween(code: seq<Line>, d: nat, i: nat) {
    i < |code| && code[i].Code? && forall k | d < k < i && IsDef(code[k]) :: code[i].indent <= code[k].indent
  }

  lemma ScanRight(code: seq<Line>, i: nat, o: Owner, around: Option<nat>, lo: nat)
    requires OwnsAt(code, Some(o), i, if i < |code| && code[i].Code? then code[i].indent else 0)
    requires i < |code| && code[i].Code? && StructIs(code, o.line, code[o.line].indent, around, o.struct_)
    requires lo == if around.None? then 0 else around.value + 1
    ensures Enclosing(code[..i], code[i].indent) == Some(o) <==>
            && NoDefBetween(code, o.line, i)
            && (forall k: nat | LastBetween(code, lo, k, o.line) :: code[k].kind.name == o.struct_)
  {
    PickedIsEnclosing(code, i);
    StructFound(code, o.line, o.line, around, o.struct_);
    var e := Enclosing(code[..i], code[i].indent);
    if NoDefBetween(code, o.line, i) { assert Picked(code, o.line, i) && e.Some? && e.value.line == o.line; }
  }

  lemma OwnerWithin(code: seq<Line>, t: Tree, i: nat)
    requires LaidOut(code, 0, t, 0) && WellIndented(t) && Covers(t, 0, i) && code[i].Code?
    requires OwnerAt(t, 0, i, "", None).Some?
    ensures var o := OwnerAt(t, 0, i, "", None);
            OwnsAt(code, o, i, code[i].indent) && Within(code, t, 0, None, o.value)
  {
    OwnerIsDef(code, 0, t, 0, i, "", None);
    OwnerStruct(code, 0, t, 0, i, None, "", None);
    var o := OwnerAt(t, 0, i, "", None).value;
    assert o.line < i;
  }

  /** On any well-indented file, nested definitions included, the scan is right about the
      owner of a line exactly when no other `def` left of the line comes in between, and
      between the struct around the owning `def` (or the top of the file) and that `def` no
      `struct` stands left of the `def`, unless the last that does bears the same name. */
  lemma OwnerExactly(code: seq<Line>, t: Tree, i: nat)
    requires LaidOut(code, 0, t, 0) && WellIndented(t) && Covers(t, 0, i) && code[i].Code?
    requires OwnerAt(t, 0, i, "", None).Some?
    ensures var o := OwnerAt(t, 0, i, "", None).value;
            && Covers(t, 0, o.line)
            && (Enclosing(code[..i], code[i].indent) == Some(o) <==>
                && NoDefBetween(code, o.line, i)
                && (forall k: nat | LastBetween(code, From(t, o.line), k, o.line) :: code[k].kind.name == o.struct_))
  {
    OwnerWithin(code, t, i);
    var o := OwnerAt(t, 0, i, "", None).value;
    ScanRight(code, i, o, StructAround(t, 0, o.line, None), From(t, o.line));
  }

  predicate StructsDistinct(code: seq<Line>) {
    forall j, k | 0 <= j < k < |code| && IsStruct(code[j]) && IsStruct(code[k]) :: code[j].kind.name != code[k].kind.name
  }

  /** Where struct names differ, none at all may stand there. */
  lemma OwnerByLines(code: seq<Line>, t: Tree, i: nat)
    requires LaidOut(code, 0, t, 0) && WellIndented(t) && Covers(t, 0, i) && code[i].Code?
    requires OwnerAt(t, 0, i, "", None).Some? && StructsNamed(code) && StructsDistinct(code)
    ensures var o := OwnerAt(t, 0, i, "", None).value;
            && Covers(t, 0, o.line)
            && (Enclosing(code[..i], code[i].indent) == Some(o) <==>
                && NoDefBetween(code, o.line, i)
                && (forall k: nat | From(t, o.line) <= k :: !StructLeft(code, k, o.line)))
  {
    OwnerExactly(code, t, i);
    OwnerWithin(code, t, i);
    var o := OwnerAt(t, 0, i, "", None).value;
    if k: nat :| From(t, o.line) <= k && StructLeft(code, k, o.line) {
      var last := LastLeft(code, From(t, o.line), k, o.line, o.line);
      assert code[last].kind.name != o.struct_;
    }
  }

  lemma {:induction false} LastLeft(code: seq<Line>, lo: nat, k: nat, n: nat, d: nat) returns (last: nat)
    requires lo <= k < n <= d && StructLeft(code, k, d) && forall m: nat | n <= m < d :: !StructLeft(code, m, d)
    ensures LastBetween(code, lo, last, d)
    decreases n
  {
    if StructLeft(code, n - 1, d) { last := n - 1; } else { last := LastLeft(code, lo, k, n - 1, d); }
  }

  /** A struct, then a function with a closure that launches. */
  const CLOSURE: Tree :=
    Compound(Struct("S"), {}, End, 4, Plain(Text(0, {}), End), NoElse,
      Compound(Def("outer"), {}, End, 4,
        Compound(Def("inner"), {}, End, 4, Plain(Text(0, {Launch}), End), NoElse, End), NoElse, End))

  lemma PrintBare(head: Kind, step: nat, body: Tree, rest: Tree, n: nat)
    ensures Print(Compound(head, {}, End, step, body, NoElse, rest), n) ==
            [Code(n, head, {})] + (Print(body, n + step) + Print(rest, n))
  {
    assert Print(End, n) == [] && PrintAlt(NoElse, n) == [];
  }

  lemma PrintOne(hz: set<Hazard>, n: nat)
    ensures Print(Plain(Text(0, hz), End), n) == [Code(n, Other, hz)]
  {
    assert Print(End, n) == [];
  }

  lemma PrintNested(a: Kind, b: Kind, c: Kind, hz: set<Hazard>, inner: Tree, outer: Tree)
    requires inner == Compound(c, {}, End, 4, Plain(Text(0, hz), End), NoElse, End)
    requires outer == Compound(b, {}, End, 4, inner, NoElse, End)
    ensures Print(Compound(a, {}, End, 4, Plain(Text(0, {}), End), NoElse, outer), 0) ==
            [Code(0, a, {}), Code(4, Other, {}), Code(0, b, {}), Code(4, c, {}), Code(8, Other, hz)]
  {
    PrintOne({}, 4);
    PrintOne(hz, 8);
    PrintBare(a, 4, Plain(Text(0, {}), End), outer, 0);
    PrintBare(b, 4, inner, End, 0);
    PrintBare(c, 4, inner.body, End, 4);
  }

  lemma ClosurePrinted()
    ensures Print(CLOSURE, 0) ==
            [Code(0, Struct("S"), {}), Code(4, Other, {}), Code(0, Def("outer"), {}), Code(4, Def("inner"), {}),
             Code(8, Other, {Launch})]
  {
    PrintNested(Struct("S"), Def("outer"), Def("inner"), {Launch}, CLOSURE.rest.body, CLOSURE.rest);
  }

  /** Flatness is needed: here the compiler reaches a launch that no struct owns... */
  lemma ClosureIsReached()
    ensures WellIndented(CLOSURE) && !Flat(CLOSURE, File) && Size(CLOSURE) == 5
    ensures OwnerAt(CLOSURE, 0, 4, "", None) == Some(Owner(3, "inner", "")) && Reached(CLOSURE, 0, true, 4)
  {
    var inner := CLOSURE.rest.body;
    assert Size(inner) == 2 && Size(inner.body) == 1 && Size(CLOSURE.rest) == 3;
    assert WellIndented(inner) && WellIndented(CLOSURE.rest);
    assert Locate(CLOSURE, 0, 4) == In(CLOSURE.rest, 2, 0, InRest);
    assert Locate(CLOSURE.rest, 2, 4) == In(inner, 3, 4, InBody);
    assert Locate(inner, 3, 4) == In(inner.body, 4, 4, InBody);
  }

  lemma NearestPair(code: seq<Line>, name: string, fn: string)
    requires |code| == 5 && code[0] == Code(0, Struct(name), {}) && code[3] == Code(4, Def(fn), {})
    requires !IsStruct(code[1]) && !IsStruct(code[2])
    ensures Enclosing(code[..4], 8) == Some(Owner(3, fn, name))
  {
    EnclosingAt(code, 3, 4, 8);
    StructAt(code, 0, 3, 4);
  }

  /** ... yet its record names the struct above, so R1 leaves it to the baseline. */
  lemma ClosureEscapes()
    ensures var code := Print(CLOSURE, 0);
            |code| == 5 && code[4] == Code(8, Other, {Launch})
            && Enclosing(code[..4], 8) == Some(Owner(3, "inner", "S"))
  {
    ClosurePrinted();
    NearestPair(Print(CLOSURE, 0), "S", "inner");
  }

  // ----- the baseline

  function BaselineKeys(sites: seq<Site>): set<string> {
    set s | s in sites && !s.guarded && !s.moduleLevel :: Key(s)
  }

  /** The lines --write-baseline writes: comments, then the keys in order. */
  function WriteBaseline(header: seq<string>, sites: seq<Site>): seq<string> {
    header + Sorting.Sorted(BaselineKeys(sites))
  }

  predicate IsComment(line: string) {
    Text.StartsWith(Text.LStrip(line), "#")
  }

  function LoadBaseline(lines: seq<string>): set<string> {
    set line | line in lines && Text.Strip(line) != "" && !IsComment(line) :: Text.Strip(line)
  }

  /** Paths the repository has: they neither start with a blank nor with `#`. */
  predicate PlainPath(file: string) {
    file != "" && !Text.IsSpace(file[0]) && file[0] != '#'
  }

  lemma KindTextEnds(hz: set<Hazard>)
    requires hz != {}
    ensures KindText(hz) != "" && !Text.IsSpace(KindText(hz)[|KindText(hz)| - 1])
  {
    var names := Names(hz);
    if names == [] {
      var h :| h in hz;
      match h case Launch => case DevCtx => case Arch =>
    }
    assert forall x | x in names :: x == "launch" || x == "devctx" || x == "arch";
    Text.JoinEnd(names, ",");
    var last := names[|names| - 1];
    assert last in names;
  }

  ghost predicate IsSiteRecord(s: Site) {
    PlainPath(s.file) && exists hz | hz != {} :: s.kind == KindText(hz)
  }

  lemma KeyIsPlain(s: Site)
    requires IsSiteRecord(s)
    ensures Text.Trimmed(Key(s)) && Key(s) != "" && !IsComment(Key(s))
  {
    var hz :| hz != {} && s.kind == KindText(hz);
    KindTextEnds(hz);
    var front := s.file + "::" + (if s.struct_ != "" then s.struct_ + "." else "") + s.fn + "::";
    assert Key(s) == front + s.kind;
    assert Key(s)[0] == s.file[0];
    assert Key(s)[|Key(s)| - 1] == s.kind[|s.kind| - 1];
    Text.StripTrimmed(Key(s));
  }

  predicate IsHeader(header: seq<string>) {
    forall line | line in header :: Text.StartsWith(line, "#")
  }

  lemma HashIsComment(line: string)
    requires Text.StartsWith(line, "#")
    ensures IsComment(line)
  {
    assert line[0] == '#';
  }

  lemma KeysAreRead(header: seq<string>, sites: seq<Site>, k: string)
    requires forall s | s in sites :: IsSiteRecord(s)
    requires k in BaselineKeys(sites)
    ensures k in LoadBaseline(WriteBaseline(header, sites))
  {
    var s :| s in sites && !s.guarded && !s.moduleLevel && k == Key(s);
    KeyIsPlain(s);
    Text.StripTrimmed(k);
    Sorting.SortedElems(BaselineKeys(sites));
    assert k in Sorting.Sorted(BaselineKeys(sites));
    assert k in WriteBaseline(header, sites);
  }

  lemma OnlyKeysAreRead(header: seq<string>, sites: seq<Site>, line: string)
    requires IsHeader(header)
    requires forall s | s in sites :: IsSiteRecord(s)
    requires line in WriteBaseline(header, sites) && !IsComment(line)
    ensures Text.Strip(line) == line && line in BaselineKeys(sites)
  {
    if line in header { HashIsComment(line); }
    Sorting.SortedElems(BaselineKeys(sites));
    var s :| s in sites && !s.guarded && !s.moduleLevel && line == Key(s);
    KeyIsPlain(s);
    Text.StripTrimmed(line);
  }

  /** What --write-baseline writes is read back as the same keys. */
  lemma BaselineRoundTrip(header: seq<string>, sites: seq<Site>)
    requires IsHeader(header)
    requires forall s | s in sites :: IsSiteRecord(s)
    ensures LoadBaseline(WriteBaseline(header, sites)) == BaselineKeys(sites)
  {
    forall k | k in BaselineKeys(sites)
      ensures k in LoadBaseline(WriteBaseline(header, sites))
    {
      KeysAreRead(header, sites, k);
    }
    forall line | line in WriteBaseline(header, sites) && !IsComment(line)
      ensures Text.Strip(line) in BaselineKeys(sites)
    {
      OnlyKeysAreRead(header, sites, line);
    }
  }

  /** So a check straight after a write has nothing to report but R1, whatever the
      baseline was before; and a baseline that passes already holds every key. */
  lemma WriteThenCheck(header: seq<string>, sites: seq<Site>, baseline: set<string>)
    requires IsHeader(header)
    requires forall s | s in sites :: IsSiteRecord(s)
    ensures forall s | s in sites && !s.moduleLevel :: Passes(s, LoadBaseline(WriteBaseline(header, sites)))
    ensures (forall s | s in sites :: Passes(s, baseline)) ==> LoadBaseline(WriteBaseline(header, sites)) <= baseline
  {
    BaselineRoundTrip(header, sites);
  }
}
