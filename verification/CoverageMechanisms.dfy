/** Which mechanisms tools/check_path_coverage.py reads back after it has rewritten its
    baseline, and what a check then reports, whatever the baseline holds: a recorded
    `[MECHANISMS]` turns the names after it into mechanisms without sites. */
module CoverageMechanisms {
  import opened Prelude
  import opened CoverageFile
  import opened CoverageLists
  import Sorting
  import Text

  // ----- a name read as a mechanism

  function Label(y: string): string {
    Text.Strip(Partition(y).0)
  }

  function Symbol(y: string): string {
    Text.Strip(Partition(y).1)
  }

  lemma NameAsLabel(p: Parser, y: string)
    requires PlainEntry(y)
    ensures ParseMechanism(p, y) == Put(p, Label(y), Mechanism(Symbol(y), []))
  {}

  /** Line k makes a mechanism l. */
  predicate Marks(xs: seq<string>, k: nat, start: Option<string>, l: string) {
    k < |xs| && !Bracketed(xs[k]) && SectionAt(xs, k, start) == Some("MECHANISMS") && Label(xs[k]) == l
  }

  /** The last of the first n lines that does. */
  function Latest(xs: seq<string>, n: nat, start: Option<string>, l: string): (k: Option<nat>)
    requires n <= |xs|
    ensures k.Some? ==> k.value < n && Marks(xs, k.value, start, l)
    ensures forall j | (if k.None? then 0 else k.value + 1) <= j < n :: !Marks(xs, j, start, l)
  {
    if n == 0 then None else if Marks(xs, n - 1, start, l) then Some(n - 1) else Latest(xs, n - 1, start, l)
  }

  lemma {:induction false} LabelsRead(p: Parser, xs: seq<string>, n: nat, l: string)
    requires n <= |xs| && forall x | x in xs :: PlainEntry(x)
    ensures var ms, k := ParseLines(p, xs[..n]).base.mechanisms, Latest(xs, n, p.section, l);
            && (l in ms <==> k.Some? || l in p.base.mechanisms)
            && (l in ms ==> ms[l] == if k.Some? then Mechanism(Symbol(xs[k.value]), []) else p.base.mechanisms[l])
    decreases n
  {
    if n > 0 {
      var x := xs[n - 1];
      assert xs[..n] == xs[..n - 1] + [x];
      ParseSnoc(p, xs[..n - 1], x);
      LabelsRead(p, xs, n - 1, l);
      EntriesRead(p, xs, n - 1, x);
      assert x in xs;
      var q := ParseLines(p, xs[..n - 1]);
      EntryRead(q, x);
      NameAsLabel(q, x);
    }
  }

  // ----- in terms of the recorded names

  /** Rewriting makes the name y of the list s a mechanism l. */
  predicate Turns(s: set<string>, y: string, l: string) {
    y in s && !Bracketed(y) && Governs(s, Header("MECHANISMS"), y) && Label(y) == l
  }

  /** The last name that becomes l. */
  ghost predicate TurnsLast(s: set<string>, y: string, l: string) {
    Turns(s, y, l) && forall z | Turns(s, z, l) :: Sorting.Le(z, y)
  }

  lemma MarksTurns(s: set<string>, k: nat, own: string, l: string)
    requires k < |Sorting.Sorted(s)| && own != "MECHANISMS"
    ensures Marks(Sorting.Sorted(s), k, Some(own), l) <==> Turns(s, Sorting.Sorted(s)[k], l)
  {
    Sorting.SortedElems(s);
    assert Sorting.Sorted(s)[k] in Sorting.Sorted(s);
    SectionRules(s, k, own, "MECHANISMS");
  }

  lemma LatestTurns(s: set<string>, own: string, l: string)
    requires own != "MECHANISMS"
    ensures var xs := Sorting.Sorted(s);
            match Latest(xs, |xs|, Some(own), l)
            case None => forall y :: !Turns(s, y, l)
            case Some(k) => TurnsLast(s, xs[k], l)
  {
    var xs := Sorting.Sorted(s);
    var last := Latest(xs, |xs|, Some(own), l);
    Sorting.SortedElems(s);
    if last.Some? { MarksTurns(s, last.value, own, l); }
    forall y | Turns(s, y, l)
      ensures last.Some? && Sorting.Le(y, xs[last.value])
    {
      assert y in xs;
      var k: nat :| k < |xs| && xs[k] == y;
      MarksTurns(s, k, own, l);
      if k < last.value { Sorting.SortedOrder(s, k, last.value); } else { Sorting.LeTotal(y, y); }
    }
  }

  /** One list read: the labels its names turn into replace what was there. */
  lemma ListRead(p: Parser, s: set<string>, own: string, l: string)
    requires p.section == Some(own) && own != "MECHANISMS" && forall x | x in s :: PlainEntry(x)
    ensures var ms := ParseLines(p, Sorting.Sorted(s)).base.mechanisms;
            && (l in ms <==> (exists y :: Turns(s, y, l)) || l in p.base.mechanisms)
            && (forall y | TurnsLast(s, y, l) :: l in ms && ms[l] == Mechanism(Symbol(y), []))
            && (l in ms && (forall y :: !Turns(s, y, l)) ==> ms[l] == p.base.mechanisms[l])
  {
    var xs := Sorting.Sorted(s);
    Sorting.SortedElems(s);
    assert xs[..|xs|] == xs;
    LabelsRead(p, xs, |xs|, l);
    LatestTurns(s, own, l);
    var last := Latest(xs, |xs|, Some(own), l);
    if last.Some? {
      assert Turns(s, xs[last.value], l);
      forall y | TurnsLast(s, y, l)
        ensures y == xs[last.value]
      {
        Sorting.LeTotal(y, xs[last.value]);
      }
    }
  }

  /** Rewriting makes y the mechanism l: of several names the last one stays, and those
      that were not bodies come after those that were. */
  ghost predicate Made(b: Baseline, y: string, l: string) {
    TurnsLast(b.notbodies, y, l) || (TurnsLast(b.bodies, y, l) && forall z :: !Turns(b.notbodies, z, l))
  }

  /** Some name becomes l. */
  ghost predicate Arises(b: Baseline, l: string) {
    exists y :: Turns(b.bodies, y, l) || Turns(b.notbodies, y, l)
  }

  /** The parser when the second list begins. */
  function Between(b: Baseline): Parser {
    ParseLines(START.(section := Some("BODIES")), Sorting.Sorted(b.bodies)).(section := Some("NOTBODIES"))
  }

  lemma TwoLists(b: Baseline)
    ensures ParseLines(START, Names(b)).base == ParseLines(Between(b), Sorting.Sorted(b.notbodies)).base
  {
    var bodies, notbodies := Sorting.Sorted(b.bodies), Sorting.Sorted(b.notbodies);
    var first, second := ["", Header("BODIES")] + bodies, ["", Header("NOTBODIES")] + notbodies;
    ParseAppend(START, first + second, ["", Header("MECHANISMS")]);
    ParseAppend(START, first, second);
    HeaderRead(START, "BODIES", bodies);
    HeaderRead(ParseLines(START, first), "NOTBODIES", notbodies);
    MechanismsSection(ParseLines(START, first + second));
  }

  lemma NamesMake(b: Baseline, l: string)
    requires Tidy(b)
    ensures var ms := ParseLines(START, Names(b)).base.mechanisms;
            && (l in ms <==> Arises(b, l))
            && (forall y | Made(b, y, l) :: l in ms && ms[l] == Mechanism(Symbol(y), []))
            && (l in ms ==> exists y :: Made(b, y, l))
  {
    TwoLists(b);
    ListRead(START.(section := Some("BODIES")), b.bodies, "BODIES", l);
    ListRead(Between(b), b.notbodies, "NOTBODIES", l);
    SomeLast(b.bodies, l);
    SomeLast(b.notbodies, l);
    if exists z :: Turns(b.notbodies, z, l) {
      var y :| TurnsLast(b.notbodies, y, l);
      assert Made(b, y, l);
    } else if exists z :: Turns(b.bodies, z, l) {
      var y :| TurnsLast(b.bodies, y, l);
      assert Made(b, y, l);
    }
  }

  lemma SomeLast(s: set<string>, l: string)
    ensures (exists y :: Turns(s, y, l)) ==> exists y :: TurnsLast(s, y, l)
  {
    LatestTurns(s, "BODIES", l);
  }

  // ----- the recorded labels

  predicate BracketedLabel(b: Baseline, l: string) {
    l in b.mechanisms && Bracketed(LabelLine(l, b.mechanisms[l].symbol))
  }

  /** A recorded label stays: no line in brackets comes before it, nor is it one. */
  predicate Stays(b: Baseline, l: string) {
    l in b.mechanisms && forall g | g in b.mechanisms && BracketedLabel(b, g) :: !Sorting.Le(g, l)
  }

  lemma {:induction false} KeptAt(b: Baseline, labels: seq<string>, refs: Refs, l: string)
    requires forall x | x in labels :: x in b.mechanisms
    requires forall i, j | 0 <= i < j < |labels| :: labels[i] != labels[j]
    ensures var kept := Kept(b.mechanisms, labels, refs);
            && (l in kept <==> exists k: nat :: k < |labels| && labels[k] == l && forall j | 0 <= j <= k :: !BracketedLabel(b, labels[j]))
            && (l in kept ==> kept[l] == Back(l, b.mechanisms[l].symbol, refs))
    decreases |labels|
  {
    if labels != [] {
      var rest := labels[1..];
      KeptAt(b, rest, refs, l);
      if !BracketedLabel(b, labels[0]) {
        if k: nat :| k < |rest| && rest[k] == l && forall j | 0 <= j <= k :: !BracketedLabel(b, rest[j]) {
          assert labels[k + 1] == l && forall j | 0 < j <= k + 1 :: labels[j] == rest[j - 1];
        }
        if k: nat :| 0 < k < |labels| && labels[k] == l && forall j | 0 <= j <= k :: !BracketedLabel(b, labels[j]) {
          assert rest[k - 1] == l && forall j | 0 <= j <= k - 1 :: rest[j] == labels[j + 1];
        }
      }
    }
  }

  lemma KeptStays(b: Baseline, refs: Refs, l: string)
    ensures var kept := Kept(b.mechanisms, Labels(b), refs);
            (l in kept <==> Stays(b, l)) && (l in kept ==> kept[l] == Back(l, b.mechanisms[l].symbol, refs))
  {
    var labels := Labels(b);
    Sorting.SortedElems(b.mechanisms.Keys);
    forall i, j | 0 <= i < j < |labels|
      ensures labels[i] != labels[j] && Sorting.Le(labels[i], labels[j])
    {
      Sorting.SortedOrder(b.mechanisms.Keys, i, j);
    }
    KeptAt(b, labels, refs, l);
    if l in b.mechanisms {
      assert l in labels;
      var k: nat :| k < |labels| && labels[k] == l;
      BeforeLabel(b, labels, k);
    }
  }

  lemma BeforeLabel(b: Baseline, labels: seq<string>, k: nat)
    requires k < |labels| && forall x :: x in labels <==> x in b.mechanisms
    requires forall i, j | 0 <= i < j < |labels| :: labels[i] != labels[j] && Sorting.Le(labels[i], labels[j])
    ensures Stays(b, labels[k]) <==> forall j | 0 <= j <= k :: !BracketedLabel(b, labels[j])
  {
    Sorting.LeTotal(labels[k], labels[k]);
    if !Stays(b, labels[k]) {
      assert labels[k] in labels;
      var g :| g in b.mechanisms && BracketedLabel(b, g) && Sorting.Le(g, labels[k]);
      var i: nat :| i < |labels| && labels[i] == g;
      Sorting.LeTotal(g, labels[k]);
    }
    forall j | 0 <= j <= k
      ensures Stays(b, labels[k]) ==> !BracketedLabel(b, labels[j])
    {
      assert labels[j] in labels && Sorting.Le(labels[j], labels[k]);
    }
  }

  /** The mechanisms after a write, label by label, for every baseline: a recorded label
      that stays has its sites recomputed; any other comes from a name, without sites. */
  lemma MechanismsExactly(header: seq<string>, b: Baseline, refs: Refs, l: string)
    requires Comments(header) && Tidy(b) && PlainSites(b, refs)
    ensures var ms := Parse(Print(header, b, refs)).mechanisms;
            && (l in ms <==> Stays(b, l) || Arises(b, l))
            && (Stays(b, l) ==> ms[l] == Back(l, b.mechanisms[l].symbol, refs))
            && (forall y | Made(b, y, l) && !Stays(b, l) :: l in ms && ms[l] == Mechanism(Symbol(y), []))
            && (l in ms && !Stays(b, l) ==> exists y :: Made(b, y, l))
  {
    PrintedRead(header, b, refs);
    NamesMake(b, l);
    KeptStays(b, refs, l);
  }

  /** A write adds no label exactly when every name that a recorded `[MECHANISMS]` governs
      has the label of a mechanism. */
  lemma NoLabelAddedExactly(header: seq<string>, b: Baseline, refs: Refs)
    requires Comments(header) && Tidy(b) && PlainSites(b, refs)
    ensures Parse(Print(header, b, refs)).mechanisms.Keys <= b.mechanisms.Keys <==>
            forall l | Arises(b, l) :: l in b.mechanisms
  {
    var ms := Parse(Print(header, b, refs)).mechanisms;
    forall l
      ensures l in ms <==> Stays(b, l) || Arises(b, l)
    {
      MechanismsExactly(header, b, refs, l);
    }
  }

  /** ... and loses none exactly when those in brackets, and those after them, come from a
      name. */
  lemma NoLabelLostExactly(header: seq<string>, b: Baseline, refs: Refs)
    requires Comments(header) && Tidy(b) && PlainSites(b, refs)
    ensures b.mechanisms.Keys <= Parse(Print(header, b, refs)).mechanisms.Keys <==>
            forall l | l in b.mechanisms && !Stays(b, l) :: Arises(b, l)
  {
    var ms := Parse(Print(header, b, refs)).mechanisms;
    forall l
      ensures l in ms <==> Stays(b, l) || Arises(b, l)
    {
      MechanismsExactly(header, b, refs, l);
    }
  }

  lemma OnlyGovernor(x: string)
    requires !Bracketed(x) && Precedes(Header("MECHANISMS"), x)
    ensures var h := Header("MECHANISMS"); Governs({h, x}, h, x) && !Ruled({h, x}, x, "BODIES", "BODIES")
  {
    var h := Header("MECHANISMS");
    HeaderIs(h, "MECHANISMS");
    HeaderIs(Header("BODIES"), "BODIES");
    Sorting.LeTotal(h, h);
    assert Header("BODIES")[1] != h[1];
  }

  /** It does happen: a body after a recorded `[MECHANISMS]` comes back as a mechanism. */
  lemma BodyBecomesMechanism(header: seq<string>, b: Baseline, refs: Refs, x: string)
    requires Comments(header) && Tidy(b) && PlainSites(b, refs)
    requires b.bodies == {Header("MECHANISMS"), x} && b.notbodies == {} && !Bracketed(x) && Precedes(Header("MECHANISMS"), x)
    ensures var c := Parse(Print(header, b, refs)); x !in c.bodies && Label(x) in c.mechanisms
  {
    OnlyGovernor(x);
    assert Turns(b.bodies, x, Label(x));
    ListsExactly(header, b, refs, x);
    MechanismsExactly(header, b, refs, Label(x));
  }

  // ----- the check after a write

  /** Mechanism l comes back without the sites of its symbol: it has no label, or was a
      name. */
  ghost predicate Stripped(b: Baseline, l: string, symbol: string) {
    if Stays(b, l) then l == "" && symbol == b.mechanisms[l].symbol
    else exists y :: Made(b, y, l) && symbol == Symbol(y)
  }

  /** What the check reports straight after a write that was not refused, the sources being
      what they were, for every baseline. */
  ghost predicate ReportedAfter(b: Baseline, found: set<string>, refs: Refs, x: Failure) {
    match x
    case Unclassified(name) => name in found && !GoesTo(b, name, "BODIES") && !GoesTo(b, name, "NOTBODIES")
    case Vanished(name) => GoesTo(b, name, "BODIES") && name !in found
    case ReachChanged(l, gained, lost) =>
      lost == [] && exists symbol :: Stripped(b, l, symbol) && refs(symbol) != {} && gained == Sorting.Sorted(refs(symbol))
  }

  lemma BareReported(m: Mechanism, refs: Refs, gained: seq<string>, lost: seq<string>)
    requires m.sites == []
    ensures var was, now := Elems(m.sites), refs(m.symbol);
            was != now && gained == Sorting.Sorted(now - was) && lost == Sorting.Sorted(was - now) <==>
            now != {} && gained == Sorting.Sorted(now) && lost == []
  {
    var now := refs(m.symbol);
    assert Elems(m.sites) == {} && now - {} == now && {} - now == {};
  }

  lemma ReachAfter(header: seq<string>, b: Baseline, found: set<string>, refs: Refs, x: Failure)
    requires Comments(header) && Tidy(b) && PlainSites(b, refs) && x.ReachChanged?
    ensures Reported(Parse(Print(header, b, refs)), found, refs, x) <==> ReportedAfter(b, found, refs, x)
  {
    var l, ms := x.name, Parse(Print(header, b, refs)).mechanisms;
    MechanismsExactly(header, b, refs, l);
    if Stays(b, l) {
      BackReported(b, refs, ms[l], x, x.gained, x.lost);
      assert l == "" ==> Stripped(b, l, b.mechanisms[l].symbol);
    } else if l in ms {
      var y :| Made(b, y, l);
      BareReported(ms[l], refs, x.gained, x.lost);
      assert Stripped(b, l, Symbol(y));
    }
  }

  lemma CheckAfterAnyWrite(header: seq<string>, file: Option<string>, found: set<string>, refs: Refs, x: Failure)
    requires Comments(header) && PlainSites(Read(file), refs) && !Refused(Read(file), found)
    ensures Reported(Read(Written(header, file, found, refs)), found, refs, x) <==> ReportedAfter(Read(file), found, refs, x)
  {
    var b := Read(file);
    ReadIsTidy(file);
    if x.ReachChanged? { ReachAfter(header, b, found, refs, x); } else { ListsExactly(header, b, refs, x.name); }
  }

  /** Only bodies that are gone fail it exactly when every found name keeps a list and no
      mechanism has lost its sites. */
  lemma OnlyVanishedExactly(header: seq<string>, file: Option<string>, found: set<string>, refs: Refs)
    requires Comments(header) && PlainSites(Read(file), refs) && !Refused(Read(file), found)
    ensures var b, after := Read(file), Read(Written(header, file, found, refs));
            (forall x | Reported(after, found, refs, x) :: x.Vanished?) <==>
            && (forall y | y in found :: GoesTo(b, y, "BODIES") || GoesTo(b, y, "NOTBODIES"))
            && (forall l, symbol | Stripped(b, l, symbol) :: refs(symbol) == {})
  {
    var b, after := Read(file), Read(Written(header, file, found, refs));
    forall x
      ensures Reported(after, found, refs, x) <==> ReportedAfter(b, found, refs, x)
    {
      CheckAfterAnyWrite(header, file, found, refs, x);
    }
    forall y | y in found && !GoesTo(b, y, "BODIES") && !GoesTo(b, y, "NOTBODIES")
      ensures ReportedAfter(b, found, refs, Unclassified(y))
    {}
    forall l, symbol | Stripped(b, l, symbol) && refs(symbol) != {}
      ensures ReportedAfter(b, found, refs, ReachChanged(l, Sorting.Sorted(refs(symbol)), []))
    {}
  }

  // ----- a second write

  /** How many lines are in brackets. */
  function Headers(lines: seq<string>): nat {
    if lines == [] then 0 else (if Bracketed(lines[0]) then 1 else 0) + Headers(lines[1..])
  }

  lemma {:induction false} HeadersAppend(a: seq<string>, b: seq<string>)
    ensures Headers(a + b) == Headers(a) + Headers(b)
  {
    if a == [] {
      assert a + b == b;
    } else {
      assert (a + b)[1..] == a[1..] + b;
      HeadersAppend(a[1..], b);
    }
  }

  lemma {:induction false} NoHeader(lines: seq<string>)
    ensures Headers(lines) == 0 <==> forall l | l in lines :: !Bracketed(l)
  {
    if lines != [] { NoHeader(lines[1..]); }
  }

  lemma {:induction false} HeadersStay(s: string)
    ensures Headers(Text.Split(RStripNewlines(s) + "\n", '\n')) == Headers(Text.Split(s, '\n'))
  {
    var t := if s != "" && s[|s| - 1] == '\n' then s[..|s| - 1] else s;
    SplitSnoc(t, '\n');
    HeadersAppend(Text.Split(t, '\n'), [""]);
    if t != s {
      assert s == t + ['\n'];
      HeadersStay(t);
    }
  }

  lemma LineHeaders(line: string)
    ensures Headers([line]) == if Bracketed(line) then 1 else 0
  {
    assert [line][1..] == [];
  }

  lemma {:induction false} MechanismHeaders(b: Baseline, labels: seq<string>, refs: Refs)
    requires forall l | l in labels :: l in b.mechanisms
    ensures Headers(MechanismLines(b.mechanisms, labels, refs)) == 0 <==> forall l | l in labels :: !BracketedLabel(b, l)
    decreases |labels|
  {
    if labels != [] {
      var symbol := b.mechanisms[labels[0]].symbol;
      var sites := SiteLines(Sorting.Sorted(refs(symbol)));
      SiteLinesIndented(Sorting.Sorted(refs(symbol)));
      NoHeader(sites);
      LineHeaders(LabelLine(labels[0], symbol));
      LineHeaders("");
      HeadersAppend([LabelLine(labels[0], symbol)], sites);
      HeadersAppend([LabelLine(labels[0], symbol)] + sites, [""]);
      HeadersAppend(Block(labels[0], symbol, refs), MechanismLines(b.mechanisms, labels[1..], refs));
      MechanismHeaders(b, labels[1..], refs);
      assert MechanismLines(b.mechanisms, labels, refs) ==
             Block(labels[0], symbol, refs) + MechanismLines(b.mechanisms, labels[1..], refs);
      assert BracketedLabel(b, labels[0]) <==> Bracketed(LabelLine(labels[0], symbol));
    }
  }

  lemma NameHeaders(b: Baseline)
    ensures Headers(Names(b)) == 3 + Headers(Sorting.Sorted(b.bodies)) + Headers(Sorting.Sorted(b.notbodies))
  {
    var bodies, notbodies := Sorting.Sorted(b.bodies), Sorting.Sorted(b.notbodies);
    var first, second := ["", Header("BODIES")] + bodies, ["", Header("NOTBODIES")] + notbodies;
    HeadersAppend(["", Header("BODIES")], bodies);
    HeadersAppend(["", Header("NOTBODIES")], notbodies);
    HeadersAppend(first, second);
    HeadersAppend(first + second, ["", Header("MECHANISMS")]);
    OneHeader("BODIES");
    OneHeader("NOTBODIES");
    OneHeader("MECHANISMS");
  }

  lemma OneHeader(name: string)
    ensures Headers(["", Header(name)]) == 1
  {
    HeaderIs("", name);
    assert ["", Header(name)][1..] == [Header(name)];
    LineHeaders(Header(name));
  }

  /** A written file has three lines in brackets exactly when no name and no mechanism line
      is in brackets. */
  lemma ThreeHeaders(header: seq<string>, b: Baseline, refs: Refs)
    requires Comments(header) && Tidy(b) && PlainSites(b, refs)
    ensures Headers(Text.Split(Print(header, b, refs), '\n')) == 3 <==> Unbracketed(b)
  {
    var lines, mechanisms := Lines(header, b, refs), MechanismLines(b.mechanisms, Labels(b), refs);
    MechanismLinesPlain(b, Labels(b), refs);
    NamesTrimmed(b);
    HeadersStay(Text.Join(lines, "\n"));
    Text.SplitJoin(lines, '\n');
    HeadersAppend(header + Names(b), mechanisms);
    HeadersAppend(header, Names(b));
    NoHeader(header);
    NameHeaders(b);
    NoHeader(Sorting.Sorted(b.bodies));
    NoHeader(Sorting.Sorted(b.notbodies));
    MechanismHeaders(b, Labels(b), refs);
    Sorting.SortedElems(b.bodies);
    Sorting.SortedElems(b.notbodies);
    Sorting.SortedElems(b.mechanisms.Keys);
  }

  /** A name that is not in brackets makes no mechanism line that is. */
  lemma LabelLineOpen(y: string)
    requires PlainEntry(y) && !Bracketed(y)
    ensures !Bracketed(LabelLine(Label(y), Symbol(y)))
  {
    var (a, c) := Partition(y);
    var line := LabelLine(Label(y), Symbol(y));
    PartitionKeeps(y);
    Text.RStripHead(Text.LStrip(a));
    Text.LStripTail(c);
    assert line[0] == if Label(y) != "" then y[0] else ' ';
    assert line[|line| - 1] == if Symbol(y) != "" then y[|y| - 1] else ' ';
  }

  /** What is read back has no line in brackets. */
  lemma ReadUnbracketed(header: seq<string>, b: Baseline, refs: Refs)
    requires Comments(header) && Tidy(b) && PlainSites(b, refs)
    ensures Unbracketed(Parse(Print(header, b, refs)))
  {
    var c := Parse(Print(header, b, refs));
    forall y | y in Both(c)
      ensures !Bracketed(y)
    {
      ListsExactly(header, b, refs, y);
    }
    forall l | l in c.mechanisms
      ensures !Bracketed(LabelLine(l, c.mechanisms[l].symbol))
    {
      MechanismsExactly(header, b, refs, l);
      if Stays(b, l) {
        Sorting.LeTotal(l, l);
        assert !BracketedLabel(b, l);
      } else {
        var y :| Made(b, y, l);
        LabelLineOpen(y);
      }
    }
  }

  /** A second write, over the same sources, leaves the file as it is exactly when one of
      the two is refused or nothing was in brackets. */
  lemma WriteTwiceExactly(header: seq<string>, file: Option<string>, found: set<string>, refs: Refs)
    requires Comments(header) && forall symbol, x | x in refs(symbol) :: PlainEntry(x)
    ensures var once := Written(header, file, found, refs);
            Written(header, once, found, refs) == once <==>
            Refused(Read(file), found) || Refused(Read(once), found) || Unbracketed(Read(file))
  {
    var b, once := Read(file), Written(header, file, found, refs);
    ReadIsTidy(file);
    ReadIsTidy(once);
    if !Refused(b, found) && !Refused(Read(once), found) {
      if Unbracketed(b) {
        WriteTwice(header, file, found, refs);
      } else {
        ReadUnbracketed(header, b, refs);
        ThreeHeaders(header, b, refs);
        ThreeHeaders(header, Read(once), refs);
      }
    }
  }
}
