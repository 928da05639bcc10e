/** Which of the two lists a name is in after tools/check_path_coverage.py has rewritten
    its baseline: a recorded name in brackets reads as a section header. */
module CoverageLists {
  import opened Prelude
  import opened CoverageFile
  import Sorting
  import Text

  // ----- reading sorted names

  function Inner(header: string): string
    requires Bracketed(header)
  {
    header[1..|header| - 1]
  }

  /** The last line in brackets among the first n. */
  function LastHeader(xs: seq<string>, n: nat): (m: Option<nat>)
    requires n <= |xs|
    ensures m.Some? ==> m.value < n && Bracketed(xs[m.value])
    ensures forall k | (if m.None? then 0 else m.value + 1) <= k < n :: !Bracketed(xs[k])
  {
    if n == 0 then None else if Bracketed(xs[n - 1]) then Some(n - 1) else LastHeader(xs, n - 1)
  }

  /** The section line n is read in. */
  function SectionAt(xs: seq<string>, n: nat, start: Option<string>): Option<string>
    requires n <= |xs|
  {
    match LastHeader(xs, n)
    case None => start
    case Some(m) => Some(Inner(xs[m]))
  }

  /** y is one of the first n lines and read in the section `list`. */
  predicate Lands(xs: seq<string>, n: nat, start: Option<string>, list: string, y: string)
    requires n <= |xs|
  {
    n > 0
    && (Lands(xs, n - 1, start, list, y)
        || (xs[n - 1] == y && !Bracketed(y) && SectionAt(xs, n - 1, start) == Some(list)))
  }

  lemma EntryRead(p: Parser, x: string)
    requires PlainEntry(x)
    ensures ParseLine(p, x) ==
            if Bracketed(x) then p.(section := Some(Inner(x)))
            else if p.section == Some("BODIES") then p.(base := p.base.(bodies := p.base.bodies + {x}))
            else if p.section == Some("NOTBODIES") then p.(base := p.base.(notbodies := p.base.notbodies + {x}))
            else if p.section == Some("MECHANISMS") then ParseMechanism(p, x)
            else p
  {
    Text.StripTrimmed(x);
  }

  lemma {:induction false} EntriesRead(p: Parser, xs: seq<string>, n: nat, y: string)
    requires n <= |xs| && forall x | x in xs :: PlainEntry(x)
    ensures var q := ParseLines(p, xs[..n]);
            && q.section == SectionAt(xs, n, p.section)
            && (y in q.base.bodies <==> y in p.base.bodies || Lands(xs, n, p.section, "BODIES", y))
            && (y in q.base.notbodies <==> y in p.base.notbodies || Lands(xs, n, p.section, "NOTBODIES", y))
    decreases n
  {
    if n > 0 {
      assert xs[..n] == xs[..n - 1] + [xs[n - 1]];
      ParseSnoc(p, xs[..n - 1], xs[n - 1]);
      EntriesRead(p, xs, n - 1, y);
      assert xs[n - 1] in xs;
      EntryRead(ParseLines(p, xs[..n - 1]), xs[n - 1]);
    }
  }

  // ----- in terms of the recorded names

  predicate Precedes(h: string, y: string) {
    h != y && Sorting.Le(h, y)
  }

  /** The last name in brackets before y. */
  predicate Governs(s: set<string>, h: string, y: string) {
    && h in s && Bracketed(h) && Precedes(h, y)
    && forall g | g in s && Bracketed(g) && Precedes(g, y) :: Sorting.Le(g, h)
  }

  predicate Ungoverned(s: set<string>, y: string) {
    forall g | g in s && Bracketed(g) :: !Precedes(g, y)
  }

  /** A name of the list `own` reads as one of `list`. */
  predicate Ruled(s: set<string>, y: string, own: string, list: string) {
    if Ungoverned(s, y) then own == list else Governs(s, Header(list), y)
  }

  lemma HeaderIs(h: string, name: string)
    ensures Bracketed(Header(name)) && Inner(Header(name)) == name
    ensures Bracketed(h) && Inner(h) == name ==> h == Header(name)
  {
    assert Header(name)[1..|Header(name)| - 1] == name;
    if Bracketed(h) && Inner(h) == name { assert h == [h[0]] + h[1..|h| - 1] + [h[|h| - 1]]; }
  }

  /** What precedes the k-th name stands before it in sorted order. */
  lemma PrecedesIndex(s: set<string>, xs: seq<string>, k: nat, g: string) returns (i: nat)
    requires xs == Sorting.Sorted(s) && k < |xs| && g in s && Precedes(g, xs[k])
    ensures i < k && xs[i] == g
  {
    Sorting.SortedElems(s);
    assert g in xs;
    i :| 0 <= i < |xs| && xs[i] == g;
    if k < i {
      Sorting.SortedOrder(s, k, i);
      Sorting.LeTotal(xs[k], g);
    }
  }

  lemma AtMostLast(s: set<string>, xs: seq<string>, k: nat, g: string)
    requires xs == Sorting.Sorted(s) && k < |xs| && g in s && Bracketed(g) && Precedes(g, xs[k])
    ensures LastHeader(xs, k).Some? && Sorting.Le(g, xs[LastHeader(xs, k).value])
  {
    var i := PrecedesIndex(s, xs, k, g);
    var last := LastHeader(xs, k);
    assert last.Some? && i <= last.value;
    if i < last.value { Sorting.SortedOrder(s, i, last.value); } else { Sorting.LeTotal(g, g); }
  }

  lemma LastPrecedes(s: set<string>, xs: seq<string>, k: nat)
    requires xs == Sorting.Sorted(s) && k < |xs| && LastHeader(xs, k).Some?
    ensures var h := xs[LastHeader(xs, k).value]; h in s && Bracketed(h) && Precedes(h, xs[k])
  {
    var m := LastHeader(xs, k).value;
    Sorting.SortedElems(s);
    Sorting.SortedOrder(s, m, k);
    assert xs[m] in xs;
  }

  lemma LastGoverns(s: set<string>, xs: seq<string>, k: nat)
    requires xs == Sorting.Sorted(s) && k < |xs|
    ensures match LastHeader(xs, k) case None => Ungoverned(s, xs[k]) case Some(m) => Governs(s, xs[m], xs[k])
  {
    if LastHeader(xs, k).Some? { LastPrecedes(s, xs, k); }
    forall g | g in s && Bracketed(g) && Precedes(g, xs[k])
      ensures LastHeader(xs, k).Some? && Sorting.Le(g, xs[LastHeader(xs, k).value])
    {
      AtMostLast(s, xs, k, g);
    }
  }

  lemma SectionRules(s: set<string>, k: nat, own: string, list: string)
    requires k < |Sorting.Sorted(s)|
    ensures SectionAt(Sorting.Sorted(s), k, Some(own)) == Some(list) <==> Ruled(s, Sorting.Sorted(s)[k], own, list)
  {
    var xs := Sorting.Sorted(s);
    LastGoverns(s, xs, k);
    var last := LastHeader(xs, k);
    if last.Some? {
      var h := xs[last.value];
      HeaderIs(h, list);
      assert !Ungoverned(s, xs[k]);
      if Governs(s, Header(list), xs[k]) { Sorting.LeTotal(h, Header(list)); }
    }
  }

  lemma {:induction false} LandsRuled(s: set<string>, n: nat, own: string, list: string, y: string)
    requires n <= |Sorting.Sorted(s)|
    ensures Lands(Sorting.Sorted(s), n, Some(own), list, y) <==>
            y in Sorting.Sorted(s)[..n] && !Bracketed(y) && Ruled(s, y, own, list)
    decreases n
  {
    if n > 0 {
      var xs := Sorting.Sorted(s);
      assert xs[..n] == xs[..n - 1] + [xs[n - 1]];
      LandsRuled(s, n - 1, own, list, y);
      SectionRules(s, n - 1, own, list);
    }
  }

  lemma SortedRead(p: Parser, s: set<string>, own: string, y: string)
    requires p.section == Some(own) && forall x | x in s :: PlainEntry(x)
    ensures var q := ParseLines(p, Sorting.Sorted(s)).base;
            && (y in q.bodies <==> y in p.base.bodies || (y in s && !Bracketed(y) && Ruled(s, y, own, "BODIES")))
            && (y in q.notbodies <==> y in p.base.notbodies || (y in s && !Bracketed(y) && Ruled(s, y, own, "NOTBODIES")))
  {
    var xs := Sorting.Sorted(s);
    Sorting.SortedElems(s);
    assert xs[..|xs|] == xs;
    EntriesRead(p, xs, |xs|, y);
    LandsRuled(s, |xs|, own, "BODIES", y);
    LandsRuled(s, |xs|, own, "NOTBODIES", y);
  }

  // ----- where a name goes

  /** Rewriting puts y in the list `list`. */
  predicate GoesTo(b: Baseline, y: string, list: string) {
    && !Bracketed(y)
    && ((y in b.bodies && Ruled(b.bodies, y, "BODIES", list)) || (y in b.notbodies && Ruled(b.notbodies, y, "NOTBODIES", list)))
  }

  lemma BothSectionsRead(b: Baseline, y: string)
    requires Tidy(b)
    ensures var c := ParseLines(START, Names(b)).base;
            (y in c.bodies <==> GoesTo(b, y, "BODIES")) && (y in c.notbodies <==> GoesTo(b, y, "NOTBODIES"))
  {
    var bodies, notbodies := Sorting.Sorted(b.bodies), Sorting.Sorted(b.notbodies);
    var first, second := ["", Header("BODIES")] + bodies, ["", Header("NOTBODIES")] + notbodies;
    ParseAppend(START, first + second, ["", Header("MECHANISMS")]);
    ParseAppend(START, first, second);
    var p, q := START.(section := Some("BODIES")), ParseLines(START, first);
    HeaderRead(START, "BODIES", bodies);
    HeaderRead(q, "NOTBODIES", notbodies);
    MechanismsSection(ParseLines(START, first + second));
    SortedRead(p, b.bodies, "BODIES", y);
    SortedRead(q.(section := Some("NOTBODIES")), b.notbodies, "NOTBODIES", y);
  }

  /** The two lists after a write, name by name, for every baseline. */
  lemma ListsExactly(header: seq<string>, b: Baseline, refs: Refs, y: string)
    requires Comments(header) && Tidy(b) && PlainSites(b, refs)
    ensures var c := Parse(Print(header, b, refs));
            (y in c.bodies <==> GoesTo(b, y, "BODIES")) && (y in c.notbodies <==> GoesTo(b, y, "NOTBODIES"))
  {
    PrintedRead(header, b, refs);
    BothSectionsRead(b, y);
  }

  /** A name changes lists: the other section's header is recorded among its own list, and
      is the last name in brackets before it. */
  predicate Moves(b: Baseline, y: string) {
    && !Bracketed(y)
    && ((y in b.bodies && y !in b.notbodies && Governs(b.bodies, Header("NOTBODIES"), y))
        || (y in b.notbodies && y !in b.bodies && Governs(b.notbodies, Header("BODIES"), y)))
  }

  /** A write adds a name to a list exactly when some name moves. */
  lemma NothingAddedExactly(header: seq<string>, b: Baseline, refs: Refs)
    requires Comments(header) && Tidy(b) && PlainSites(b, refs)
    ensures var c := Parse(Print(header, b, refs));
            c.bodies <= b.bodies && c.notbodies <= b.notbodies <==> forall y :: !Moves(b, y)
  {
    var c := Parse(Print(header, b, refs));
    forall y
      ensures Moves(b, y) <==> (y in c.bodies && y !in b.bodies) || (y in c.notbodies && y !in b.notbodies)
    {
      ListsExactly(header, b, refs, y);
    }
  }

  /** It does happen: a body after a recorded `[NOTBODIES]` becomes no body. */
  lemma BodyBecomesNotbody(header: seq<string>, b: Baseline, refs: Refs, x: string)
    requires Comments(header) && Tidy(b) && PlainSites(b, refs)
    requires b.bodies == {Header("NOTBODIES"), x} && b.notbodies == {} && !Bracketed(x) && Precedes(Header("NOTBODIES"), x)
    ensures var c := Parse(Print(header, b, refs)); x !in c.bodies && x in c.notbodies
  {
    var h := Header("NOTBODIES");
    HeaderIs(h, "NOTBODIES");
    HeaderIs(Header("BODIES"), "BODIES");
    Sorting.LeTotal(h, h);
    assert Governs(b.bodies, h, x);
    assert Header("BODIES")[1] != h[1];
    ListsExactly(header, b, refs, x);
  }

  /** ... and a file can say so: a header line that starts with a blank is a name. */
  lemma PaddedHeaderIsAName(x: string)
    requires PlainEntry(x) && !Bracketed(x)
    ensures ParseLines(START, [Header("BODIES"), " " + Header("NOTBODIES"), x]).base ==
            Baseline({Header("NOTBODIES"), x}, {}, map[])
  {
    var a, h := Header("BODIES"), Header("NOTBODIES");
    var p := START.(section := Some("BODIES"));
    HeaderLine(START, "BODIES");
    HeaderLine(p, "NOTBODIES");
    Text.StripPad(" ", h, "");
    assert " " + h + "" == " " + h;
    Text.LStripPad(" ", h);
    assert ParseLine(p, " " + h) == p.(base := p.base.(bodies := {} + {h}));
    var q := ParseLine(p, " " + h);
    EntryRead(q, x);
    ThreeLines(START, a, " " + h, x);
  }

  lemma ThreeLines(p: Parser, a: string, b: string, c: string)
    ensures ParseLines(p, [a, b, c]) == ParseLine(ParseLine(ParseLine(p, a), b), c)
  {
    assert [a, b, c] == [a, b] + [c] && [a, b] == [a] + [b];
    ParseSnoc(p, [a, b], c);
    ParseSnoc(p, [a], b);
  }

  // ----- over whole runs

  /** Both lists come back as they were exactly when no name is in brackets. */
  lemma ListsKeptExactly(header: seq<string>, b: Baseline, refs: Refs)
    requires Comments(header) && Tidy(b) && PlainSites(b, refs)
    ensures var c := Parse(Print(header, b, refs)); c.bodies == b.bodies && c.notbodies == b.notbodies <==> NoBrackets(b)
  {
    var c := Parse(Print(header, b, refs));
    forall y
      ensures NoBrackets(b) ==> (y in c.bodies <==> y in b.bodies) && (y in c.notbodies <==> y in b.notbodies)
      ensures y in Both(c) ==> !Bracketed(y)
    {
      ListsExactly(header, b, refs, y);
    }
    if x :| x in Both(b) && Bracketed(x) { assert x !in Both(c); }
  }

  /** Some write of the run goes through. */
  predicate Accepted(header: seq<string>, file: Option<string>, steps: seq<Step>)
    decreases |steps|
  {
    steps != []
    && ((steps[0].WriteStep? && !Refused(Read(file), steps[0].found))
        || Accepted(header, After(header, file, steps[0]), steps[1..]))
  }

  /** Over every run, whatever the sources are: both lists are what they were at the start
      exactly when no name is in brackets or no write goes through. */
  lemma {:induction false} RunsKeepListsExactly(header: seq<string>, file: Option<string>, steps: seq<Step>)
    requires Comments(header) && forall s | s in steps :: PlainStep(s)
    ensures var b, c := Read(file), Read(Run(header, file, steps));
            c.bodies == b.bodies && c.notbodies == b.notbodies <==> NoBrackets(b) || !Accepted(header, file, steps)
    decreases |steps|
  {
    if steps != [] {
      var step, b := steps[0], Read(file);
      var next := After(header, file, step);
      assert PlainStep(step);
      RunsKeepListsExactly(header, next, steps[1..]);
      if step.WriteStep? && !Refused(b, step.found) {
        ReadIsTidy(file);
        ListsKeptExactly(header, b, step.refs);
        if !NoBrackets(b) { BracketsGone(header, b, step.refs, steps[1..]); }
      }
    }
  }

  /** A name in brackets is gone after the first write, and no run brings it back. */
  lemma BracketsGone(header: seq<string>, b: Baseline, refs: Refs, steps: seq<Step>)
    requires Comments(header) && Tidy(b) && PlainSites(b, refs) && !NoBrackets(b)
    requires forall s | s in steps :: PlainStep(s)
    ensures var c := Read(Run(header, Some(Print(header, b, refs)), steps)); c.bodies != b.bodies || c.notbodies != b.notbodies
  {
    var x :| x in Both(b) && Bracketed(x);
    ListsExactly(header, b, refs, x);
    RunsNeverClassify(header, Some(Print(header, b, refs)), steps);
  }
}
