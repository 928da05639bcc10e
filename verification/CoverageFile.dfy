/** The baseline file of tools/check_path_coverage.py: its parser, its printer, and when
    reading undoes writing. */
module CoverageFile {
  import opened Prelude
  import Sorting
  import Text

  datatype Mechanism = Mechanism(symbol: string, sites: seq<string>)

  datatype Baseline = Baseline(bodies: set<string>, notbodies: set<string>, mechanisms: map<string, Mechanism>)

  // ----- the parser

  /** Parser state: the section, the label that site lines belong to, and what is read. */
  datatype Parser = Parser(section: Option<string>, current: Option<string>, base: Baseline)

  const START: Parser := Parser(None, None, Baseline({}, {}, map[]))

  predicate Skipped(line: string) {
    Text.Strip(line) == "" || Text.StartsWith(Text.LStrip(line), "#")
  }

  predicate Bracketed(line: string) {
    |line| >= 2 && line[0] == '[' && line[|line| - 1] == ']'
  }

  /** line.partition("="), without the separator. */
  function Partition(line: string): (string, string) {
    if line == "" then ("", "")
    else if line[0] == '=' then ("", line[1..])
    else var (a, b) := Partition(line[1..]); ([line[0]] + a, b)
  }

  function ParseMechanism(p: Parser, line: string): Parser {
    if Text.StartsWith(line, "  ") then
      if p.current.Some? && p.current.value != "" && p.current.value in p.base.mechanisms then
        var m := p.base.mechanisms[p.current.value];
        p.(base := p.base.(mechanisms :=
          p.base.mechanisms[p.current.value := m.(sites := m.sites + [Text.Strip(line)])]))
      else p
    else
      var (before, after) := Partition(line);
      var name := Text.Strip(before);
      p.(current := Some(name),
         base := p.base.(mechanisms := p.base.mechanisms[name := Mechanism(Text.Strip(after), [])]))
  }

  function ParseLine(p: Parser, line: string): Parser {
    if Skipped(line) then p
    else if Bracketed(line) then p.(section := Some(line[1..|line| - 1]))
    else if p.section == Some("BODIES") then p.(base := p.base.(bodies := p.base.bodies + {Text.Strip(line)}))
    else if p.section == Some("NOTBODIES") then p.(base := p.base.(notbodies := p.base.notbodies + {Text.Strip(line)}))
    else if p.section == Some("MECHANISMS") then ParseMechanism(p, line)
    else p
  }

  function ParseLines(p: Parser, lines: seq<string>): Parser
    decreases |lines|
  {
    if lines == [] then p else ParseLines(ParseLine(p, lines[0]), lines[1..])
  }

  /** What a baseline file says. */
  function Parse(text: string): Baseline {
    ParseLines(START, Text.Split(text, '\n')).base
  }

  lemma {:induction false} ParseSnoc(p: Parser, lines: seq<string>, line: string)
    ensures ParseLines(p, lines + [line]) == ParseLine(ParseLines(p, lines), line)
    decreases |lines|
  {
    if lines != [] {
      assert (lines + [line])[1..] == lines[1..] + [line];
      ParseSnoc(ParseLine(p, lines[0]), lines[1..], line);
    }
  }

  lemma {:induction false} ParseAppend(p: Parser, a: seq<string>, b: seq<string>)
    ensures ParseLines(p, a + b) == ParseLines(ParseLines(p, a), b)
    decreases |a|
  {
    if a == [] {
      assert a + b == b;
    } else {
      assert (a + b)[1..] == a[1..] + b;
      ParseAppend(ParseLine(p, a[0]), a[1..], b);
    }
  }

  /** parse_baseline: one pass over the lines, a missing file reads as empty. */
  method ParseBaseline(file: Option<string>) returns (b: Baseline)
    ensures b == if file.None? then START.base else Parse(file.value)
  {
    var bodies: set<string>, notbodies: set<string>, mechanisms: map<string, Mechanism> := {}, {}, map[];
    var section: Option<string>, current: Option<string> := None, None;
    if file.None? {
      return Baseline(bodies, notbodies, mechanisms);
    }
    var lines := Text.Split(file.value, '\n');
    for n := 0 to |lines|
      invariant Parser(section, current, Baseline(bodies, notbodies, mechanisms)) == ParseLines(START, lines[..n])
      invariant current.Some? ==> current.value in mechanisms
    {
      var line := lines[n];
      assert lines[..n + 1] == lines[..n] + [line];
      ParseSnoc(START, lines[..n], line);
      if Text.Strip(line) == "" || Text.StartsWith(Text.LStrip(line), "#") {
        continue;
      }
      if Bracketed(line) {
        section := Some(line[1..|line| - 1]);
        continue;
      }
      if section == Some("BODIES") {
        bodies := bodies + {Text.Strip(line)};
      } else if section == Some("NOTBODIES") {
        notbodies := notbodies + {Text.Strip(line)};
      } else if section == Some("MECHANISMS") {
        if Text.StartsWith(line, "  ") {
          if current.Some? && current.value != "" {
            var m := mechanisms[current.value];
            mechanisms := mechanisms[current.value := m.(sites := m.sites + [Text.Strip(line)])];
          }
        } else {
          var parts := Partition(line);
          current := Some(Text.Strip(parts.0));
          mechanisms := mechanisms[current.value := Mechanism(Text.Strip(parts.1), [])];
        }
      }
    }
    assert lines[..|lines|] == lines;
    b := Baseline(bodies, notbodies, mechanisms);
  }

  predicate OneLine(s: string) {
    '\n' !in s
  }

  // ----- the printer

  /** The sites that refer to a symbol, recomputed from the sources. */
  type Refs = string -> set<string>

  function LabelLine(name: string, symbol: string): string {
    name + " = " + symbol
  }

  function SiteLines(sites: seq<string>): seq<string> {
    if sites == [] then [] else ["  " + sites[0]] + SiteLines(sites[1..])
  }

  function MechanismLines(ms: map<string, Mechanism>, labels: seq<string>, refs: Refs): seq<string>
    requires forall l | l in labels :: l in ms
  {
    if labels == [] then []
    else
      var l := labels[0];
      assert l in labels && forall k | k in labels[1..] :: k in labels;
      [LabelLine(l, ms[l].symbol)] + SiteLines(Sorting.Sorted(refs(ms[l].symbol))) + [""] + MechanismLines(ms, labels[1..], refs)
  }

  function Labels(b: Baseline): (r: seq<string>)
    ensures forall l | l in r :: l in b.mechanisms
  {
    Sorting.SortedElems(b.mechanisms.Keys);
    Sorting.Sorted(b.mechanisms.Keys)
  }

  function Header(name: string): string {
    "[" + name + "]"
  }

  function Names(b: Baseline): seq<string> {
    ["", Header("BODIES")] + Sorting.Sorted(b.bodies)
    + (["", Header("NOTBODIES")] + Sorting.Sorted(b.notbodies)) + ["", Header("MECHANISMS")]
  }

  /** The lines write_baseline puts out; `header` is its comment block. */
  function Lines(header: seq<string>, b: Baseline, refs: Refs): seq<string> {
    header + Names(b) + MechanismLines(b.mechanisms, Labels(b), refs)
  }

  /** s.rstrip("\n") */
  function RStripNewlines(s: string): string {
    if s != "" && s[|s| - 1] == '\n' then RStripNewlines(s[..|s| - 1]) else s
  }

  function Print(header: seq<string>, b: Baseline, refs: Refs): string {
    RStripNewlines(Text.Join(Lines(header, b, refs), "\n")) + "\n"
  }

  lemma {:induction false} SiteLinesSnoc(sites: seq<string>, site: string)
    ensures SiteLines(sites + [site]) == SiteLines(sites) + ["  " + site]
  {
    if sites != [] {
      assert (sites + [site])[1..] == sites[1..] + [site];
      SiteLinesSnoc(sites[1..], site);
    }
  }

  lemma {:induction false} MechanismLinesSnoc(ms: map<string, Mechanism>, labels: seq<string>, name: string, refs: Refs)
    requires name in ms && forall l | l in labels :: l in ms
    ensures MechanismLines(ms, labels + [name], refs) ==
            MechanismLines(ms, labels, refs) + Block(name, ms[name].symbol, refs)
  {
    if labels != [] {
      assert (labels + [name])[1..] == labels[1..] + [name];
      MechanismLinesSnoc(ms, labels[1..], name, refs);
    }
  }

  function Block(name: string, symbol: string, refs: Refs): seq<string> {
    [LabelLine(name, symbol)] + SiteLines(Sorting.Sorted(refs(symbol))) + [""]
  }

  /** The lines of one mechanism, appended to the rest. */
  method PutBlock(lines: seq<string>, name: string, symbol: string, refs: Refs) returns (out: seq<string>)
    ensures out == lines + Block(name, symbol, refs)
  {
    out := lines + [LabelLine(name, symbol)];
    var sites := Sorting.Sorted(refs(symbol));
    for n := 0 to |sites|
      invariant out == lines + ([LabelLine(name, symbol)] + SiteLines(sites[..n]))
    {
      assert sites[..n + 1] == sites[..n] + [sites[n]];
      SiteLinesSnoc(sites[..n], sites[n]);
      out := out + ["  " + sites[n]];
    }
    assert sites[..|sites|] == sites;
    out := out + [""];
  }

  method PutNames(header: seq<string>, b: Baseline) returns (out: seq<string>)
    ensures out == header + Names(b)
  {
    var names := ["", Header("BODIES")];
    names := names + Sorting.Sorted(b.bodies);
    var more := ["", Header("NOTBODIES")];
    more := more + Sorting.Sorted(b.notbodies);
    names := names + more;
    names := names + ["", Header("MECHANISMS")];
    assert names == Names(b);
    out := header + names;
  }

  lemma BlockNext(ms: map<string, Mechanism>, labels: seq<string>, n: nat, refs: Refs)
    requires n < |labels| && forall l | l in labels :: l in ms
    ensures MechanismLines(ms, labels[..n + 1], refs) ==
            MechanismLines(ms, labels[..n], refs) + Block(labels[n], ms[labels[n]].symbol, refs)
  {
    assert labels[..n + 1] == labels[..n] + [labels[n]];
    MechanismLinesSnoc(ms, labels[..n], labels[n], refs);
  }

  method PutMechanisms(start: seq<string>, ms: map<string, Mechanism>, labels: seq<string>, refs: Refs)
    returns (out: seq<string>)
    requires forall l | l in labels :: l in ms
    ensures out == start + MechanismLines(ms, labels, refs)
  {
    out := start;
    for n := 0 to |labels|
      invariant out == start + MechanismLines(ms, labels[..n], refs)
    {
      BlockNext(ms, labels, n, refs);
      assert labels[n] in labels;
      out := PutBlock(out, labels[n], ms[labels[n]].symbol, refs);
    }
    assert labels[..|labels|] == labels;
  }

  method WriteBaseline(header: seq<string>, b: Baseline, refs: Refs) returns (text: string)
    ensures text == Print(header, b, refs)
  {
    var out := PutNames(header, b);
    out := PutMechanisms(out, b.mechanisms, Labels(b), refs);
    text := RStripNewlines(Text.Join(out, "\n")) + "\n";
  }

  // ----- reading a printed file line by line

  lemma {:induction false} SplitSnoc(s: string, c: char)
    ensures Text.Split(s + [c], c) == Text.Split(s, c) + [""]
  {
    if s != "" {
      assert (s + [c])[1..] == s[1..] + [c];
      SplitSnoc(s[1..], c);
    }
  }

  /** Trailing newlines make no difference to the parser. */
  lemma {:induction false} NewlinesDropped(p: Parser, s: string)
    ensures ParseLines(p, Text.Split(RStripNewlines(s) + "\n", '\n')) == ParseLines(p, Text.Split(s, '\n'))
  {
    if s != "" && s[|s| - 1] == '\n' {
      var init := s[..|s| - 1];
      assert s == init + ['\n'];
      NewlinesDropped(p, init);
      SplitSnoc(init, '\n');
      ParseSnoc(p, Text.Split(init, '\n'), "");
    } else {
      SplitSnoc(s, '\n');
      ParseSnoc(p, Text.Split(s, '\n'), "");
    }
  }

  lemma PrintedLines(header: seq<string>, b: Baseline, refs: Refs)
    requires forall l | l in Lines(header, b, refs) :: OneLine(l)
    ensures Parse(Print(header, b, refs)) == ParseLines(START, Lines(header, b, refs)).base
  {
    var lines := Lines(header, b, refs);
    NewlinesDropped(START, Text.Join(lines, "\n"));
    assert |lines| > 0;
    Text.SplitJoin(lines, '\n');
  }

  // ----- what a file can say

  /** A name that a line of its own carries. */
  predicate PlainEntry(s: string) {
    s != "" && Text.Trimmed(s) && OneLine(s) && s[0] != '#'
  }

  predicate PlainMechanism(name: string, symbol: string) {
    && Text.Trimmed(name) && OneLine(name) && '=' !in name && (name != "" ==> name[0] != '#')
    && Text.Trimmed(symbol) && OneLine(symbol)
  }

  /** What is true of every baseline that was read from a file. */
  predicate Tidy(b: Baseline) {
    && (forall x | x in b.bodies + b.notbodies :: PlainEntry(x))
    && (forall l | l in b.mechanisms :: PlainMechanism(l, b.mechanisms[l].symbol))
  }

  lemma EntryIsPlain(line: string)
    requires OneLine(line) && !Skipped(line)
    ensures PlainEntry(Text.Strip(line))
  {
    Text.StripIsTrimmed(line);
    Text.StripKeeps(line, '\n');
    Text.RStripHead(Text.LStrip(line));
  }

  lemma {:induction false} LStripAppend(a: string, b: string)
    requires Text.LStrip(a) != ""
    ensures Text.LStrip(a + b) == Text.LStrip(a) + b
  {
    if Text.IsSpace(a[0]) {
      assert (a + b)[1..] == a[1..] + b;
      LStripAppend(a[1..], b);
    }
  }

  lemma {:induction false} PartitionKeeps(line: string)
    ensures var (a, b) := Partition(line); '=' !in a && (line == a + "=" + b || (line == a && b == ""))
  {
    if line != "" && line[0] != '=' {
      PartitionKeeps(line[1..]);
      assert line == [line[0]] + line[1..];
    }
  }

  lemma MechanismIsPlain(line: string)
    requires OneLine(line) && !Skipped(line)
    ensures var (a, b) := Partition(line); PlainMechanism(Text.Strip(a), Text.Strip(b))
  {
    var (a, b) := Partition(line);
    PartitionKeeps(line);
    Text.StripIsTrimmed(a);
    Text.StripIsTrimmed(b);
    Text.StripKeeps(a, '\n');
    Text.StripKeeps(b, '\n');
    Text.StripKeeps(a, '=');
    Text.RStripHead(Text.LStrip(a));
    if Text.LStrip(a) != "" {
      LStripAppend(a, "=" + b);
      assert a + "=" + b == a + ("=" + b);
    }
  }

  lemma LineIsTidy(p: Parser, line: string)
    requires Tidy(p.base) && OneLine(line)
    ensures Tidy(ParseLine(p, line).base)
  {
    if !Skipped(line) {
      EntryIsPlain(line);
      MechanismIsPlain(line);
    }
  }

  lemma {:induction false} LinesAreTidy(p: Parser, lines: seq<string>)
    requires Tidy(p.base) && forall l | l in lines :: OneLine(l)
    ensures Tidy(ParseLines(p, lines).base)
    decreases |lines|
  {
    if lines != [] {
      LineIsTidy(p, lines[0]);
      LinesAreTidy(ParseLine(p, lines[0]), lines[1..]);
    }
  }

  lemma ParsedIsTidy(text: string)
    ensures Tidy(Parse(text))
  {
    Text.SplitPieces(text, '\n');
    LinesAreTidy(START, Text.Split(text, '\n'));
  }

  // ----- reading back what was printed

  predicate Comments(header: seq<string>) {
    forall l | l in header :: Text.StartsWith(l, "#") && OneLine(l)
  }

  lemma {:induction false} CommentsAreSkipped(p: Parser, header: seq<string>)
    requires Comments(header)
    ensures ParseLines(p, header) == p
  {
    if header != [] {
      assert header[0] in header;
      CommentsAreSkipped(p, header[1..]);
    }
  }

  function Both(b: Baseline): set<string> {
    b.bodies + b.notbodies
  }

  lemma OnlyEntry(p: Parser, line: string, y: string)
    requires Text.Trimmed(line)
    ensures y in ParseLine(p, line).base.bodies ==> y in p.base.bodies || (y == line && y != "" && !Bracketed(y))
    ensures y in ParseLine(p, line).base.notbodies ==> y in p.base.notbodies || (y == line && y != "" && !Bracketed(y))
  {
    Text.StripTrimmed(line);
  }

  /** However the sections are confused, lines with nothing to strip add no name but
      themselves, and a line in brackets is never a name. */
  lemma {:induction false} OnlyEntries(p: Parser, lines: seq<string>, y: string)
    requires forall l | l in lines :: Text.Trimmed(l)
    ensures y in ParseLines(p, lines).base.bodies ==> y in p.base.bodies || (y in lines && y != "" && !Bracketed(y))
    ensures y in ParseLines(p, lines).base.notbodies ==> y in p.base.notbodies || (y in lines && y != "" && !Bracketed(y))
    decreases |lines|
  {
    if lines != [] {
      assert lines[0] in lines;
      OnlyEntry(p, lines[0], y);
      OnlyEntries(ParseLine(p, lines[0]), lines[1..], y);
    }
  }

  lemma {:induction false} BodiesRead(p: Parser, xs: seq<string>)
    requires p.section == Some("BODIES") && forall x | x in xs :: PlainEntry(x) && !Bracketed(x)
    ensures ParseLines(p, xs) == p.(base := p.base.(bodies := p.base.bodies + set x | x in xs))
    decreases |xs|
  {
    if xs != [] {
      assert xs[0] in xs;
      Text.StripTrimmed(xs[0]);
      BodiesRead(ParseLine(p, xs[0]), xs[1..]);
    }
  }

  lemma {:induction false} NotbodiesRead(p: Parser, xs: seq<string>)
    requires p.section == Some("NOTBODIES") && forall x | x in xs :: PlainEntry(x) && !Bracketed(x)
    ensures ParseLines(p, xs) == p.(base := p.base.(notbodies := p.base.notbodies + set x | x in xs))
    decreases |xs|
  {
    if xs != [] {
      assert xs[0] in xs;
      Text.StripTrimmed(xs[0]);
      NotbodiesRead(ParseLine(p, xs[0]), xs[1..]);
    }
  }

  lemma {:induction false} PartitionAt(a: string, b: string)
    requires '=' !in a
    ensures Partition(a + "=" + b) == (a, b)
  {
    if a == "" {
      assert a + "=" + b == "=" + b;
    } else {
      assert (a + "=" + b)[1..] == a[1..] + "=" + b && a == [a[0]] + a[1..];
      PartitionAt(a[1..], b);
    }
  }

  /** A mechanism under the label the sites belong to. */
  function Put(p: Parser, name: string, m: Mechanism): Parser {
    p.(current := Some(name), base := p.base.(mechanisms := p.base.mechanisms[name := m]))
  }

  lemma PutTwice(p: Parser, name: string, m: Mechanism, n: Mechanism)
    ensures Put(Put(p, name, m), name, n) == Put(p, name, n)
  {
    assert p.base.mechanisms[name := m][name := n] == p.base.mechanisms[name := n];
  }

  lemma LabelRead(p: Parser, name: string, symbol: string)
    requires PlainMechanism(name, symbol) && p.section == Some("MECHANISMS") && !Bracketed(LabelLine(name, symbol))
    ensures ParseLine(p, LabelLine(name, symbol)) ==
            Put(p, name, Mechanism(symbol, []))
  {
    LabelNotSkipped(name, symbol);
    LabelParts(name, symbol);
  }

  lemma LabelParts(name: string, symbol: string)
    requires PlainMechanism(name, symbol)
    ensures var line := LabelLine(name, symbol);
            && !Text.StartsWith(line, "  ")
            && Text.Strip(Partition(line).0) == name && Text.Strip(Partition(line).1) == symbol
  {
    var line := LabelLine(name, symbol);
    assert line == (name + " ") + "=" + (" " + symbol);
    PartitionAt(name + " ", " " + symbol);
    Text.StripPad("", name, " ");
    Text.StripPad(" ", symbol, "");
    assert "" + name + " " == name + " " && " " + symbol + "" == " " + symbol;
    if name != "" { assert line[..2][0] == name[0]; } else { assert line[..2][1] == '='; }
  }

  lemma LabelNotSkipped(name: string, symbol: string)
    requires PlainMechanism(name, symbol)
    ensures !Skipped(LabelLine(name, symbol))
  {
    var line, tail := LabelLine(name, symbol), "= " + symbol;
    if name == "" {
      assert line == " " + tail;
      Text.LStripPad(" ", tail);
      assert Text.LStrip(line) == tail;
    } else {
      assert Text.LStrip(line) == line;
    }
    Text.RStripHead(Text.LStrip(line));
    NotAllSpace(Text.LStrip(line), 0);
  }

  lemma {:induction false} NotAllSpace(s: string, k: nat)
    requires k < |s| && !Text.IsSpace(s[k])
    ensures Text.RStrip(s) != ""
  {
    if Text.IsSpace(s[|s| - 1]) { NotAllSpace(s[..|s| - 1], k); }
  }

  lemma {:induction false} SitesRead(p: Parser, name: string, m: Mechanism, sites: seq<string>)
    requires p.section == Some("MECHANISMS") && p.current == Some(name)
    requires name in p.base.mechanisms && p.base.mechanisms[name] == m
    requires forall x | x in sites :: PlainEntry(x)
    ensures ParseLines(p, SiteLines(sites)) ==
            Put(p, name, if name == "" then m else m.(sites := m.sites + sites))
    decreases |sites|
  {
    if sites == [] {
      assert m.sites + sites == m.sites;
      assert p.base.mechanisms[name := m] == p.base.mechanisms;
    } else {
      assert sites[0] in sites;
      SiteRead(p, sites[0]);
      var q := ParseLine(p, "  " + sites[0]);
      assert m.sites + sites == (m.sites + [sites[0]]) + sites[1..];
      SitesRead(q, name, if name == "" then m else m.(sites := m.sites + [sites[0]]), sites[1..]);
    }
  }

  lemma SiteRead(p: Parser, site: string)
    requires PlainEntry(site) && p.section == Some("MECHANISMS")
    ensures ParseLine(p, "  " + site) == ParseMechanism(p, "  " + site) && Text.Strip("  " + site) == site
    ensures Text.StartsWith("  " + site, "  ")
  {
    Text.StripPad("  ", site, "");
    assert "  " + site + "" == "  " + site;
    Text.LStripPad("  ", site);
  }

  predicate PlainSites(b: Baseline, refs: Refs) {
    forall l | l in b.mechanisms :: forall x | x in refs(b.mechanisms[l].symbol) :: PlainEntry(x)
  }

  /** What comes back of a label: the recomputed sites, unless the label is empty. */
  function Back(name: string, symbol: string, refs: Refs): Mechanism {
    Mechanism(symbol, if name == "" then [] else Sorting.Sorted(refs(symbol)))
  }

  /** What comes back of all of them: the labels before the first line in brackets. */
  function Kept(ms: map<string, Mechanism>, labels: seq<string>, refs: Refs): map<string, Mechanism>
    requires forall l | l in labels :: l in ms
  {
    if labels == [] || Bracketed(LabelLine(labels[0], ms[labels[0]].symbol)) then map[]
    else map[labels[0] := Back(labels[0], ms[labels[0]].symbol, refs)] + Kept(ms, labels[1..], refs)
  }

  /** A header with an equals sign in it opens no section. */
  predicate Lost(p: Parser) {
    p.section.Some? && '=' in p.section.value
  }

  lemma {:induction false} LostLines(p: Parser, lines: seq<string>)
    requires Lost(p) && forall l | l in lines :: Bracketed(l) ==> '=' in l
    ensures ParseLines(p, lines).base == p.base
    decreases |lines|
  {
    if lines != [] {
      var line := lines[0];
      assert line in lines;
      if Bracketed(line) {
        var k :| 0 <= k < |line| && line[k] == '=';
        assert line[1..|line| - 1][k - 1] == '=';
      }
      LostLines(ParseLine(p, line), lines[1..]);
    }
  }

  lemma {:induction false} NoHeaders(ms: map<string, Mechanism>, labels: seq<string>, refs: Refs)
    requires forall l | l in labels :: l in ms
    ensures forall l | l in MechanismLines(ms, labels, refs) :: Bracketed(l) ==> '=' in l
    decreases |labels|
  {
    if labels != [] {
      var name, symbol := labels[0], ms[labels[0]].symbol;
      NoHeaders(ms, labels[1..], refs);
      SiteLinesIndented(Sorting.Sorted(refs(symbol)));
      assert LabelLine(name, symbol)[|name| + 1] == '=';
    }
  }

  lemma {:induction false} SiteLinesIndented(sites: seq<string>)
    ensures forall l | l in SiteLines(sites) :: l != "" && l[0] == ' '
  {
    if sites != [] { SiteLinesIndented(sites[1..]); }
  }

  /** A label in brackets takes itself and everything after it out of the file. */
  lemma LostRead(p: Parser, name: string, symbol: string, lines: seq<string>)
    requires PlainMechanism(name, symbol) && Bracketed(LabelLine(name, symbol))
    requires forall l | l in lines :: Bracketed(l) ==> '=' in l
    ensures ParseLines(p, [LabelLine(name, symbol)] + lines).base == p.base
  {
    var line := LabelLine(name, symbol);
    assert line[1..|line| - 1][|name|] == '=';
    LabelNotSkipped(name, symbol);
    LostLines(ParseLine(p, line), lines);
    assert ([line] + lines)[1..] == lines;
  }

  lemma BlockRead(p: Parser, name: string, symbol: string, refs: Refs)
    requires PlainMechanism(name, symbol) && forall x | x in refs(symbol) :: PlainEntry(x)
    requires p.section == Some("MECHANISMS") && !Bracketed(LabelLine(name, symbol))
    ensures ParseLines(p, Block(name, symbol, refs)) ==
            Put(p, name, Back(name, symbol, refs))
  {
    var line, sites, bare := LabelLine(name, symbol), Sorting.Sorted(refs(symbol)), Mechanism(symbol, []);
    LabelRead(p, name, symbol);
    assert ParseLines(p, [line]) == ParseLine(p, line);
    Sorting.SortedElems(refs(symbol));
    assert bare.sites + sites == sites;
    SitesRead(Put(p, name, bare), name, bare, sites);
    PutTwice(p, name, bare, Back(name, symbol, refs));
    ParseAppend(p, [line], SiteLines(sites));
    ParseSnoc(p, [line] + SiteLines(sites), "");
  }

  /** The mechanisms section, read back. */
  lemma {:induction false} MechanismsRead(p: Parser, b: Baseline, labels: seq<string>, refs: Refs)
    requires Tidy(b) && PlainSites(b, refs) && p.section == Some("MECHANISMS")
    requires forall l | l in labels :: l in b.mechanisms
    ensures var q := ParseLines(p, MechanismLines(b.mechanisms, labels, refs)).base;
            q == p.base.(mechanisms := p.base.mechanisms + Kept(b.mechanisms, labels, refs))
    decreases |labels|
  {
    var ms := b.mechanisms;
    if labels == [] {
      assert p.base.mechanisms + map[] == p.base.mechanisms;
    } else {
      var name, rest := labels[0], MechanismLines(ms, labels[1..], refs);
      assert name in labels;
      var symbol := ms[name].symbol;
      if Bracketed(LabelLine(name, symbol)) {
        NoHeaders(ms, labels, refs);
        var lines := MechanismLines(ms, labels, refs);
        assert lines == [LabelLine(name, symbol)] + lines[1..];
        LostRead(p, name, symbol, lines[1..]);
        assert p.base.mechanisms + map[] == p.base.mechanisms;
      } else {
        BlockRead(p, name, symbol, refs);
        assert MechanismLines(ms, labels, refs) == Block(name, symbol, refs) + rest;
        ParseAppend(p, Block(name, symbol, refs), rest);
        MechanismsRead(ParseLines(p, Block(name, symbol, refs)), b, labels[1..], refs);
        OneMore(p.base.mechanisms, name, Back(name, symbol, refs), Kept(ms, labels[1..], refs));
      }
    }
  }

  lemma OneMore(m: map<string, Mechanism>, k: string, v: Mechanism, n: map<string, Mechanism>)
    ensures m[k := v] + n == m + (map[k := v] + n)
  {}

  lemma {:induction false} KeptExactly(ms: map<string, Mechanism>, labels: seq<string>, refs: Refs)
    requires forall l | l in labels :: l in ms
    ensures forall l | l in Kept(ms, labels, refs) ::
            l in labels && !Bracketed(LabelLine(l, ms[l].symbol)) && Kept(ms, labels, refs)[l] == Back(l, ms[l].symbol, refs)
    ensures (forall l | l in labels :: !Bracketed(LabelLine(l, ms[l].symbol))) ==>
            forall l | l in labels :: l in Kept(ms, labels, refs)
    decreases |labels|
  {
    if labels != [] && !Bracketed(LabelLine(labels[0], ms[labels[0]].symbol)) {
      KeptExactly(ms, labels[1..], refs);
    }
  }

  /** No recorded name is in brackets. */
  predicate NoBrackets(b: Baseline) {
    forall x | x in Both(b) :: !Bracketed(x)
  }

  lemma HeaderLine(p: Parser, name: string)
    ensures Bracketed(Header(name))
    ensures ParseLine(p, Header(name)) == p.(section := Some(name))
    ensures Text.Trimmed(Header(name)) && ('\n' !in name ==> OneLine(Header(name)))
  {
    var header := Header(name);
    assert header[0] == '[' && header[|header| - 1] == ']' && header[1..|header| - 1] == name;
    Text.StripTrimmed(header);
  }

  lemma HeaderRead(p: Parser, name: string, lines: seq<string>)
    ensures ParseLines(p, ["", Header(name)] + lines) == ParseLines(p.(section := Some(name)), lines)
  {
    ParseAppend(p, ["", Header(name)], lines);
    assert ["", Header(name)] == [""] + [Header(name)];
    ParseSnoc(p, [""], Header(name));
    HeaderLine(p, name);
  }

  lemma BodiesSection(p: Parser, s: set<string>)
    requires forall x | x in s :: PlainEntry(x) && !Bracketed(x)
    ensures ParseLines(p, ["", Header("BODIES")] + Sorting.Sorted(s)) ==
            Parser(Some("BODIES"), p.current, p.base.(bodies := p.base.bodies + s))
  {
    var xs := Sorting.Sorted(s);
    Sorting.SortedElems(s);
    HeaderRead(p, "BODIES", xs);
    BodiesRead(p.(section := Some("BODIES")), xs);
    assert (set x | x in xs) == s;
  }

  lemma NotbodiesSection(p: Parser, s: set<string>)
    requires forall x | x in s :: PlainEntry(x) && !Bracketed(x)
    ensures ParseLines(p, ["", Header("NOTBODIES")] + Sorting.Sorted(s)) ==
            Parser(Some("NOTBODIES"), p.current, p.base.(notbodies := p.base.notbodies + s))
  {
    var xs := Sorting.Sorted(s);
    Sorting.SortedElems(s);
    HeaderRead(p, "NOTBODIES", xs);
    NotbodiesRead(p.(section := Some("NOTBODIES")), xs);
    assert (set x | x in xs) == s;
  }

  lemma MechanismsSection(p: Parser)
    ensures ParseLines(p, ["", Header("MECHANISMS")]) == p.(section := Some("MECHANISMS"))
  {
    HeaderRead(p, "MECHANISMS", []);
    assert ["", Header("MECHANISMS")] == ["", Header("MECHANISMS")] + [];
  }

  /** The two name lists come back when none of them is in brackets. */
  lemma PlainNamesRead(b: Baseline)
    requires Tidy(b) && NoBrackets(b)
    ensures ParseLines(START, Names(b)) == Parser(Some("MECHANISMS"), None, Baseline(b.bodies, b.notbodies, map[]))
  {
    var first, second := ["", Header("BODIES")] + Sorting.Sorted(b.bodies), ["", Header("NOTBODIES")] + Sorting.Sorted(b.notbodies);
    ParseAppend(START, first + second, ["", Header("MECHANISMS")]);
    ParseAppend(START, first, second);
    BodiesSection(START, b.bodies);
    assert {} + b.bodies == b.bodies && {} + b.notbodies == b.notbodies;
    NotbodiesSection(ParseLines(START, first), b.notbodies);
    MechanismsSection(ParseLines(START, first + second));
  }

  /** In any case the mechanisms come next... */
  lemma MechanismsNext(b: Baseline)
    ensures ParseLines(START, Names(b)).section == Some("MECHANISMS")
  {
    var first, second := ["", Header("BODIES")] + Sorting.Sorted(b.bodies), ["", Header("NOTBODIES")] + Sorting.Sorted(b.notbodies);
    ParseAppend(START, first + second, ["", Header("MECHANISMS")]);
    MechanismsSection(ParseLines(START, first + second));
  }

  /** ... and no name is new or in brackets. */
  lemma NamesRead(b: Baseline)
    requires Tidy(b)
    ensures forall y | y in Both(ParseLines(START, Names(b)).base) :: y in Both(b) && !Bracketed(y)
  {
    HeaderLine(START, "BODIES");
    HeaderLine(START, "NOTBODIES");
    HeaderLine(START, "MECHANISMS");
    NamesTrimmed(b);
    forall y | y in Both(ParseLines(START, Names(b)).base)
      ensures y in Both(b) && !Bracketed(y)
    {
      OnlyEntries(START, Names(b), y);
      NameLines(b, y);
    }
  }

  /** Names are printed on lines of their own. */
  lemma NameLines(b: Baseline, y: string)
    requires y in Names(b)
    ensures y == "" || y in Both(b) || y == Header("BODIES") || y == Header("NOTBODIES") || y == Header("MECHANISMS")
  {
    Sorting.SortedElems(b.bodies);
    Sorting.SortedElems(b.notbodies);
    InFour(["", Header("BODIES")], Sorting.Sorted(b.bodies), ["", Header("NOTBODIES")] + Sorting.Sorted(b.notbodies),
      ["", Header("MECHANISMS")], y);
    InFour(["", Header("NOTBODIES")], Sorting.Sorted(b.notbodies), [], [], y);
  }

  lemma InFour(a: seq<string>, b: seq<string>, c: seq<string>, d: seq<string>, y: string)
    ensures y in a + b + c + d <==> y in a || y in b || y in c || y in d
    ensures y in a + b <==> y in a || y in b
  {}

  lemma NamesTrimmed(b: Baseline)
    requires Tidy(b)
    ensures forall y | y in Names(b) :: Text.Trimmed(y) && OneLine(y)
  {
    HeaderLine(START, "BODIES");
    HeaderLine(START, "NOTBODIES");
    HeaderLine(START, "MECHANISMS");
    forall y | y in Names(b)
      ensures Text.Trimmed(y) && OneLine(y)
    {
      NameLines(b, y);
    }
  }

  lemma {:induction false} MechanismLinesPlain(b: Baseline, labels: seq<string>, refs: Refs)
    requires Tidy(b) && PlainSites(b, refs) && forall l | l in labels :: l in b.mechanisms
    ensures forall l | l in MechanismLines(b.mechanisms, labels, refs) :: OneLine(l)
  {
    if labels != [] {
      var symbol := b.mechanisms[labels[0]].symbol;
      MechanismLinesPlain(b, labels[1..], refs);
      Sorting.SortedElems(refs(symbol));
      SiteLinesPlain(Sorting.Sorted(refs(symbol)));
    }
  }

  lemma {:induction false} SiteLinesPlain(sites: seq<string>)
    requires forall x | x in sites :: PlainEntry(x)
    ensures forall l | l in SiteLines(sites) :: OneLine(l)
  {
    if sites != [] {
      assert sites[0] in sites;
      SiteLinesPlain(sites[1..]);
    }
  }

  /** What is read back, whatever the names are. */
  lemma PrintedRead(header: seq<string>, b: Baseline, refs: Refs)
    requires Comments(header) && Tidy(b) && PlainSites(b, refs)
    ensures var base := ParseLines(START, Names(b)).base;
            Parse(Print(header, b, refs)) == base.(mechanisms := base.mechanisms + Kept(b.mechanisms, Labels(b), refs))
  {
    MechanismLinesPlain(b, Labels(b), refs);
    NamesTrimmed(b);
    PrintedLines(header, b, refs);
    LinesRead(header, b, refs);
  }

  lemma LinesRead(header: seq<string>, b: Baseline, refs: Refs)
    requires Comments(header) && Tidy(b) && PlainSites(b, refs)
    ensures var base := ParseLines(START, Names(b)).base;
            ParseLines(START, Lines(header, b, refs)).base
              == base.(mechanisms := base.mechanisms + Kept(b.mechanisms, Labels(b), refs))
  {
    MechanismsNext(b);
    ParseAppend(START, header + Names(b), MechanismLines(b.mechanisms, Labels(b), refs));
    ParseAppend(START, header, Names(b));
    CommentsAreSkipped(START, header);
    MechanismsRead(ParseLines(START, Names(b)), b, Labels(b), refs);
  }

  /** The baseline with every mechanism's sites recomputed. */
  function Refreshed(b: Baseline, refs: Refs): Baseline {
    b.(mechanisms := map l | l in b.mechanisms :: Mechanism(b.mechanisms[l].symbol, Sorting.Sorted(refs(b.mechanisms[l].symbol))))
  }

  /** No mechanism line is in brackets, and a mechanism without a label has no sites. */
  predicate ReadableMechanisms(ms: map<string, Mechanism>, refs: Refs) {
    && (forall l | l in ms :: !Bracketed(LabelLine(l, ms[l].symbol)))
    && ("" in ms ==> refs(ms[""].symbol) == {})
  }

  lemma AllKept(b: Baseline, refs: Refs)
    requires ReadableMechanisms(b.mechanisms, refs)
    ensures Kept(b.mechanisms, Labels(b), refs) == Refreshed(b, refs).mechanisms
  {
    var ms := b.mechanisms;
    KeptExactly(ms, Labels(b), refs);
    Sorting.SortedElems(ms.Keys);
    forall l | l in ms
      ensures Back(l, ms[l].symbol, refs) == Refreshed(b, refs).mechanisms[l]
    {}
  }

  lemma KeptReadable(b: Baseline, refs: Refs)
    requires Kept(b.mechanisms, Labels(b), refs) == Refreshed(b, refs).mechanisms
    ensures ReadableMechanisms(b.mechanisms, refs)
  {
    var ms, kept := b.mechanisms, Kept(b.mechanisms, Labels(b), refs);
    KeptExactly(ms, Labels(b), refs);
    forall l | l in ms
      ensures l in kept
    {
      assert l in Refreshed(b, refs).mechanisms;
    }
    if "" in ms {
      assert kept[""].sites == [];
      Sorting.SortedElems(refs(ms[""].symbol));
    }
  }

  /** No line of the printed file reads as something else. */
  predicate Readable(b: Baseline, refs: Refs) {
    NoBrackets(b) && ReadableMechanisms(b.mechanisms, refs)
  }

  lemma RoundTrip(header: seq<string>, b: Baseline, refs: Refs)
    requires Comments(header) && Tidy(b) && PlainSites(b, refs) && Readable(b, refs)
    ensures Parse(Print(header, b, refs)) == Refreshed(b, refs)
  {
    PrintedRead(header, b, refs);
    PlainNamesRead(b);
    AllKept(b, refs);
    assert map[] + Kept(b.mechanisms, Labels(b), refs) == Refreshed(b, refs).mechanisms;
  }

  /** Reading undoes writing, but for the recomputed sites, exactly when the baseline is
      readable. */
  lemma RoundTripExactly(header: seq<string>, b: Baseline, refs: Refs)
    requires Comments(header) && Tidy(b) && PlainSites(b, refs)
    ensures Parse(Print(header, b, refs)) == Refreshed(b, refs) <==> Readable(b, refs)
  {
    if Readable(b, refs) {
      RoundTrip(header, b, refs);
    } else {
      PrintedRead(header, b, refs);
      if NoBrackets(b) {
        PlainNamesRead(b);
        var kept := Kept(b.mechanisms, Labels(b), refs);
        assert map[] + kept == kept;
        if kept == Refreshed(b, refs).mechanisms { KeptReadable(b, refs); }
      } else {
        var x :| x in Both(b) && Bracketed(x);
        NamesRead(b);
        assert x !in Both(Parse(Print(header, b, refs)));
      }
    }
  }

  /** Whatever is in the file, rewriting it classifies nothing that was not. */
  lemma WriteNeverClassifies(header: seq<string>, b: Baseline, refs: Refs)
    requires Comments(header) && Tidy(b) && PlainSites(b, refs)
    ensures Both(Parse(Print(header, b, refs))) <= Both(b)
  {
    PrintedRead(header, b, refs);
    NamesRead(b);
  }

  // ----- write and check

  datatype Failure =
    | Unclassified(name: string)
    | Vanished(name: string)
    | ReachChanged(name: string, gained: seq<string>, lost: seq<string>)

  function Elems(xs: seq<string>): set<string> {
    set x | x in xs
  }

  /** A failure the check reports: rules R1 and R2. */
  predicate Reported(b: Baseline, found: set<string>, refs: Refs, x: Failure) {
    match x
    case Unclassified(name) => name in found && name !in Both(b)
    case Vanished(name) => name in b.bodies && name !in found
    case ReachChanged(name, gained, lost) =>
      && name in b.mechanisms
      && var was, now := Elems(b.mechanisms[name].sites), refs(b.mechanisms[name].symbol);
         was != now && gained == Sorting.Sorted(now - was) && lost == Sorting.Sorted(was - now)
  }

  /** [s for s in xs if s not in ys] */
  function Without(xs: seq<string>, ys: seq<string>): seq<string> {
    Sorting.Filter(xs, Elems(xs) - Elems(ys))
  }

  lemma WithoutSorted(a: set<string>, b: set<string>)
    ensures Without(Sorting.Sorted(a), Sorting.Sorted(b)) == Sorting.Sorted(a - b)
  {
    Sorting.SortedElems(a);
    Sorting.SortedElems(b);
    assert Elems(Sorting.Sorted(a)) == a && Elems(Sorting.Sorted(b)) == b;
    Sorting.FilterSorted(a, a - b);
  }

  lemma SortedSame(a: set<string>, b: set<string>)
    ensures Sorting.Sorted(a) == Sorting.Sorted(b) <==> a == b
  {
    Sorting.SortedElems(a);
    Sorting.SortedElems(b);
    if Sorting.Sorted(a) == Sorting.Sorted(b) {
      assert forall x :: x in a <==> x in b;
    }
  }

  function ReportFound(b: Baseline, name: string): seq<Failure> {
    if name !in Both(b) then [Unclassified(name)] else []
  }

  function ReportRecorded(found: set<string>, name: string): seq<Failure> {
    if name !in found then [Vanished(name)] else []
  }

  function ReportMechanism(b: Baseline, refs: Refs, name: string): seq<Failure> {
    if name !in b.mechanisms then []
    else
      var was, now := Elems(b.mechanisms[name].sites), refs(b.mechanisms[name].symbol);
      if was == now then [] else [ReachChanged(name, Sorting.Sorted(now - was), Sorting.Sorted(was - now))]
  }

  /** What the check reports, in order: found bodies without a class, recorded bodies that
      are gone, mechanisms whose sites changed. */
  function Reports(b: Baseline, found: set<string>, refs: Refs): seq<Failure> {
    FlatMap(f => ReportFound(b, f), Sorting.Sorted(found))
    + FlatMap(x => ReportRecorded(found, x), Sorting.Sorted(b.bodies))
    + FlatMap(l => ReportMechanism(b, refs, l), Sorting.Sorted(b.mechanisms.Keys))
  }

  lemma ReportsMean(b: Baseline, found: set<string>, refs: Refs, x: Failure)
    ensures x in Reports(b, found, refs) <==> Reported(b, found, refs, x)
  {
    var first, second, third := f => ReportFound(b, f), y => ReportRecorded(found, y), l => ReportMechanism(b, refs, l);
    Sorting.SortedElems(found);
    Sorting.SortedElems(b.bodies);
    Sorting.SortedElems(b.mechanisms.Keys);
    FlatMapElems(first, Sorting.Sorted(found), x);
    FlatMapElems(second, Sorting.Sorted(b.bodies), x);
    FlatMapElems(third, Sorting.Sorted(b.mechanisms.Keys), x);
    if Reported(b, found, refs, x) { assert x in first(x.name) || x in second(x.name) || x in third(x.name); }
  }

  /** Rule R1, over the bodies that were found. */
  method CheckFound(b: Baseline, found: set<string>) returns (failures: seq<Failure>)
    ensures failures == FlatMap(f => ReportFound(b, f), Sorting.Sorted(found))
  {
    failures := [];
    var names := Sorting.Sorted(found);
    ghost var report := f => ReportFound(b, f);
    for n := 0 to |names|
      invariant failures == FlatMap(report, names[..n])
    {
      FlatMapSnoc(report, names, n);
      if names[n] !in b.bodies && names[n] !in b.notbodies {
        failures := failures + [Unclassified(names[n])];
      }
    }
    assert names[..|names|] == names;
  }

  /** Rule R1, over the bodies that are recorded. */
  method CheckRecorded(b: Baseline, found: set<string>) returns (failures: seq<Failure>)
    ensures failures == FlatMap(x => ReportRecorded(found, x), Sorting.Sorted(b.bodies))
  {
    failures := [];
    var names := Sorting.Sorted(b.bodies);
    ghost var report := x => ReportRecorded(found, x);
    for n := 0 to |names|
      invariant failures == FlatMap(report, names[..n])
    {
      FlatMapSnoc(report, names, n);
      if names[n] !in found {
        failures := failures + [Vanished(names[n])];
      }
    }
    assert names[..|names|] == names;
  }

  /** Rule R2 for one mechanism. */
  method CheckMechanism(b: Baseline, refs: Refs, name: string) returns (failures: seq<Failure>)
    requires name in b.mechanisms
    ensures failures == ReportMechanism(b, refs, name)
  {
    var m := b.mechanisms[name];
    var want, got := Sorting.Sorted(Elems(m.sites)), Sorting.Sorted(refs(m.symbol));
    SortedSame(Elems(m.sites), refs(m.symbol));
    WithoutSorted(refs(m.symbol), Elems(m.sites));
    WithoutSorted(Elems(m.sites), refs(m.symbol));
    failures := if want != got then [ReachChanged(name, Without(got, want), Without(want, got))] else [];
  }

  /** Rule R2. */
  method CheckReach(b: Baseline, refs: Refs) returns (failures: seq<Failure>)
    ensures failures == FlatMap(l => ReportMechanism(b, refs, l), Sorting.Sorted(b.mechanisms.Keys))
  {
    failures := [];
    var names := Sorting.Sorted(b.mechanisms.Keys);
    ghost var report := l => ReportMechanism(b, refs, l);
    for n := 0 to |names|
      invariant failures == FlatMap(report, names[..n])
    {
      FlatMapSnoc(report, names, n);
      Sorting.SortedElems(b.mechanisms.Keys);
      assert names[n] in names;
      var changed := CheckMechanism(b, refs, names[n]);
      failures := failures + changed;
    }
    assert names[..|names|] == names;
  }

  function Read(file: Option<string>): Baseline {
    if file.None? then START.base else Parse(file.value)
  }

  /** Whether --write-baseline refuses: nothing to recompute, or a name not classified. */
  predicate Refused(b: Baseline, found: set<string>) {
    b.mechanisms == map[] || !(found <= Both(b))
  }

  function Written(header: seq<string>, file: Option<string>, found: set<string>, refs: Refs): Option<string> {
    if Refused(Read(file), found) then file else Some(Print(header, Read(file), refs))
  }

  class CoverageTool {
    const header: seq<string>
    var file: Option<string>

    constructor (h: seq<string>, f: Option<string>)
      ensures header == h && file == f
    {
      header, file := h, f;
    }

    method Write(found: set<string>, refs: Refs) returns (refused: bool)
      modifies this
      ensures refused <==> Refused(Read(old(file)), found)
      ensures file == Written(header, old(file), found, refs)
    {
      var b := ParseBaseline(file);
      if b.mechanisms == map[] {
        return true;
      }
      var unclassified := Without(Without(Sorting.Sorted(found), Sorting.Sorted(b.bodies)), Sorting.Sorted(b.notbodies));
      WithoutSorted(found, b.bodies);
      WithoutSorted(found - b.bodies, b.notbodies);
      Sorting.SortedElems(found - b.bodies - b.notbodies);
      if unclassified != [] {
        assert unclassified[0] in found - b.bodies - b.notbodies;
        return true;
      }
      assert forall f | f in found :: f !in found - b.bodies - b.notbodies;
      var text := WriteBaseline(header, b, refs);
      file := Some(text);
      refused := false;
    }

    /** The check changes nothing. */
    method Check(found: set<string>, refs: Refs) returns (failures: seq<Failure>, passed: bool)
      ensures failures == Reports(Read(file), found, refs)
      ensures forall x :: x in failures <==> Reported(Read(file), found, refs, x)
      ensures passed <==> failures == []
    {
      var b := ParseBaseline(file);
      var unclassified := CheckFound(b, found);
      var vanished := CheckRecorded(b, found);
      var moved := CheckReach(b, refs);
      failures := unclassified + vanished + moved;
      forall x
        ensures x in Reports(b, found, refs) <==> Reported(b, found, refs, x)
      {
        ReportsMean(b, found, refs, x);
      }
      passed := failures == [];
    }
  }

  lemma ReadIsTidy(file: Option<string>)
    ensures Tidy(Read(file))
  {
    if file.Some? { ParsedIsTidy(file.value); }
  }

  /** No name and no mechanism line in brackets. */
  predicate Unbracketed(b: Baseline) {
    NoBrackets(b) && forall l | l in b.mechanisms :: !Bracketed(LabelLine(l, b.mechanisms[l].symbol))
  }

  lemma UnbracketedRead(header: seq<string>, b: Baseline, refs: Refs)
    requires Comments(header) && Tidy(b) && PlainSites(b, refs) && Unbracketed(b)
    ensures var c := Parse(Print(header, b, refs));
            && c.bodies == b.bodies && c.notbodies == b.notbodies && c.mechanisms.Keys == b.mechanisms.Keys
            && forall l | l in b.mechanisms :: c.mechanisms[l] == Back(l, b.mechanisms[l].symbol, refs)
  {
    var kept := Kept(b.mechanisms, Labels(b), refs);
    PrintedRead(header, b, refs);
    PlainNamesRead(b);
    assert map[] + kept == kept;
    KeysKept(b, refs);
  }

  lemma KeysKept(b: Baseline, refs: Refs)
    requires forall l | l in b.mechanisms :: !Bracketed(LabelLine(l, b.mechanisms[l].symbol))
    ensures var kept := Kept(b.mechanisms, Labels(b), refs);
            kept.Keys == b.mechanisms.Keys && forall l | l in kept :: kept[l] == Back(l, b.mechanisms[l].symbol, refs)
  {
    KeptExactly(b.mechanisms, Labels(b), refs);
    Sorting.SortedElems(b.mechanisms.Keys);
  }

  /** A mechanism without a label has lost its sites. */
  predicate LabelLost(b: Baseline, refs: Refs, x: Failure) {
    && x.ReachChanged? && x.name == "" && "" in b.mechanisms
    && var sites := refs(b.mechanisms[""].symbol);
       sites != {} && x.gained == Sorting.Sorted(sites) && x.lost == []
  }

  /** What a mechanism that was read back makes the check report. */
  lemma BackReported(b: Baseline, refs: Refs, m: Mechanism, x: Failure, gained: seq<string>, lost: seq<string>)
    requires x.name in b.mechanisms && m == Back(x.name, b.mechanisms[x.name].symbol, refs)
    ensures var was, now := Elems(m.sites), refs(m.symbol);
            was != now && gained == Sorting.Sorted(now - was) && lost == Sorting.Sorted(was - now) <==>
            x.name == "" && now != {} && gained == Sorting.Sorted(now) && lost == []
  {
    var now := refs(m.symbol);
    Sorting.SortedElems(now);
    assert Elems(Sorting.Sorted(now)) == now;
    if x.name == "" { assert Elems(m.sites) == {} && now - {} == now && {} - now == {}; }
  }

  /** Straight after a write that was not refused, the sources being what they were, the
      check reports the recorded bodies that are gone, a mechanism without a label that has
      sites, and nothing else, where nothing is in brackets. */
  lemma CheckAfterWrite(header: seq<string>, file: Option<string>, found: set<string>, refs: Refs, x: Failure)
    requires Comments(header) && PlainSites(Read(file), refs) && Unbracketed(Read(file))
    requires !Refused(Read(file), found)
    ensures var b, after := Read(file), Read(Written(header, file, found, refs));
            Reported(after, found, refs, x) <==>
            (x.Vanished? && x.name in b.bodies && x.name !in found) || LabelLost(b, refs, x)
  {
    var b := Read(file);
    ReadIsTidy(file);
    UnbracketedRead(header, b, refs);
    if x.ReachChanged? && x.name in b.mechanisms {
      var after := Parse(Print(header, b, refs));
      BackReported(b, refs, after.mechanisms[x.name], x, x.gained, x.lost);
    }
  }

  /** ... and a second write leaves the file as it is. */
  lemma WriteTwice(header: seq<string>, file: Option<string>, found: set<string>, refs: Refs)
    requires Comments(header) && PlainSites(Read(file), refs) && Unbracketed(Read(file))
    ensures var once := Written(header, file, found, refs); Written(header, once, found, refs) == once
  {
    var b := Read(file);
    if !Refused(b, found) {
      ReadIsTidy(file);
      UnbracketedRead(header, b, refs);
      var c := Parse(Print(header, b, refs));
      Sorting.SortedElems(b.mechanisms.Keys);
      SameLines(b.mechanisms, c.mechanisms, Labels(b), refs);
    }
  }

  lemma {:induction false} SameLines(ms: map<string, Mechanism>, ns: map<string, Mechanism>, labels: seq<string>, refs: Refs)
    requires forall l | l in labels :: l in ms && l in ns && ms[l].symbol == ns[l].symbol
    ensures MechanismLines(ms, labels, refs) == MechanismLines(ns, labels, refs)
  {
    if labels != [] { SameLines(ms, ns, labels[1..], refs); }
  }

  // ----- over whole runs

  datatype Step = CheckStep | WriteStep(found: set<string>, refs: Refs)

  function After(header: seq<string>, file: Option<string>, step: Step): Option<string> {
    match step
    case CheckStep => file
    case WriteStep(found, refs) => Written(header, file, found, refs)
  }

  function Run(header: seq<string>, file: Option<string>, steps: seq<Step>): Option<string>
    decreases |steps|
  {
    if steps == [] then file else Run(header, After(header, file, steps[0]), steps[1..])
  }

  ghost predicate PlainStep(step: Step) {
    step.WriteStep? ==> forall symbol, x | x in step.refs(symbol) :: PlainEntry(x)
  }

  /** Only a person classifies: no run of writes and checks, over whatever sources, classifies
      a name that was in neither list at the start. */
  lemma {:induction false} RunsNeverClassify(header: seq<string>, file: Option<string>, steps: seq<Step>)
    requires Comments(header) && forall s | s in steps :: PlainStep(s)
    ensures Both(Read(Run(header, file, steps))) <= Both(Read(file))
    decreases |steps|
  {
    if steps != [] {
      var step := steps[0];
      var next := After(header, file, step);
      assert PlainStep(step);
      if step.WriteStep? && !Refused(Read(file), step.found) {
        ReadIsTidy(file);
        WriteNeverClassifies(header, Read(file), step.refs);
      }
      RunsNeverClassify(header, next, steps[1..]);
    }
  }
}
