/** The baseline of tools/check_path_coverage.py as text: what the printer puts on each
    line, what the parser takes from each line, and what a write and a check do with it. */
module CoverageText {
  import opened Prelude
  import opened CoverageFile
  import Sorting
  import Text

  // ----- the lines that are printed

  lemma NamesShape(b: Baseline)
    ensures Names(b) ==
            ["", "[BODIES]"] + Sorting.Sorted(b.bodies) + ["", "[NOTBODIES]"] + Sorting.Sorted(b.notbodies) + ["", "[MECHANISMS]"]
  {
    assert Header("BODIES") == "[BODIES]" && Header("NOTBODIES") == "[NOTBODIES]" && Header("MECHANISMS") == "[MECHANISMS]";
  }

  lemma {:induction false} SiteLinesAt(sites: seq<string>, k: nat)
    requires k < |sites|
    ensures |SiteLines(sites)| == |sites| && SiteLines(sites)[k] == "  " + sites[k]
    decreases |sites|
  {
    if k > 0 { SiteLinesAt(sites[1..], k - 1); } else if |sites| > 1 { SiteLinesAt(sites[1..], 0); }
  }

  /** A mechanism: its label and symbol around an equals sign, its sites in order on lines
      of their own, and an empty line. */
  lemma BlockShape(name: string, symbol: string, refs: Refs)
    ensures var block, sites := Block(name, symbol, refs), Sorting.Sorted(refs(symbol));
            && |block| == |sites| + 2 && block[0] == name + " = " + symbol && block[|block| - 1] == ""
            && forall k | 0 <= k < |sites| :: block[k + 1] == "  " + sites[k]
  {
    var sites := Sorting.Sorted(refs(symbol));
    forall k | 0 <= k < |sites|
      ensures |SiteLines(sites)| == |sites| && SiteLines(sites)[k] == "  " + sites[k]
    {
      SiteLinesAt(sites, k);
    }
  }

  /** The mechanisms stand one after the other. */
  lemma {:induction false} BlocksInOrder(ms: map<string, Mechanism>, labels: seq<string>, refs: Refs)
    requires forall l | l in labels :: l in ms
    ensures MechanismLines(ms, labels, refs) ==
            FlatMap(l => if l in ms then Block(l, ms[l].symbol, refs) else [], labels)
  {
    if labels != [] {
      var init, last := labels[..|labels| - 1], labels[|labels| - 1];
      assert labels == init + [last];
      BlocksInOrder(ms, init, refs);
      MechanismLinesSnoc(ms, init, last, refs);
    }
  }

  predicate Newlines(s: string) {
    forall k | 0 <= k < |s| :: s[k] == '\n'
  }

  lemma {:induction false} NewlinesStripped(s: string) returns (more: string)
    ensures Newlines(more) && s == RStripNewlines(s) + more
    ensures var t := RStripNewlines(s); t == "" || t[|t| - 1] != '\n'
  {
    if s != "" && s[|s| - 1] == '\n' {
      var rest := NewlinesStripped(s[..|s| - 1]);
      more := rest + "\n";
      assert RStripNewlines(s) + more == (RStripNewlines(s) + rest) + "\n";
    } else {
      more := "";
    }
  }

  /** The text is its lines, joined by newlines, without the empty lines at the end and
      with one newline after the last. */
  lemma PrintedText(header: seq<string>, b: Baseline, refs: Refs) returns (more: string)
    ensures var text := Print(header, b, refs);
            && Newlines(more) && Text.Join(Lines(header, b, refs), "\n") + "\n" == text + more
            && text[|text| - 1] == '\n' && (|text| > 1 ==> text[|text| - 2] != '\n')
  {
    var s := Text.Join(Lines(header, b, refs), "\n");
    more := NewlinesStripped(s);
    var t := RStripNewlines(s);
    NewlineMoves(more);
    assert s + "\n" == t + (more + "\n") == t + ("\n" + more) == (t + "\n") + more;
  }

  lemma {:induction false} NewlineMoves(more: string)
    requires Newlines(more)
    ensures more + "\n" == "\n" + more
  {
    if more != "" {
      NewlineMoves(more[1..]);
      assert more == "\n" + more[1..];
    }
  }

  // ----- the lines that are read

  /** Blank lines and comments, after blanks or not, say nothing. */
  lemma NothingSaid(p: Parser, left: string, rest: string)
    requires Text.AllSpace(left)
    ensures ParseLine(p, left) == p && ParseLine(p, left + "#" + rest) == p
  {
    Text.LStripPad(left, "");
    assert left + "" == left;
    assert left + "#" + rest == left + ("#" + rest);
    Text.LStripPad(left, "#" + rest);
    assert ("#" + rest)[..1] == "#";
  }

  /** A line in brackets opens the section it names, whatever the name. */
  lemma SectionSaid(p: Parser, name: string)
    ensures ParseLine(p, "[" + name + "]") == p.(section := Some(name))
  {
    HeaderLine(p, name);
  }

  /** A name, with any blanks around it, is added to the list of its section, and says
      nothing in a section of another name. */
  lemma NameSaid(p: Parser, left: string, x: string, right: string)
    requires Text.AllSpace(left) && Text.AllSpace(right) && PlainEntry(x) && !Bracketed(left + x + right)
    ensures var r := ParseLine(p, left + x + right);
            && (p.section == Some("BODIES") ==> r == p.(base := p.base.(bodies := p.base.bodies + {x})))
            && (p.section == Some("NOTBODIES") ==> r == p.(base := p.base.(notbodies := p.base.notbodies + {x})))
            && (p.section.None? || p.section.value !in {"BODIES", "NOTBODIES", "MECHANISMS"} ==> r == p)
  {
    NotSkipped(left, x, right);
  }

  lemma NotSkipped(left: string, x: string, right: string)
    requires Text.AllSpace(left) && Text.AllSpace(right) && PlainEntry(x)
    ensures !Skipped(left + x + right) && Text.Strip(left + x + right) == x
  {
    Text.StripPad(left, x, right);
    assert left + x + right == left + (x + right);
    Text.LStripPad(left, x + right);
    assert (x + right)[0] == x[0];
  }

  /** A site, with at least two blanks before it, goes to the last label, unless that is
      empty. */
  lemma SiteSaid(p: Parser, left: string, x: string, right: string, name: string)
    requires Text.AllSpace(left) && Text.AllSpace(right) && PlainEntry(x) && !Bracketed("  " + left + x + right)
    requires p.section == Some("MECHANISMS") && p.current == Some(name) && name in p.base.mechanisms
    ensures var m := p.base.mechanisms[name];
            ParseLine(p, "  " + left + x + right) ==
            if name == "" then p else p.(base := p.base.(mechanisms := p.base.mechanisms[name := m.(sites := m.sites + [x])]))
  {
    var line := "  " + left + x + right;
    assert line == ("  " + left) + x + right;
    NotSkipped("  " + left, x, right);
    assert line[..2] == "  ";
  }

  /** A label and its symbol, around the first equals sign with any blanks, start a
      mechanism without sites. */
  lemma LabelSaid(p: Parser, a: string, l: string, b: string, c: string, s: string, d: string)
    requires Text.AllSpace(a) && Text.AllSpace(b) && Text.AllSpace(c) && Text.AllSpace(d)
    requires PlainMechanism(l, s) && p.section == Some("MECHANISMS")
    requires var line := (a + l + b) + "=" + (c + s + d); !Text.StartsWith(line, "  ") && !Bracketed(line)
    ensures ParseLine(p, (a + l + b) + "=" + (c + s + d)) ==
            p.(current := Some(l), base := p.base.(mechanisms := p.base.mechanisms[l := Mechanism(s, [])]))
  {
    var line := (a + l + b) + "=" + (c + s + d);
    assert '=' !in a && '=' !in b;
    PartitionAt(a + l + b, c + s + d);
    Text.StripPad(a, l, b);
    Text.StripPad(c, s, d);
    LabelIsSaid(a, l, b, c + s + d);
  }

  lemma LabelIsSaid(a: string, l: string, b: string, rest: string)
    requires Text.AllSpace(a) && Text.AllSpace(b) && Text.Trimmed(l) && (l != "" ==> l[0] != '#')
    ensures !Skipped((a + l + b) + "=" + rest)
  {
    var line, pad := (a + l + b) + "=" + rest, if l == "" then a + b else a;
    var tail := if l == "" then "=" + rest else l + (b + "=" + rest);
    assert line == pad + tail;
    Text.LStripPad(pad, tail);
    StartSaid(line, tail);
  }

  lemma StartSaid(line: string, tail: string)
    requires Text.LStrip(line) == Text.LStrip(tail) && tail != "" && !Text.IsSpace(tail[0]) && tail[0] != '#'
    ensures !Skipped(line)
  {
    assert Text.LStrip(tail) == tail;
    Text.RStripHead(tail);
    NotAllSpace(tail, 0);
  }

  // ----- what a write and a check do

  /** The write leaves the file alone when it holds no mechanism or a found name is in
      neither list, and otherwise rewrites it. */
  lemma WrittenExactly(header: seq<string>, file: Option<string>, found: set<string>, refs: Refs)
    ensures var b, after := Read(file), Written(header, file, found, refs);
            && (b.mechanisms.Keys == {} ==> after == file)
            && ((exists f :: f in found && f !in b.bodies && f !in b.notbodies) ==> after == file)
            && ((exists l :: l in b.mechanisms) && (forall f | f in found :: f in b.bodies || f in b.notbodies) ==>
                after == Some(Print(header, b, refs)))
  {
    var b := Read(file);
    if b.mechanisms.Keys == {} { assert b.mechanisms == map[]; }
  }

  /** A missing file reads as an empty baseline, so a write leaves it missing. */
  lemma MissingStays(header: seq<string>, found: set<string>, refs: Refs)
    ensures Read(None) == Baseline({}, {}, map[]) && Written(header, None, found, refs) == None
  {}

  /** A changed mechanism is reported with the sites that are new and those that are gone,
      each list in order. */
  lemma ReachMeans(b: Baseline, found: set<string>, refs: Refs, l: string, gained: seq<string>, lost: seq<string>)
    requires ReachChanged(l, gained, lost) in Reports(b, found, refs)
    ensures l in b.mechanisms && (gained != [] || lost != [])
    ensures var m := b.mechanisms[l];
            forall x :: (x in gained <==> x in refs(m.symbol) && x !in m.sites) && (x in lost <==> x in m.sites && x !in refs(m.symbol))
    ensures forall i, j | 0 <= i < j < |gained| :: Sorting.Le(gained[i], gained[j]) && gained[i] != gained[j]
    ensures forall i, j | 0 <= i < j < |lost| :: Sorting.Le(lost[i], lost[j]) && lost[i] != lost[j]
  {
    ReportsMean(b, found, refs, ReachChanged(l, gained, lost));
    var was, now := Elems(b.mechanisms[l].sites), refs(b.mechanisms[l].symbol);
    Sorting.SortedElems(now - was);
    Sorting.SortedElems(was - now);
    forall i, j | 0 <= i < j < |gained|
      ensures Sorting.Le(gained[i], gained[j]) && gained[i] != gained[j]
    {
      Sorting.SortedOrder(now - was, i, j);
    }
    forall i, j | 0 <= i < j < |lost|
      ensures Sorting.Le(lost[i], lost[j]) && lost[i] != lost[j]
    {
      Sorting.SortedOrder(was - now, i, j);
    }
    assert now - was != {} || was - now != {};
  }

  /** A name is reported as unclassified when it is found and in neither list, and as gone
      when it is a recorded body that is not found; a mechanism when its sites changed. */
  lemma NamesReported(b: Baseline, found: set<string>, refs: Refs, y: string)
    ensures Unclassified(y) in Reports(b, found, refs) <==> y in found && y !in b.bodies && y !in b.notbodies
    ensures Vanished(y) in Reports(b, found, refs) <==> y in b.bodies && y !in found
    ensures (exists g, h :: ReachChanged(y, g, h) in Reports(b, found, refs)) <==>
            y in b.mechanisms && exists x :: (x in b.mechanisms[y].sites) != (x in refs(b.mechanisms[y].symbol))
  {
    ReportsMean(b, found, refs, Unclassified(y));
    ReportsMean(b, found, refs, Vanished(y));
    if y in b.mechanisms {
      var was, now := Elems(b.mechanisms[y].sites), refs(b.mechanisms[y].symbol);
      var report := ReachChanged(y, Sorting.Sorted(now - was), Sorting.Sorted(was - now));
      ReportsMean(b, found, refs, report);
      if was == now {
        assert forall x :: x in b.mechanisms[y].sites <==> x in was;
      } else {
        assert exists x :: (x in was) != (x in now);
        assert forall x :: x in b.mechanisms[y].sites <==> x in was;
      }
    }
    forall g, h | ReachChanged(y, g, h) in Reports(b, found, refs)
      ensures y in b.mechanisms && Elems(b.mechanisms[y].sites) != refs(b.mechanisms[y].symbol)
    {
      ReportsMean(b, found, refs, ReachChanged(y, g, h));
    }
  }
}
