/** reference_sites of tools/check_path_coverage.py: where a symbol is used outside
    comments and docstrings, and how its idea of a docstring compares with that of
    tools/check_gpu_guards.py. */
module ReferenceSites {
  import CoverageFile
  import ReadCode
  import Sorting
  import Stripper
  import Text

  /** stripped.count of three quotes: leftmost occurrences that do not overlap. */
  function Quotes(s: string): nat {
    if s == "" then 0 else if Stripper.TripleAt(s, 0) then 1 + Quotes(s[3..]) else Quotes(s[1..])
  }

  /** Whether the line after this one is inside a docstring. */
  function Next(line: string, inDoc: bool): bool {
    var quotes := Quotes(Text.Strip(line));
    if inDoc then quotes == 0 else quotes == 1
  }

  /** Whether line i is inside a docstring. */
  function InDoc(lines: seq<string>, i: nat): bool
    requires i <= |lines|
  {
    i > 0 && Next(lines[i - 1], InDoc(lines, i - 1))
  }

  /** Line i is searched for the symbol. */
  predicate Searched(lines: seq<string>, i: nat) {
    && i < |lines| && !InDoc(lines, i) && Quotes(Text.Strip(lines[i])) != 1
    && !Text.StartsWith(Text.Strip(lines[i]), "#")
  }

  type Files = map<string, seq<string>>

  /** Every line has an owner. */
  predicate Owned(files: Files, own: Files) {
    forall f | f in files :: f in own && |own[f]| == |files[f]|
  }

  predicate UsedAt(lines: seq<string>, i: nat, uses: string -> bool) {
    Searched(lines, i) && uses(lines[i])
  }

  function FileSites(name: string, lines: seq<string>, owners: seq<string>, uses: string -> bool, n: nat): set<string>
    requires n <= |lines| == |owners|
  {
    set i | 0 <= i < n && UsedAt(lines, i, uses) :: name + "::" + owners[i]
  }

  /** The sites of the symbol that `uses` looks for. */
  function Sites(files: Files, own: Files, uses: string -> bool): set<string>
    requires Owned(files, own)
  {
    set f, s | f in files && s in FileSites(f, files[f], own[f], uses, |files[f]|) :: s
  }

  method ScanFile(name: string, lines: seq<string>, owners: seq<string>, uses: string -> bool, before: set<string>)
    returns (sites: set<string>)
    requires |lines| == |owners|
    ensures sites == before + FileSites(name, lines, owners, uses, |lines|)
  {
    sites := before;
    var inDoc := false;
    for i := 0 to |lines|
      invariant inDoc == InDoc(lines, i)
      invariant sites == before + FileSites(name, lines, owners, uses, i)
    {
      var stripped := Text.Strip(lines[i]);
      var quotes := Quotes(stripped);
      FileSitesNext(name, lines, owners, uses, i);
      if inDoc {
        if quotes > 0 {
          inDoc := false;
        }
        continue;
      }
      if quotes == 1 {
        inDoc := true;
        continue;
      }
      if Text.StartsWith(stripped, "#") {
        continue;
      }
      if uses(lines[i]) {
        sites := sites + {name + "::" + owners[i]};
      }
    }
  }

  lemma FileSitesNext(name: string, lines: seq<string>, owners: seq<string>, uses: string -> bool, n: nat)
    requires n < |lines| == |owners|
    ensures FileSites(name, lines, owners, uses, n + 1) == FileSites(name, lines, owners, uses, n)
      + if UsedAt(lines, n, uses) then {name + "::" + owners[n]} else {}
  {
    var all, some := FileSites(name, lines, owners, uses, n + 1), FileSites(name, lines, owners, uses, n);
    if UsedAt(lines, n, uses) { assert name + "::" + owners[n] in all; }
    forall s | s in some
      ensures s in all
    {
      var i :| 0 <= i < n && UsedAt(lines, i, uses) && name + "::" + owners[i] == s;
    }
  }

  /** The sites, sorted. */
  method FindSites(files: Files, own: Files, uses: string -> bool) returns (r: seq<string>)
    requires Owned(files, own)
    ensures r == Sorting.Sorted(Sites(files, own, uses))
  {
    var sites: set<string> := {};
    var left := files.Keys;
    while left != {}
      invariant left <= files.Keys
      invariant forall s :: s in sites <==> exists f :: f in files && f !in left && s in FileSites(f, files[f], own[f], uses, |files[f]|)
      decreases |left|
    {
      var name := Sorting.Least(left);
      sites := ScanFile(name, files[name], own[name], uses, sites);
      left := left - {name};
    }
    assert sites == Sites(files, own, uses);
    r := Sorting.Sorted(sites);
  }

  /** A file name that neither starts with a blank or a `#` nor spans lines. */
  predicate PlainFile(name: string) {
    name != "" && !Text.IsSpace(name[0]) && name[0] != '#' && '\n' !in name
  }

  predicate PlainOwner(owner: string) {
    owner != "" && !Text.IsSpace(owner[|owner| - 1]) && '\n' !in owner
  }

  /** The sites can be written to the baseline and read back. */
  lemma SitesArePlain(files: Files, own: Files, uses: string -> bool, site: string)
    requires Owned(files, own) && forall f | f in files :: PlainFile(f) && forall o | o in own[f] :: PlainOwner(o)
    requires site in Sites(files, own, uses)
    ensures CoverageFile.PlainEntry(site)
  {
    var f :| f in files && site in FileSites(f, files[f], own[f], uses, |files[f]|);
    var i :| 0 <= i < |files[f]| && UsedAt(files[f], i, uses) && site == f + "::" + own[f][i];
    assert own[f][i] in own[f];
    assert site[0] == f[0] && site[|site| - 1] == own[f][i][|own[f][i]| - 1];
  }

  // ----- two readers of docstrings

  lemma {:induction false} NoQuotes(s: string)
    ensures Quotes(s) == 0 <==> !ReadCode.HasTriple(s)
    decreases |s|
  {
    if s != "" && !Stripper.TripleAt(s, 0) {
      NoQuotes(s[1..]);
      if k :| 0 <= k < |s| && Stripper.TripleAt(s, k) { assert Stripper.TripleAt(s[1..], k - 1); }
      if k :| 0 <= k < |s| - 1 && Stripper.TripleAt(s[1..], k) { assert Stripper.TripleAt(s, k + 1); }
    }
  }

  /** A line that starts with three quotes stays open exactly when it holds them once. */
  lemma OpenOnce(line: string)
    requires ReadCode.Opens(line)
    ensures ReadCode.StaysOpen(line) <==> Quotes(Text.Strip(line)) == 1
  {
    var s := Text.Strip(line);
    if Text.StartsWith(s, ReadCode.RAW) {
      assert s[..4][0] == 'r' && s[..4][1] == '"' && s[..4][2] == '"' && s[..4][3] == '"';
      assert Stripper.TripleAt(s[1..], 0) && s[1..][3..] == s[4..];
      NoQuotes(s[4..]);
    } else {
      assert s[..3][0] == '"' && s[..3][1] == '"' && s[..3][2] == '"';
      assert Stripper.TripleAt(s, 0);
      NoQuotes(s[3..]);
    }
  }

  /** Three quotes, once, only at the start of the line. */
  predicate Regular(line: string) {
    Quotes(Text.Strip(line)) == 1 ==> ReadCode.Opens(line)
  }

  lemma NextAgrees(line: string, inDoc: bool)
    ensures Next(line, inDoc) == ReadCode.After(line, inDoc) <==> inDoc || Regular(line)
  {
    NoQuotes(Text.Strip(line));
    if ReadCode.Opens(line) { OpenOnce(line); }
  }

  /** The two tools agree on what is inside a docstring up to line n exactly when no line
      outside one holds its only three quotes somewhere else than at its start. */
  lemma {:induction false} ReadersAgreeExactly(lines: seq<string>, n: nat)
    requires n <= |lines|
    ensures (forall i: nat | i <= n :: AgreeBefore(lines, i)) <==> forall i: nat | i < n :: RegularAt(lines, i)
  {
    if n > 0 {
      ReadersAgreeExactly(lines, n - 1);
      if AgreeBefore(lines, n - 1) { AgreeNext(lines, n - 1); }
    } else {
      assert forall i: nat | i <= n :: AgreeBefore(lines, i);
    }
  }

  /** The two readers agree on whether line i stands in a docstring. */
  predicate AgreeBefore(lines: seq<string>, i: nat) {
    i <= |lines| && InDoc(lines, i) == ReadCode.EndsInDoc(lines[..i], false)
  }

  predicate RegularAt(lines: seq<string>, i: nat) {
    i < |lines| && (InDoc(lines, i) || Regular(lines[i]))
  }

  lemma AgreeNext(lines: seq<string>, m: nat)
    requires m < |lines| && AgreeBefore(lines, m)
    ensures AgreeBefore(lines, m + 1) <==> RegularAt(lines, m)
  {
    ReadCode.ReadNext(lines, m);
    NextAgrees(lines[m], InDoc(lines, m));
    assert InDoc(lines, m + 1) == Next(lines[m], InDoc(lines, m));
  }

  /** Where they agree, the lines that are searched are those the other tool keeps, but
      for whole-line comments, and the docstrings that open and close on one line. */
  lemma SearchedExactly(lines: seq<string>, i: nat)
    requires i < |lines| && InDoc(lines, i) == ReadCode.EndsInDoc(lines[..i], false)
    requires InDoc(lines, i) || Regular(lines[i])
    ensures Searched(lines, i) <==>
            && !ReadCode.EndsInDoc(lines[..i], false)
            && (ReadCode.Opens(lines[i]) ==> !ReadCode.StaysOpen(lines[i]))
            && !Text.StartsWith(Text.Strip(lines[i]), "#")
  {
    if ReadCode.Opens(lines[i]) { OpenOnce(lines[i]); }
  }

  lemma {:induction false} QuotesAfter(text: string)
    requires '"' !in text
    ensures Quotes(text + ReadCode.QUOTES) == 1
  {
    var s := text + ReadCode.QUOTES;
    if text == "" {
      assert s == ReadCode.QUOTES && Stripper.TripleAt(s, 0) && s[3..] == "";
    } else {
      assert s[0] == text[0] && s[1..] == text[1..] + ReadCode.QUOTES;
      QuotesAfter(text[1..]);
    }
  }

  /** A docstring on one line is searched here, where the other tool blanks it. */
  lemma OneLineDocstringSearched(text: string)
    requires '"' !in text
    ensures var line := ReadCode.QUOTES + text + ReadCode.QUOTES;
            Searched([line], 0) && ReadCode.Read([line], false) == [""]
  {
    var line := ReadCode.QUOTES + text + ReadCode.QUOTES;
    assert line[0] == '"' && line[|line| - 1] == '"' && !Text.IsSpace('"');
    Text.StripTrimmed(line);
    assert Stripper.TripleAt(line, 0) && line[3..] == text + ReadCode.QUOTES;
    QuotesAfter(text);
    assert line[..3] == ReadCode.QUOTES;
    assert ReadCode.Read([line], false) == [ReadCode.Kept(line, false)] + ReadCode.Read([line][1..], ReadCode.After(line, false));
  }

  // ----- what is counted and named

  /** The count takes the leftmost three quotes and goes on after them. */
  lemma QuotesCount(a: string, b: string)
    ensures Quotes(a) == 0 <==> forall k :: !Stripper.TripleAt(a, k)
    ensures Stripper.FindTriple(a + ReadCode.QUOTES, 0) == |a| ==> Quotes(a + ReadCode.QUOTES + b) == 1 + Quotes(b)
  {
    NoQuotesExactly(a);
    if Stripper.FindTriple(a + ReadCode.QUOTES, 0) == |a| { FirstQuotes(a, b); }
  }

  lemma {:induction false} NoQuotesExactly(s: string)
    ensures Quotes(s) == 0 <==> forall k :: !Stripper.TripleAt(s, k)
  {
    if s != "" {
      NoQuotesExactly(s[1..]);
      forall k: nat | k > 0
        ensures Stripper.TripleAt(s, k) <==> Stripper.TripleAt(s[1..], k - 1)
      {}
      if k: nat :| Stripper.TripleAt(s[1..], k) { assert Stripper.TripleAt(s, k + 1); }
    }
  }

  lemma {:induction false} FirstQuotes(a: string, b: string)
    requires forall k | 0 <= k < |a| :: !Stripper.TripleAt(a + ReadCode.QUOTES, k)
    ensures Quotes(a + ReadCode.QUOTES + b) == 1 + Quotes(b)
  {
    var s := a + ReadCode.QUOTES + b;
    if a == "" {
      assert Stripper.TripleAt(s, 0) && s[3..] == b;
    } else {
      assert Stripper.TripleAt(s, 0) <==> Stripper.TripleAt(a + ReadCode.QUOTES, 0);
      assert s[1..] == a[1..] + ReadCode.QUOTES + b;
      forall k | 0 <= k < |a| - 1
        ensures !Stripper.TripleAt(a[1..] + ReadCode.QUOTES, k)
      {
        assert !Stripper.TripleAt(a + ReadCode.QUOTES, k + 1);
      }
      FirstQuotes(a[1..], b);
    }
  }

  /** A site is the file and the owner of a searched line that uses the symbol. */
  lemma SitesExactly(files: Files, own: Files, uses: string -> bool, s: string)
    requires Owned(files, own)
    ensures s in Sites(files, own, uses) <==>
            exists f, i: nat :: f in files && Searched(files[f], i) && uses(files[f][i]) && s == f + "::" + own[f][i]
  {
    if s in Sites(files, own, uses) {
      var f :| f in files && s in FileSites(f, files[f], own[f], uses, |files[f]|);
      var i :| 0 <= i < |files[f]| && UsedAt(files[f], i, uses) && s == f + "::" + own[f][i];
      assert Searched(files[f], i);
    }
    if f, i: nat :| f in files && Searched(files[f], i) && uses(files[f][i]) && s == f + "::" + own[f][i] {
      assert UsedAt(files[f], i, uses);
      assert s in FileSites(f, files[f], own[f], uses, |files[f]|);
    }
  }
}
