/** What tools/check_gpu_guards.py reads of a source file before it scans it: one line
    for each line of the file, docstrings blanked and comments cut. */
module ReadCode {
  import Stripper
  import Text

  const QUOTES: string := "\"\"\""
  const RAW: string := "r\"\"\""

  predicate HasTriple(s: string) {
    exists k | 0 <= k < |s| :: Stripper.TripleAt(s, k)
  }

  /** The line starts with three quotes, raw or not. */
  predicate Opens(line: string) {
    Text.StartsWith(Text.Strip(line), QUOTES) || Text.StartsWith(Text.Strip(line), RAW)
  }

  /** ... and does not close what it opens. */
  predicate StaysOpen(line: string)
    requires Opens(line)
  {
    var stripped := Text.Strip(line);
    !HasTriple(if Text.StartsWith(stripped, RAW) then stripped[4..] else stripped[3..])
  }

  /** re.sub(r"#.*$", "", line) */
  function CutComment(line: string): string {
    if line == "" || line[0] == '#' then "" else [line[0]] + CutComment(line[1..])
  }

  /** What is kept of a line, inside or outside a docstring, and where it leaves us. */
  function Kept(line: string, inDoc: bool): string {
    if inDoc || Opens(line) then "" else CutComment(line)
  }

  function After(line: string, inDoc: bool): bool {
    if inDoc then !HasTriple(Text.Strip(line)) else Opens(line) && StaysOpen(line)
  }

  function Read(lines: seq<string>, inDoc: bool): seq<string> {
    if lines == [] then [] else [Kept(lines[0], inDoc)] + Read(lines[1..], After(lines[0], inDoc))
  }

  /** Whether the lines end inside a docstring. */
  function EndsInDoc(lines: seq<string>, inDoc: bool): bool {
    if lines == [] then inDoc else EndsInDoc(lines[1..], After(lines[0], inDoc))
  }

  lemma {:induction false} EndsAppend(a: seq<string>, b: seq<string>, inDoc: bool)
    ensures EndsInDoc(a + b, inDoc) == EndsInDoc(b, EndsInDoc(a, inDoc))
    decreases |a|
  {
    if a == [] {
      assert a + b == b;
    } else {
      assert (a + b)[1..] == a[1..] + b;
      EndsAppend(a[1..], b, After(a[0], inDoc));
    }
  }

  lemma {:induction false} ReadAppend(a: seq<string>, b: seq<string>, inDoc: bool)
    ensures Read(a + b, inDoc) == Read(a, inDoc) + Read(b, EndsInDoc(a, inDoc))
    decreases |a|
  {
    if a == [] {
      assert a + b == b;
    } else {
      assert (a + b)[1..] == a[1..] + b;
      ReadAppend(a[1..], b, After(a[0], inDoc));
    }
  }

  lemma ReadNext(lines: seq<string>, n: nat)
    requires n < |lines|
    ensures var inDoc := EndsInDoc(lines[..n], false);
            && Read(lines[..n + 1], false) == Read(lines[..n], false) + [Kept(lines[n], inDoc)]
            && EndsInDoc(lines[..n + 1], false) == After(lines[n], inDoc)
  {
    assert lines[..n + 1] == lines[..n] + [lines[n]];
    ReadAppend(lines[..n], [lines[n]], false);
    EndsAppend(lines[..n], [lines[n]], false);
  }

  method ReadFile(text: string) returns (out: seq<string>)
    ensures out == Read(Text.Split(text, '\n'), false)
  {
    out := [];
    var inDoc := false;
    var raw := Text.Split(text, '\n');
    for n := 0 to |raw|
      invariant out == Read(raw[..n], false) && inDoc == EndsInDoc(raw[..n], false)
    {
      ReadNext(raw, n);
      var stripped := Text.Strip(raw[n]);
      if inDoc {
        if HasTriple(stripped) {
          inDoc := false;
        }
        out := out + [""];
        continue;
      }
      if Text.StartsWith(stripped, QUOTES) || Text.StartsWith(stripped, RAW) {
        var rest := if Text.StartsWith(stripped, RAW) then stripped[4..] else stripped[3..];
        if !HasTriple(rest) {
          inDoc := true;
        }
        out := out + [""];
        continue;
      }
      out := out + [CutComment(raw[n])];
    }
    assert raw[..|raw|] == raw;
  }

  // ----- what the scan may rely on

  function IndentOf(line: string): int {
    |line| - |Text.LStrip(line)|
  }

  lemma {:induction false} CutIsPrefix(line: string)
    ensures Text.StartsWith(line, CutComment(line)) && '#' !in CutComment(line)
    ensures CutComment(line) == line <==> '#' !in line
  {
    if line != "" && line[0] != '#' {
      CutIsPrefix(line[1..]);
      var cut := CutComment(line[1..]);
      assert line[..1 + |cut|] == [line[0]] + line[1..][..|cut|];
    }
  }

  lemma {:induction false} PrefixLStrip(line: string, n: nat)
    requires n <= |line| && Text.LStrip(line[..n]) != ""
    ensures Text.StartsWith(Text.LStrip(line), Text.LStrip(line[..n]))
    ensures IndentOf(line[..n]) == IndentOf(line)
  {
    if Text.IsSpace(line[0]) {
      assert line[..n][1..] == line[1..][..n - 1];
      PrefixLStrip(line[1..], n - 1);
    }
  }

  /** Line for line: every line is blanked or kept up to its first `#`, and a line that
      is not blank keeps its column. */
  lemma {:induction false} LineForLine(lines: seq<string>, inDoc: bool, k: nat)
    requires k < |lines|
    ensures |Read(lines, inDoc)| == |lines|
    ensures var r := Read(lines, inDoc)[k];
            && (r == "" || r == CutComment(lines[k])) && '#' !in r
            && (Text.LStrip(r) != "" ==> IndentOf(r) == IndentOf(lines[k]))
    decreases |lines|
  {
    CutIsPrefix(lines[k]);
    if Text.LStrip(CutComment(lines[k])) != "" { PrefixLStrip(lines[k], |CutComment(lines[k])|); }
    if |lines| > 1 {
      LineForLine(lines[1..], After(lines[0], inDoc), if k > 0 then k - 1 else 0);
    }
  }

  /** Prose is not read: from a line that opens a docstring to the first later line that
      closes it everything is blank, and the code goes on after it. */
  lemma {:induction false} DocstringBlanked(lines: seq<string>, n: nat)
    requires 0 < n < |lines| && Opens(lines[0]) && StaysOpen(lines[0])
    requires HasTriple(Text.Strip(lines[n]))
    requires forall k | 0 < k < n :: !HasTriple(Text.Strip(lines[k]))
    ensures Read(lines, false) == seq(n + 1, _ => "") + Read(lines[n + 1..], false)
  {
    StillInside(lines[1..], n - 1);
    assert lines[1..][n - 1 + 1..] == lines[n + 1..];
    assert seq(n + 1, _ => "") == [""] + seq(n, _ => "");
  }

  lemma {:induction false} StillInside(lines: seq<string>, n: nat)
    requires n < |lines| && HasTriple(Text.Strip(lines[n]))
    requires forall k | 0 <= k < n :: !HasTriple(Text.Strip(lines[k]))
    ensures Read(lines, true) == seq(n + 1, _ => "") + Read(lines[n + 1..], false)
    decreases n
  {
    if n == 0 {
      assert seq(1, _ => "") == [""];
    } else {
      forall k | 0 <= k < n - 1
        ensures !HasTriple(Text.Strip(lines[1..][k]))
      {
        assert lines[1..][k] == lines[k + 1];
      }
      StillInside(lines[1..], n - 1);
      assert lines[1..][n - 1 + 1..] == lines[n + 1..];
      assert seq(n + 1, _ => "") == [""] + seq(n, _ => "");
    }
  }

  /** Nothing in the line for the reader to drop. */
  predicate CleanLine(line: string) {
    '#' !in line && !Opens(line)
  }

  lemma {:induction false} StripStarts(s: string, p: string)
    requires p != "" && !Text.IsSpace(p[|p| - 1])
    ensures Text.StartsWith(Text.RStrip(s), p) <==> Text.StartsWith(s, p)
  {
    if s != "" && Text.IsSpace(s[|s| - 1]) {
      var n := |s| - 1;
      StripStarts(s[..n], p);
      if |p| <= n { assert s[..n][..|p|] == s[..|p|]; }
    }
  }

  lemma OpensEarly(line: string)
    requires Opens(CutComment(line))
    ensures Opens(line)
  {
    var cut := CutComment(line);
    CutIsPrefix(line);
    StripStarts(Text.LStrip(cut), QUOTES);
    StripStarts(Text.LStrip(cut), RAW);
    StripStarts(Text.LStrip(line), QUOTES);
    StripStarts(Text.LStrip(line), RAW);
    PrefixLStrip(line, |cut|);
    var a, b := Text.LStrip(cut), Text.LStrip(line);
    if Text.StartsWith(a, QUOTES) { assert b[..|a|][..3] == b[..3]; } else { assert b[..|a|][..4] == b[..4]; }
  }

  /** A file is read as it stands exactly when it has no comment and no docstring... */
  lemma {:induction false} FixedExactly(lines: seq<string>)
    ensures Read(lines, false) == lines <==> forall k | 0 <= k < |lines| :: CleanLine(lines[k])
    decreases |lines|
  {
    if lines != [] {
      var line, rest := lines[0], lines[1..];
      CutIsPrefix(line);
      FixedExactly(rest);
      assert lines == [line] + rest;
      if CleanLine(line) {
        assert Read(lines, false) == [line] + Read(rest, false);
        assert (forall k | 0 <= k < |lines| :: CleanLine(lines[k])) <==> forall k | 0 <= k < |rest| :: CleanLine(rest[k]) by {
          assert forall k | 0 < k < |lines| :: lines[k] == rest[k - 1];
          assert forall k | 0 <= k < |rest| :: rest[k] == lines[k + 1];
        }
      } else {
        assert Read(lines, false)[0] != line;
      }
    }
  }

  lemma {:induction false} ReadIsClean(lines: seq<string>, inDoc: bool, k: nat)
    requires k < |Read(lines, inDoc)|
    ensures CleanLine(Read(lines, inDoc)[k])
    decreases |lines|
  {
    var line := lines[0];
    CutIsPrefix(line);
    if k == 0 {
      if Opens(CutComment(line)) { OpensEarly(line); }
    } else {
      ReadIsClean(lines[1..], After(line, inDoc), k - 1);
    }
  }

  /** ... so what was read reads as itself. */
  lemma ReadTwice(lines: seq<string>, inDoc: bool)
    ensures Read(Read(lines, inDoc), false) == Read(lines, inDoc)
  {
    forall k | 0 <= k < |Read(lines, inDoc)|
      ensures CleanLine(Read(lines, inDoc)[k])
    {
      ReadIsClean(lines, inDoc, k);
    }
    FixedExactly(Read(lines, inDoc));
  }

  // ----- line by line

  /** What becomes of a line depends on it and on whether it stands in a docstring. */
  lemma {:induction false} ReadAt(lines: seq<string>, inDoc: bool, k: nat)
    requires k < |lines|
    ensures |Read(lines, inDoc)| == |lines|
    ensures Read(lines, inDoc)[k] ==
            if EndsInDoc(lines[..k], inDoc) || Opens(lines[k]) then "" else CutComment(lines[k])
    decreases |lines|
  {
    var rest, next := lines[1..], After(lines[0], inDoc);
    if k > 0 {
      ReadAt(rest, next, k - 1);
      assert lines[..k][0] == lines[0] && lines[..k][1..] == rest[..k - 1];
    } else if rest != [] {
      ReadAt(rest, next, 0);
    }
  }

  /** The cut is at the first hash. */
  lemma {:induction false} CutExactly(a: string, b: string)
    requires '#' !in a
    ensures CutComment(a) == a && CutComment(a + "#" + b) == a
  {
    if a == "" {
      assert (a + "#" + b)[0] == '#';
    } else {
      assert (a + "#" + b)[1..] == a[1..] + "#" + b;
      CutExactly(a[1..], b);
    }
  }

  /** A docstring opens with three quotes, after an `r` or not, and after blanks only. */
  lemma OpensExactly(line: string)
    ensures Opens(line) <==> exists pad, rest :: Text.AllSpace(pad) && (line == pad + QUOTES + rest || line == pad + RAW + rest)
  {
    var left := Text.LStripParts(line);
    var right := Text.RStripParts(Text.LStrip(line));
    var s := Text.Strip(line);
    assert line == left + (s + right);
    if Text.StartsWith(s, QUOTES) { assert line == left + QUOTES + (s[3..] + right); }
    if Text.StartsWith(s, RAW) { assert line == left + RAW + (s[4..] + right); }
    if pad, rest :| Text.AllSpace(pad) && (line == pad + QUOTES + rest || line == pad + RAW + rest) {
      if line == pad + QUOTES + rest { StripOpener(pad, QUOTES, rest); } else { StripOpener(pad, RAW, rest); }
    }
  }

  lemma StripOpener(pad: string, mark: string, rest: string)
    requires Text.AllSpace(pad) && (mark == QUOTES || mark == RAW)
    ensures Text.Strip(pad + mark + rest) == mark + Text.RStrip(rest)
  {
    assert pad + mark + rest == pad + (mark + rest);
    Text.LStripPad(pad, mark + rest);
    RStripAfter(mark, rest);
  }

  lemma {:induction false} RStripAfter(front: string, rest: string)
    requires front != "" && !Text.IsSpace(front[|front| - 1])
    ensures Text.RStrip(front + rest) == front + Text.RStrip(rest)
  {
    if rest == "" {
      assert front + rest == front;
    } else if Text.IsSpace(rest[|rest| - 1]) {
      assert (front + rest)[..|front + rest| - 1] == front + rest[..|rest| - 1];
      RStripAfter(front, rest[..|rest| - 1]);
    }
  }

  /** It stays open exactly when no three quotes follow on the line. */
  lemma StaysOpenExactly(pad: string, rest: string)
    requires Text.AllSpace(pad)
    ensures Opens(pad + QUOTES + rest) && (StaysOpen(pad + QUOTES + rest) <==> !HasTriple(rest))
    ensures Opens(pad + RAW + rest) && (StaysOpen(pad + RAW + rest) <==> !HasTriple(rest))
  {
    var tail := Text.RStrip(rest);
    StripOpener(pad, QUOTES, rest);
    StripOpener(pad, RAW, rest);
    assert (QUOTES + tail)[3..] == tail && (RAW + tail)[4..] == tail;
    assert (RAW + tail)[0] == 'r';
    TailTriple(rest);
  }

  lemma TailTriple(rest: string)
    ensures HasTriple(Text.RStrip(rest)) <==> HasTriple(rest)
  {
    var tail := Text.RStrip(rest);
    var right := Text.RStripParts(rest);
    forall m | |tail| <= m < |rest|
      ensures rest[m] != '"'
    {
      assert rest[m] == right[m - |tail|] && rest[m] in right;
    }
    forall k | 0 <= k < |rest|
      ensures Stripper.TripleAt(rest, k) <==> k < |tail| && Stripper.TripleAt(tail, k)
    {}
  }
}
