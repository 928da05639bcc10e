/** strip_mojo_comments of tools/connectivity_audit.py: `#` comments and triple-quoted
    docstrings cut out of a text, by jumping from delimiter to delimiter. */
module Stripper {
  // ----- str.find

  predicate TripleAt(text: string, i: nat) {
    i + 3 <= |text| && text[i] == '"' && text[i + 1] == '"' && text[i + 2] == '"'
  }

  /** text.find of three quotes from i on. */
  function FindTriple(text: string, i: nat): (r: int)
    requires i <= |text|
    ensures r == -1 || (i <= r && TripleAt(text, r))
    ensures forall k | i <= k < (if r == -1 then |text| else r) :: !TripleAt(text, k)
    decreases |text| - i
  {
    if i == |text| then -1 else if TripleAt(text, i) then i else FindTriple(text, i + 1)
  }

  function FindChar(text: string, c: char, i: nat): (r: int)
    requires i <= |text|
    ensures r == -1 || (i <= r < |text| && text[r] == c)
    ensures forall k | i <= k < (if r == -1 then |text| else r) :: text[k] != c
    decreases |text| - i
  {
    if i == |text| then -1 else if text[i] == c then i else FindChar(text, c, i + 1)
  }

  // ----- the automaton

  datatype Mode = InCode | InComment | InDoc

  /** What is left of text[i..], read one character at a time: comments end before
      their newline, docstrings after their closing quotes. */
  function Run(text: string, i: nat, mode: Mode): string
    requires i <= |text|
    decreases |text| - i
  {
    if i == |text| then ""
    else
      match mode
      case InCode =>
        if TripleAt(text, i) then Run(text, i + 3, InDoc)
        else if text[i] == '#' then Run(text, i + 1, InComment)
        else [text[i]] + Run(text, i + 1, InCode)
      case InComment =>
        if text[i] == '\n' then [text[i]] + Run(text, i + 1, InCode) else Run(text, i + 1, InComment)
      case InDoc =>
        if TripleAt(text, i) then Run(text, i + 3, InCode) else Run(text, i + 1, InDoc)
  }

  function Strip(text: string): string {
    Run(text, 0, InCode)
  }

  lemma {:induction false} RunCode(text: string, i: nat, k: nat)
    requires i <= k <= |text|
    requires forall m | i <= m < k :: !TripleAt(text, m) && text[m] != '#'
    ensures Run(text, i, InCode) == text[i..k] + Run(text, k, InCode)
    decreases k - i
  {
    if i < k {
      RunCode(text, i + 1, k);
      assert text[i..k] == [text[i]] + text[i + 1..k];
    }
  }

  lemma {:induction false} RunComment(text: string, i: nat, k: nat)
    requires i <= k <= |text|
    requires forall m | i <= m < k :: text[m] != '\n'
    ensures Run(text, i, InComment) == Run(text, k, InComment)
    decreases k - i
  {
    if i < k { RunComment(text, i + 1, k); }
  }

  lemma {:induction false} RunDoc(text: string, i: nat, k: nat)
    requires i <= k <= |text|
    requires forall m | i <= m < k :: !TripleAt(text, m)
    ensures Run(text, i, InDoc) == Run(text, k, InDoc)
    decreases k - i
  {
    if i < k { RunDoc(text, i + 1, k); }
  }

  /** Code up to a docstring. */
  lemma CodeThenDoc(text: string, i: nat, triple: nat)
    requires i <= triple && TripleAt(text, triple)
    requires forall m | i <= m < triple :: !TripleAt(text, m) && text[m] != '#'
    ensures Run(text, i, InCode) == text[i..triple] + Run(text, triple + 3, InDoc)
  {
    RunCode(text, i, triple);
  }

  /** Code up to a comment at h, whose line ends at nl. */
  lemma CodeThenComment(text: string, i: nat, h: nat, nl: nat)
    requires i <= h < nl <= |text| && text[h] == '#'
    requires forall m | i <= m < h :: !TripleAt(text, m) && text[m] != '#'
    requires forall m | h <= m < nl :: text[m] != '\n'
    requires nl < |text| ==> text[nl] == '\n'
    ensures Run(text, i, InCode) == text[i..h] + Run(text, nl, InCode)
  {
    RunCode(text, i, h);
    RunComment(text, h + 1, nl);
  }

  function Concat(parts: seq<string>): string {
    if parts == [] then "" else Concat(parts[..|parts| - 1]) + parts[|parts| - 1]
  }

  lemma ConcatSnoc(parts: seq<string>, p: string, rest: string)
    ensures Concat(parts + [p]) + rest == Concat(parts) + (p + rest)
  {
    assert (parts + [p])[..|parts|] == parts;
    assert (Concat(parts) + p) + rest == Concat(parts) + (p + rest);
  }

  method StripMojoComments(text: string) returns (r: string)
    ensures r == Strip(text)
  {
    var out: seq<string> := [];
    var i, n := 0, |text|;
    var inDoc := false;
    while i < n
      invariant 0 <= i <= n
      invariant Strip(text) == Concat(out) + Run(text, i, if inDoc then InDoc else InCode)
      decreases n - i
    {
      if inDoc {
        var end := FindTriple(text, i);
        if end == -1 {
          RunDoc(text, i, n);
          i := n;
          break;
        }
        RunDoc(text, i, end);
        i := end + 3;
        inDoc := false;
        continue;
      }
      var triple := FindTriple(text, i);
      var hashmark := FindChar(text, '#', i);
      var newlineOfHash := -1;
      if hashmark != -1 {
        newlineOfHash := FindChar(text, '\n', hashmark);
        if newlineOfHash == -1 {
          newlineOfHash := n;
        }
      }
      if triple != -1 && (hashmark == -1 || triple < hashmark) {
        CodeThenDoc(text, i, triple);
        ConcatSnoc(out, text[i..triple], Run(text, triple + 3, InDoc));
        out := out + [text[i..triple]];
        i := triple + 3;
        inDoc := true;
        continue;
      }
      if hashmark != -1 {
        CodeThenComment(text, i, hashmark, newlineOfHash);
        ConcatSnoc(out, text[i..hashmark], Run(text, newlineOfHash, InCode));
        out := out + [text[i..hashmark]];
        i := newlineOfHash;
        continue;
      }
      RunCode(text, i, n);
      ConcatSnoc(out, text[i..n], "");
      out := out + [text[i..n]];
      i := n;
      break;
    }
    r := Concat(out);
  }

  // ----- what the stripped text is

  /** No comment and no docstring delimiter anywhere. */
  ghost predicate Clean(s: string) {
    '#' !in s && forall k :: !TripleAt(s, k)
  }

  lemma {:induction false} RunNoHash(text: string, i: nat, mode: Mode)
    requires i <= |text|
    ensures '#' !in Run(text, i, mode)
    decreases |text| - i
  {
    if i < |text| {
      RunNoHash(text, i + 1, InCode);
      RunNoHash(text, i + 1, InComment);
      RunNoHash(text, i + 1, InDoc);
      if TripleAt(text, i) {
        RunNoHash(text, i + 3, InCode);
        RunNoHash(text, i + 3, InDoc);
      }
    }
  }

  lemma {:induction false} CommentStart(text: string, i: nat)
    requires i <= |text|
    ensures var r := Run(text, i, InComment); r == "" || r[0] == '\n'
    decreases |text| - i
  {
    if i < |text| { CommentStart(text, i + 1); }
  }

  /** Quotes that open the output were quotes in the text at the same place: cutting a
      docstring out never brings quotes together. */
  lemma {:induction false} QuotesAreTheirs(text: string, i: nat)
    requires i <= |text|
    ensures var r := Run(text, i, InCode);
            && (|r| >= 1 && r[0] == '"' ==> i < |text| && text[i] == '"')
            && (|r| >= 2 && r[0] == '"' && r[1] == '"' ==> i + 1 < |text| && text[i + 1] == '"')
    decreases |text| - i
  {
    if i < |text| && !TripleAt(text, i) {
      if text[i] == '#' { CommentStart(text, i + 1); } else { QuotesAreTheirs(text, i + 1); }
    }
  }

  lemma {:induction false} RunNoTriple(text: string, i: nat, mode: Mode, k: nat)
    requires i <= |text|
    ensures !TripleAt(Run(text, i, mode), k)
    decreases |text| - i
  {
    if i < |text| {
      var next := Run(text, i + 1, InCode);
      match mode
      case InCode =>
        if TripleAt(text, i) { RunNoTriple(text, i + 3, InDoc, k); }
        else if text[i] == '#' { RunNoTriple(text, i + 1, InComment, k); }
        else if k > 0 { ShiftTriple(text[i], next, k); RunNoTriple(text, i + 1, InCode, k - 1); }
        else { QuotesAreTheirs(text, i + 1); }
      case InComment =>
        if text[i] != '\n' { RunNoTriple(text, i + 1, InComment, k); }
        else if k > 0 { ShiftTriple(text[i], next, k); RunNoTriple(text, i + 1, InCode, k - 1); }
      case InDoc =>
        if TripleAt(text, i) { RunNoTriple(text, i + 3, InCode, k); } else { RunNoTriple(text, i + 1, InDoc, k); }
    }
  }

  lemma ShiftTriple(c: char, s: string, k: nat)
    requires k > 0
    ensures TripleAt([c] + s, k) <==> TripleAt(s, k - 1)
  {}

  /** The output holds neither delimiter. */
  lemma StrippedIsClean(text: string)
    ensures Clean(Strip(text))
  {
    RunNoHash(text, 0, InCode);
    forall k
      ensures !TripleAt(Strip(text), k)
    {
      RunNoTriple(text, 0, InCode, k);
    }
  }

  /** A text is left alone exactly when it holds neither delimiter, so stripping twice
      is stripping once. */
  lemma FixedExactly(text: string)
    ensures Strip(text) == text <==> Clean(text)
    ensures Strip(Strip(text)) == Strip(text)
  {
    StrippedIsClean(text);
    if Clean(text) { CleanIsKept(text); }
    CleanIsKept(Strip(text));
  }

  lemma CleanIsKept(s: string)
    requires Clean(s)
    ensures Strip(s) == s
  {
    RunCode(s, 0, |s|);
    assert s[0..|s|] == s;
  }

  // ----- stripping file by file

  /** The mode at the end of text[i..]. */
  function EndMode(text: string, i: nat, mode: Mode): Mode
    requires i <= |text|
    decreases |text| - i
  {
    if i == |text| then mode
    else
      match mode
      case InCode =>
        if TripleAt(text, i) then EndMode(text, i + 3, InDoc)
        else EndMode(text, i + 1, if text[i] == '#' then InComment else InCode)
      case InComment => EndMode(text, i + 1, if text[i] == '\n' then InCode else InComment)
      case InDoc => if TripleAt(text, i) then EndMode(text, i + 3, InCode) else EndMode(text, i + 1, InDoc)
  }

  /** No quotes come together where b is put after a. */
  predicate Parted(a: string, b: string) {
    a == "" || b == "" || a[|a| - 1] != '"' || b[0] != '"'
  }

  lemma {:induction false} RunAppend(a: string, b: string, i: nat, mode: Mode)
    requires i <= |a| && Parted(a, b)
    ensures Run(a + b, i, mode) == Run(a, i, mode) + Run(a + b, |a|, EndMode(a, i, mode))
    ensures EndMode(a + b, i, mode) == EndMode(a + b, |a|, EndMode(a, i, mode))
    decreases |a| - i
  {
    if i < |a| {
      assert TripleAt(a + b, i) <==> TripleAt(a, i);
      if TripleAt(a, i) && mode != InComment {
        RunAppend(a, b, i + 3, if mode == InCode then InDoc else InCode);
      } else {
        var next := match mode
          case InCode => if a[i] == '#' then InComment else InCode
          case InComment => if a[i] == '\n' then InCode else InComment
          case InDoc => InDoc;
        RunAppend(a, b, i + 1, next);
      }
    }
  }

  lemma {:induction false} RunSuffix(a: string, b: string, i: nat, mode: Mode)
    requires i <= |b|
    ensures Run(a + b, |a| + i, mode) == Run(b, i, mode)
    decreases |b| - i
  {
    if i < |b| {
      assert TripleAt(a + b, |a| + i) <==> TripleAt(b, i);
      RunSuffix(a, b, i + 1, InCode);
      RunSuffix(a, b, i + 1, InComment);
      RunSuffix(a, b, i + 1, InDoc);
      if TripleAt(b, i) {
        RunSuffix(a, b, i + 3, InCode);
        RunSuffix(a, b, i + 3, InDoc);
      }
    }
  }

  lemma {:induction false} EndModeSuffix(a: string, b: string, i: nat, mode: Mode)
    requires i <= |b|
    ensures EndMode(a + b, |a| + i, mode) == EndMode(b, i, mode)
    decreases |b| - i
  {
    if i < |b| {
      assert TripleAt(a + b, |a| + i) <==> TripleAt(b, i);
      if TripleAt(b, i) && mode != InComment {
        EndModeSuffix(a, b, i + 3, if mode == InCode then InDoc else InCode);
      } else {
        var next := match mode
          case InCode => if b[i] == '#' then InComment else InCode
          case InComment => if b[i] == '\n' then InCode else InComment
          case InDoc => InDoc;
        EndModeSuffix(a, b, i + 1, next);
      }
    }
  }

  /** A text that ends in code can be stripped apart from what follows it. */
  lemma StripAppend(a: string, b: string)
    requires InCodeAfter(a) && Parted(a, b)
    ensures Strip(a + b) == Strip(a) + Strip(b) && EndMode(a + b, 0, InCode) == EndMode(b, 0, InCode)
  {
    RunAppend(a, b, 0, InCode);
    RunSuffix(a, b, 0, InCode);
    EndModeSuffix(a, b, 0, InCode);
  }

  /** The text ends outside comments and docstrings. */
  predicate InCodeAfter(a: string) {
    EndMode(a, 0, InCode) == InCode
  }

  // ----- what each piece of a text leaves

  const QUOTES: string := "\"\"\""

  /** Code with neither delimiter leaves itself. */
  lemma CodeStays(a: string, c: string)
    requires InCodeAfter(a) && Parted(a, c) && Clean(c)
    ensures Strip(a + c) == Strip(a) + c && InCodeAfter(a + c)
  {
    StripAppend(a, c);
    CleanIsKept(c);
    CleanEnds(c, 0);
  }

  lemma {:induction false} CleanEnds(c: string, i: nat)
    requires i <= |c| && Clean(c)
    ensures EndMode(c, i, InCode) == InCode
    decreases |c| - i
  {
    if i < |c| { CleanEnds(c, i + 1); }
  }

  /** A comment leaves the newline that ends it, and nothing at the end of the text. */
  lemma CommentGoes(a: string, c: string)
    requires InCodeAfter(a) && '\n' !in c
    ensures Strip(a + ("#" + c)) == Strip(a)
    ensures Strip(a + ("#" + c + "\n")) == Strip(a) + "\n" && InCodeAfter(a + ("#" + c + "\n"))
  {
    var open := "#" + c;
    var line := open + "\n";
    StripAppend(a, open);
    StripAppend(a, line);
    RunComment(open, 1, |open|);
    RunComment(line, 1, |open|);
    CommentEnds(line, 1);
    assert Run(line, |open|, InComment) == "\n" + Run(line, |line|, InCode);
  }

  lemma {:induction false} CommentEnds(line: string, i: nat)
    requires i < |line| && line[|line| - 1] == '\n' && forall k | i <= k < |line| - 1 :: line[k] != '\n'
    ensures EndMode(line, i, InComment) == InCode
    decreases |line| - i
  {
    if i < |line| - 1 { CommentEnds(line, i + 1); }
  }

  /** A docstring leaves nothing, and code goes on after its closing quotes. */
  lemma DocstringGoes(a: string, d: string, b: string)
    requires InCodeAfter(a) && Parted(a, QUOTES) && FindTriple(d + QUOTES, 0) == |d|
    ensures Strip(a + (QUOTES + d + QUOTES + b)) == Strip(a) + Strip(b)
    ensures EndMode(a + (QUOTES + d + QUOTES + b), 0, InCode) == EndMode(b, 0, InCode)
  {
    var doc := QUOTES + d + QUOTES;
    var text := doc + b;
    StripAppend(a, text);
    forall k | 3 <= k < 3 + |d|
      ensures !TripleAt(text, k)
    {
      assert TripleAt(text, k) <==> TripleAt(d + QUOTES, k - 3);
    }
    RunDoc(text, 3, 3 + |d|);
    DocEnds(text, 3, 3 + |d|);
    RunSuffix(doc, b, 0, InCode);
    EndModeSuffix(doc, b, 0, InCode);
    assert TripleAt(text, 0) && TripleAt(text, 3 + |d|);
  }

  lemma {:induction false} DocEnds(text: string, i: nat, k: nat)
    requires i <= k <= |text| && forall m | i <= m < k :: !TripleAt(text, m)
    ensures EndMode(text, i, InDoc) == EndMode(text, k, InDoc)
    decreases k - i
  {
    if i < k { DocEnds(text, i + 1, k); }
  }

  /** An unclosed docstring takes the rest of the text with it. */
  lemma OpenDocstringGoes(a: string, d: string)
    requires InCodeAfter(a) && Parted(a, QUOTES) && forall k :: !TripleAt(d, k)
    ensures Strip(a + (QUOTES + d)) == Strip(a)
  {
    var text := QUOTES + d;
    StripAppend(a, text);
    forall k | 3 <= k < |text|
      ensures !TripleAt(text, k)
    {
      assert TripleAt(text, k) <==> TripleAt(d, k - 3);
    }
    RunDoc(text, 3, |text|);
    assert TripleAt(text, 0);
  }
}
