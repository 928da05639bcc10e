/** The bracket scanners: _top_level_split and _call_args of tools/check_parity.py and
    _split_args of tools/default_argument_audit.py. */
module Splitters {
  import opened Prelude
  import Text

  predicate Opens(c: char) { c == '(' || c == '[' || c == '{' }

  predicate Closes(c: char) { c == ')' || c == ']' || c == '}' }

  /** Bracket depth after s, counting down past zero when brackets close unopened. */
  function Depth(s: string): int {
    if s == "" then 0
    else
      var c := s[|s| - 1];
      Depth(s[..|s| - 1]) + (if Opens(c) then 1 else if Closes(c) then -1 else 0)
  }

  /** A comma of s that separates: the depth before it is zero. */
  predicate Separates(s: string, i: int) {
    0 <= i < |s| && s[i] == ',' && Depth(s[..i]) == 0
  }

  predicate Blank(p: string) {
    Text.Strip(p) == ""
  }

  function NonBlank(parts: seq<string>): seq<string> {
    if parts == [] then []
    else
      var last := parts[|parts| - 1];
      NonBlank(parts[..|parts| - 1]) + if Blank(last) then [] else [last]
  }

  lemma NonBlankSnoc(parts: seq<string>, p: string)
    ensures NonBlank(parts + [p]) == NonBlank(parts) + if Blank(p) then [] else [p]
  {
    assert (parts + [p])[..|parts|] == parts;
  }

  /** The pieces of s: the finished ones, and the one still open. */
  function Pieces(s: string): (r: (seq<string>, string)) {
    if s == "" then ([], "")
    else
      var n := |s| - 1;
      var (done, cur) := Pieces(s[..n]);
      if Separates(s, n) then (done + [cur], "") else (done, cur + [s[n]])
  }

  function AllPieces(s: string): seq<string> {
    Pieces(s).0 + [Pieces(s).1]
  }

  // ----- what the pieces are

  function JoinAll(parts: seq<string>): string {
    if parts == [] then "" else JoinAll(parts[..|parts| - 1]) + parts[|parts| - 1] + ","
  }

  lemma JoinAllSnoc(parts: seq<string>, p: string)
    ensures JoinAll(parts + [p]) == JoinAll(parts) + p + ","
  {
    assert (parts + [p])[..|parts|] == parts;
  }

  /** Joining the pieces with commas restores the text. */
  lemma {:induction false} PiecesJoin(s: string)
    ensures JoinAll(Pieces(s).0) + Pieces(s).1 == s
  {
    if s != "" {
      var n := |s| - 1;
      PiecesJoin(s[..n]);
      assert s == s[..n] + [s[n]];
      JoinAllSnoc(Pieces(s[..n]).0, Pieces(s[..n]).1);
    }
  }

  /** Where the open piece starts in s. */
  function Start(s: string): nat {
    |s| - (if |Pieces(s).1| <= |s| then |Pieces(s).1| else 0)
  }

  /** The open piece is the tail of s that no separating comma cuts. */
  lemma {:induction false} OpenPiece(s: string)
    ensures |Pieces(s).1| <= |s| && Pieces(s).1 == s[Start(s)..]
    ensures Start(s) == 0 || Separates(s, Start(s) - 1)
    ensures forall i | Start(s) <= i < |s| :: !Separates(s, i)
  {
    if s != "" {
      var n := |s| - 1;
      var init := s[..n];
      OpenPiece(init);
      assert forall i | 0 <= i < n :: init[..i] == s[..i];
      assert forall i | 0 <= i < n :: Separates(init, i) <==> Separates(s, i);
    }
  }

  /** The one decomposition of s at its separating commas: pieces are never cut by one
      and always end at one. */
  lemma {:induction false} PieceAt(s: string, k: nat)
    requires k < |Pieces(s).0|
    ensures exists lo: nat, hi: nat | lo <= hi < |s| ::
      && Pieces(s).0[k] == s[lo..hi] && Separates(s, hi) && (lo == 0 || Separates(s, lo - 1))
      && (forall i | lo <= i < hi :: !Separates(s, i))
  {
    var n := |s| - 1;
    var init := s[..n];
    assert forall i | 0 <= i < n :: init[..i] == s[..i];
    assert forall i | 0 <= i < n :: Separates(init, i) <==> Separates(s, i);
    if k < |Pieces(init).0| {
      PieceAt(init, k);
      var lo: nat, hi: nat :| lo <= hi < |init| && Pieces(init).0[k] == init[lo..hi] && Separates(init, hi)
        && (lo == 0 || Separates(init, lo - 1)) && forall i | lo <= i < hi :: !Separates(init, i);
      assert init[lo..hi] == s[lo..hi];
    } else {
      OpenPiece(init);
      assert init[Start(init)..] == s[Start(init)..n];
    }
  }

  // ----- the two splitters

  lemma DepthStep(s: string, i: nat)
    requires i < |s|
    ensures Depth(s[..i + 1]) == Depth(s[..i]) + if Opens(s[i]) then 1 else if Closes(s[i]) then -1 else 0
  {
    assert s[..i + 1][..i] == s[..i];
  }

  lemma PiecesStep(s: string, i: nat)
    requires i < |s|
    ensures var (done, cur) := Pieces(s[..i]);
            Pieces(s[..i + 1]) == if s[i] == ',' && Depth(s[..i]) == 0 then (done + [cur], "") else (done, cur + [s[i]])
  {
    var t := s[..i + 1];
    assert t[..i] == s[..i] && t[i] == s[i];
  }

  /** _top_level_split: slices between indices, blank slices dropped. */
  method TopLevelSplit(args: string) returns (r: seq<string>)
    ensures r == NonBlank(AllPieces(args))
  {
    var out: seq<string> := [];
    var depth, start := 0, 0;
    for i := 0 to |args|
      invariant 0 <= start <= i && depth == Depth(args[..i])
      invariant out == Pieces(args[..i]).0 && args[start..i] == Pieces(args[..i]).1
    {
      DepthStep(args, i);
      PiecesStep(args, i);
      assert args[start..i + 1] == args[start..i] + [args[i]];
      if Opens(args[i]) {
        depth := depth + 1;
      } else if Closes(args[i]) {
        depth := depth - 1;
      } else if args[i] == ',' && depth == 0 {
        out := out + [args[start..i]];
        start := i + 1;
      }
    }
    assert args[..|args|] == args;
    out := out + [args[start..]];
    r := KeepNonBlank(out);
  }

  method KeepNonBlank(parts: seq<string>) returns (r: seq<string>)
    ensures r == NonBlank(parts)
  {
    r := [];
    for k := 0 to |parts|
      invariant r == NonBlank(parts[..k])
    {
      assert parts[..k + 1] == parts[..k] + [parts[k]];
      NonBlankSnoc(parts[..k], parts[k]);
      if !Blank(parts[k]) {
        r := r + [parts[k]];
      }
    }
    assert parts[..|parts|] == parts;
  }

  /** _split_args: an accumulator, blank only dropped at the end. */
  method SplitArgs(text: string) returns (out: seq<string>)
    ensures out == Pieces(text).0 + if Blank(Pieces(text).1) then [] else [Pieces(text).1]
  {
    out := [];
    var depth, cur := 0, "";
    for i := 0 to |text|
      invariant depth == Depth(text[..i]) && (out, cur) == Pieces(text[..i])
    {
      DepthStep(text, i);
      PiecesStep(text, i);
      var ch := text[i];
      if Opens(ch) {
        depth := depth + 1;
      } else if Closes(ch) {
        depth := depth - 1;
      }
      if ch == ',' && depth == 0 {
        out := out + [cur];
        cur := "";
      } else {
        cur := cur + [ch];
      }
    }
    assert text[..|text|] == text;
    if !Blank(cur) {
      out := out + [cur];
    }
  }

  /** The two splitters agree on every text but for blank pieces, which only the first
      drops wherever they are. */
  method SplittersAgree(text: string) returns (a: seq<string>, b: seq<string>)
    ensures a == NonBlank(AllPieces(text)) == NonBlank(b)
    ensures b == Pieces(text).0 + if Blank(Pieces(text).1) then [] else [Pieces(text).1]
  {
    a := TopLevelSplit(text);
    b := SplitArgs(text);
    NonBlankSnoc(Pieces(text).0, Pieces(text).1);
    assert Pieces(text).0 + [] == Pieces(text).0;
  }

  // ----- _call_args

  /** Parenthesis depth alone. */
  function Parens(s: string): int {
    if s == "" then 0
    else
      var c := s[|s| - 1];
      Parens(s[..|s| - 1]) + (if c == '(' then 1 else if c == ')' then -1 else 0)
  }

  /** Parentheses match: none closes unopened and none is left open. */
  ghost predicate Balanced(s: string) {
    Parens(s) == 0 && forall k | 0 <= k <= |s| :: 0 <= Parens(s[..k])
  }

  lemma {:induction false} ParensAppend(a: string, b: string)
    ensures Parens(a + b) == Parens(a) + Parens(b)
  {
    if b == "" {
      assert a + b == a;
    } else {
      var n := |b| - 1;
      assert (a + b)[..|a + b| - 1] == a + b[..n];
      ParensAppend(a, b[..n]);
    }
  }

  /** The `)` at c closes the `(` at o. */
  ghost predicate Matches(text: string, o: nat, c: nat) {
    o < c < |text| && text[o] == '(' && text[c] == ')' && Balanced(text[o + 1..c])
  }

  lemma InnerDepth(text: string, o: nat, i: nat)
    requires o < i <= |text| && text[o] == '('
    ensures Parens(text[o..i]) == 1 + Parens(text[o + 1..i])
  {
    assert text[o..i] == "(" + text[o + 1..i];
    assert Parens("(") == 1;
    ParensAppend("(", text[o + 1..i]);
  }

  lemma StretchStep(text: string, o: nat, i: nat)
    requires o <= i < |text|
    ensures Parens(text[o..i + 1]) == Parens(text[o..i]) + if text[i] == '(' then 1 else if text[i] == ')' then -1 else 0
  {
    assert text[o..i + 1][..i - o] == text[o..i];
  }

  /** A match is where the depth counted from the `(` first comes back to zero. */
  lemma MatchIsFirstZero(text: string, o: nat, c: nat)
    requires o < c < |text| && text[o] == '('
    ensures Matches(text, o, c) <==>
            Parens(text[o..c + 1]) == 0 && forall i | o < i <= c :: 0 < Parens(text[o..i])
  {
    InnerDepth(text, o, c);
    InnerDepth(text, o, c + 1);
    StretchStep(text, o, c);
    forall i | o < i <= c
      ensures Parens(text[o..i]) == 1 + Parens(text[o + 1..c][..i - o - 1])
    {
      InnerDepth(text, o, i);
      assert text[o + 1..c][..i - o - 1] == text[o + 1..i];
    }
    if Matches(text, o, c) {
      forall i | o < i <= c
        ensures 0 < Parens(text[o..i])
      {}
    }
    if Parens(text[o..c + 1]) == 0 && forall i | o < i <= c :: 0 < Parens(text[o..i]) {
      var inner := text[o + 1..c];
      forall k | 0 <= k <= |inner|
        ensures 0 <= Parens(inner[..k])
      {
        assert 0 < Parens(text[o..o + 1 + k]);
      }
      assert inner[..|inner|] == inner;
    }
  }

  /** At most one `)` matches. */
  lemma MatchUnique(text: string, o: nat, c: nat, d: nat)
    requires Matches(text, o, c) && Matches(text, o, d)
    ensures c == d
  {
    MatchIsFirstZero(text, o, c);
    MatchIsFirstZero(text, o, d);
  }

  /** _call_args at an opening parenthesis: the text up to its matching close, or None
      exactly when nothing matches. */
  method CallArgs(text: string, openParen: nat) returns (r: Option<string>)
    requires openParen < |text| && text[openParen] == '('
    ensures r.None? <==> forall c: nat :: !Matches(text, openParen, c)
    ensures forall c: nat :: Matches(text, openParen, c) ==> r == Some(text[openParen + 1..c])
  {
    var depth := 0;
    for i := openParen to |text|
      invariant depth == Parens(text[openParen..i])
      invariant forall k | openParen < k <= i :: 0 < Parens(text[openParen..k])
    {
      StretchStep(text, openParen, i);
      if text[i] == '(' {
        depth := depth + 1;
      } else if text[i] == ')' {
        depth := depth - 1;
        if depth == 0 {
          MatchIsFirstZero(text, openParen, i);
          forall c: nat | Matches(text, openParen, c)
            ensures c == i
          {
            MatchUnique(text, openParen, i, c);
          }
          return Some(text[openParen + 1..i]);
        }
      }
    }
    forall c: nat
      ensures !Matches(text, openParen, c)
    {
      if Matches(text, openParen, c) { MatchIsFirstZero(text, openParen, c); }
    }
    return None;
  }

  // ----- what the depths count

  /** Three kinds of brackets open and close. */
  lemma BracketsAre(c: char)
    ensures (Opens(c) <==> c in "([{") && (Closes(c) <==> c in ")]}")
  {}

  /** The depth is the number of opening brackets of any kind less that of closing ones. */
  lemma {:induction false} DepthCounts(s: string)
    ensures var n := multiset(s); Depth(s) + n[')'] + n[']'] + n['}'] == n['('] + n['['] + n['{']
  {
    if s != "" {
      var init := s[..|s| - 1];
      assert s == init + [s[|s| - 1]];
      DepthCounts(init);
    }
  }

  /** The matching of a call's arguments counts round brackets only. */
  lemma {:induction false} ParensCount(s: string)
    ensures Parens(s) + multiset(s)[')'] == multiset(s)['(']
  {
    if s != "" {
      var init := s[..|s| - 1];
      assert s == init + [s[|s| - 1]];
      ParensCount(init);
    }
  }

  /** A comma separates exactly when as many brackets have closed as have opened before it. */
  lemma SeparatesExactly(s: string, i: nat)
    requires i < |s|
    ensures var n := multiset(s[..i]); Separates(s, i) <==> s[i] == ',' && n['('] + n['['] + n['{'] == n[')'] + n[']'] + n['}']
  {
    DepthCounts(s[..i]);
  }
}
