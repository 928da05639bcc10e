/** The string methods the tools are written in: str.strip and its halves, splitting on
    a character, and joining. */
module Text {
  /** Python's str.isspace for one character. */
  predicate IsSpace(c: char) {
    || '\t' <= c <= '\r' || 0x1c as char <= c <= ' ' || c == 0x85 as char || c == 0xa0 as char
    || c == 0x1680 as char || 0x2000 as char <= c <= 0x200a as char || c == 0x2028 as char
    || c == 0x2029 as char || c == 0x202f as char || c == 0x205f as char || c == 0x3000 as char
  }

  function LStrip(s: string): string {
    if s != "" && IsSpace(s[0]) then LStrip(s[1..]) else s
  }

  function RStrip(s: string): string {
    if s != "" && IsSpace(s[|s| - 1]) then RStrip(s[..|s| - 1]) else s
  }

  function Strip(s: string): string {
    RStrip(LStrip(s))
  }

  /** Nothing for strip to remove. */
  predicate Trimmed(s: string) {
    s == "" || (!IsSpace(s[0]) && !IsSpace(s[|s| - 1]))
  }

  predicate AllSpace(s: string) {
    forall c | c in s :: IsSpace(c)
  }

  lemma StripTrimmed(s: string)
    requires Trimmed(s)
    ensures LStrip(s) == s && RStrip(s) == s && Strip(s) == s
  {}

  lemma {:induction false} LStripPad(pad: string, s: string)
    requires AllSpace(pad)
    ensures LStrip(pad + s) == LStrip(s)
  {
    if pad == "" {
      assert pad + s == s;
    } else {
      assert pad[0] in pad;
      assert (pad + s)[1..] == pad[1..] + s;
      assert AllSpace(pad[1..]);
      LStripPad(pad[1..], s);
    }
  }

  lemma {:induction false} RStripPad(s: string, pad: string)
    requires AllSpace(pad)
    ensures RStrip(s + pad) == RStrip(s)
  {
    if pad == "" {
      assert s + pad == s;
    } else {
      var n := |pad| - 1;
      assert pad[n] in pad;
      assert (s + pad)[..|s + pad| - 1] == s + pad[..n];
      assert AllSpace(pad[..n]);
      RStripPad(s, pad[..n]);
    }
  }

  /** Padding a trimmed text on either side is undone by strip. */
  lemma StripPad(left: string, s: string, right: string)
    requires AllSpace(left) && AllSpace(right) && Trimmed(s)
    ensures Strip(left + s + right) == s
  {
    assert left + s + right == left + (s + right);
    LStripPad(left, s + right);
    if s == "" {
      assert s + right == right + "";
      LStripPad(right, "");
    } else {
      assert (s + right)[0] == s[0];
      RStripPad(s, right);
    }
  }

  lemma {:induction false} LStripTail(s: string)
    ensures LStrip(s) == "" || (!IsSpace(LStrip(s)[0]) && LStrip(s)[|LStrip(s)| - 1] == s[|s| - 1])
    ensures |LStrip(s)| <= |s|
  {
    if s != "" && IsSpace(s[0]) { LStripTail(s[1..]); }
  }

  lemma {:induction false} RStripHead(s: string)
    ensures RStrip(s) == "" || (!IsSpace(RStrip(s)[|RStrip(s)| - 1]) && RStrip(s)[0] == s[0])
  {
    if s != "" && IsSpace(s[|s| - 1]) { RStripHead(s[..|s| - 1]); }
  }

  lemma StripIsTrimmed(s: string)
    ensures Trimmed(Strip(s))
  {
    LStripTail(s);
    RStripHead(LStrip(s));
  }

  /** strip invents no character. */
  lemma StripKeeps(s: string, c: char)
    requires c !in s
    ensures c !in Strip(s)
  {
    LStripKeeps(s, c);
    RStripKeeps(LStrip(s), c);
  }

  lemma {:induction false} LStripKeeps(s: string, c: char)
    requires c !in s
    ensures c !in LStrip(s)
  {
    if s != "" && IsSpace(s[0]) { LStripKeeps(s[1..], c); }
  }

  lemma {:induction false} RStripKeeps(s: string, c: char)
    requires c !in s
    ensures c !in RStrip(s)
  {
    if s != "" && IsSpace(s[|s| - 1]) { RStripKeeps(s[..|s| - 1], c); }
  }

  predicate StartsWith(s: string, p: string) {
    |p| <= |s| && s[..|p|] == p
  }

  /** The characters themselves: the ASCII and Latin-1 separators, and Unicode's. */
  lemma SpacesAre(c: char)
    ensures IsSpace(c) <==> c as int in {9, 10, 11, 12, 13, 28, 29, 30, 31, 32, 0x85, 0xa0, 0x1680, 0x2000, 0x2001,
              0x2002, 0x2003, 0x2004, 0x2005, 0x2006, 0x2007, 0x2008, 0x2009, 0x200a, 0x2028, 0x2029, 0x202f, 0x205f,
              0x3000}
  {}

  lemma {:induction false} LStripParts(s: string) returns (left: string)
    ensures AllSpace(left) && s == left + LStrip(s)
  {
    if s != "" && IsSpace(s[0]) {
      var more := LStripParts(s[1..]);
      left := [s[0]] + more;
      assert left + LStrip(s) == [s[0]] + (more + LStrip(s[1..])) == [s[0]] + s[1..] == s;
    } else {
      left := "";
    }
  }

  lemma {:induction false} RStripParts(s: string) returns (right: string)
    ensures AllSpace(right) && s == RStrip(s) + right
  {
    if s != "" && IsSpace(s[|s| - 1]) {
      var more := RStripParts(s[..|s| - 1]);
      right := more + [s[|s| - 1]];
      assert RStrip(s) + right == (RStrip(s[..|s| - 1]) + more) + [s[|s| - 1]] == s;
    } else {
      right := "";
    }
  }

  /** strip is what is trimmed and differs by spaces at the ends, and nothing else is. */
  lemma StripExactly(s: string, t: string)
    ensures t == Strip(s) <==> Trimmed(t) && exists left, right :: AllSpace(left) && AllSpace(right) && s == left + t + right
  {
    var left := LStripParts(s);
    var right := RStripParts(LStrip(s));
    StripIsTrimmed(s);
    assert s == left + Strip(s) + right;
    if Trimmed(t) && exists l, r :: AllSpace(l) && AllSpace(r) && s == l + t + r {
      var l, r :| AllSpace(l) && AllSpace(r) && s == l + t + r;
      StripPad(l, t, r);
    }
  }

  lemma StartsWithExactly(s: string, p: string)
    ensures StartsWith(s, p) <==> exists rest :: s == p + rest
  {
    if StartsWith(s, p) { assert s == p + s[|p|..]; }
  }

  // ----- str.split and str.join

  /** The pieces between occurrences of c: one more than there are occurrences. */
  function Split(s: string, c: char): (r: seq<string>)
    ensures |r| > 0
  {
    if s == "" then [""]
    else
      var rest := Split(s[1..], c);
      if s[0] == c then [""] + rest else [[s[0]] + rest[0]] + rest[1..]
  }

  function Join(parts: seq<string>, sep: string): string {
    if parts == [] then ""
    else if |parts| == 1 then parts[0]
    else parts[0] + sep + Join(parts[1..], sep)
  }

  lemma {:induction false} SplitPrefix(p: string, s: string, c: char)
    requires c !in p
    ensures Split(p + s, c) == [p + Split(s, c)[0]] + Split(s, c)[1..]
  {
    if p == "" {
      assert p + s == s;
      assert p + Split(s, c)[0] == Split(s, c)[0];
    } else {
      assert (p + s)[1..] == p[1..] + s;
      SplitPrefix(p[1..], s, c);
      assert p + Split(s, c)[0] == [p[0]] + (p[1..] + Split(s, c)[0]);
    }
  }

  /** Splitting undoes joining when no part holds the separator. */
  lemma {:induction false} SplitJoin(parts: seq<string>, c: char)
    requires parts != [] && forall p | p in parts :: c !in p
    ensures Split(Join(parts, [c]), c) == parts
  {
    assert parts[0] in parts;
    if |parts| == 1 {
      SplitPrefix(parts[0], "", c);
      assert parts[0] + "" == parts[0];
    } else {
      var tail := Join(parts[1..], [c]);
      assert Join(parts, [c]) == parts[0] + ([c] + tail);
      SplitPrefix(parts[0], [c] + tail, c);
      assert ([c] + tail)[1..] == tail;
      assert parts[0] + "" == parts[0];
      SplitJoin(parts[1..], c);
    }
  }

  /** ... and joining undoes splitting, so split is the only way to undo it. */
  lemma {:induction false} JoinSplit(s: string, c: char)
    ensures Join(Split(s, c), [c]) == s
  {
    if s != "" {
      var rest := Split(s[1..], c);
      JoinSplit(s[1..], c);
      if s[0] == c {
        assert Split(s, c)[1..] == rest;
      } else if |rest| > 1 {
        assert Split(s, c)[1..] == rest[1..];
        assert [s[0]] + (rest[0] + [c] + Join(rest[1..], [c])) == ([s[0]] + rest[0]) + [c] + Join(rest[1..], [c]);
      }
    }
  }

  /** A piece never holds the separator. */
  lemma {:induction false} SplitPieces(s: string, c: char)
    ensures forall p | p in Split(s, c) :: c !in p
  {
    if s != "" {
      SplitPieces(s[1..], c);
      var rest := Split(s[1..], c);
      assert rest[0] in rest;
      forall p | p in Split(s, c)
        ensures c !in p
      {
        if s[0] != c && p != [s[0]] + rest[0] {
          assert p in rest[1..];
        }
      }
    }
  }

  /** A joined text ends like its last part. */
  lemma {:induction false} JoinEnd(parts: seq<string>, sep: string)
    requires parts != [] && parts[|parts| - 1] != ""
    ensures var r, last := Join(parts, sep), parts[|parts| - 1]; r != "" && r[|r| - 1] == last[|last| - 1]
  {
    if |parts| > 1 { JoinEnd(parts[1..], sep); }
  }
}
