/** The line scanner of tools/check_gpu_guards.py: which function owns a line, and
    whether the line sits in an arm that a build without an accelerator discards.

    A source line is what the scanner's regular expressions see of it: blank after
    comments and docstrings are dropped, or an indentation, a kind and the hazards
    that occur in it. */
module GuardScan {
  import opened Prelude

  datatype Hazard = Launch | DevCtx | Arch

  datatype Kind = Def(name: string) | Struct(name: string) | GuardNeg | GuardPos | Else | Other

  datatype Line = Blank | Code(indent: nat, kind: Kind, hazards: set<Hazard>)

  /** The `def` that owns a line: its index, its name, and its struct or "". */
  datatype Owner = Owner(line: nat, fn: string, struct_: string)

  predicate IsGuard(l: Line) {
    l.Code? && (l.kind.GuardNeg? || l.kind.GuardPos?)
  }

  predicate IsElse(l: Line, g: nat) {
    l.Code? && l.kind.Else? && l.indent == g
  }

  // ----- enclosing_def

  /** The struct named by the last `struct` line of `before` left of column `column`. */
  function StructOf(before: seq<Line>, column: nat): string {
    if before == [] then ""
    else
      var last := before[|before| - 1];
      if last.Code? && last.kind.Struct? && last.indent < column then last.kind.name
      else StructOf(before[..|before| - 1], column)
  }

  /** The owner that the lines `before` give to a line at column `want`. */
  function Enclosing(before: seq<Line>, want: nat): Option<Owner> {
    if before == [] then None
    else
      var j := |before| - 1;
      if before[j].Code? && before[j].kind.Def? && before[j].indent < want then
        Some(Owner(j, before[j].kind.name, StructOf(before[..j], before[j].indent)))
      else Enclosing(before[..j], want)
  }

  method EnclosingDef(code: seq<Line>, i: nat) returns (r: Option<Owner>)
    requires i < |code| && code[i].Code?
    ensures r == Enclosing(code[..i], code[i].indent)
  {
    var want := code[i].indent;
    var j := i;
    while j > 0
      invariant 0 <= j <= i
      invariant Enclosing(code[..i], want) == Enclosing(code[..j], want)
    {
      j := j - 1;
      assert code[..j + 1][..j] == code[..j];
      if code[j].Code? && code[j].kind.Def? && code[j].indent < want {
        var column := code[j].indent;
        var owner := "";
        var k := j;
        while k > 0
          invariant 0 <= k <= j
          invariant StructOf(code[..j], column) == StructOf(code[..k], column)
        {
          k := k - 1;
          assert code[..k + 1][..k] == code[..k];
          if code[k].Code? && code[k].kind.Struct? && code[k].indent < column {
            owner := code[k].kind.name;
            return Some(Owner(j, code[j].kind.name, owner));
          }
        }
        return Some(Owner(j, code[j].kind.name, owner));
      }
    }
    return None;
  }

  /** What a returned owner means: the nearest `def` left of the line, and nothing
      returned only when there is none. */
  lemma {:induction false} EnclosingMeaning(before: seq<Line>, want: nat)
    ensures match Enclosing(before, want)
            case None =>
              forall k | 0 <= k < |before| && before[k].Code? && before[k].kind.Def? :: want <= before[k].indent
            case Some(o) =>
              && o.line < |before| && before[o.line].Code? && before[o.line].kind == Def(o.fn)
              && before[o.line].indent < want
              && o.struct_ == StructOf(before[..o.line], before[o.line].indent)
              && forall k | o.line < k < |before| && before[k].Code? && before[k].kind.Def? :: want <= before[k].indent
  {
    if before != [] {
      var j := |before| - 1;
      EnclosingMeaning(before[..j], want);
      if Enclosing(before, want) == Enclosing(before[..j], want) && Enclosing(before, want).Some? {
        var o := Enclosing(before, want).value;
        if o.line < j {
          assert before[..j][..o.line] == before[..o.line];
        }
      }
    }
  }

  // ----- is_guarded

  /** The first line from k on that is not blank and stands at column g or left of it,
      or the end of the file. */
  function Stop(code: seq<Line>, k: nat, g: nat): (e: nat)
    requires k <= |code|
    ensures k <= e <= |code|
    decreases |code| - k
  {
    if k == |code| || (code[k].Code? && code[k].indent <= g) then k else Stop(code, k + 1, g)
  }

  /** The guard on line j has an `else`, the first line that leaves its arm, and line i
      is in the arm that a build without an accelerator discards: after the `else` of a
      negative guard, before the `else` of a positive one. */
  predicate Discards(code: seq<Line>, j: nat, i: nat)
    requires j < i < |code|
  {
    IsGuard(code[j]) &&
    var g := code[j].indent;
    var e := Stop(code, j + 1, g);
    && e < |code| && IsElse(code[e], g)
    && if code[j].kind.GuardNeg? then e < i < Stop(code, e + 1, g) else i < e
  }

  /** Some guard below line `start` discards line i. */
  predicate Guarded(code: seq<Line>, i: nat, start: int)
    requires -1 <= start && i < |code|
  {
    exists j | start < j < i :: Discards(code, j, i)
  }

  method IsGuarded(code: seq<Line>, i: nat, start: int) returns (r: bool)
    requires -1 <= start && i < |code| && code[i].Code?
    ensures r <==> Guarded(code, i, start)
  {
    var want := code[i].indent;
    var j := start + 1;
    while j < i
      invariant start + 1 <= j
      invariant forall j' | start < j' < j && j' < i :: !Discards(code, j', i)
      decreases i - j
    {
      if IsGuard(code[j]) && code[j].indent < want {
        var g := code[j].indent;
        var elseAt := -1;
        var end := |code|;
        var k := j + 1;
        while k < end
          invariant j + 1 <= k <= end <= |code|
          invariant elseAt == -1 ==> Stop(code, j + 1, g) == Stop(code, k, g)
          invariant elseAt != -1 ==> j < elseAt < k && elseAt == Stop(code, j + 1, g) && IsElse(code[elseAt], g)
          invariant elseAt != -1 ==> Stop(code, elseAt + 1, g) == Stop(code, k, g)
          invariant end < |code| ==> k == end && code[end].Code? && code[end].indent <= g
          invariant end < |code| && elseAt == -1 ==> !IsElse(code[end], g)
          decreases end - k, |code| - k
        {
          if code[k].Code? && code[k].indent <= g {
            if code[k].kind.Else? && code[k].indent == g && elseAt < 0 {
              elseAt := k;
              k := k + 1;
            } else {
              end := k;
            }
          } else {
            k := k + 1;
          }
        }
        if elseAt >= 0 {
          if code[j].kind.GuardNeg? && elseAt < i < end {
            assert Discards(code, j, i);
            return true;
          }
          if code[j].kind.GuardPos? && j < i < elseAt {
            assert Discards(code, j, i);
            return true;
          }
        }
      } else if IsGuard(code[j]) {
        StopByElse(code, j, i);
      }
      j := j + 1;
    }
    return false;
  }

  /** A line at or left of column g is not skipped. */
  lemma {:induction false} StopBy(code: seq<Line>, k: nat, g: nat, i: nat)
    requires k <= i < |code| && code[i].Code? && code[i].indent <= g
    ensures Stop(code, k, g) <= i
    decreases i - k
  {
    if k < i { StopBy(code, k + 1, g, i); }
  }

  /** ... so a guard that is not left of line i does not discard it. */
  lemma StopByElse(code: seq<Line>, j: nat, i: nat)
    requires j < i < |code| && code[i].Code? && IsGuard(code[j]) && code[i].indent <= code[j].indent
    ensures !Discards(code, j, i)
  {
    var g := code[j].indent;
    StopBy(code, j + 1, g, i);
    var e := Stop(code, j + 1, g);
    if e < i { StopBy(code, e + 1, g, i); }
  }
}
