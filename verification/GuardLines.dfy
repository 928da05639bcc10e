/** What a build without an accelerator elaborates, told from the lines alone. */
module GuardLines {
  import opened GuardScan
  import opened GuardTree
  import opened GuardLayout

  /** Line j is a positive guard without an `else`, and line i is in its arm. */
  predicate Hides(code: seq<Line>, j: nat, i: nat)
    requires j < i < |code|
  {
    IsGuard(code[j]) && code[j].kind.GuardPos? &&
    var g := code[j].indent;
    var e := Stop(code, j + 1, g);
    i < e && !(e < |code| && IsElse(code[e], g))
  }

  /** Line i is in the arm that the compiler drops of the guard on line j. */
  predicate Drops(code: seq<Line>, j: nat, i: nat)
    requires j < i < |code|
  {
    IsGuard(code[j]) &&
    var g := code[j].indent;
    var e := Stop(code, j + 1, g);
    if code[j].kind.GuardPos? then i < e else e < |code| && IsElse(code[e], g) && e < i < Stop(code, e + 1, g)
  }

  // ----- the guards without an `else`

  predicate OwnHides(t: Tree, at: nat, i: nat) {
    t.Compound? && t.head.GuardPos? && !TwoArmed(t) && at < i < ElseLine(t, at)
  }

  /** Line j is such a guard in the tree: found by descending to j. */
  predicate HidesIn(t: Tree, at: nat, j: nat, i: nat)
    requires Covers(t, at, j)
    decreases Size(t)
  {
    match Locate(t, at, j)
    case Here => j == at && OwnHides(t, at, i)
    case In(sub, a, _, role) => role != InSig && HidesIn(sub, a, j, i)
  }

  lemma {:induction false} HidesWithin(t: Tree, at: nat, j: nat, i: nat)
    requires Covers(t, at, j) && HidesIn(t, at, j, i)
    ensures j < i && Covers(t, at, i)
    decreases Size(t)
  {
    match Locate(t, at, j)
    case Here => SizeOf(t);
    case In(sub, a, _, _) => HidesWithin(sub, a, j, i);
  }

  lemma {:induction false} HidesExact(code: seq<Line>, at: nat, t: Tree, n: nat, j: nat, i: nat)
    requires LaidOut(code, at, t, n) && WellIndented(t) && ClosesAt(code, at + Size(t), n)
    requires Covers(t, at, j) && j < i < |code| && code[i].Code?
    ensures Hides(code, j, i) <==> HidesIn(t, at, j, i)
    decreases Size(t), 1
  {
    Descend(code, at, t, n, j);
    if Locate(t, at, j).In? {
      HidesInside(code, at, t, n, j, i);
    } else if IsGuard(code[j]) {
      GuardHides(code, at, t, n, i);
    }
  }

  lemma {:induction false} HidesInside(code: seq<Line>, at: nat, t: Tree, n: nat, j: nat, i: nat)
    requires Covers(t, at, j) && Locate(t, at, j).In? && j < i < |code| && code[i].Code?
    requires var In(sub, a, shift, role) := Locate(t, at, j);
             if role == InSig then !IsGuard(code[j])
             else LaidOut(code, a, sub, n + shift) && WellIndented(sub) && ClosesAt(code, a + Size(sub), n + shift)
    ensures Hides(code, j, i) <==> HidesIn(t, at, j, i)
    decreases Size(t), 0
  {
    var In(sub, a, shift, role) := Locate(t, at, j);
    if role != InSig { HidesExact(code, a, sub, n + shift, j, i); }
  }

  lemma GuardHides(code: seq<Line>, at: nat, t: Tree, n: nat, i: nat)
    requires LaidOut(code, at, t, n) && WellIndented(t) && t.Compound? && IsGuardKind(t.head)
    requires ClosesAt(code, at + Size(t), n) && at < i < |code| && code[i].Code?
    ensures Hides(code, at, i) <==> OwnHides(t, at, i)
  {
    var b, c := ElseLine(t, at), at + Size(t) - Size(t.rest);
    GuardStops(code, at, t, n, b, c);
    if c <= i { NotPastFirst(code, c, i); }
  }

  lemma {:induction false} BareIsHidden(t: Tree, at: nat, i: nat) returns (j: nat)
    requires Covers(t, at, i) && WellIndented(t) && Bare(t, at, i)
    ensures j < i && Covers(t, at, j) && HidesIn(t, at, j, i)
    decreases Size(t)
  {
    var In(sub, a, _, role) := Locate(t, at, i);
    LocateWell(t, at, i);
    if Dropped(t, role) && !TwoArmed(t) {
      j := at;
    } else if role == InSig {
      TextNotBare(sub, a, i);
    } else {
      j := BareIsHidden(sub, a, i);
    }
  }

  lemma {:induction false} TextNotBare(t: Tree, at: nat, i: nat)
    requires OnlyText(t) && Covers(t, at, i)
    ensures !Bare(t, at, i)
    decreases t
  {
    if at < i { TextNotBare(t.rest, at + 1, i); }
  }

  lemma {:induction false} HiddenIsBare(t: Tree, at: nat, j: nat, i: nat)
    requires Covers(t, at, j) && Covers(t, at, i) && WellIndented(t) && HidesIn(t, at, j, i)
    ensures Bare(t, at, i)
    decreases Size(t)
  {
    HidesWithin(t, at, j, i);
    match Locate(t, at, j)
    case Here =>
    case In(sub, a, _, _) =>
      LocateWell(t, at, j);
      HidesWithin(sub, a, j, i);
      LocateLater(t, at, j, i);
      HiddenIsBare(sub, a, j, i);
  }

  /** Line j hides line i. */
  predicate Hidden(t: Tree, j: nat, i: nat) {
    Covers(t, 0, j) && j < i && HidesIn(t, 0, j, i)
  }

  lemma BareMeans(t: Tree, i: nat)
    requires WellIndented(t) && Covers(t, 0, i)
    ensures Bare(t, 0, i) <==> exists j: nat :: Hidden(t, j, i)
  {
    if Bare(t, 0, i) {
      var j := BareIsHidden(t, 0, i);
      assert Hidden(t, j, i);
    }
    if j: nat :| Hidden(t, j, i) { HiddenIsBare(t, 0, j, i); }
  }

  // ----- elaborated, by lines

  lemma DropsMeans(code: seq<Line>, t: Tree, j: nat, i: nat)
    requires PrintedFile(code, t) && j < i < |code| && code[i].Code?
    ensures Drops(code, j, i) <==> Hidden(t, j, i) || j in Pruners(t, 0, i)
  {
    FileLaidOut(code, t);
    HidesExact(code, 0, t, 0, j, i);
    PrunersByLines(code, t, j, i);
  }

  /** A line is elaborated exactly when no guard above it drops it, whatever tree the file
      is the print of. */
  lemma ReachedByLines(code: seq<Line>, t: Tree, i: nat)
    requires PrintedFile(code, t) && i < |code| && code[i].Code?
    ensures Reached(t, 0, true, i) <==> forall j | 0 <= j < i :: !Drops(code, j, i)
  {
    ReachedExactly(t, 0, i);
    BareMeans(t, i);
    PrunersBelow(t, 0, i);
    forall j: nat | j < i
      ensures Drops(code, j, i) <==> Hidden(t, j, i) || j in Pruners(t, 0, i)
    {
      DropsMeans(code, t, j, i);
    }
    if !Reached(t, 0, true, i) {
      var j: nat :| Hidden(t, j, i) || j in Pruners(t, 0, i);
      assert Drops(code, j, i);
    }
  }
}
