/** Mojo source as a statement tree, what a build without an accelerator elaborates of
    it, and the proof that the flat scan of GuardScan agrees with the tree on every
    well-indented program. */
module GuardTree {
  import opened GuardScan

  /** A block of statements at one column. */
  datatype Tree =
    | End
    | Plain(leaf: Leaf, rest: Tree)
    | Compound(head: Kind, hazards: set<Hazard>, sig: Tree, step: nat, body: Tree, alt: Alt, rest: Tree)

  /** A blank line, or a simple statement or continuation line `extra` columns right of
      the block. */
  datatype Leaf = Gap | Text(extra: nat, hazards: set<Hazard>)

  /** The `else:` of a compound statement. */
  datatype Alt = NoElse | WithElse(hazards: set<Hazard>, step: nat, arm: Tree)

  /** The lines of a block whose statements start at column n. `sig` holds the
      continuation lines of a header, as in a `def` whose parameters span lines. */
  function Print(t: Tree, n: nat): (code: seq<Line>)
    ensures |code| == Size(t)
  {
    match t
    case End => []
    case Plain(leaf, rest) => [PrintLeaf(leaf, n)] + Print(rest, n)
    case Compound(head, hz, sig, step, body, alt, rest) =>
      [Code(n, head, hz)] + (Print(sig, n) + (Print(body, n + step) + (PrintAlt(alt, n) + Print(rest, n))))
  }

  function PrintLeaf(leaf: Leaf, n: nat): Line {
    match leaf
    case Gap => Blank
    case Text(extra, hz) => Code(n + extra, Other, hz)
  }

  function PrintAlt(alt: Alt, n: nat): (code: seq<Line>)
    ensures |code| == if alt.WithElse? then 1 + Size(alt.arm) else 0
  {
    match alt
    case NoElse => []
    case WithElse(hz, step, arm) => [Code(n, Else, hz)] + Print(arm, n + step)
  }

  function Size(t: Tree): nat {
    match t
    case End => 0
    case Plain(_, rest) => 1 + Size(rest)
    case Compound(_, _, sig, _, body, alt, rest) =>
      1 + Size(sig) + Size(body) + (if alt.WithElse? then 1 + Size(alt.arm) else 0) + Size(rest)
  }

  // ----- well-indented programs

  predicate IsGuardKind(kind: Kind) {
    kind.GuardNeg? || kind.GuardPos?
  }

  /** The next statement starts at the block's own column. */
  predicate Flush(t: Tree) {
    t.Plain? ==> if t.leaf.Gap? then Flush(t.rest) else t.leaf.extra == 0
  }

  predicate OnlyText(t: Tree) {
    t.End? || (t.Plain? && OnlyText(t.rest))
  }

  /** Bodies are indented, nothing but a statement's own continuation lines stands right
      of its column, and `else` only appears as the second arm of a statement. */
  predicate WellIndented(t: Tree) {
    match t
    case End => true
    case Plain(_, rest) => WellIndented(rest)
    case Compound(head, _, sig, step, body, alt, rest) =>
      && head != Else && OnlyText(sig) && (IsGuardKind(head) ==> sig.End?)
      && 0 < step && WellIndented(body)
      && (alt.WithElse? ==> 0 < alt.step && WellIndented(alt.arm))
      && WellIndented(rest) && Flush(rest)
  }

  // ----- what a build without an accelerator elaborates

  datatype Role = InRest | InSig | InBody | InElse

  /** Where line i is in the block that starts on line `at`: the header of its first
      statement (or its `else` line), or a smaller block, its first line and how far it
      is indented. */
  datatype Spot = Here | In(sub: Tree, at: nat, shift: nat, role: Role)

  /** Line i belongs to block t, whose first line is `at`. */
  predicate Covers(t: Tree, at: nat, i: nat) {
    at <= i < at + Size(t)
  }

  function Locate(t: Tree, at: nat, i: nat): (s: Spot)
    requires Covers(t, at, i)
    ensures s.In? ==> at < s.at && Covers(s.sub, s.at, i) && s.at + Size(s.sub) <= at + Size(t)
  {
    if i == at then Here
    else if t.Plain? then In(t.rest, at + 1, 0, InRest)
    else
      var a := at + 1 + Size(t.sig);
      var b := a + Size(t.body);
      var c := if t.alt.WithElse? then b + 1 + Size(t.alt.arm) else b;
      if i < a then In(t.sig, at + 1, 0, InSig)
      else if i < b then In(t.body, a, t.step, InBody)
      else if c <= i then In(t.rest, c, 0, InRest)
      else if i == b then Here
      else In(t.alt.arm, b + 1, t.alt.step, InElse)
  }

  /** `has_accelerator()` is false: the compiler drops the first arm of a positive guard
      and the second of a negative one. */
  predicate Dropped(t: Tree, role: Role) {
    t.Compound? && ((role == InBody && t.head.GuardPos?) || (role == InElse && t.head.GuardNeg?))
  }

  predicate TwoArmed(t: Tree) {
    t.Compound? && t.alt.WithElse?
  }

  /** Whether the compiler reaches line i of a block that is itself reached iff `live`. */
  predicate Reached(t: Tree, at: nat, live: bool, i: nat)
    requires Covers(t, at, i)
    decreases Size(t)
  {
    match Locate(t, at, i)
    case Here => live
    case In(sub, a, _, role) => Reached(sub, a, live && !Dropped(t, role), i)
  }

  /** The line numbers of the two-armed guards that have line i, at any depth, in the
      arm the compiler drops. */
  function Pruners(t: Tree, at: nat, i: nat): set<nat>
    requires Covers(t, at, i)
    decreases Size(t)
  {
    match Locate(t, at, i)
    case Here => {}
    case In(sub, a, _, role) =>
      Pruners(sub, a, i) + if Dropped(t, role) && TwoArmed(t) then {at} else {}
  }

  /** Whether line i is in the arm of a positive guard without an `else`: the one shape
      the compiler drops and the scanner does not count. */
  predicate Bare(t: Tree, at: nat, i: nat)
    requires Covers(t, at, i)
    decreases Size(t)
  {
    match Locate(t, at, i)
    case Here => false
    case In(sub, a, _, role) => Bare(sub, a, i) || (Dropped(t, role) && !TwoArmed(t))
  }

  lemma {:induction false} DeadStaysDead(t: Tree, at: nat, i: nat)
    requires Covers(t, at, i)
    ensures !Reached(t, at, false, i)
    decreases Size(t)
  {
    match Locate(t, at, i)
    case Here =>
    case In(sub, a, _, _) => DeadStaysDead(sub, a, i);
  }

  /** The compiler leaves a line out exactly when a two-armed guard discards it or a
      positive guard without an `else` encloses it. */
  lemma {:induction false} ReachedExactly(t: Tree, at: nat, i: nat)
    requires Covers(t, at, i)
    ensures Reached(t, at, true, i) <==> Pruners(t, at, i) == {} && !Bare(t, at, i)
    decreases Size(t)
  {
    match Locate(t, at, i)
    case Here =>
    case In(sub, a, _, role) =>
      ReachedExactly(sub, a, i);
      DeadStaysDead(sub, a, i);
  }

  lemma {:induction false} PrunersBelow(t: Tree, at: nat, i: nat)
    requires Covers(t, at, i)
    ensures forall j | j in Pruners(t, at, i) :: at <= j < i
    decreases Size(t)
  {
    match Locate(t, at, i)
    case Here =>
    case In(sub, a, _, _) => PrunersBelow(sub, a, i);
  }

  // ----- a tree laid out in a file

  /** Lines `at` .. `at + Size(t)` of the file are block t printed at column n. */
  predicate LaidOut(code: seq<Line>, at: nat, t: Tree, n: nat)
    decreases t
  {
    at + Size(t) <= |code| &&
    match t
    case End => true
    case Plain(leaf, rest) => code[at] == PrintLeaf(leaf, n) && LaidOut(code, at + 1, rest, n)
    case Compound(head, hz, sig, step, body, alt, rest) =>
      var a := at + 1 + Size(sig);
      var b := a + Size(body);
      && code[at] == Code(n, head, hz)
      && LaidOut(code, at + 1, sig, n) && LaidOut(code, a, body, n + step)
      && match alt
         case NoElse => LaidOut(code, b, rest, n)
         case WithElse(ehz, estep, arm) =>
           && code[b] == Code(n, Else, ehz) && LaidOut(code, b + 1, arm, n + estep)
           && LaidOut(code, b + 1 + Size(arm), rest, n)
  }

  lemma {:induction false} TextWell(t: Tree)
    requires OnlyText(t)
    ensures WellIndented(t)
  {
    if !t.End? { TextWell(t.rest); }
  }

  /** The parts of a compound statement that is laid out: its body starts on line a, its
      `else` line or what follows on line b, and what follows on line c. */
  predicate PartsLaid(code: seq<Line>, at: nat, t: Tree, n: nat, a: nat, b: nat, c: nat)
    requires t.Compound?
  {
    && a == at + 1 + Size(t.sig) && b == a + Size(t.body)
    && c == (if t.alt.WithElse? then b + 1 + Size(t.alt.arm) else b)
    && LaidOut(code, at + 1, t.sig, n) && LaidOut(code, a, t.body, n + t.step) && LaidOut(code, c, t.rest, n)
    && (t.alt.WithElse? ==> LaidOut(code, b + 1, t.alt.arm, n + t.alt.step))
  }

  lemma PartsOf(code: seq<Line>, at: nat, t: Tree, n: nat) returns (a: nat, b: nat, c: nat)
    requires t.Compound? && LaidOut(code, at, t, n)
    ensures PartsLaid(code, at, t, n, a, b, c)
  {
    a := at + 1 + Size(t.sig);
    b := a + Size(t.body);
    c := if t.alt.WithElse? then b + 1 + Size(t.alt.arm) else b;
  }

  lemma SpotLaid(code: seq<Line>, at: nat, t: Tree, n: nat, i: nat, a: nat, b: nat, c: nat)
    requires t.Compound? && PartsLaid(code, at, t, n, a, b, c) && Covers(t, at, i) && Locate(t, at, i).In?
    ensures var s := Locate(t, at, i); LaidOut(code, s.at, s.sub, n + s.shift)
  {
    if i < a {
      assert Locate(t, at, i) == In(t.sig, at + 1, 0, InSig);
    } else if i < b {
      assert Locate(t, at, i) == In(t.body, a, t.step, InBody);
    } else if c <= i {
      assert Locate(t, at, i) == In(t.rest, c, 0, InRest);
    } else {
      assert Locate(t, at, i) == In(t.alt.arm, b + 1, t.alt.step, InElse);
    }
  }

  lemma SubLaid(code: seq<Line>, at: nat, t: Tree, n: nat, i: nat)
    requires Covers(t, at, i) && LaidOut(code, at, t, n) && Locate(t, at, i).In?
    ensures var s := Locate(t, at, i); LaidOut(code, s.at, s.sub, n + s.shift) && i < |code|
  {
    if t.Compound? {
      var a, b, c := PartsOf(code, at, t, n);
      SpotLaid(code, at, t, n, i, a, b, c);
    }
  }

  lemma OwnLine(code: seq<Line>, at: nat, t: Tree, n: nat, i: nat)
    requires Covers(t, at, i) && LaidOut(code, at, t, n) && WellIndented(t) && Locate(t, at, i).Here?
    ensures i < |code| && (code[i].Code? ==> n <= code[i].indent)
    ensures IsGuard(code[i]) ==> i == at && t.Compound? && IsGuardKind(t.head)
  {}

  lemma LocateLaid(code: seq<Line>, at: nat, t: Tree, n: nat, i: nat)
    requires Covers(t, at, i)
    requires LaidOut(code, at, t, n) && WellIndented(t)
    ensures match Locate(t, at, i)
            case Here =>
              && (code[i].Code? ==> n <= code[i].indent)
              && (IsGuard(code[i]) ==> i == at && t.Compound? && IsGuardKind(t.head))
            case In(sub, a, shift, role) =>
              WellIndented(sub) && LaidOut(code, a, sub, n + shift) && (role == InSig ==> OnlyText(sub))
  {
    if Locate(t, at, i).In? {
      SubLaid(code, at, t, n, i);
      LocateWell(t, at, i);
    } else {
      OwnLine(code, at, t, n, i);
    }
  }

  /** Line i of block t printed at column n. */
  function LineAt(t: Tree, at: nat, n: nat, i: nat): Line
    requires Covers(t, at, i)
    decreases Size(t)
  {
    match Locate(t, at, i)
    case Here =>
      if at < i then Code(n, Else, if t.Compound? && t.alt.WithElse? then t.alt.hazards else {})
      else if t.Plain? then PrintLeaf(t.leaf, n)
      else Code(n, t.head, t.hazards)
    case In(sub, a, shift, _) => LineAt(sub, a, n + shift, i)
  }

  lemma {:induction false} LaidLine(code: seq<Line>, at: nat, t: Tree, n: nat, i: nat)
    requires Covers(t, at, i) && LaidOut(code, at, t, n)
    ensures code[i] == LineAt(t, at, n, i)
    decreases Size(t), 1
  {
    if Locate(t, at, i).In? { LaidInside(code, at, t, n, i); }
  }

  lemma {:induction false} LaidInside(code: seq<Line>, at: nat, t: Tree, n: nat, i: nat)
    requires Covers(t, at, i) && LaidOut(code, at, t, n) && Locate(t, at, i).In?
    ensures code[i] == LineAt(t, at, n, i)
    decreases Size(t), 0
  {
    var In(sub, a, shift, _) := Locate(t, at, i);
    LineInside(t, at, n, i);
    assert i < |code| && code[i] == LineAt(sub, a, n + shift, i) by {
      SubLaid(code, at, t, n, i);
      LaidLine(code, a, sub, n + shift, i);
    }
  }

  lemma LineInside(t: Tree, at: nat, n: nat, i: nat)
    requires Covers(t, at, i) && Locate(t, at, i).In?
    ensures var s := Locate(t, at, i); LineAt(t, at, n, i) == LineAt(s.sub, s.at, n + s.shift, i)
  {}

  /** Nothing in a block stands left of its column. */
  lemma {:induction false} Column(t: Tree, at: nat, n: nat, i: nat)
    requires Covers(t, at, i)
    ensures LineAt(t, at, n, i).Code? ==> n <= LineAt(t, at, n, i).indent
    decreases Size(t)
  {
    match Locate(t, at, i)
    case Here =>
    case In(sub, a, shift, _) => Column(sub, a, n + shift, i);
  }

  lemma {:induction false} SkipBlock(code: seq<Line>, at: nat, t: Tree, n: nat, i: nat, g: nat)
    requires LaidOut(code, at, t, n) && at <= i <= at + Size(t) && g < n
    ensures Stop(code, i, g) == Stop(code, at + Size(t), g)
    decreases at + Size(t) - i
  {
    if i < at + Size(t) {
      LaidLine(code, at, t, n, i);
      Column(t, at, n, i);
      SkipBlock(code, at, t, n, i + 1, g);
    }
  }

  lemma {:induction false} TextLine(t: Tree, at: nat, n: nat, i: nat)
    requires Covers(t, at, i) && OnlyText(t)
    ensures LineAt(t, at, n, i).Code? ==> LineAt(t, at, n, i).kind == Other
    decreases t
  {
    if at < i { TextLine(t.rest, at + 1, n, i); }
  }

  // ----- where a block ends

  /** The first line from k on that is not blank. */
  function First(code: seq<Line>, k: nat): (f: nat)
    requires k <= |code|
    ensures k <= f <= |code| && (f < |code| ==> code[f].Code?)
    decreases |code| - k
  {
    if k == |code| || code[k].Code? then k else First(code, k + 1)
  }

  /** A block at column m can end at line k: what follows is left of m, or at m without
      being an `else`. */
  predicate ClosesAt(code: seq<Line>, k: nat, m: nat)
    requires k <= |code|
  {
    var f := First(code, k);
    f < |code| ==> code[f].indent < m || (code[f].indent == m && code[f].kind != Else)
  }

  lemma {:induction false} StopFirst(code: seq<Line>, k: nat, m: nat, g: nat)
    requires k <= |code| && ClosesAt(code, k, m) && m <= g
    ensures Stop(code, k, g) == First(code, k)
    decreases |code| - k
  {
    if k < First(code, k) { StopFirst(code, k + 1, m, g); }
  }

  lemma {:induction false} NotPastFirst(code: seq<Line>, k: nat, i: nat)
    requires k <= i < |code| && code[i].Code?
    ensures First(code, k) <= i
    decreases |code| - k
  {
    if k < i { NotPastFirst(code, k + 1, i); }
  }

  lemma {:induction false} RestCloses(code: seq<Line>, off: nat, t: Tree, n: nat, m: nat)
    requires LaidOut(code, off, t, n) && WellIndented(t) && Flush(t)
    requires ClosesAt(code, off + Size(t), n) && n <= m
    ensures ClosesAt(code, off, m)
    decreases t
  {
    if t.Plain? && t.leaf.Gap? { RestCloses(code, off + 1, t.rest, n, m); }
  }

  lemma RestLaid(code: seq<Line>, at: nat, t: Tree, n: nat, m: nat)
    requires t.Compound? && n <= m && LaidOut(code, at, t, n)
    requires WellIndented(t) && ClosesAt(code, at + Size(t), n)
    ensures ClosesAt(code, at + Size(t) - Size(t.rest), m)
    ensures TwoArmed(t) && n < m ==> ClosesAt(code, at + 1 + Size(t.sig) + Size(t.body), m)
  {
    var a, b, c := PartsOf(code, at, t, n);
    SizeOf(t);
    RestCloses(code, c, t.rest, n, m);
  }

  lemma ArmCloses(code: seq<Line>, at: nat, t: Tree, i: nat, n: nat)
    requires Covers(t, at, i) && t.Compound? && Locate(t, at, i).In? && Locate(t, at, i).role in {InBody, InElse}
    requires at + Size(t) <= |code|
    requires ClosesAt(code, at + Size(t) - Size(t.rest), n + Locate(t, at, i).shift)
    requires TwoArmed(t) ==> ClosesAt(code, at + 1 + Size(t.sig) + Size(t.body), n + Locate(t, at, i).shift)
    ensures var s := Locate(t, at, i); ClosesAt(code, s.at + Size(s.sub), n + s.shift)
  {
    SizeOf(t);
  }

  /** Every smaller block but a header's continuation lines is closed where it ends. */
  lemma SubCloses(code: seq<Line>, at: nat, t: Tree, n: nat, i: nat)
    requires Covers(t, at, i)
    requires LaidOut(code, at, t, n) && WellIndented(t) && ClosesAt(code, at + Size(t), n)
    requires Locate(t, at, i).In? && Locate(t, at, i).role != InSig
    ensures var s := Locate(t, at, i); ClosesAt(code, s.at + Size(s.sub), n + s.shift)
  {
    var s := Locate(t, at, i);
    if t.Compound? && s.role != InRest {
      RestLaid(code, at, t, n, n + s.shift);
      ArmCloses(code, at, t, i, n);
    }
  }

  // ----- exactness

  lemma LocateLater(t: Tree, at: nat, j: nat, i: nat)
    requires Covers(t, at, j) && Covers(t, at, i) && j < i && Locate(t, at, j).In?
    ensures var s := Locate(t, at, j);
            if Covers(s.sub, s.at, i) then Locate(t, at, i) == s
            else Locate(t, at, i).In? ==> j < Locate(t, at, i).at
  {}

  /** A guard inside a smaller block prunes nothing outside it. */
  lemma PrunedInside(t: Tree, at: nat, j: nat, i: nat)
    requires Covers(t, at, j) && Covers(t, at, i) && j < i && Locate(t, at, j).In?
    ensures var s := Locate(t, at, j);
            j in Pruners(t, at, i) <==> Covers(s.sub, s.at, i) && j in Pruners(s.sub, s.at, i)
  {
    LocateLater(t, at, j, i);
    var r := Locate(t, at, i);
    if r.In? { PrunersBelow(r.sub, r.at, i); }
  }

  lemma HereNoPruner(t: Tree, at: nat, j: nat, i: nat)
    requires Covers(t, at, j) && Covers(t, at, i) && j < i
    requires Locate(t, at, j).Here? && j != at
    ensures j !in Pruners(t, at, i)
  {
    var r := Locate(t, at, i);
    if r.In? { PrunersBelow(r.sub, r.at, i); }
  }

  /** The line of a guard's `else`, or the first line after its body. */
  function ElseLine(t: Tree, at: nat): nat
    requires t.Compound?
  {
    at + 1 + Size(t.sig) + Size(t.body)
  }

  /** The guard that starts block t has an `else`, and line i is in the dropped arm. */
  predicate OwnPrunes(t: Tree, at: nat, i: nat) {
    t.Compound? && IsGuardKind(t.head) && TwoArmed(t) &&
    if t.head.GuardPos? then at < i < ElseLine(t, at)
    else ElseLine(t, at) < i < at + Size(t) - Size(t.rest)
  }

  /** Line j is a guard that drops line i: found by descending to j, where Pruners
      descends to i. */
  predicate Prunes(t: Tree, at: nat, j: nat, i: nat)
    requires Covers(t, at, j)
    decreases Size(t)
  {
    match Locate(t, at, j)
    case Here => j == at && OwnPrunes(t, at, i)
    case In(sub, a, _, role) => role != InSig && Prunes(sub, a, j, i)
  }

  lemma OwnPruner(t: Tree, at: nat, i: nat)
    requires at < i && Covers(t, at, i) && WellIndented(t)
    ensures at in Pruners(t, at, i) <==> OwnPrunes(t, at, i)
  {
    var r := Locate(t, at, i);
    if r.In? { PrunersBelow(r.sub, r.at, i); }
  }

  lemma {:induction false} TextPrunersEmpty(t: Tree, at: nat, i: nat)
    requires OnlyText(t) && Covers(t, at, i)
    ensures Pruners(t, at, i) == {}
    decreases t
  {
    if at < i { TextPrunersEmpty(t.rest, at + 1, i); }
  }

  lemma LocateWell(t: Tree, at: nat, i: nat)
    requires Covers(t, at, i) && WellIndented(t)
    ensures match Locate(t, at, i)
            case Here => true
            case In(sub, _, _, role) => WellIndented(sub) && (role == InSig ==> OnlyText(sub))
  {
    if t.Compound? { TextWell(t.sig); }
  }

  lemma {:induction false} PrunesMeans(t: Tree, at: nat, j: nat, i: nat)
    requires WellIndented(t) && Covers(t, at, j) && j < i
    ensures Prunes(t, at, j, i) <==> Covers(t, at, i) && j in Pruners(t, at, i)
    decreases Size(t)
  {
    LocateWell(t, at, j);
    match Locate(t, at, j)
    case Here =>
      if Covers(t, at, i) {
        if j == at { OwnPruner(t, at, i); } else { HereNoPruner(t, at, j, i); }
      }
    case In(sub, a, _, role) =>
      if Covers(t, at, i) { PrunedInside(t, at, j, i); }
      if role != InSig {
        PrunesMeans(sub, a, j, i);
      } else if Covers(sub, a, i) {
        TextPrunersEmpty(sub, a, i);
      }
  }

  /** The scan is exact: on every well-indented program the guards that Discards names
      for a line are the two-armed guards that have it in their discarded arm. */
  lemma {:induction false} ScanExact(code: seq<Line>, at: nat, t: Tree, n: nat, j: nat, i: nat)
    requires LaidOut(code, at, t, n) && WellIndented(t)
    requires ClosesAt(code, at + Size(t), n)
    requires Covers(t, at, j) && j < i < |code| && code[i].Code?
    ensures Discards(code, j, i) <==> Prunes(t, at, j, i)
    decreases Size(t), 1
  {
    Descend(code, at, t, n, j);
    if Locate(t, at, j).In? {
      InsideExact(code, at, t, n, j, i);
    } else if IsGuard(code[j]) {
      GuardScans(code, at, t, n, i);
    }
  }

  lemma {:induction false} InsideExact(code: seq<Line>, at: nat, t: Tree, n: nat, j: nat, i: nat)
    requires Covers(t, at, j) && Locate(t, at, j).In? && j < i < |code| && code[i].Code?
    requires var In(sub, a, shift, role) := Locate(t, at, j);
             if role == InSig then !IsGuard(code[j])
             else LaidOut(code, a, sub, n + shift) && WellIndented(sub) && ClosesAt(code, a + Size(sub), n + shift)
    ensures Discards(code, j, i) <==> Prunes(t, at, j, i)
    decreases Size(t), 0
  {
    var In(sub, a, shift, role) := Locate(t, at, j);
    PrunesInside(t, at, j, i);
    if role != InSig { ScanExact(code, a, sub, n + shift, j, i); }
  }

  lemma PrunesInside(t: Tree, at: nat, j: nat, i: nat)
    requires Covers(t, at, j) && Locate(t, at, j).In?
    ensures var s := Locate(t, at, j); Prunes(t, at, j, i) <==> s.role != InSig && Prunes(s.sub, s.at, j, i)
  {}

  /** One step down the tree: what the smaller block that holds line j inherits. */
  lemma Descend(code: seq<Line>, at: nat, t: Tree, n: nat, j: nat)
    requires LaidOut(code, at, t, n) && WellIndented(t) && ClosesAt(code, at + Size(t), n)
    requires Covers(t, at, j)
    ensures match Locate(t, at, j)
            case Here => IsGuard(code[j]) <==> j == at && t.Compound? && IsGuardKind(t.head)
            case In(sub, a, shift, role) =>
              if role == InSig then !IsGuard(code[j])
              else LaidOut(code, a, sub, n + shift) && WellIndented(sub) && ClosesAt(code, a + Size(sub), n + shift)
  {
    LocateLaid(code, at, t, n, j);
    match Locate(t, at, j)
    case Here =>
    case In(sub, a, shift, role) =>
      if role == InSig {
        LaidLine(code, a, sub, n + shift, j);
        TextLine(sub, a, n + shift, j);
      } else { SubCloses(code, at, t, n, j); }
  }

  lemma BodyStops(code: seq<Line>, at: nat, t: Tree, n: nat, b: nat)
    requires LaidOut(code, at, t, n) && WellIndented(t) && t.Compound? && IsGuardKind(t.head)
    requires b == ElseLine(t, at)
    ensures at < b <= |code| && code[at].Code? && code[at].indent == n && code[at].kind == t.head
    ensures Stop(code, at + 1, n) == Stop(code, b, n)
  {
    var a, end, c := PartsOf(code, at, t, n);
    GuardBody(code, a, t.body, n + t.step, n);
    assert Size(t.sig) == 0 && a == at + 1 && end == b;
  }

  lemma GuardBody(code: seq<Line>, a: nat, body: Tree, m: nat, n: nat)
    requires LaidOut(code, a, body, m) && n < m
    ensures a + Size(body) <= |code| && Stop(code, a, n) == Stop(code, a + Size(body), n)
  {
    SkipBlock(code, a, body, m, a, n);
  }

  lemma ElseStops(code: seq<Line>, at: nat, t: Tree, n: nat, b: nat, c: nat)
    requires LaidOut(code, at, t, n) && WellIndented(t) && t.Compound? && TwoArmed(t)
    requires b == ElseLine(t, at) && c == at + Size(t) - Size(t.rest)
    ensures b < c <= |code| && IsElse(code[b], n) && Stop(code, b + 1, n) == Stop(code, c, n)
  {
    SkipBlock(code, b + 1, t.alt.arm, n + t.alt.step, b + 1, n);
  }

  lemma RestStops(code: seq<Line>, at: nat, t: Tree, n: nat, c: nat)
    requires LaidOut(code, at, t, n) && WellIndented(t) && t.Compound?
    requires c == at + Size(t) - Size(t.rest) && ClosesAt(code, at + Size(t), n)
    ensures c <= |code| && Stop(code, c, n) == First(code, c)
    ensures First(code, c) < |code| ==> !IsElse(code[First(code, c)], n)
  {
    RestLaid(code, at, t, n, n);
    StopFirst(code, c, n, n);
  }

  lemma GuardScans(code: seq<Line>, at: nat, t: Tree, n: nat, i: nat)
    requires LaidOut(code, at, t, n) && WellIndented(t)
    requires t.Compound? && IsGuardKind(t.head)
    requires ClosesAt(code, at + Size(t), n)
    requires at < i < |code| && code[i].Code?
    ensures Discards(code, at, i) <==> OwnPrunes(t, at, i)
  {
    var b, c := ElseLine(t, at), at + Size(t) - Size(t.rest);
    GuardStops(code, at, t, n, b, c);
    ArmOf(code, at, b, c, i, TwoArmed(t));
  }

  lemma GuardStops(code: seq<Line>, at: nat, t: Tree, n: nat, b: nat, c: nat)
    requires LaidOut(code, at, t, n) && WellIndented(t) && t.Compound? && IsGuardKind(t.head)
    requires b == ElseLine(t, at) && c == at + Size(t) - Size(t.rest)
    requires ClosesAt(code, at + Size(t), n)
    ensures at < b <= c <= |code| && code[at].Code? && code[at].indent == n && code[at].kind == t.head
    ensures Stop(code, at + 1, n) == Stop(code, b, n) && Stop(code, c, n) == First(code, c)
    ensures First(code, c) < |code| ==> !IsElse(code[First(code, c)], n)
    ensures if TwoArmed(t) then b < c && IsElse(code[b], n) && Stop(code, b + 1, n) == Stop(code, c, n) else b == c
  {
    BodyStops(code, at, t, n, b);
    if TwoArmed(t) { ElseStops(code, at, t, n, b, c); }
    RestStops(code, at, t, n, c);
  }

  lemma ArmOf(code: seq<Line>, at: nat, b: nat, c: nat, i: nat, two: bool)
    requires at < b <= c <= |code| && at < i < |code| && code[i].Code? && IsGuard(code[at])
    requires var g := code[at].indent;
             && Stop(code, at + 1, g) == Stop(code, b, g) && Stop(code, c, g) == First(code, c)
             && (First(code, c) < |code| ==> !IsElse(code[First(code, c)], g))
             && if two then b < c && IsElse(code[b], g) && Stop(code, b + 1, g) == Stop(code, c, g) else b == c
    ensures Discards(code, at, i) <==> two && if code[at].kind.GuardPos? then i < b else b < i < c
  {
    if c <= i { NotPastFirst(code, c, i); }
  }

  // ----- every tree has a layout

  /** Lines `at` .. `end` of the file are xs. */
  predicate Holds(code: seq<Line>, at: nat, end: nat, xs: seq<Line>)
    decreases |xs|
  {
    if xs == [] then at == end <= |code|
    else at < |code| && code[at] == xs[0] && Holds(code, at + 1, end, xs[1..])
  }

  lemma {:induction false} Part(code: seq<Line>, at: nat, mid: nat, end: nat, xs: seq<Line>, ys: seq<Line>)
    requires Holds(code, at, end, xs + ys) && mid == at + |xs|
    ensures Holds(code, at, mid, xs) && Holds(code, mid, end, ys)
    decreases |xs|
  {
    if xs == [] {
      assert xs + ys == ys;
      HoldsEnd(code, at, end, ys);
    } else {
      assert (xs + ys)[1..] == xs[1..] + ys;
      Part(code, at + 1, mid, end, xs[1..], ys);
    }
  }

  lemma {:induction false} HoldsEnd(code: seq<Line>, at: nat, end: nat, xs: seq<Line>)
    requires Holds(code, at, end, xs)
    ensures end == at + |xs| <= |code|
    decreases |xs|
  {
    if xs != [] { HoldsEnd(code, at + 1, end, xs[1..]); }
  }

  lemma {:induction false} HoldsSelf(code: seq<Line>, at: nat)
    requires at <= |code|
    ensures Holds(code, at, |code|, code[at..])
    decreases |code| - at
  {
    if at < |code| { HoldsSelf(code, at + 1); }
  }

  lemma {:induction false} PrintLaidOut(code: seq<Line>, at: nat, end: nat, t: Tree, n: nat)
    requires Holds(code, at, end, Print(t, n))
    ensures LaidOut(code, at, t, n) && end == at + Size(t)
    decreases t, 3
  {
    match t
    case End =>
    case Plain(leaf, rest) =>
      assert Print(t, n)[1..] == Print(rest, n);
      PrintLaidOut(code, at + 1, end, rest, n);
    case Compound(_, _, _, _, _, _, _) =>
      CompoundLaidOut(code, at, end, t, n);
  }

  lemma {:induction false} CompoundLaidOut(code: seq<Line>, at: nat, end: nat, t: Tree, n: nat)
    requires t.Compound? && Holds(code, at, end, Print(t, n))
    ensures LaidOut(code, at, t, n) && end == at + Size(t)
    decreases t, 2
  {
    var xs, ys, zs := Print(t.sig, n), Print(t.body, n + t.step), PrintAlt(t.alt, n) + Print(t.rest, n);
    assert Print(t, n)[1..] == xs + (ys + zs);
    var a := at + 1 + |xs|;
    var b := a + |ys|;
    Part(code, at + 1, a, end, xs, ys + zs);
    Part(code, a, b, end, ys, zs);
    PrintLaidOut(code, at + 1, a, t.sig, n);
    PrintLaidOut(code, a, b, t.body, n + t.step);
    TailLaidOut(code, b, end, t, n);
    Assemble(code, at, a, b, end, t, n);
  }

  lemma Assemble(code: seq<Line>, at: nat, a: nat, b: nat, end: nat, t: Tree, n: nat)
    requires t.Compound? && at < |code| && code[at] == Code(n, t.head, t.hazards)
    requires LaidOut(code, at + 1, t.sig, n) && a == at + 1 + Size(t.sig)
    requires LaidOut(code, a, t.body, n + t.step) && b == a + Size(t.body)
    requires TailLaid(code, b, end, t, n)
    ensures LaidOut(code, at, t, n) && end == at + Size(t)
  {
    LaidOutEnd(code, if t.alt.NoElse? then b else b + 1 + Size(t.alt.arm), t.rest, n);
    SizeOf(t);
  }

  /** Lines b .. end are the second arm of t, if there is one, and what follows t. */
  predicate TailLaid(code: seq<Line>, b: nat, end: nat, t: Tree, n: nat)
    requires t.Compound?
  {
    match t.alt
    case NoElse => LaidOut(code, b, t.rest, n) && end == b + Size(t.rest)
    case WithElse(ehz, estep, arm) =>
      && b < |code| && code[b] == Code(n, Else, ehz) && LaidOut(code, b + 1, arm, n + estep)
      && LaidOut(code, b + 1 + Size(arm), t.rest, n) && end == b + 1 + Size(arm) + Size(t.rest)
  }

  lemma SizeOf(t: Tree)
    requires t.Compound?
    ensures Size(t) == 1 + Size(t.sig) + Size(t.body) + (if t.alt.WithElse? then 1 + Size(t.alt.arm) else 0) + Size(t.rest)
  {}

  lemma LaidOutEnd(code: seq<Line>, at: nat, t: Tree, n: nat)
    requires LaidOut(code, at, t, n)
    ensures at + Size(t) <= |code|
  {}

  lemma {:induction false} TailLaidOut(code: seq<Line>, b: nat, end: nat, t: Tree, n: nat)
    requires t.Compound? && Holds(code, b, end, PrintAlt(t.alt, n) + Print(t.rest, n))
    ensures TailLaid(code, b, end, t, n)
    decreases t, 1
  {
    if t.alt.NoElse? {
      assert [] + Print(t.rest, n) == Print(t.rest, n);
      PrintLaidOut(code, b, end, t.rest, n);
    } else {
      ElseFirst(code, b, end, Code(n, Else, t.alt.hazards), Print(t.alt.arm, n + t.alt.step), Print(t.rest, n));
      ArmLaidOut(code, b, end, t, n);
    }
  }

  lemma {:induction false} ArmLaidOut(code: seq<Line>, b: nat, end: nat, t: Tree, n: nat)
    requires t.Compound? && t.alt.WithElse? && b < |code| && code[b] == Code(n, Else, t.alt.hazards)
    requires var xs := Print(t.alt.arm, n + t.alt.step);
             Holds(code, b + 1, b + 1 + |xs|, xs) && Holds(code, b + 1 + |xs|, end, Print(t.rest, n))
    ensures TailLaid(code, b, end, t, n)
    decreases t, 0
  {
    var mid := b + 1 + |Print(t.alt.arm, n + t.alt.step)|;
    PrintLaidOut(code, b + 1, mid, t.alt.arm, n + t.alt.step);
    PrintLaidOut(code, mid, end, t.rest, n);
  }

  lemma ElseFirst(code: seq<Line>, b: nat, end: nat, line: Line, xs: seq<Line>, ys: seq<Line>)
    requires Holds(code, b, end, [line] + xs + ys)
    ensures b < |code| && code[b] == line
    ensures Holds(code, b + 1, b + 1 + |xs|, xs) && Holds(code, b + 1 + |xs|, end, ys)
  {
    assert ([line] + xs + ys)[1..] == xs + ys;
    Part(code, b + 1, b + 1 + |xs|, end, xs, ys);
  }

  lemma FileLaidOut(code: seq<Line>, t: Tree)
    requires code == Print(t, 0)
    ensures LaidOut(code, 0, t, 0) && |code| == Size(t)
  {
    HoldsSelf(code, 0);
    assert code[0..] == code;
    PrintLaidOut(code, 0, |code|, t, 0);
  }

  /** On a printed file the scan's guards are the tree's. */
  lemma PrunersByLines(code: seq<Line>, t: Tree, j: nat, i: nat)
    requires code == Print(t, 0) && WellIndented(t) && j < i < |code| && code[i].Code?
    ensures Discards(code, j, i) <==> j in Pruners(t, 0, i)
  {
    FileLaidOut(code, t);
    ScanExact(code, 0, t, 0, j, i);
    PrunesMeans(t, 0, j, i);
  }
}
