/** Which line sequences are the print of a well-indented tree: a pass over the lines that
    keeps the columns of the open blocks, and a builder for the tree. */
module GuardLayout {
  import opened Prelude
  import opened GuardScan
  import opened GuardTree

  /** The blocks that are open, innermost first, by the column of their statements; `alt`
      unless the last line of the block is an `else`. */
  datatype Stack = Empty | Open(column: nat, alt: bool, outer: Stack)

  /** The blocks left of column `firm` hold a statement that ends only where a line returns
      to its column; the others may yet turn out to be continuation lines. */
  datatype State = State(stack: Stack, firm: nat)

  const START := State(Empty, 0)

  /** The outermost block is at column 0, and each other right of the one around it. */
  predicate Rising(s: Stack) {
    s.Open? ==> (if s.outer.Empty? then s.column == 0 else s.outer.column < s.column) && Rising(s.outer)
  }

  /** The blocks left of column c. */
  function Left(s: Stack, c: nat): Stack {
    if s.Empty? || s.column < c then s else Left(s.outer, c)
  }

  /** A block stands at column c. */
  predicate Has(s: Stack, c: nat) {
    s.Open? && (s.column == c || (c < s.column && Has(s.outer, c)))
  }

  /** ... and its last statement can take an `else`. */
  predicate Armed(s: Stack, c: nat) {
    s.Open? && if s.column == c then s.alt else c < s.column && Armed(s.outer, c)
  }

  /** A line to the right of every open block opens one, one at the column of a block
      returns to it, and one in between is only right when nothing holds the blocks that
      it leaves. `else` needs a statement at its column that has none. */
  function Next(s: State, line: Line): Option<State> {
    match line
    case Blank => Some(s)
    case Code(c, kind, _) =>
      if kind == Else then
        if Armed(s.stack, c) then Some(State(Open(c, false, Left(s.stack, c)), c + 1)) else None
      else if s.stack.Empty? && c > 0 then if kind == Other then Some(s) else None
      else if c + 1 < s.firm && !Has(s.stack, c) then None
      else Some(State(Open(c, true, Left(s.stack, c)), if kind != Other || c < s.firm then c + 1 else s.firm))
  }

  function Pass(s: State, code: seq<Line>): Option<State>
    decreases |code|
  {
    if code == [] then Some(s)
    else match Next(s, code[0]) case None => None case Some(next) => Pass(next, code[1..])
  }

  lemma {:induction false} LeftRises(s: Stack, c: nat)
    requires Rising(s)
    ensures Rising(Left(s, c)) && (Left(s, c).Open? ==> Left(s, c).column < c) && (s.Open? && Left(s, c).Empty? ==> c == 0)
    decreases s
  {
    if s.Open? && c <= s.column { LeftRises(s.outer, c); }
  }

  lemma NextRises(s: State, line: Line)
    requires Rising(s.stack) && Next(s, line).Some?
    ensures Rising(Next(s, line).value.stack)
  {
    if line.Code? {
      LeftRises(s.stack, line.indent);
      if line.kind == Else { ArmedHas(s.stack, line.indent); }
    }
  }

  lemma {:induction false} ArmedHas(s: Stack, n: nat)
    requires Armed(s, n)
    ensures Has(s, n)
    decreases s
  {
    if s.column != n { ArmedHas(s.outer, n); }
  }

  lemma {:induction false} PassAppend(s: State, a: seq<Line>, b: seq<Line>)
    ensures Pass(s, a + b) == match Pass(s, a) case None => None case Some(mid) => Pass(mid, b)
    decreases |a|
  {
    if a == [] {
      assert a + b == b;
    } else {
      assert (a + b)[1..] == a[1..] + b;
      if Next(s, a[0]).Some? { PassAppend(Next(s, a[0]).value, a[1..], b); }
    }
  }

  lemma PassCons(s: State, line: Line, code: seq<Line>)
    ensures Pass(s, [line] + code) == match Next(s, line) case None => None case Some(next) => Pass(next, code)
  {
    assert ([line] + code)[1..] == code;
  }

  // ----- every tree passes

  /** Nothing right of column n has to be returned to. */
  predicate Loose(s: State, n: nat) {
    s.firm <= n + 1
  }

  /** Block t can be read at column n. */
  predicate Ready(s: State, t: Tree, n: nat) {
    (Loose(s, n) && (n > 0 ==> s.stack.Open?)) || (Has(s.stack, n) && Flush(t))
  }

  /** From s to r nothing left of column n has changed. */
  predicate Keeps(s: State, r: Option<State>, n: nat) {
    r.Some? && Left(r.value.stack, n) == Left(s.stack, n)
  }

  lemma {:induction false} LeftLeft(s: Stack, n: nat, c: nat)
    requires n <= c
    ensures Left(Left(s, c), n) == Left(s, n)
    decreases s
  {
    if s.Open? && c <= s.column { LeftLeft(s.outer, n, c); }
  }

  lemma {:induction false} HasLeft(s: Stack, n: nat, m: nat)
    requires n < m
    ensures (Has(Left(s, m), n) <==> Has(s, n)) && (Armed(Left(s, m), n) <==> Armed(s, n))
    decreases s
  {
    if s.Open? && m <= s.column { HasLeft(s.outer, n, m); }
  }

  /** What is kept at a column is kept left of it. */
  lemma KeptLeft(s: Stack, r: Stack, n: nat, m: nat)
    requires n < m && Left(r, m) == Left(s, m)
    ensures Left(r, n) == Left(s, n) && (Has(s, n) <==> Has(r, n)) && (Armed(s, n) <==> Armed(r, n))
  {
    LeftLeft(s, n, m);
    LeftLeft(r, n, m);
    HasLeft(s, n, m);
    HasLeft(r, n, m);
  }

  lemma TextPasses(s: State, n: nat, c: nat, hz: set<Hazard>)
    requires n <= c && ((Loose(s, n) && (n > 0 ==> s.stack.Open?)) || (Has(s.stack, n) && c == n))
    ensures var r := Next(s, Code(c, Other, hz));
            Keeps(s, r, n) && Loose(r.value, n) && (n > 0 ==> r.value.stack.Open?)
  {
    LeftLeft(s.stack, n, c);
  }

  lemma HeaderPasses(s: State, n: nat, kind: Kind, hz: set<Hazard>)
    requires kind != Else && (Has(s.stack, n) || (Loose(s, n) && (n > 0 ==> s.stack.Open?)))
    ensures var r := Next(s, Code(n, kind, hz));
            Keeps(s, r, n) && Loose(r.value, n) && Armed(r.value.stack, n)
  {
    LeftLeft(s.stack, n, n);
  }

  lemma ElsePasses(s: State, n: nat, hz: set<Hazard>)
    requires Armed(s.stack, n)
    ensures var r := Next(s, Code(n, Else, hz));
            Keeps(s, r, n) && Loose(r.value, n) && Has(r.value.stack, n)
  {
    LeftLeft(s.stack, n, n);
  }

  /** A continuation line, or a blank one, leaves the statement as it is. */
  lemma SigLeafPasses(s: State, leaf: Leaf, n: nat)
    requires Loose(s, n) && Armed(s.stack, n)
    ensures var r := Next(s, PrintLeaf(leaf, n)); Keeps(s, r, n) && Loose(r.value, n) && Armed(r.value.stack, n)
  {
    if leaf.Text? {
      var c := n + leaf.extra;
      ArmedHas(s.stack, n);
      TextPasses(s, n, c, leaf.hazards);
      if n < c {
        LeftLeft(s.stack, n + 1, c);
        KeptLeft(s.stack, Open(c, true, Left(s.stack, c)), n, n + 1);
      }
    }
  }

  lemma {:induction false} SigPasses(s: State, sig: Tree, n: nat)
    requires Loose(s, n) && Armed(s.stack, n) && OnlyText(sig)
    ensures var r := Pass(s, Print(sig, n)); Keeps(s, r, n) && Loose(r.value, n) && Armed(r.value.stack, n)
    decreases sig
  {
    if sig.Plain? {
      var line := PrintLeaf(sig.leaf, n);
      SigLeafPasses(s, sig.leaf, n);
      SigPasses(Next(s, line).value, sig.rest, n);
      PassCons(s, line, Print(sig.rest, n));
    }
  }

  lemma LeafPasses(s: State, t: Tree, n: nat)
    requires t.Plain? && Ready(s, t, n)
    ensures var r := Next(s, PrintLeaf(t.leaf, n)); Keeps(s, r, n) && Ready(r.value, t.rest, n)
  {
    if t.leaf.Text? { TextPasses(s, n, n + t.leaf.extra, t.leaf.hazards); }
  }

  lemma {:induction false} TreePasses(s: State, t: Tree, n: nat)
    requires WellIndented(t) && Ready(s, t, n)
    ensures Keeps(s, Pass(s, Print(t, n)), n)
    decreases t, 3
  {
    match t
    case End =>
    case Plain(leaf, rest) =>
      var line := PrintLeaf(leaf, n);
      LeafPasses(s, t, n);
      TreePasses(Next(s, line).value, rest, n);
      PassCons(s, line, Print(rest, n));
    case Compound(_, _, _, _, _, _, _) => CompoundPasses(s, t, n);
  }

  lemma {:induction false} CompoundPasses(s: State, t: Tree, n: nat)
    requires t.Compound? && WellIndented(t) && Ready(s, t, n)
    ensures Keeps(s, Pass(s, Print(t, n)), n)
    decreases t, 2
  {
    var line := Code(n, t.head, t.hazards);
    var xs, zs := Print(t.sig, n) + Print(t.body, n + t.step), PrintAlt(t.alt, n) + Print(t.rest, n);
    HeaderPasses(s, n, t.head, t.hazards);
    var a := Next(s, line).value;
    BodyPasses(a, t, n);
    EndPasses(Pass(a, xs).value, t, n);
    PassAppend(a, xs, zs);
    PassCons(s, line, xs + zs);
    CompoundPrint(t, n);
  }

  lemma CompoundPrint(t: Tree, n: nat)
    requires t.Compound?
    ensures var body, end := Print(t.sig, n) + Print(t.body, n + t.step), PrintAlt(t.alt, n) + Print(t.rest, n);
            Print(t, n) == [Code(n, t.head, t.hazards)] + (body + end)
  {}

  lemma {:induction false} BodyPasses(s: State, t: Tree, n: nat)
    requires t.Compound? && WellIndented(t) && Loose(s, n) && Armed(s.stack, n)
    ensures var r := Pass(s, Print(t.sig, n) + Print(t.body, n + t.step)); Keeps(s, r, n) && Armed(r.value.stack, n)
    decreases t, 1
  {
    SigPasses(s, t.sig, n);
    var a := Pass(s, Print(t.sig, n)).value;
    TreePasses(a, t.body, n + t.step);
    KeptLeft(a.stack, Pass(a, Print(t.body, n + t.step)).value.stack, n, n + t.step);
    PassAppend(s, Print(t.sig, n), Print(t.body, n + t.step));
  }

  lemma {:induction false} EndPasses(s: State, t: Tree, n: nat)
    requires t.Compound? && WellIndented(t) && Armed(s.stack, n)
    ensures Keeps(s, Pass(s, PrintAlt(t.alt, n) + Print(t.rest, n)), n)
    decreases t, 1
  {
    ArmedHas(s.stack, n);
    if t.alt.WithElse? { ArmPasses(s, t, n); }
    TreePasses(Pass(s, PrintAlt(t.alt, n)).value, t.rest, n);
    PassAppend(s, PrintAlt(t.alt, n), Print(t.rest, n));
  }

  lemma {:induction false} ArmPasses(s: State, t: Tree, n: nat)
    requires t.Compound? && t.alt.WithElse? && WellIndented(t) && Armed(s.stack, n)
    ensures var r := Pass(s, PrintAlt(t.alt, n)); Keeps(s, r, n) && Has(r.value.stack, n)
    decreases t, 0
  {
    var arm, m, line := t.alt.arm, n + t.alt.step, Code(n, Else, t.alt.hazards);
    ElsePasses(s, n, t.alt.hazards);
    var a := Next(s, line).value;
    TreePasses(a, arm, m);
    KeptLeft(a.stack, Pass(a, Print(arm, m)).value.stack, n, m);
    PassCons(s, line, Print(arm, m));
  }

  // ----- the tree of what passes

  /** What is still to come of the open blocks, innermost first: the `else` of the last
      statement, and the statements after that one. */
  datatype Tails = Done | Tail(column: nat, alt: Alt, rest: Tree, outer: Tails)

  function PrintTails(tails: Tails): seq<Line> {
    match tails
    case Done => []
    case Tail(n, alt, rest, outer) => PrintAlt(alt, n) + Print(rest, n) + PrintTails(outer)
  }

  /** The lines that are left: the statements of a block at `column`, then the tails. */
  datatype Plan = Plan(column: nat, body: Tree, tails: Tails)

  function Lines(p: Plan): seq<Line> {
    Print(p.body, p.column) + PrintTails(p.tails)
  }

  predicate Fitting(alt: bool, tails: Tails)
    requires tails.Tail?
  {
    && (tails.alt.WithElse? ==> alt && 0 < tails.alt.step && WellIndented(tails.alt.arm))
    && WellIndented(tails.rest) && Flush(tails.rest)
  }

  /** A tail for every block. */
  predicate Match(s: Stack, tails: Tails) {
    match s
    case Empty => tails.Done?
    case Open(c, alt, outer) => tails.Tail? && tails.column == c && Fitting(alt, tails) && Match(outer, tails.outer)
  }

  /** The blocks that a line must return to, and some of the others, have tails; the lines
      that opened the rest belong to the block at column m. */
  predicate Fit(s: Stack, firm: nat, m: nat, tails: Tails) {
    || ((if s.Empty? then m == 0 else s.column < m) && Match(s, tails))
    || (s.Open? && firm <= s.column && m <= s.column && Fit(s.outer, firm, m, tails))
  }

  predicate Fits(s: State, p: Plan) {
    WellIndented(p.body) && Fit(s.stack, s.firm, p.column, p.tails)
  }

  /** The blocks right of column c end here. */
  function Ends(s: Stack, c: nat, tails: Tails): Tails {
    if s.Empty? || s.column <= c then tails else Tail(s.column, NoElse, End, Ends(s.outer, c, tails))
  }

  function Close(s: Stack, c: nat, tails: Tails): Plan {
    Plan(if s.Empty? then 0 else s.column + 1, End, Ends(s, c, tails))
  }

  /** A statement whose body is the block of the plan. */
  function Statement(c: nat, kind: Kind, hz: set<Hazard>, p: Plan): Tree
    requires p.tails.Tail?
  {
    Compound(kind, hz, End, Step(c, p), p.body, p.tails.alt, p.tails.rest)
  }

  function Step(c: nat, p: Plan): nat {
    if c < p.column then p.column - c else 0
  }

  /** The plan with one more line before it: the line belongs to the block of the plan, or
      heads it. */
  function Before(s: State, line: Line, p: Plan): Plan {
    match line
    case Blank => p.(body := Plain(Gap, p.body))
    case Code(c, kind, hz) =>
      if p.tails.Done? || p.tails.column != c then p.(body := Plain(Text(if p.column <= c then c - p.column else 0, hz), p.body))
      else
        var rest := p.tails.rest;
        if kind == Else then Close(s.stack, c, Tail(c, WithElse(hz, Step(c, p), p.body), rest, p.tails.outer))
        else if Has(s.stack, c) then Close(s.stack, c, Tail(c, NoElse, Statement(c, kind, hz, p), p.tails.outer))
        else Plan(c, Statement(c, kind, hz, p), p.tails.outer)
  }

  lemma {:induction false} EndsPrint(s: Stack, c: nat, tails: Tails)
    ensures PrintTails(Ends(s, c, tails)) == PrintTails(tails)
    decreases s
  {
    if s.Open? && c < s.column { EndsPrint(s.outer, c, tails); }
  }

  /** The block at column c has this tail, and the blocks around it those beyond. */
  lemma {:induction false} EndsMatch(s: Stack, c: nat, tails: Tails)
    requires Rising(s) && Has(s, c) && tails.Tail? && tails.column == c && Match(Left(s, c), tails.outer)
    requires Fitting(Armed(s, c), tails)
    ensures Match(s, Ends(s, c, tails))
    decreases s
  {
    if s.column != c { EndsMatch(s.outer, c, tails); } else { assert Left(s.outer, c) == s.outer; }
  }

  lemma {:induction false} TailsLeft(s: Stack, firm: nat, m: nat, tails: Tails)
    requires Rising(s) && Fit(s, firm, m, tails) && tails.Tail?
    ensures s.Open? && tails.column <= s.column
    decreases s
  {
    if s.Open? && !Match(s, tails) { TailsLeft(s.outer, firm, m, tails); }
  }

  /** What fits the blocks left of a column fits them all, if none of the others is firm. */
  lemma {:induction false} Demoted(s: Stack, c: nat, firm: nat, m: nat, tails: Tails)
    requires Fit(Left(s, c), firm, m, tails) && firm <= c && m <= c
    ensures Fit(s, firm, m, tails)
    decreases s
  {
    if s.Open? && c <= s.column { Demoted(s.outer, c, firm, m, tails); }
  }

  /** A new block at a column where none is. */
  lemma {:induction false} NewBlock(s: Stack, c: nat, firm: nat, tails: Tails)
    requires Rising(s) && !Has(s, c) && firm <= c + 1 && (s.Empty? ==> c == 0) && Match(Left(s, c), tails)
    ensures Fit(s, firm, c, tails)
    decreases s
  {
    if s.Open? && c <= s.column { NewBlock(s.outer, c, firm, tails); }
  }

  lemma CloseFits(s: State, c: nat, tails: Tails)
    requires Match(s.stack, Ends(s.stack, c, tails))
    ensures Fits(s, Close(s.stack, c, tails)) && Lines(Close(s.stack, c, tails)) == PrintTails(tails)
  {
    EndsPrint(s.stack, c, tails);
  }

  lemma BeforeText(s: State, c: nat, kind: Kind, hz: set<Hazard>, p: Plan)
    requires var r := Next(s, Code(c, kind, hz)); Rising(s.stack) && r.Some? && Fits(r.value, p)
    requires p.tails.Tail? ==> p.tails.column != c
    ensures var b := Before(s, Code(c, kind, hz), p); Fits(s, b) && Lines(b) == [Code(c, kind, hz)] + Lines(p)
  {
    var r := Next(s, Code(c, kind, hz)).value;
    if s.stack.Open? || c == 0 {
      assert !Match(r.stack, p.tails);
      Demoted(s.stack, c, r.firm, p.column, p.tails);
    }
  }

  lemma HeadPrints(c: nat, kind: Kind, hz: set<Hazard>, p: Plan)
    requires p.tails.Tail? && p.tails.column == c && c < p.column
    ensures Print(Statement(c, kind, hz, p), c) + PrintTails(p.tails.outer) == [Code(c, kind, hz)] + Lines(p)
  {}

  lemma ElsePrints(c: nat, hz: set<Hazard>, p: Plan)
    requires p.tails.Tail? && p.tails.column == c && c < p.column && p.tails.alt.NoElse?
    ensures var tails := Tail(c, WithElse(hz, Step(c, p), p.body), p.tails.rest, p.tails.outer);
            PrintTails(tails) == [Code(c, Else, hz)] + Lines(p)
  {}

  /** A line at column c heads the block of the plan. */
  predicate Heads(s: State, c: nat, kind: Kind, p: Plan) {
    && p.tails.Tail? && p.tails.column == c < p.column && WellIndented(p.body)
    && Fitting(kind != Else, p.tails) && Match(Left(s.stack, c), p.tails.outer)
    && (s.stack.Empty? ==> c == 0) && (!Has(s.stack, c) ==> s.firm <= c + 1) && (kind == Else ==> Armed(s.stack, c))
  }

  lemma HeadFits(s: State, c: nat, kind: Kind, hz: set<Hazard>, p: Plan)
    requires var r := Next(s, Code(c, kind, hz)); Rising(s.stack) && r.Some? && Fits(r.value, p)
    requires p.tails.Tail? && p.tails.column == c
    ensures Heads(s, c, kind, p)
  {
    var r := Next(s, Code(c, kind, hz)).value;
    LeftRises(s.stack, c);
    if kind == Else { ArmedHas(s.stack, c); }
    if r.stack.Open? && p.column <= c { TailsLeft(r.stack.outer, r.firm, p.column, p.tails); }
  }

  lemma BeforeElse(s: State, c: nat, hz: set<Hazard>, p: Plan)
    requires Rising(s.stack) && Heads(s, c, Else, p)
    ensures var b := Before(s, Code(c, Else, hz), p); Fits(s, b) && Lines(b) == [Code(c, Else, hz)] + Lines(p)
  {
    ArmedHas(s.stack, c);
    var tails := Tail(c, WithElse(hz, Step(c, p), p.body), p.tails.rest, p.tails.outer);
    EndsMatch(s.stack, c, tails);
    CloseFits(s, c, tails);
    ElsePrints(c, hz, p);
  }

  lemma BeforeHeader(s: State, c: nat, kind: Kind, hz: set<Hazard>, p: Plan)
    requires Rising(s.stack) && Heads(s, c, kind, p) && kind != Else
    ensures var b := Before(s, Code(c, kind, hz), p); Fits(s, b) && Lines(b) == [Code(c, kind, hz)] + Lines(p)
  {
    HeadPrints(c, kind, hz, p);
    var t := Statement(c, kind, hz, p);
    if Has(s.stack, c) {
      var tails := Tail(c, NoElse, t, p.tails.outer);
      EndsMatch(s.stack, c, tails);
      CloseFits(s, c, tails);
      assert PrintTails(tails) == Print(t, c) + PrintTails(p.tails.outer);
    } else {
      NewBlock(s.stack, c, s.firm, p.tails.outer);
    }
  }

  lemma BeforeFits(s: State, line: Line, p: Plan)
    requires Rising(s.stack) && Next(s, line).Some? && Fits(Next(s, line).value, p)
    ensures Fits(s, Before(s, line, p)) && Lines(Before(s, line, p)) == [line] + Lines(p)
  {
    match line
    case Blank =>
    case Code(c, kind, hz) =>
      if p.tails.Done? || p.tails.column != c { BeforeText(s, c, kind, hz, p); }
      else {
        HeadFits(s, c, kind, hz, p);
        if kind == Else { BeforeElse(s, c, hz, p); } else { BeforeHeader(s, c, kind, hz, p); }
      }
  }

  lemma {:induction false} AllEnd(s: Stack)
    ensures Match(s, EndAll(s)) && PrintTails(EndAll(s)) == []
    decreases s
  {
    if s.Open? { AllEnd(s.outer); }
  }

  function EndAll(s: Stack): Tails {
    if s.Empty? then Done else Tail(s.column, NoElse, End, EndAll(s.outer))
  }

  /** The plan for lines that pass. */
  function Build(s: State, code: seq<Line>): (p: Plan)
    requires Rising(s.stack) && Pass(s, code).Some?
    ensures Fits(s, p) && Lines(p) == code
    decreases |code|
  {
    if code == [] then
      AllEnd(s.stack);
      Plan(if s.stack.Empty? then 0 else s.stack.column + 1, End, EndAll(s.stack))
    else
      NextRises(s, code[0]);
      var p := Build(Next(s, code[0]).value, code[1..]);
      BeforeFits(s, code[0], p);
      Before(s, code[0], p)
  }

  // ----- exactly the printed files

  /** A well-indented file, nested definitions or not. */
  predicate PrintedFile(code: seq<Line>, t: Tree) {
    code == Print(t, 0) && WellIndented(t)
  }

  /** ... which its lines alone tell. */
  predicate WellLaid(code: seq<Line>) {
    Pass(START, code).Some?
  }

  function TreeOf(code: seq<Line>): Tree
    requires WellLaid(code)
  {
    Build(START, code).body
  }

  /** A file is the print of a well-indented tree exactly when its lines pass, and then the
      tree that is built prints back as the file. */
  lemma PrintedExactly(code: seq<Line>)
    ensures WellLaid(code) <==> exists t :: PrintedFile(code, t)
    ensures WellLaid(code) ==> PrintedFile(code, TreeOf(code))
  {
    if WellLaid(code) {
      var p := Build(START, code);
      assert Print(p.body, 0) + [] == Print(p.body, 0);
      assert PrintedFile(code, TreeOf(code));
    }
    if t :| PrintedFile(code, t) { TreePasses(START, t, 0); }
  }
}
