/** The import-graph closures of tools/connectivity_audit.py: reachable_from, the orphan
    audit built on it, and the worklist over binding modules. */
module Reachability {
  import opened Prelude
  import Sorting

  type Graph = map<string, set<string>>

  function Elems(s: seq<string>): set<string> {
    set x | x in s
  }

  /** graph.get(m, ()) */
  function Imports(graph: Graph, m: string): set<string> {
    if m in graph then graph[m] else {}
  }

  /** p leads from one of `seeds` to x along imports. */
  predicate IsPath(graph: Graph, seeds: set<string>, p: seq<string>, x: string) {
    && p != [] && p[0] in seeds && p[|p| - 1] == x
    && forall k | 0 < k < |p| :: p[k] in Imports(graph, p[k - 1])
  }

  ghost predicate Reachable(graph: Graph, seeds: set<string>, x: string) {
    exists p :: IsPath(graph, seeds, p, x)
  }

  lemma ReachSeed(graph: Graph, seeds: set<string>, x: string)
    requires x in seeds
    ensures Reachable(graph, seeds, x)
  {
    assert IsPath(graph, seeds, [x], x);
  }

  lemma ReachStep(graph: Graph, seeds: set<string>, x: string, y: string)
    requires Reachable(graph, seeds, x) && y in Imports(graph, x)
    ensures Reachable(graph, seeds, y)
  {
    var p :| IsPath(graph, seeds, p, x);
    assert IsPath(graph, seeds, p + [y], y);
  }

  /** A set that holds the seeds and is closed under imports holds every path. */
  lemma {:induction false} ClosedHoldsPath(graph: Graph, seeds: set<string>, s: set<string>, p: seq<string>, x: string)
    requires seeds <= s && forall m | m in s :: Imports(graph, m) <= s
    requires IsPath(graph, seeds, p, x)
    ensures x in s
    decreases |p|
  {
    if |p| > 1 {
      var q := p[..|p| - 1];
      assert IsPath(graph, seeds, q, q[|q| - 1]);
      ClosedHoldsPath(graph, seeds, s, q, q[|q| - 1]);
    }
  }

  /** Every module the seeds or the graph can name. */
  ghost function Universe(graph: Graph, start: set<string>): set<string> {
    start + set m, x | m in graph && x in graph[m] :: x
  }

  /** The worklist invariant: what is seen or waiting is reachable, and every seed and
      every import of a seen module is seen or waiting. */
  ghost predicate Working(graph: Graph, start: set<string>, seen: set<string>, queue: set<string>) {
    && start <= seen + queue <= Universe(graph, start)
    && (forall x | x in seen + queue :: Reachable(graph, start, x))
    && (forall m | m in seen :: Imports(graph, m) <= seen + queue)
  }

  lemma WorkStarts(graph: Graph, start: set<string>)
    ensures Working(graph, start, {}, start)
  {
    forall x | x in start
      ensures Reachable(graph, start, x)
    {
      ReachSeed(graph, start, x);
    }
  }

  /** Visiting a waiting module; imports already seen may or may not be queued again. */
  lemma WorkVisits(graph: Graph, start: set<string>, seen: set<string>, queue: set<string>, m: string, rest: set<string>, next: set<string>)
    requires Working(graph, start, seen, queue) && m in queue && queue <= rest + {m} && rest <= queue
    requires rest + (Imports(graph, m) - seen - {m}) <= next <= rest + Imports(graph, m)
    ensures Working(graph, start, seen + {m}, next)
  {
    forall x | x in Imports(graph, m)
      ensures Reachable(graph, start, x)
    {
      ReachStep(graph, start, m, x);
    }
  }

  lemma WorkEnds(graph: Graph, start: set<string>, seen: set<string>)
    requires Working(graph, start, seen, {})
    ensures forall x :: x in seen <==> Reachable(graph, start, x)
  {
    assert seen + {} == seen;
    forall x | Reachable(graph, start, x)
      ensures x in seen
    {
      var p :| IsPath(graph, start, p, x);
      ClosedHoldsPath(graph, start, seen, p, x);
    }
  }

  lemma ElemsSnoc(s: seq<string>, x: string)
    ensures Elems(s + [x]) == Elems(s) + {x}
  {
    assert forall y | y in Elems(s) + {x} :: y in s + [x];
  }

  lemma Popped(queue: seq<string>)
    requires queue != []
    ensures var last, rest := queue[|queue| - 1], queue[..|queue| - 1];
            last in Elems(queue) && Elems(queue) == Elems(rest) + {last}
  {
    assert queue == queue[..|queue| - 1] + [queue[|queue| - 1]];
  }

  /** Appends the modules not seen yet. */
  method PushUnseen(queue: seq<string>, next: seq<string>, seen: set<string>) returns (r: seq<string>)
    ensures Elems(r) == Elems(queue) + (Elems(next) - seen)
  {
    r := queue;
    for k := 0 to |next|
      invariant Elems(r) == Elems(queue) + (Elems(next[..k]) - seen)
    {
      assert next[..k + 1] == next[..k] + [next[k]];
      ElemsSnoc(next[..k], next[k]);
      ElemsSnoc(r, next[k]);
      if next[k] !in seen {
        r := r + [next[k]];
      }
    }
    assert next[..|next|] == next;
  }

  /** Appends what a module imports, but for what has been seen. */
  method Expand(graph: Graph, queue: seq<string>, current: string, seen: set<string>) returns (r: seq<string>)
    ensures Elems(r) == Elems(queue) + (Imports(graph, current) - seen)
  {
    var next := Sorting.Sorted(Imports(graph, current));
    Sorting.SortedElems(Imports(graph, current));
    assert Elems(next) == Imports(graph, current);
    r := PushUnseen(queue, next, seen);
  }

  /** The worklist: every element of `queue` and everything it imports, in whatever
      order the modules are listed, repeated or cyclic. */
  method ReachableFrom(seeds: seq<string>, graph: Graph) returns (seen: set<string>)
    ensures forall x :: x in seen <==> Reachable(graph, Elems(seeds), x)
  {
    ghost var start := Elems(seeds);
    WorkStarts(graph, start);
    seen := {};
    var queue := seeds;
    while queue != []
      invariant Working(graph, start, seen, Elems(queue))
      decreases Universe(graph, start) - seen, |queue|
    {
      Popped(queue);
      var current := queue[|queue| - 1];
      ghost var waiting := Elems(queue);
      queue := queue[..|queue| - 1];
      if current in seen {
        continue;
      }
      ghost var rest := Elems(queue);
      queue := Expand(graph, queue, current, seen + {current});
      WorkVisits(graph, start, seen, waiting, current, rest, Elems(queue));
      seen := seen + {current};
    }
    WorkEnds(graph, start, seen);
  }

  // ----- orphan modules

  /** An entry point: its label and what it imports, or None when the file is missing. */
  datatype Root = Root(name: string, imports: Option<set<string>>)

  datatype Finding = Finding(subject: string, reachedFrom: seq<string>)

  function Seeds(graph: Graph, root: Root): set<string> {
    if root.imports.None? then {} else root.imports.value * graph.Keys
  }

  ghost predicate ReachedBy(graph: Graph, root: Root, m: string) {
    Reachable(graph, Seeds(graph, root), m)
  }

  ghost predicate Shipped(graph: Graph, roots: seq<Root>, m: string) {
    exists k | 0 <= k < |roots| :: ReachedBy(graph, roots[k], m)
  }

  /** The modules of the package that no shipping root reaches. */
  ghost function Orphans(graph: Graph, roots: seq<Root>): set<string> {
    set m | m in graph && !Shipped(graph, roots, m)
  }

  /** The labels of the roots that reach m. */
  ghost function Labels(graph: Graph, roots: seq<Root>, m: string): set<string> {
    set k | 0 <= k < |roots| && ReachedBy(graph, roots[k], m) :: roots[k].name
  }

  type LabelMap = map<string, set<string>>

  function LabelsOf(reachedBy: LabelMap, m: string): set<string> {
    if m in reachedBy then reachedBy[m] else {}
  }

  /** Adds the root's label to every module it reaches. */
  method MarkReached(graph: Graph, root: Root, reachedBy: LabelMap) returns (r: LabelMap)
    ensures forall m :: LabelsOf(r, m) == LabelsOf(reachedBy, m) + if ReachedBy(graph, root, m) then {root.name} else {}
  {
    var seeds := Sorting.Sorted(Seeds(graph, root));
    Sorting.SortedElems(Seeds(graph, root));
    assert Elems(seeds) == Seeds(graph, root);
    var seen := ReachableFrom(seeds, graph);
    r := map m | m in reachedBy.Keys + seen ::
      LabelsOf(reachedBy, m) + if m in seen then {root.name} else {};
  }

  lemma LabelsSnoc(graph: Graph, roots: seq<Root>, n: nat, m: string)
    requires n < |roots|
    ensures Labels(graph, roots[..n + 1], m) ==
            Labels(graph, roots[..n], m) + if ReachedBy(graph, roots[n], m) then {roots[n].name} else {}
  {
    var a, b := roots[..n], roots[..n + 1];
    assert forall k | 0 <= k < n :: a[k] == b[k];
    forall l | l in Labels(graph, b, m)
      ensures l in Labels(graph, a, m) + if ReachedBy(graph, roots[n], m) then {roots[n].name} else {}
    {
      var k :| 0 <= k < |b| && ReachedBy(graph, b[k], m) && b[k].name == l;
      if k < n { assert ReachedBy(graph, a[k], m); }
    }
    forall l | l in Labels(graph, a, m)
      ensures l in Labels(graph, b, m)
    {
      var k :| 0 <= k < |a| && ReachedBy(graph, a[k], m) && a[k].name == l;
      assert ReachedBy(graph, b[k], m);
    }
    if ReachedBy(graph, roots[n], m) { assert ReachedBy(graph, b[n], m) && b[n].name == roots[n].name; }
  }

  method MarkAll(graph: Graph, roots: seq<Root>, reachedBy: LabelMap) returns (r: LabelMap)
    ensures forall m :: LabelsOf(r, m) == LabelsOf(reachedBy, m) + Labels(graph, roots, m)
  {
    r := reachedBy;
    for n := 0 to |roots|
      invariant forall m :: LabelsOf(r, m) == LabelsOf(reachedBy, m) + Labels(graph, roots[..n], m)
    {
      forall m
        ensures Labels(graph, roots[..n + 1], m) ==
                Labels(graph, roots[..n], m) + if ReachedBy(graph, roots[n], m) then {roots[n].name} else {}
      {
        LabelsSnoc(graph, roots, n, m);
      }
      r := MarkReached(graph, roots[n], r);
    }
    assert roots[..|roots|] == roots;
  }

  /** Labels of shipping roots are not labels of test and benchmark directories. */
  predicate Disjoint(shipping: seq<Root>, others: seq<Root>) {
    forall i, j | 0 <= i < |shipping| && 0 <= j < |others| :: shipping[i].name != others[j].name
  }

  function Names(roots: seq<Root>): set<string> {
    set k | 0 <= k < |roots| :: roots[k].name
  }

  /** How the audit reads the labels of a module. */
  lemma ShippedByLabel(graph: Graph, shipping: seq<Root>, others: seq<Root>, m: string, names: set<string>)
    requires Disjoint(shipping, others) && names == Names(shipping)
    ensures var labels := Labels(graph, shipping, m) + Labels(graph, others, m);
            && (labels * names == {} <==> !Shipped(graph, shipping, m))
            && (!Shipped(graph, shipping, m) ==> labels == Labels(graph, others, m))
  {
    var labels := Labels(graph, shipping, m) + Labels(graph, others, m);
    if k :| 0 <= k < |shipping| && ReachedBy(graph, shipping[k], m) {
      assert shipping[k].name in labels * names;
    }
    assert Labels(graph, others, m) * names == {};
  }

  /** One finding per module, with the labels of the other roots that reach it. */
  ghost function Findings(graph: Graph, others: seq<Root>, modules: seq<string>): seq<Finding> {
    if modules == [] then []
    else
      var last := modules[|modules| - 1];
      Findings(graph, others, modules[..|modules| - 1]) + [Finding(last, Sorting.Sorted(Labels(graph, others, last)))]
  }

  lemma FindingsSnoc(graph: Graph, others: seq<Root>, modules: seq<string>, m: string)
    ensures Findings(graph, others, modules + [m]) ==
            Findings(graph, others, modules) + [Finding(m, Sorting.Sorted(Labels(graph, others, m)))]
  {
    assert (modules + [m])[..|modules|] == modules;
  }

  /** The finding for one module, or none when a shipping root reaches it. */
  method ReportModule(graph: Graph, shipping: seq<Root>, others: seq<Root>, m: string, labels: set<string>, names: set<string>)
    returns (found: seq<Finding>)
    requires Disjoint(shipping, others) && names == Names(shipping)
    requires labels == Labels(graph, shipping, m) + Labels(graph, others, m)
    ensures found == if Shipped(graph, shipping, m) then [] else [Finding(m, Sorting.Sorted(Labels(graph, others, m)))]
  {
    ShippedByLabel(graph, shipping, others, m, names);
    if labels * names != {} {
      return [];
    }
    return [Finding(m, Sorting.Sorted(labels))];
  }

  lemma FindingsStep(graph: Graph, shipping: seq<Root>, others: seq<Root>, modules: seq<string>, n: nat)
    requires n < |modules| && modules[n] in graph
    ensures var orphans, m := Orphans(graph, shipping), modules[n];
            Findings(graph, others, Sorting.Filter(modules[..n + 1], orphans)) ==
            Findings(graph, others, Sorting.Filter(modules[..n], orphans))
            + if Shipped(graph, shipping, m) then [] else [Finding(m, Sorting.Sorted(Labels(graph, others, m)))]
  {
    var orphans, init := Orphans(graph, shipping), modules[..n + 1];
    assert init[..n] == modules[..n] && init[|init| - 1] == modules[n];
    var kept := Sorting.Filter(modules[..n], orphans);
    assert Sorting.Filter(init, orphans) == kept + if modules[n] in orphans then [modules[n]] else [];
    FindingsSnoc(graph, others, kept, modules[n]);
    assert kept + [] == kept;
  }

  method ReportOrphans(graph: Graph, shipping: seq<Root>, others: seq<Root>, reachedBy: LabelMap) returns (findings: seq<Finding>)
    requires Disjoint(shipping, others)
    requires forall m :: LabelsOf(reachedBy, m) == Labels(graph, shipping, m) + Labels(graph, others, m)
    ensures findings == Findings(graph, others, Sorting.Sorted(Orphans(graph, shipping)))
  {
    ghost var orphans := Orphans(graph, shipping);
    var names := Names(shipping);
    var modules := Sorting.Sorted(graph.Keys);
    Sorting.SortedElems(graph.Keys);
    findings := [];
    for n := 0 to |modules|
      invariant findings == Findings(graph, others, Sorting.Filter(modules[..n], orphans))
    {
      var m := modules[n];
      assert m in modules;
      FindingsStep(graph, shipping, others, modules, n);
      var found := ReportModule(graph, shipping, others, m, LabelsOf(reachedBy, m), names);
      findings := findings + found;
    }
    assert modules[..|modules|] == modules;
    Sorting.FilterSorted(graph.Keys, orphans);
  }

  /** The orphan audit: None when an entry point is missing, else one finding for each
      module no shipping root reaches, in order, with what does reach it. */
  method AuditOrphans(graph: Graph, shipping: seq<Root>, others: seq<Root>) returns (r: Option<seq<Finding>>)
    requires Disjoint(shipping, others)
    ensures r.None? <==> exists k | 0 <= k < |shipping| :: shipping[k].imports.None?
    ensures r.Some? ==> r.value == Findings(graph, others, Sorting.Sorted(Orphans(graph, shipping)))
  {
    for n := 0 to |shipping|
      invariant forall k | 0 <= k < n :: shipping[k].imports.Some?
    {
      if shipping[n].imports.None? {
        return None;
      }
    }
    var reachedBy := MarkAll(graph, shipping, map[]);
    reachedBy := MarkAll(graph, others, reachedBy);
    var findings := ReportOrphans(graph, shipping, others, reachedBy);
    r := Some(findings);
  }

  // ----- in terms of the imports alone

  /** Module y is imported by module x. */
  predicate ImportedBy(graph: Graph, y: string, x: string) {
    x in graph && y in graph[x]
  }

  /** Each module of the chain is imported by the one before it. */
  predicate Chain(graph: Graph, p: seq<string>) {
    p != [] && forall k | 0 < k < |p| :: ImportedBy(graph, p[k], p[k - 1])
  }

  lemma ReachableMeans(graph: Graph, seeds: set<string>, x: string)
    ensures Reachable(graph, seeds, x) <==> exists p :: Chain(graph, p) && p[0] in seeds && p[|p| - 1] == x
  {
    if p :| IsPath(graph, seeds, p, x) { assert Chain(graph, p); }
    if p :| Chain(graph, p) && p[0] in seeds && p[|p| - 1] == x { assert IsPath(graph, seeds, p, x); }
  }

  /** The root's file imports a module of the package from which imports lead to m. */
  ghost predicate LeadsTo(graph: Graph, root: Root, m: string) {
    root.imports.Some? && exists p :: Chain(graph, p) && p[0] in root.imports.value && p[0] in graph && p[|p| - 1] == m
  }

  lemma ReachedByMeans(graph: Graph, root: Root, m: string)
    ensures ReachedBy(graph, root, m) <==> LeadsTo(graph, root, m)
  {
    ReachableMeans(graph, Seeds(graph, root), m);
  }

  /** A module is an orphan exactly when no chain of imports leads to it from any module
      that a shipping root imports. */
  lemma OrphanExactly(graph: Graph, roots: seq<Root>, m: string)
    ensures m in Orphans(graph, roots) <==> m in graph && forall k | 0 <= k < |roots| :: !LeadsTo(graph, roots[k], m)
  {
    forall k | 0 <= k < |roots|
      ensures ReachedBy(graph, roots[k], m) <==> LeadsTo(graph, roots[k], m)
    {
      ReachedByMeans(graph, roots[k], m);
    }
  }

  lemma LabelsExactly(graph: Graph, roots: seq<Root>, m: string, name: string)
    ensures name in Labels(graph, roots, m) <==>
            exists k | 0 <= k < |roots| :: roots[k].name == name && LeadsTo(graph, roots[k], m)
  {
    forall k | 0 <= k < |roots|
      ensures ReachedBy(graph, roots[k], m) <==> LeadsTo(graph, roots[k], m)
    {
      ReachedByMeans(graph, roots[k], m);
    }
  }

  /** What a shipping root imports itself is no orphan. */
  lemma DirectImportShips(graph: Graph, roots: seq<Root>, k: nat, m: string)
    requires k < |roots| && roots[k].imports.Some? && m in roots[k].imports.value
    ensures m !in Orphans(graph, roots)
  {
    OrphanExactly(graph, roots, m);
    if m in graph {
      assert Chain(graph, [m]) && [m][0] == m;
      assert LeadsTo(graph, roots[k], m);
    }
  }

  /** The findings are about the given modules, one each, in their order, with the labels
      of the roots that reach the module in ascending order. */
  lemma {:induction false} FindingsAt(graph: Graph, others: seq<Root>, modules: seq<string>)
    ensures var findings := Findings(graph, others, modules);
            && |findings| == |modules|
            && forall k | 0 <= k < |modules| ::
                 findings[k].subject == modules[k] && findings[k].reachedFrom == Sorting.Sorted(Labels(graph, others, modules[k]))
  {
    if modules != [] { FindingsAt(graph, others, modules[..|modules| - 1]); }
  }

  /** Adding imports only ever removes orphans. */
  lemma MoreImportsFewerOrphans(graph: Graph, more: Graph, roots: seq<Root>)
    requires graph.Keys == more.Keys && forall m | m in graph :: graph[m] <= more[m]
    ensures Orphans(more, roots) <= Orphans(graph, roots)
  {
    forall m | m in graph && Shipped(graph, roots, m)
      ensures Shipped(more, roots, m)
    {
      var k :| 0 <= k < |roots| && ReachedBy(graph, roots[k], m);
      assert Seeds(graph, roots[k]) == Seeds(more, roots[k]);
      var p :| IsPath(graph, Seeds(graph, roots[k]), p, m);
      assert IsPath(more, Seeds(more, roots[k]), p, m);
      assert ReachedBy(more, roots[k], m);
    }
  }

  // ----- binding modules

  const ENTRY := "_mojotrees"

  /** The imports of the binding files that exist. */
  function FileGraph(files: map<string, seq<string>>): Graph {
    map stem | stem in files :: Elems(files[stem])
  }

  /** The file of module x is there and imports y. */
  predicate NamedIn(files: map<string, seq<string>>, y: string, x: string) {
    x in files && y in files[x]
  }

  predicate FileChain(files: map<string, seq<string>>, p: seq<string>) {
    p != [] && forall k | 0 < k < |p| :: NamedIn(files, p[k], p[k - 1])
  }

  /** A binding module is reached exactly when a chain of imports leads to it from the
      entry point; a missing file imports nothing. */
  lemma BindingExactly(files: map<string, seq<string>>, x: string)
    ensures Reachable(FileGraph(files), {ENTRY}, x) <==>
            exists p :: FileChain(files, p) && p[0] == "_mojotrees" && p[|p| - 1] == x
  {
    var graph := FileGraph(files);
    forall x, y
      ensures ImportedBy(graph, y, x) <==> NamedIn(files, y, x)
    {}
    forall p
      ensures Chain(graph, p) <==> FileChain(files, p)
    {}
    ReachableMeans(graph, {ENTRY}, x);
  }

  /** The worklist that reads each binding file only when it is reached, and finds the
      same closure as a search of the whole graph would. */
  method ReachedBindings(files: map<string, seq<string>>) returns (reached: set<string>)
    ensures forall x :: x in reached <==> Reachable(FileGraph(files), {ENTRY}, x)
  {
    ghost var graph := FileGraph(files);
    WorkStarts(graph, {ENTRY});
    reached := {};
    var frontier: seq<string> := [ENTRY];
    assert Elems(frontier) == {ENTRY};
    while frontier != []
      invariant Working(graph, {ENTRY}, reached, Elems(frontier))
      decreases Universe(graph, {ENTRY}) - reached, |frontier|
    {
      Popped(frontier);
      var stem := frontier[|frontier| - 1];
      ghost var waiting := Elems(frontier);
      frontier := frontier[..|frontier| - 1];
      if stem in reached {
        continue;
      }
      ghost var rest := Elems(frontier);
      if stem !in files {
        WorkVisits(graph, {ENTRY}, reached, waiting, stem, rest, rest);
        reached := reached + {stem};
        continue;
      }
      var deps := files[stem];
      for k := 0 to |deps|
        invariant Elems(frontier) == rest + Elems(deps[..k])
      {
        assert deps[..k + 1] == deps[..k] + [deps[k]];
        ElemsSnoc(deps[..k], deps[k]);
        ElemsSnoc(frontier, deps[k]);
        frontier := frontier + [deps[k]];
      }
      assert deps[..|deps|] == deps;
      WorkVisits(graph, {ENTRY}, reached, waiting, stem, rest, Elems(frontier));
      reached := reached + {stem};
    }
    WorkEnds(graph, {ENTRY}, reached);
  }
}
