/** The objective registry rules I12 and I13 of tools/api_snapshot.py: a code names one
    objective, and its canonical name leads back to it. */
module ObjectiveIdentity {
  import opened Prelude
  import Sorting

  /** The code and name maps of a snapshot. */
  datatype Registry = Registry(codes: map<string, int>, canonical: map<string, string>,
                               aliases: map<string, string>, reserved: map<string, string>)

  datatype Problem =
    | Unresolved(objective: string, resolved: Option<string>)
    | NoCode(objective: string)
    | Shared(code: int, objectives: seq<string>)

  /** What a name resolves to; a reserved alias wins over an alias. */
  function Resolve(r: Registry, name: string): Option<string> {
    if name in r.reserved then Some(r.reserved[name])
    else if name in r.aliases then Some(r.aliases[name])
    else None
  }

  /** The objectives that carry a code. */
  /** A name is looked up in one map: the aliases, overwritten by the reserved aliases. */
  lemma ReservedWins(r: Registry, name: string)
    ensures var all := r.aliases + r.reserved; Resolve(r, name) == if name in all then Some(all[name]) else None
  {}

  function Carrying(r: Registry, code: int): set<string> {
    set c | c in r.canonical && c in r.codes && r.codes[c] == code
  }

  predicate Reported(r: Registry, p: Problem) {
    && r.codes != map[] && r.canonical != map[]
    && match p
       case Unresolved(c, to) => c in r.canonical && to == Resolve(r, r.canonical[c]) && to != Some(c)
       case NoCode(c) => c in r.canonical && c !in r.codes
       case Shared(code, cs) => cs == Sorting.Sorted(Carrying(r, code)) && |cs| > 1
  }

  /** The aliases, one after the other, onto what is already resolved. */
  method Overlay(resolves: map<string, string>, names: map<string, string>) returns (out: map<string, string>)
    ensures out == resolves + names
  {
    out := resolves;
    var left := names.Keys;
    ghost var done: map<string, string> := map[];
    while left != {}
      invariant left <= names.Keys && done.Keys == names.Keys - left
      invariant forall k | k in done :: done[k] == names[k]
      invariant out == resolves + done
      decreases |left|
    {
      var k := Sorting.Least(left);
      OneMore(resolves, done, k, names[k]);
      out := out[k := names[k]];
      done := done[k := names[k]];
      left := left - {k};
    }
    assert done == names;
  }

  lemma OneMore(m: map<string, string>, n: map<string, string>, k: string, v: string)
    ensures (m + n)[k := v] == m + n[k := v]
  {}

  /** I12: the canonical name of c does not lead back to c. */
  predicate Astray(r: Registry, p: Problem) {
    && p.Unresolved? && p.objective in r.canonical
    && p.resolved == Resolve(r, r.canonical[p.objective]) && p.resolved != Some(p.objective)
  }

  method CheckNames(r: Registry) returns (problems: seq<Problem>)
    ensures forall p :: p in problems <==> Astray(r, p)
  {
    problems := [];
    var resolves := Overlay(map[], r.aliases);
    resolves := Overlay(resolves, r.reserved);
    var left := r.canonical.Keys;
    while left != {}
      invariant left <= r.canonical.Keys
      invariant forall p :: p in problems <==> Astray(r, p) && p.objective !in left
      decreases |left|
    {
      var c := Sorting.Least(left);
      var name := r.canonical[c];
      var to := if name in resolves then Some(resolves[name]) else None;
      assert to == Resolve(r, name);
      if to != Some(c) {
        problems := problems + [Unresolved(c, to)];
      }
      left := left - {c};
    }
  }

  predicate Carries(r: Registry, c: string, code: int) {
    c in r.codes && r.codes[c] == code
  }

  /** The objectives among the first n of xs that carry a code. */
  function Listed(r: Registry, xs: seq<string>, n: nat, code: int): seq<string>
    requires n <= |xs|
  {
    if n == 0 then []
    else Listed(r, xs, n - 1, code) + if Carries(r, xs[n - 1], code) then [xs[n - 1]] else []
  }

  lemma {:induction false} ListedFilter(r: Registry, xs: seq<string>, n: nat, code: int)
    requires n <= |xs| && forall x | x in xs :: x in r.canonical
    ensures Listed(r, xs, n, code) == Sorting.Filter(xs[..n], Carrying(r, code))
  {
    if n > 0 {
      ListedFilter(r, xs, n - 1, code);
      Sorting.FilterSnoc(xs, n - 1, Carrying(r, code));
      assert xs[n - 1] in xs;
    }
  }

  lemma ListedAll(r: Registry, xs: seq<string>, code: int)
    requires xs == Sorting.Sorted(r.canonical.Keys)
    ensures Listed(r, xs, |xs|, code) == Sorting.Sorted(Carrying(r, code))
    ensures Listed(r, xs, |xs|, code) != [] <==> Carrying(r, code) != {}
  {
    Sorting.SortedElems(r.canonical.Keys);
    ListedFilter(r, xs, |xs|, code);
    assert xs[..|xs|] == xs;
    Sorting.FilterSorted(r.canonical.Keys, Carrying(r, code));
    Sorting.SortedElems(Carrying(r, code));
  }

  /** byValue.setdefault(v, []).append(c) */
  method Append(byValue: map<int, seq<string>>, met: seq<int>, v: int, c: string)
    returns (out: map<int, seq<string>>, order: seq<int>)
    ensures out == byValue[v := (if v in byValue then byValue[v] else []) + [c]]
    ensures order == if v in byValue then met else met + [v]
  {
    out, order := byValue, met;
    if v !in out {
      out := out[v := []];
      order := order + [v];
    }
    out := out[v := out[v] + [c]];
  }

  /** by_value: the objectives under their codes, with the codes in the order they were
      met; and the objectives that have none. */
  method GroupByCode(r: Registry, constants: seq<string>)
    returns (byValue: map<int, seq<string>>, met: seq<int>, missing: seq<Problem>)
    ensures forall v :: v in byValue <==> v in met
    ensures forall k | 0 <= k < |met| :: met[k] in byValue
    ensures forall v :: v in byValue <==> Listed(r, constants, |constants|, v) != []
    ensures forall v | v in byValue :: byValue[v] == Listed(r, constants, |constants|, v)
    ensures forall p :: p in missing <==> p.NoCode? && p.objective in constants && p.objective !in r.codes
  {
    byValue, met, missing := map[], [], [];
    for n := 0 to |constants|
      invariant forall v :: v in byValue <==> v in met
      invariant forall v :: v in byValue <==> Listed(r, constants, n, v) != []
      invariant forall v | v in byValue :: byValue[v] == Listed(r, constants, n, v)
      invariant forall p :: p in missing <==> p.NoCode? && p.objective in constants[..n] && p.objective !in r.codes
    {
      var c := constants[n];
      assert constants[..n + 1] == constants[..n] + [c];
      if c !in r.codes {
        missing := missing + [NoCode(c)];
        continue;
      }
      byValue, met := Append(byValue, met, r.codes[c], c);
    }
    assert constants[..|constants|] == constants;
  }

  // sorted() on the codes

  function Insert(v: int, codes: seq<int>): seq<int> {
    if codes == [] then [v]
    else if v < codes[0] then [v] + codes
    else if v == codes[0] then codes
    else [codes[0]] + Insert(v, codes[1..])
  }

  function SortedCodes(codes: seq<int>): seq<int> {
    if codes == [] then [] else Insert(codes[0], SortedCodes(codes[1..]))
  }

  predicate Ascending(codes: seq<int>) {
    |codes| > 1 ==> codes[0] < codes[1] && Ascending(codes[1..])
  }

  lemma {:induction false} InsertAscending(v: int, codes: seq<int>)
    requires Ascending(codes)
    ensures var out := Insert(v, codes);
            Ascending(out) && out != [] && out[0] == if codes == [] || v < codes[0] then v else codes[0]
  {
    if codes != [] && codes[0] < v {
      InsertAscending(v, codes[1..]);
      assert Insert(v, codes)[1..] == Insert(v, codes[1..]);
    } else if codes != [] && v < codes[0] {
      assert ([v] + codes)[1..] == codes;
    }
  }

  lemma {:induction false} InsertElems(v: int, codes: seq<int>, w: int)
    ensures w in Insert(v, codes) <==> w == v || w in codes
  {
    if codes != [] && codes[0] < v {
      InsertElems(v, codes[1..], w);
      assert w in codes <==> w == codes[0] || w in codes[1..];
    }
  }

  /** Every code once, from the smallest up. */
  lemma {:induction false} SortedAscending(codes: seq<int>, w: int)
    ensures Ascending(SortedCodes(codes)) && (w in SortedCodes(codes) <==> w in codes)
  {
    if codes != [] {
      SortedAscending(codes[1..], w);
      InsertAscending(codes[0], SortedCodes(codes[1..]));
      InsertElems(codes[0], SortedCodes(codes[1..]), w);
      assert w in codes <==> w == codes[0] || w in codes[1..];
    }
  }

  function ReportShared(byValue: map<int, seq<string>>, v: int): seq<Problem> {
    if v in byValue && |byValue[v]| > 1 then [Shared(v, byValue[v])] else []
  }

  /** I13's collisions, from the smallest code up. */
  method CheckShared(byValue: map<int, seq<string>>, met: seq<int>) returns (problems: seq<Problem>)
    requires forall v :: v in byValue <==> v in met
    ensures problems == FlatMap(v => ReportShared(byValue, v), SortedCodes(met))
    ensures forall p :: p in problems <==>
      p.Shared? && p.code in byValue && p.objectives == byValue[p.code] && |p.objectives| > 1
  {
    problems := [];
    var codes := SortedCodes(met);
    ghost var report := v => ReportShared(byValue, v);
    for n := 0 to |codes|
      invariant problems == FlatMap(report, codes[..n])
    {
      FlatMapSnoc(report, codes, n);
      SortedAscending(met, codes[n]);
      if |byValue[codes[n]]| > 1 {
        problems := problems + [Shared(codes[n], byValue[codes[n]])];
      }
    }
    assert codes[..|codes|] == codes;
    forall p
      ensures p in problems <==> p.Shared? && p.code in byValue && p.objectives == byValue[p.code] && |p.objectives| > 1
    {
      FlatMapElems(report, codes, p);
      if p.Shared? { SortedAscending(met, p.code); }
      if p.Shared? && p.code in byValue && p.objectives == byValue[p.code] && |p.objectives| > 1 {
        assert p.code in codes && p in report(p.code);
      }
    }
  }

  method CheckObjectiveIdentity(r: Registry) returns (problems: seq<Problem>)
    ensures forall p :: p in problems <==> Reported(r, p)
  {
    problems := [];
    if r.codes == map[] || r.canonical == map[] {
      return;
    }
    problems := CheckNames(r);
    var constants := Sorting.Sorted(r.canonical.Keys);
    var byValue, met, missing := GroupByCode(r, constants);
    var shared := CheckShared(byValue, met);
    problems := problems + missing + shared;
    forall p
      ensures p in problems <==> Reported(r, p)
    {
      Sorting.SortedElems(r.canonical.Keys);
      if p.Shared? {
        Sorting.SortedElems(Carrying(r, p.code));
        ListedAll(r, constants, p.code);
      }
    }
  }

  // ----- what silence means

  /** Every objective has a code of its own, and its canonical name leads back to it. */
  predicate Identified(r: Registry) {
    && (forall c | c in r.canonical :: c in r.codes && Resolve(r, r.canonical[c]) == Some(c))
    && forall c, d | c in r.canonical && d in r.canonical && c in r.codes && d in r.codes && r.codes[c] == r.codes[d] :: c == d
  }

  lemma SilentExactly(r: Registry)
    requires r.codes != map[] && r.canonical != map[]
    ensures (forall p :: !Reported(r, p)) <==> Identified(r)
  {
    if forall p :: !Reported(r, p) {
      forall c | c in r.canonical
        ensures c in r.codes && Resolve(r, r.canonical[c]) == Some(c)
      {
        assert !Reported(r, NoCode(c)) && !Reported(r, Unresolved(c, Resolve(r, r.canonical[c])));
      }
      forall c, d | c in r.canonical && d in r.canonical && r.codes[c] == r.codes[d]
        ensures c == d
      {
        var both := Carrying(r, r.codes[c]);
        assert !Reported(r, Shared(r.codes[c], Sorting.Sorted(both)));
        Sorting.SortedElems(both);
        if c != d { Pair(both, c, d); }
      }
    }
    if Identified(r) {
      forall p
        ensures !Reported(r, p)
      {
        if p.Shared? && Reported(r, p) { TwoCarry(r, p.code); }
      }
    }
  }

  lemma Pair(s: set<string>, c: string, d: string)
    requires c in s && d in s && c != d
    ensures |s| > 1
  {
    assert |s - {c}| == |s| - 1;
    assert d in s - {c};
  }

  lemma TwoCarry(r: Registry, code: int)
    requires |Sorting.Sorted(Carrying(r, code))| > 1
    ensures !Identified(r)
  {
    var s := Carrying(r, code);
    Sorting.SortedElems(s);
    var c :| c in s;
    assert |s - {c}| == |s| - 1;
    var d :| d in s - {c};
  }

  /** The objective a saved code stands for. */
  function ObjectiveOf(r: Registry, code: int): Option<string> {
    if Carrying(r, code) == {} then None else Some(Sorting.Least(Carrying(r, code)))
  }

  /** From a saved code to its objective, its name, what the name resolves to and that
      one's code: silence makes the trip the identity. Two objectives never share a name. */
  lemma CodeRoundTrip(r: Registry, code: int)
    requires r.codes != map[] && r.canonical != map[] && forall p :: !Reported(r, p)
    requires Carrying(r, code) != {}
    ensures var c := ObjectiveOf(r, code).value;
            var back := Resolve(r, r.canonical[c]);
            back == Some(c) && c in r.codes && r.codes[c] == code && Carrying(r, code) == {c}
    ensures forall c, d | c in r.canonical && d in r.canonical && r.canonical[c] == r.canonical[d] :: c == d
  {
    SilentExactly(r);
    var c := ObjectiveOf(r, code).value;
    assert c in Carrying(r, code);
  }
}
