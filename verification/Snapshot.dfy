/** The surface snapshot of tools/api_snapshot.py: nested dictionaries, their flat form,
    and the difference between two of them. */
module Snapshot {
  import opened Prelude
  import Sorting

  /** A JSON value that is not a dictionary; lists are compared whole. */
  datatype Value = Null | Scalar(text: string) | List(items: seq<string>)

  datatype Json = Leaf(value: Value) | Dict(entries: Entries)

  /** The items of a dictionary in insertion order. */
  datatype Entries = Nil | Cons(key: string, value: Json, rest: Entries)

  type Flat = map<string, Value>

  function Path(prefix: string, key: string): string {
    if prefix != "" then prefix + "." + key else key
  }

  /** flatten: dotted path to leaf; a later item overwrites an earlier one. */
  function Flatten(j: Json, prefix: string): Flat {
    match j
    case Leaf(value) => map[prefix := value]
    case Dict(entries) => FlattenAll(entries, prefix)
  }

  function FlattenAll(es: Entries, prefix: string): Flat {
    match es
    case Nil => map[]
    case Cons(key, value, rest) => Flatten(value, Path(prefix, key)) + FlattenAll(rest, prefix)
  }

  // ----- diff

  datatype Row = Removed(path: string, was: Value) | Added(path: string, now: Value)
    | Changed(path: string, was: Value, now: Value)

  predicate Agree(a: Flat, b: Flat, p: string) {
    p in a && p in b && a[p] == b[p]
  }

  function Differing(a: Flat, b: Flat): set<string> {
    set p | p in a.Keys + b.Keys && !Agree(a, b, p)
  }

  /** The row a differing path gets. */
  predicate IsRowOf(a: Flat, b: Flat, r: Row) {
    match r
    case Removed(p, was) => p in a && p !in b && was == a[p]
    case Added(p, now) => p !in a && p in b && now == b[p]
    case Changed(p, was, now) => p in a && p in b && a[p] != b[p] && was == a[p] && now == b[p]
  }

  function Paths(rows: seq<Row>): seq<string> {
    if rows == [] then [] else Paths(rows[..|rows| - 1]) + [rows[|rows| - 1].path]
  }

  lemma PathsSnoc(rows: seq<Row>, r: Row)
    ensures Paths(rows + [r]) == Paths(rows) + [r.path]
  {
    assert (rows + [r])[..|rows|] == rows;
  }

  /** The rows of a difference: every differing path once, in order, with its kind and
      its values. */
  predicate IsDiff(a: Flat, b: Flat, rows: seq<Row>) {
    Paths(rows) == Sorting.Sorted(Differing(a, b)) && forall r | r in rows :: IsRowOf(a, b, r)
  }

  method Diff(before: Json, after: Json) returns (rows: seq<Row>)
    ensures IsDiff(Flatten(before, ""), Flatten(after, ""), rows)
  {
    var a, b := Flatten(before, ""), Flatten(after, "");
    var paths := Sorting.Sorted(a.Keys + b.Keys);
    Sorting.SortedElems(a.Keys + b.Keys);
    rows := [];
    for n := 0 to |paths|
      invariant Paths(rows) == Sorting.Filter(paths[..n], Differing(a, b))
      invariant forall r | r in rows :: IsRowOf(a, b, r)
    {
      var path := paths[n];
      assert path in paths;
      Sorting.FilterSnoc(paths, n, Differing(a, b));
      if path !in b {
        PathsSnoc(rows, Removed(path, a[path]));
        rows := rows + [Removed(path, a[path])];
      } else if path !in a {
        PathsSnoc(rows, Added(path, b[path]));
        rows := rows + [Added(path, b[path])];
      } else if a[path] != b[path] {
        PathsSnoc(rows, Changed(path, a[path], b[path]));
        rows := rows + [Changed(path, a[path], b[path])];
      }
    }
    assert paths[..|paths|] == paths;
    Sorting.FilterSorted(a.Keys + b.Keys, Differing(a, b));
  }

  /** Carrying the rows out, one after the other. */
  function Apply(a: Flat, rows: seq<Row>): Flat {
    if rows == [] then a
    else
      var m := Apply(a, rows[..|rows| - 1]);
      match rows[|rows| - 1]
      case Removed(p, _) => m - {p}
      case Added(p, now) => m[p := now]
      case Changed(p, _, now) => m[p := now]
  }

  /** After some rows, the paths they name are as in b and the others as in a. */
  lemma {:induction false} ApplyAt(a: Flat, b: Flat, rows: seq<Row>, p: string)
    requires forall r | r in rows :: IsRowOf(a, b, r)
    ensures var m, target := Apply(a, rows), if p in Paths(rows) then b else a;
            (p in m <==> p in target) && (p in m ==> m[p] == target[p])
  {
    if rows != [] {
      var init, last := rows[..|rows| - 1], rows[|rows| - 1];
      assert last in rows && forall r | r in init :: r in rows;
      ApplyAt(a, b, init, p);
    }
  }

  /** The rows are an exact patch from the old flat form to the new one, and there are
      none exactly when the flat forms are equal. */
  lemma DiffIsPatch(a: Flat, b: Flat, rows: seq<Row>)
    requires IsDiff(a, b, rows)
    ensures Apply(a, rows) == b
    ensures rows == [] <==> a == b
  {
    Sorting.SortedElems(Differing(a, b));
    forall p
      ensures p in Apply(a, rows) <==> p in b
      ensures p in b ==> p in Apply(a, rows) && Apply(a, rows)[p] == b[p]
    {
      ApplyAt(a, b, rows, p);
      assert p in Paths(rows) <==> p in Differing(a, b);
    }
    if a == b { assert Differing(a, b) == {}; assert |Paths(rows)| == 0; PathsLength(rows); }
  }

  /** Taking the rows back, the last one first. */
  function Revert(b: Flat, rows: seq<Row>): Flat
    decreases |rows|
  {
    if rows == [] then b
    else
      var m := match rows[|rows| - 1]
        case Removed(p, was) => b[p := was]
        case Added(p, _) => b - {p}
        case Changed(p, was, _) => b[p := was];
      Revert(m, rows[..|rows| - 1])
  }

  lemma {:induction false} RevertAt(a: Flat, b: Flat, m: Flat, rows: seq<Row>, p: string)
    requires forall r | r in rows :: IsRowOf(a, b, r)
    requires p !in Paths(rows) ==> (p in m <==> p in a) && (p in m ==> m[p] == a[p])
    ensures var undone := Revert(m, rows); (p in undone <==> p in a) && (p in undone ==> undone[p] == a[p])
    decreases |rows|
  {
    if rows != [] {
      var init, last := rows[..|rows| - 1], rows[|rows| - 1];
      assert last in rows && forall r | r in init :: r in rows;
      var n := match last
        case Removed(q, was) => m[q := was]
        case Added(q, _) => m - {q}
        case Changed(q, was, _) => m[q := was];
      RevertAt(a, b, n, init, p);
    }
  }

  /** The old values in the rows are right too: taking them back gives the old flat form. */
  lemma DiffIsUndone(a: Flat, b: Flat, rows: seq<Row>)
    requires IsDiff(a, b, rows)
    ensures Revert(b, rows) == a
  {
    Sorting.SortedElems(Differing(a, b));
    forall p
      ensures p in Revert(b, rows) <==> p in a
      ensures p in a ==> p in Revert(b, rows) && Revert(b, rows)[p] == a[p]
    {
      assert p in Paths(rows) <==> p in Differing(a, b);
      RevertAt(a, b, b, rows, p);
    }
  }

  lemma {:induction false} PathsLength(rows: seq<Row>)
    ensures |Paths(rows)| == |rows|
  {
    if rows != [] { PathsLength(rows[..|rows| - 1]); }
  }

  // ----- when the flat form is the snapshot

  function Keys(es: Entries): set<string> {
    match es
    case Nil => {}
    case Cons(key, _, rest) => {key} + Keys(rest)
  }

  function Get(es: Entries, k: string): (j: Json)
    requires k in Keys(es)
  {
    if es.key == k then es.value else Get(es.rest, k)
  }

  /** A dictionary holds each key once. */
  predicate Unique(j: Json) {
    j.Dict? ==> UniqueAll(j.entries)
  }

  predicate UniqueAll(es: Entries) {
    es.Cons? ==> es.key !in Keys(es.rest) && Unique(es.value) && UniqueAll(es.rest)
  }

  /** Equality of JSON values: dictionaries compare without regard to order. */
  predicate Same(a: Json, b: Json)
    decreases a
  {
    match (a, b)
    case (Leaf(v), Leaf(w)) => v == w
    case (Dict(es), Dict(fs)) => Keys(fs) <= Keys(es) && SameIn(es, fs)
    case _ => false
  }

  predicate SameIn(es: Entries, fs: Entries)
    decreases es
  {
    es.Cons? ==> es.key in Keys(fs) && Same(es.value, Get(fs, es.key)) && SameIn(es.rest, fs)
  }

  // ----- dictionaries without a leaf

  predicate HasLeaf(j: Json) {
    j.Leaf? || AnyLeaf(j.entries)
  }

  predicate AnyLeaf(es: Entries) {
    es.Cons? && (HasLeaf(es.value) || AnyLeaf(es.rest))
  }

  /** The snapshot without the dictionaries that hold no leaf. */
  function Prune(j: Json): Json {
    match j
    case Leaf(_) => j
    case Dict(es) => Dict(PruneAll(es))
  }

  function PruneAll(es: Entries): Entries {
    match es
    case Nil => Nil
    case Cons(key, value, rest) =>
      if HasLeaf(value) then Cons(key, Prune(value), PruneAll(rest)) else PruneAll(rest)
  }

  /** Nothing left to prune. */
  predicate Full(j: Json) {
    j.Dict? ==> FullAll(j.entries)
  }

  predicate FullAll(es: Entries) {
    es.Cons? ==> HasLeaf(es.value) && Full(es.value) && FullAll(es.rest)
  }

  lemma {:induction false} LeafIsPath(j: Json, p: string)
    ensures HasLeaf(j) <==> Flatten(j, p) != map[]
    decreases j
  {
    match j
    case Leaf(v) => assert p in Flatten(j, p);
    case Dict(es) => AnyLeafIsPath(es, p);
  }

  lemma {:induction false} AnyLeafIsPath(es: Entries, p: string)
    ensures AnyLeaf(es) <==> FlattenAll(es, p) != map[]
    decreases es
  {
    if es.Cons? {
      LeafIsPath(es.value, Path(p, es.key));
      AnyLeafIsPath(es.rest, p);
      if q :| q in Flatten(es.value, Path(p, es.key)) { assert q in FlattenAll(es, p); }
      if q :| q in FlattenAll(es.rest, p) { assert q in FlattenAll(es, p); }
    }
  }

  /** Pruning is invisible in the flat form. */
  lemma {:induction false} PruneFlat(j: Json, p: string)
    ensures Flatten(Prune(j), p) == Flatten(j, p)
    decreases j
  {
    if j.Dict? { PruneAllFlat(j.entries, p); }
  }

  lemma {:induction false} PruneAllFlat(es: Entries, p: string)
    ensures FlattenAll(PruneAll(es), p) == FlattenAll(es, p)
    decreases es
  {
    if es.Cons? {
      PruneFlat(es.value, Path(p, es.key));
      LeafIsPath(es.value, Path(p, es.key));
      PruneAllFlat(es.rest, p);
      assert map[] + FlattenAll(es.rest, p) == FlattenAll(es.rest, p);
    }
  }

  lemma {:induction false} PruneKeepsLeaf(j: Json)
    ensures HasLeaf(Prune(j)) <==> HasLeaf(j)
  {
    PruneFlat(j, "");
    LeafIsPath(j, "");
    LeafIsPath(Prune(j), "");
  }

  lemma {:induction false} Pruned(j: Json)
    ensures Full(Prune(j)) && (Unique(j) ==> Unique(Prune(j)))
    decreases j
  {
    if j.Dict? { AllPruned(j.entries); }
  }

  lemma {:induction false} AllPruned(es: Entries)
    ensures FullAll(PruneAll(es)) && (UniqueAll(es) ==> UniqueAll(PruneAll(es))) && Keys(PruneAll(es)) <= Keys(es)
    decreases es
  {
    if es.Cons? {
      AllPruned(es.rest);
      Pruned(es.value);
      PruneKeepsLeaf(es.value);
    }
  }

  lemma {:induction false} PruneGet(es: Entries, k: string)
    requires UniqueAll(es) && k in Keys(PruneAll(es))
    ensures k in Keys(es) && Get(PruneAll(es), k) == Prune(Get(es, k))
    decreases es
  {
    AllPruned(es.rest);
    if es.key != k || !HasLeaf(es.value) { PruneGet(es.rest, k); }
  }

  lemma {:induction false} LeafyKeyStays(es: Entries, k: string)
    requires k in Keys(es) && HasLeaf(Get(es, k))
    ensures k in Keys(PruneAll(es))
    decreases es
  {
    if es.key != k { LeafyKeyStays(es.rest, k); }
  }

  // ----- which keys a path goes through

  /** Path q is p or lies below it. */
  predicate Under(p: string, q: string) {
    q == p || (|p| < |q| && q[..|p|] == p && q[|p|] == '.')
  }

  /** No key continues another one after a dot. */
  predicate Apart(keys: set<string>) {
    forall k, l | k in keys && l in keys && k != l :: !Under(k, l)
  }

  /** Wherever both snapshots have a dictionary, no key of either continues another one. */
  predicate Clear(a: Json, b: Json)
    decreases a
  {
    a.Dict? && b.Dict? ==> Apart(Keys(a.entries) + Keys(b.entries)) && ClearIn(a.entries, b.entries)
  }

  predicate ClearIn(es: Entries, fs: Entries)
    decreases es
  {
    es.Cons? ==> (es.key in Keys(fs) ==> Clear(es.value, Get(fs, es.key))) && ClearIn(es.rest, fs)
  }

  /** At the top, where there is no prefix, a key is not empty. */
  predicate Named(es: Entries, prefix: string) {
    prefix != "" || "" !in Keys(es)
  }

  predicate Rooted(j: Json) {
    j.Dict? ==> Named(j.entries, "")
  }

  function Below(m: Flat, p: string): Flat {
    map q | q in m && Under(p, q) :: m[q]
  }

  lemma UnderStep(prefix: string, key: string, q: string)
    requires prefix != "" && Under(Path(prefix, key), q)
    ensures Under(prefix, q) && q != prefix
  {
    var p := Path(prefix, key);
    assert q[..|prefix|] == p[..|prefix|] == prefix;
    assert q[|prefix|] == p[|prefix|] == '.';
  }

  /** No path lies below two keys that are apart. */
  lemma UnderOneKey(prefix: string, k: string, l: string, q: string)
    requires !Under(k, l) && !Under(l, k)
    ensures !(Under(Path(prefix, k), q) && Under(Path(prefix, l), q))
  {
    if Under(Path(prefix, k), q) && Under(Path(prefix, l), q) {
      var base := if prefix != "" then prefix + "." else "";
      assert Path(prefix, k) == base + k && Path(prefix, l) == base + l;
      if |k| <= |l| { UnderLonger(base, k, l, q); } else { UnderLonger(base, l, k, q); }
    }
  }

  lemma UnderLonger(base: string, k: string, l: string, q: string)
    requires |k| <= |l| && Under(base + k, q) && Under(base + l, q)
    ensures Under(k, l)
  {
    assert forall i | 0 <= i < |k| :: k[i] == (base + k)[|base| + i] == q[|base| + i];
    assert forall i | 0 <= i < |l| :: l[i] == (base + l)[|base| + i] == q[|base| + i];
    if |k| < |l| { assert q[|base| + |k|] == '.'; }
    assert l[..|k|] == k;
  }

  /** What has a path has it at the path or below. */
  lemma {:induction false} FlattenedUnder(j: Json, p: string, q: string)
    requires p != "" && q in Flatten(j, p)
    ensures Under(p, q) && (j.Dict? ==> q != p)
    decreases j
  {
    if j.Dict? {
      var k := FlattenedBelow(j.entries, p, q);
      UnderStep(p, k, q);
    }
  }

  /** Every path of a dictionary lies below one of its keys. */
  lemma {:induction false} FlattenedBelow(es: Entries, prefix: string, q: string) returns (k: string)
    requires Named(es, prefix) && q in FlattenAll(es, prefix)
    ensures k in Keys(es) && Under(Path(prefix, k), q)
    decreases es
  {
    if q in FlattenAll(es.rest, prefix) {
      k := FlattenedBelow(es.rest, prefix, q);
    } else {
      k := es.key;
      FlattenedUnder(es.value, Path(prefix, k), q);
    }
  }

  lemma {:induction false} GetParts(es: Entries, k: string)
    requires k in Keys(es)
    ensures UniqueAll(es) ==> Unique(Get(es, k))
    ensures FullAll(es) ==> Full(Get(es, k)) && HasLeaf(Get(es, k))
    decreases es
  {
    if es.key != k { GetParts(es.rest, k); }
  }

  /** What lies below a key is the flat form of its value. */
  lemma {:induction false} BelowKey(es: Entries, prefix: string, k: string)
    requires UniqueAll(es) && Named(es, prefix) && Apart(Keys(es)) && k in Keys(es)
    ensures Below(FlattenAll(es, prefix), Path(prefix, k)) == Flatten(Get(es, k), Path(prefix, k))
    decreases es
  {
    var first, rest := Flatten(es.value, Path(prefix, es.key)), FlattenAll(es.rest, prefix);
    forall q | q in first
      ensures Under(Path(prefix, es.key), q)
    {
      FlattenedUnder(es.value, Path(prefix, es.key), q);
    }
    if es.key == k {
      forall q | q in rest
        ensures !Under(Path(prefix, k), q)
      {
        var l := FlattenedBelow(es.rest, prefix, q);
        UnderOneKey(prefix, k, l, q);
      }
    } else {
      forall q | q in first
        ensures !Under(Path(prefix, k), q)
      {
        UnderOneKey(prefix, k, es.key, q);
      }
      BelowKey(es.rest, prefix, k);
    }
  }

  // ----- when an empty difference means equal snapshots

  /** Two dictionaries with one flat form have the same keys, and the values of each key
      have one flat form. */
  lemma SameKeys(es: Entries, fs: Entries, prefix: string, k: string)
    requires UniqueAll(es) && UniqueAll(fs) && FullAll(es) && Apart(Keys(es) + Keys(fs))
    requires Named(es, prefix) && Named(fs, prefix) && k in Keys(es)
    requires Below(FlattenAll(es, prefix), Path(prefix, k)) == Below(FlattenAll(fs, prefix), Path(prefix, k))
    ensures k in Keys(fs) && Flatten(Get(es, k), Path(prefix, k)) == Flatten(Get(fs, k), Path(prefix, k))
  {
    var p := Path(prefix, k);
    GetParts(es, k);
    BelowKey(es, prefix, k);
    LeafIsPath(Get(es, k), p);
    var q :| q in Flatten(Get(es, k), p);
    assert q in Below(FlattenAll(fs, prefix), p);
    var l := FlattenedBelow(fs, prefix, q);
    if k != l { UnderOneKey(prefix, k, l, q); }
    BelowKey(fs, prefix, k);
  }

  /** Without leafless dictionaries and ambiguous keys the flat form determines the
      snapshot. */
  lemma {:induction false} FlattenInjective(a: Json, b: Json, prefix: string)
    requires Unique(a) && Unique(b) && Full(a) && Full(b) && Clear(a, b)
    requires prefix != "" || (Rooted(a) && Rooted(b))
    requires Flatten(a, prefix) == Flatten(b, prefix)
    ensures Same(a, b)
    decreases a, 1
  {
    match (a, b)
    case (Leaf(v), Leaf(w)) =>
      assert map[prefix := v][prefix] == map[prefix := w][prefix];
    case (Dict(es), Dict(fs)) =>
      forall k | k in Keys(fs)
        ensures k in Keys(es)
      {
        SameKeys(fs, es, prefix, k);
      }
      InjectiveIn(es, es, fs, prefix);
    case (Leaf(v), Dict(fs)) =>
      assert prefix in Flatten(a, prefix);
      NotALeaf(fs, prefix);
    case (Dict(es), Leaf(w)) =>
      assert prefix in Flatten(b, prefix);
      NotALeaf(es, prefix);
  }

  lemma NotALeaf(es: Entries, prefix: string)
    requires Named(es, prefix)
    ensures prefix !in FlattenAll(es, prefix)
  {
    if prefix in FlattenAll(es, prefix) {
      var k := FlattenedBelow(es, prefix, prefix);
      if prefix != "" { UnderStep(prefix, k, prefix); }
    }
  }

  predicate Suffix(tail: Entries, es: Entries)
    decreases es
  {
    tail == es || (es.Cons? && Suffix(tail, es.rest))
  }

  lemma {:induction false} SuffixKey(tail: Entries, es: Entries)
    requires tail.Cons? && Suffix(tail, es) && UniqueAll(es)
    ensures tail.key in Keys(es) && Get(es, tail.key) == tail.value && Suffix(tail.rest, es)
    decreases es
  {
    if tail != es { SuffixKey(tail, es.rest); }
  }

  lemma {:induction false} InjectiveIn(tail: Entries, es: Entries, fs: Entries, prefix: string)
    requires UniqueAll(es) && UniqueAll(fs) && FullAll(es) && FullAll(fs) && Apart(Keys(es) + Keys(fs))
    requires UniqueAll(tail) && FullAll(tail) && Suffix(tail, es) && ClearIn(tail, fs)
    requires Named(es, prefix) && Named(fs, prefix) && FlattenAll(es, prefix) == FlattenAll(fs, prefix)
    ensures SameIn(tail, fs)
    decreases tail, 0
  {
    if tail.Cons? {
      var k := tail.key;
      SuffixKey(tail, es);
      SameKeys(es, fs, prefix, k);
      GetParts(fs, k);
      FlattenInjective(tail.value, Get(fs, k), Path(prefix, k));
      InjectiveIn(tail.rest, es, fs, prefix);
    }
  }

  // ... and the other way round

  lemma {:induction false} SameFlat(a: Json, b: Json, prefix: string)
    requires Unique(a) && Unique(b) && Clear(a, b) && Same(a, b)
    requires prefix != "" || (Rooted(a) && Rooted(b))
    ensures Flatten(a, prefix) == Flatten(b, prefix)
    decreases a, 1
  {
    if a.Dict? {
      forall q
        ensures q in Flatten(a, prefix) <==> q in Flatten(b, prefix)
        ensures q in Flatten(a, prefix) && q in Flatten(b, prefix) ==> Flatten(a, prefix)[q] == Flatten(b, prefix)[q]
      {
        SameFlatAt(a.entries, b.entries, prefix, q);
      }
    }
  }

  lemma {:induction false} SameInAt(es: Entries, fs: Entries, k: string)
    requires SameIn(es, fs) && k in Keys(es)
    ensures k in Keys(fs) && Same(Get(es, k), Get(fs, k))
    decreases es
  {
    if es.key != k { SameInAt(es.rest, fs, k); }
  }

  lemma {:induction false} ClearInAt(es: Entries, fs: Entries, k: string)
    requires ClearIn(es, fs) && k in Keys(es)
    ensures (k in Keys(fs) ==> Clear(Get(es, k), Get(fs, k))) && Get(es, k) < es
    decreases es
  {
    if es.key != k { ClearInAt(es.rest, fs, k); }
  }

  lemma {:induction false} SameFlatAt(es: Entries, fs: Entries, prefix: string, q: string)
    requires UniqueAll(es) && UniqueAll(fs) && Apart(Keys(es) + Keys(fs)) && ClearIn(es, fs)
    requires Named(es, prefix) && Named(fs, prefix) && SameIn(es, fs) && Keys(fs) <= Keys(es)
    ensures q in FlattenAll(es, prefix) <==> q in FlattenAll(fs, prefix)
    ensures q in FlattenAll(es, prefix) && q in FlattenAll(fs, prefix) ==> FlattenAll(es, prefix)[q] == FlattenAll(fs, prefix)[q]
    decreases es, 0
  {
    if q in FlattenAll(es, prefix) || q in FlattenAll(fs, prefix) {
      var k: string;
      if q in FlattenAll(es, prefix) { k := FlattenedBelow(es, prefix, q); } else { k := FlattenedBelow(fs, prefix, q); }
      SameInAt(es, fs, k);
      ClearInAt(es, fs, k);
      GetParts(es, k);
      GetParts(fs, k);
      SameFlat(Get(es, k), Get(fs, k), Path(prefix, k));
      BelowKey(es, prefix, k);
      BelowKey(fs, prefix, k);
      BelowAt(FlattenAll(es, prefix), FlattenAll(fs, prefix), Path(prefix, k), q);
    }
  }

  lemma BelowAt(m: Flat, n: Flat, p: string, q: string)
    requires Below(m, p) == Below(n, p) && Under(p, q)
    ensures q in m <==> q in n
    ensures q in m && q in n ==> m[q] == n[q]
  {
    if q in m { assert q in Below(m, p); assert Below(m, p)[q] == m[q]; }
    if q in n { assert q in Below(n, p); assert Below(n, p)[q] == n[q]; }
  }

  /** An empty difference means that the snapshots are equal but for dictionaries without
      a leaf, and only that. */
  lemma EmptyDiffExactly(a: Json, b: Json, rows: seq<Row>)
    requires Unique(a) && Unique(b) && Rooted(Prune(a)) && Rooted(Prune(b)) && Clear(Prune(a), Prune(b))
    requires IsDiff(Flatten(a, ""), Flatten(b, ""), rows)
    ensures rows == [] <==> Same(Prune(a), Prune(b))
  {
    DiffIsPatch(Flatten(a, ""), Flatten(b, ""), rows);
    PruneFlat(a, "");
    PruneFlat(b, "");
    Pruned(a);
    Pruned(b);
    if rows == [] { FlattenInjective(Prune(a), Prune(b), ""); }
    if Same(Prune(a), Prune(b)) { SameFlat(Prune(a), Prune(b), ""); }
  }

  // ----- what the difference cannot see

  /** d[k] = v */
  function Put(es: Entries, k: string, v: Json): Entries {
    match es
    case Nil => Cons(k, v, Nil)
    case Cons(key, value, rest) => if key == k then Cons(k, v, rest) else Cons(key, value, Put(rest, k, v))
  }

  lemma {:induction false} PutKeys(es: Entries, k: string, v: Json)
    ensures Keys(Put(es, k, v)) == Keys(es) + {k}
    ensures k in Keys(Put(es, k, v)) && Get(Put(es, k, v), k) == v
    decreases es
  {
    if es.Cons? && es.key != k { PutKeys(es.rest, k, v); }
  }

  /** A value that flattens like the one it replaces, or like nothing where there was
      none, leaves the flat form as it is. */
  lemma {:induction false} PutUnseen(es: Entries, k: string, v: Json, prefix: string)
    requires if k in Keys(es) then Flatten(v, Path(prefix, k)) == Flatten(Get(es, k), Path(prefix, k)) else !HasLeaf(v)
    ensures FlattenAll(Put(es, k, v), prefix) == FlattenAll(es, prefix)
    decreases es
  {
    if es.Nil? {
      LeafIsPath(v, Path(prefix, k));
      assert map[] + FlattenAll(Nil, prefix) == FlattenAll(es, prefix);
    } else if es.key != k {
      PutUnseen(es.rest, k, v, prefix);
    }
  }

  /** The place that the keys lead to: every dictionary on the way is there, the last key
      is not. */
  predicate Vacant(j: Json, keys: seq<string>)
    decreases |keys|
  {
    && keys != [] && j.Dict?
    && if |keys| == 1 then keys[0] !in Keys(j.entries)
       else keys[0] in Keys(j.entries) && Vacant(Get(j.entries, keys[0]), keys[1..])
  }

  function Insert(j: Json, keys: seq<string>, v: Json): Json
    requires Vacant(j, keys)
    decreases |keys|
  {
    Dict(Put(j.entries, keys[0], if |keys| == 1 then v else Insert(Get(j.entries, keys[0]), keys[1..], v)))
  }

  lemma {:induction false} LeaflessUnseen(j: Json, keys: seq<string>, v: Json, prefix: string)
    requires Vacant(j, keys) && !HasLeaf(v)
    ensures Flatten(Insert(j, keys, v), prefix) == Flatten(j, prefix)
    ensures !Same(j, Insert(j, keys, v)) && !Same(Insert(j, keys, v), j)
    decreases |keys|
  {
    var k, es := keys[0], j.entries;
    var value := if |keys| == 1 then v else Insert(Get(es, k), keys[1..], v);
    PutKeys(es, k, value);
    if |keys| > 1 { LeaflessUnseen(Get(es, k), keys[1..], v, Path(prefix, k)); }
    PutUnseen(es, k, value, prefix);
    if Same(j, Insert(j, keys, v)) { SameInAt(es, Put(es, k, value), k); }
    if Same(Insert(j, keys, v), j) { SameInAt(Put(es, k, value), es, k); }
  }

  /** A method without parameters, recorded as an empty dictionary, comes and goes without
      a row, wherever it is; the snapshots are not equal. */
  lemma ParameterlessUnseen(j: Json, keys: seq<string>, added: seq<Row>, removed: seq<Row>)
    requires Vacant(j, keys)
    requires IsDiff(Flatten(j, ""), Flatten(Insert(j, keys, Dict(Nil)), ""), added)
    requires IsDiff(Flatten(Insert(j, keys, Dict(Nil)), ""), Flatten(j, ""), removed)
    ensures added == [] && removed == [] && !Same(j, Insert(j, keys, Dict(Nil)))
  {
    LeaflessUnseen(j, keys, Dict(Nil), "");
    DiffIsPatch(Flatten(j, ""), Flatten(Insert(j, keys, Dict(Nil)), ""), added);
    DiffIsPatch(Flatten(Insert(j, keys, Dict(Nil)), ""), Flatten(j, ""), removed);
  }

  function One(key: string, value: Json): Json {
    Dict(Cons(key, value, Nil))
  }

  lemma FlattenOne(key: string, value: Json, prefix: string)
    ensures Flatten(One(key, value), prefix) == Flatten(value, Path(prefix, key))
  {
    var m := Flatten(value, Path(prefix, key));
    assert FlattenAll(Cons(key, value, Nil), prefix) == m + FlattenAll(Nil, prefix) == m;
  }

  lemma PruneOne(key: string, value: Json)
    requires HasLeaf(value)
    ensures Prune(One(key, value)) == One(key, Prune(value)) && HasLeaf(One(key, value))
    ensures Keys(Prune(One(key, value)).entries) == {key}
  {
    assert PruneAll(Nil) == Nil;
  }

  /** Keys must be apart: a key that continues another one after a dot reads as what is
      nested there. */
  lemma DotsReadAsNesting(k: string, m: string, v: Value)
    requires k != ""
    ensures var a, b := One(k + "." + m, Leaf(v)), One(k, One(m, Leaf(v)));
            Flatten(a, "") == Flatten(b, "") && !Same(Prune(a), Prune(b)) && !Clear(Prune(a), Prune(b))
  {
    FlattenOne(k + "." + m, Leaf(v), "");
    FlattenOne(k, One(m, Leaf(v)), "");
    FlattenOne(m, Leaf(v), k);
    PruneOne(m, Leaf(v));
    PruneOne(k, One(m, Leaf(v)));
    PruneOne(k + "." + m, Leaf(v));
    var l := k + "." + m;
    assert l[..|k|] == k && l[|k|] == '.';
    assert Under(k, l) && k != l;
    assert k in {l} + {k} && l in {l} + {k};
  }

  /** At the top a key must not be empty: it reads as if it were not there. */
  lemma EmptyKeyDisappears(k: string, v: Json)
    requires k != "" && HasLeaf(v)
    ensures var a, b := One("", One(k, v)), One(k, v);
            Flatten(a, "") == Flatten(b, "") && !Same(Prune(a), Prune(b)) && !Rooted(Prune(a))
  {
    FlattenOne("", One(k, v), "");
    PruneOne(k, v);
    PruneOne("", One(k, v));
  }

  /** The dotted keys that a snapshot has, the files of the library's version, are apart. */
  lemma LocationsApart()
    ensures Apart({"pixi.toml", "python/pyproject.toml", "python/mojotrees/__init__.py"})
  {
    var a, b, c := "pixi.toml", "python/pyproject.toml", "python/mojotrees/__init__.py";
    assert a[1] != b[1] && a[1] != c[1] && b[7] != c[7];
    assert !Under(a, b) && !Under(a, c) && !Under(b, a) && !Under(b, c) && !Under(c, a) && !Under(c, b);
  }
}
