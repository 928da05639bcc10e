/** json.dump(..., sort_keys=True) and back: the same snapshot with the keys of every
    dictionary in order. */
module SortedKeys {
  import opened Snapshot
  import Sorting

  function InsertKey(k: string, v: Json, es: Entries): Entries {
    match es
    case Nil => Cons(k, v, Nil)
    case Cons(key, value, rest) => if Sorting.Le(k, key) then Cons(k, v, es) else Cons(key, value, InsertKey(k, v, rest))
  }

  function SortKeys(j: Json): Json {
    match j
    case Leaf(_) => j
    case Dict(es) => Dict(SortAll(es))
  }

  function SortAll(es: Entries): Entries {
    match es
    case Nil => Nil
    case Cons(key, value, rest) => InsertKey(key, SortKeys(value), SortAll(rest))
  }

  // ----- nothing is lost

  lemma {:induction false} InsertLookup(k: string, v: Json, es: Entries)
    requires k !in Keys(es)
    ensures Keys(InsertKey(k, v, es)) == Keys(es) + {k} && Get(InsertKey(k, v, es), k) == v
    ensures forall l | l in Keys(es) :: Get(InsertKey(k, v, es), l) == Get(es, l)
    ensures UniqueAll(es) && Unique(v) ==> UniqueAll(InsertKey(k, v, es))
    decreases es
  {
    if es.Cons? && !Sorting.Le(k, es.key) { InsertLookup(k, v, es.rest); }
  }

  lemma {:induction false} SortLookup(es: Entries)
    requires UniqueAll(es)
    ensures Keys(SortAll(es)) == Keys(es)
    ensures forall k | k in Keys(es) :: Get(SortAll(es), k) == SortKeys(Get(es, k))
    decreases es
  {
    if es.Cons? {
      SortLookup(es.rest);
      InsertLookup(es.key, SortKeys(es.value), SortAll(es.rest));
    }
  }

  lemma {:induction false} SortUnique(j: Json)
    requires Unique(j)
    ensures Unique(SortKeys(j))
    decreases j
  {
    if j.Dict? { SortAllUnique(j.entries); }
  }

  lemma {:induction false} SortAllUnique(es: Entries)
    requires UniqueAll(es)
    ensures UniqueAll(SortAll(es))
    decreases es
  {
    if es.Cons? {
      SortUnique(es.value);
      SortAllUnique(es.rest);
      SortLookup(es.rest);
      InsertLookup(es.key, SortKeys(es.value), SortAll(es.rest));
    }
  }

  // ----- the result is in order

  predicate Ordered(j: Json) {
    j.Dict? ==> OrderedAll(j.entries)
  }

  predicate OrderedAll(es: Entries) {
    es.Cons? ==> Ordered(es.value) && OrderedAll(es.rest) && (es.rest.Cons? ==> Sorting.Le(es.key, es.rest.key))
  }

  lemma {:induction false} InsertOrdered(k: string, v: Json, es: Entries)
    requires OrderedAll(es) && Ordered(v)
    ensures OrderedAll(InsertKey(k, v, es))
    decreases es
  {
    if es.Cons? {
      Sorting.LeTotal(k, es.key);
      if !Sorting.Le(k, es.key) { InsertOrdered(k, v, es.rest); }
    }
  }

  lemma {:induction false} SortOrders(j: Json)
    ensures Ordered(SortKeys(j))
    decreases j
  {
    if j.Dict? { SortAllOrders(j.entries); }
  }

  lemma {:induction false} SortAllOrders(es: Entries)
    ensures OrderedAll(SortAll(es))
    decreases es
  {
    if es.Cons? {
      SortOrders(es.value);
      SortAllOrders(es.rest);
      InsertOrdered(es.key, SortKeys(es.value), SortAll(es.rest));
    }
  }

  lemma {:induction false} OrderedStays(j: Json)
    requires Ordered(j)
    ensures SortKeys(j) == j
    decreases j
  {
    if j.Dict? { OrderedAllStays(j.entries); }
  }

  lemma {:induction false} OrderedAllStays(es: Entries)
    requires OrderedAll(es)
    ensures SortAll(es) == es
    decreases es
  {
    if es.Cons? {
      OrderedStays(es.value);
      OrderedAllStays(es.rest);
    }
  }

  /** What was sorted once stays as it is. */
  lemma SortTwice(j: Json)
    ensures SortKeys(SortKeys(j)) == SortKeys(j)
  {
    SortOrders(j);
    OrderedStays(SortKeys(j));
  }

  // ----- d[k] = v, before and after

  lemma {:induction false} InsertPut(k: string, v: Json, es: Entries, l: string, w: Json)
    requires k !in Keys(es) && (l == k || l in Keys(es))
    ensures Put(InsertKey(k, v, es), l, w) == if l == k then InsertKey(k, w, es) else InsertKey(k, v, Put(es, l, w))
    decreases es
  {
    if es.Cons? && !Sorting.Le(k, es.key) && es.key != l { InsertPut(k, v, es.rest, l, w); }
  }

  /** A value put in the place of another one is sorted in place. */
  lemma {:induction false} SortedPut(es: Entries, k: string, v: Json)
    requires UniqueAll(es) && k in Keys(es)
    ensures SortAll(Put(es, k, v)) == Put(SortAll(es), k, SortKeys(v))
    decreases es
  {
    SortLookup(es.rest);
    InsertPut(es.key, SortKeys(es.value), SortAll(es.rest), k, SortKeys(v));
    if es.key != k { SortedPut(es.rest, k, v); }
  }

  /** One key at each place, and values that sort to the same. */
  predicate Alike(es: Entries, fs: Entries) {
    match (es, fs)
    case (Nil, Nil) => true
    case (Cons(k, v, rest), Cons(l, w, more)) => k == l && SortKeys(v) == SortKeys(w) && Alike(rest, more)
    case _ => false
  }

  lemma {:induction false} AlikeSelf(es: Entries)
    ensures Alike(es, es)
    decreases es
  {
    if es.Cons? { AlikeSelf(es.rest); }
  }

  lemma {:induction false} AlikePut(es: Entries, fs: Entries, k: string, v: Json, w: Json)
    requires Alike(es, fs) && SortKeys(v) == SortKeys(w)
    ensures Alike(Put(es, k, v), Put(fs, k, w))
    decreases es
  {
    if es.Cons? && es.key != k { AlikePut(es.rest, fs.rest, k, v, w); }
  }

  lemma {:induction false} AlikeSort(es: Entries, fs: Entries)
    requires Alike(es, fs)
    ensures SortAll(es) == SortAll(fs)
    decreases es
  {
    if es.Cons? { AlikeSort(es.rest, fs.rest); }
  }

  // ----- it is the same snapshot

  lemma {:induction false} GetSmaller(es: Entries, k: string)
    requires k in Keys(es)
    ensures Get(es, k) < es
    decreases es
  {
    if es.key != k { GetSmaller(es.rest, k); }
  }

  lemma {:induction false} SameByKeys(tail: Entries, es: Entries, fs: Entries)
    requires UniqueAll(es) && Suffix(tail, es)
    requires forall k | k in Keys(es) :: k in Keys(fs) && Same(Get(es, k), Get(fs, k))
    ensures SameIn(tail, fs)
    decreases tail
  {
    if tail.Cons? {
      SuffixKey(tail, es);
      SameByKeys(tail.rest, es, fs);
    }
  }

  lemma {:induction false} SortSame(j: Json)
    requires Unique(j)
    ensures Same(SortKeys(j), j) && Same(j, SortKeys(j))
    decreases j
  {
    if j.Dict? {
      var es, fs := j.entries, SortAll(j.entries);
      SortLookup(es);
      SortAllUnique(es);
      forall k | k in Keys(es)
        ensures Same(Get(fs, k), Get(es, k)) && Same(Get(es, k), Get(fs, k))
      {
        GetParts(es, k);
        GetSmaller(es, k);
        SortSame(Get(es, k));
      }
      SameByKeys(es, es, fs);
      SameByKeys(fs, fs, es);
    }
  }

  // ----- when it has the same flat form

  lemma {:induction false} PruneKeys(es: Entries, k: string)
    requires UniqueAll(es)
    ensures k in Keys(PruneAll(es)) <==> k in Keys(es) && HasLeaf(Get(es, k))
    ensures k in Keys(PruneAll(es)) ==> Get(PruneAll(es), k) == Prune(Get(es, k))
  {
    AllPruned(es);
    if k in Keys(PruneAll(es)) {
      PruneGet(es, k);
      GetParts(PruneAll(es), k);
      PruneKeepsLeaf(Get(es, k));
    }
    if k in Keys(es) && HasLeaf(Get(es, k)) { LeafyKeyStays(es, k); }
  }

  lemma {:induction false} SameLeaves(a: Json, b: Json)
    requires Unique(a) && Unique(b) && Same(a, b)
    ensures HasLeaf(a) <==> HasLeaf(b)
    decreases a
  {
    if a.Dict? {
      var es, fs := a.entries, b.entries;
      if AnyLeaf(es) {
        var k := LeafKey(es);
        SameInAt(es, fs, k);
        GetSmaller(es, k);
        GetParts(es, k);
        GetParts(fs, k);
        SameLeaves(Get(es, k), Get(fs, k));
        LeafAt(fs, k);
      }
      if AnyLeaf(fs) {
        var k := LeafKey(fs);
        SameInAt(es, fs, k);
        GetSmaller(es, k);
        GetParts(es, k);
        GetParts(fs, k);
        SameLeaves(Get(es, k), Get(fs, k));
        LeafAt(es, k);
      }
    }
  }

  lemma {:induction false} LeafKey(es: Entries) returns (k: string)
    requires UniqueAll(es) && AnyLeaf(es)
    ensures k in Keys(es) && HasLeaf(Get(es, k))
    decreases es
  {
    if HasLeaf(es.value) { k := es.key; } else { k := LeafKey(es.rest); }
  }

  lemma {:induction false} LeafAt(es: Entries, k: string)
    requires k in Keys(es) && HasLeaf(Get(es, k))
    ensures AnyLeaf(es)
    decreases es
  {
    if es.key != k { LeafAt(es.rest, k); }
  }

  lemma {:induction false} SamePruned(a: Json, b: Json)
    requires Unique(a) && Unique(b) && Same(a, b)
    ensures Same(Prune(a), Prune(b))
    decreases a
  {
    if a.Dict? {
      var es, fs := a.entries, b.entries;
      var gs, hs := PruneAll(es), PruneAll(fs);
      AllPruned(es);
      forall k
        ensures k in Keys(gs) <==> k in Keys(hs)
        ensures k in Keys(gs) && k in Keys(hs) ==> Same(Get(gs, k), Get(hs, k))
      {
        PruneKeys(es, k);
        PruneKeys(fs, k);
        if k in Keys(es) {
          SameInAt(es, fs, k);
          GetSmaller(es, k);
          GetParts(es, k);
          GetParts(fs, k);
          SameLeaves(Get(es, k), Get(fs, k));
          SamePruned(Get(es, k), Get(fs, k));
        }
      }
      SameByKeys(gs, gs, hs);
    }
  }

  lemma {:induction false} SameKeySet(es: Entries, fs: Entries)
    requires SameIn(es, fs)
    ensures Keys(es) <= Keys(fs)
    decreases es
  {
    if es.Cons? { SameKeySet(es.rest, fs); }
  }

  /** Equal snapshots are as clear of each other as each is of itself. */
  lemma {:induction false} ClearSame(a: Json, b: Json)
    requires Same(a, b) && Clear(b, b)
    ensures Clear(a, b)
    decreases a, 1
  {
    if a.Dict? {
      SameKeySet(a.entries, b.entries);
      assert Keys(a.entries) + Keys(b.entries) == Keys(b.entries) + Keys(b.entries);
      ClearSameIn(a.entries, b.entries);
    }
  }

  lemma {:induction false} ClearSameIn(es: Entries, fs: Entries)
    requires SameIn(es, fs) && ClearIn(fs, fs)
    ensures ClearIn(es, fs)
    decreases es, 0
  {
    if es.Cons? {
      ClearInAt(fs, fs, es.key);
      ClearSame(es.value, Get(fs, es.key));
      ClearSameIn(es.rest, fs);
    }
  }

  /** No key of a dictionary continues another one, dictionaries without a leaf aside. */
  predicate SelfClear(j: Json) {
    Clear(Prune(j), Prune(j))
  }

  /** Then the order of the keys makes no difference to the flat form. */
  lemma SortFlat(j: Json, prefix: string)
    requires Unique(j) && SelfClear(j) && (prefix != "" || Rooted(Prune(j)))
    ensures Flatten(SortKeys(j), prefix) == Flatten(j, prefix)
  {
    var s := SortKeys(j);
    SortUnique(j);
    SortSame(j);
    SamePruned(s, j);
    ClearSame(Prune(s), Prune(j));
    Pruned(s);
    Pruned(j);
    PruneFlat(s, prefix);
    PruneFlat(j, prefix);
    if Prune(j).Dict? && prefix == "" { SameKeySet(Prune(s).entries, Prune(j).entries); }
    SameFlat(Prune(s), Prune(j), prefix);
  }
}
