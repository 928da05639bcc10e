/** The snapshot file over time: carry_forward and the write and check modes of
    tools/api_snapshot.py. */
module SnapshotFile {
  import opened Prelude
  import opened Snapshot
  import opened SortedKeys
  import Sorting
  import Text

  function Lookup(j: Json, key: string): Option<Json> {
    if j.Dict? && key in Keys(j.entries) then Some(Get(j.entries, key)) else None
  }

  /** What is to be carried: absent and null both count as nothing. */
  function Tiers(j: Json): Option<Json> {
    var p := Lookup(j, "platforms");
    if p.None? then None else NotNull(Lookup(p.value, "tiers"))
  }

  function Contracts(j: Json): Option<Json> {
    NotNull(Lookup(j, "numerical_contracts"))
  }

  function NotNull(o: Option<Json>): Option<Json> {
    if o == Some(Leaf(Null)) then None else o
  }

  function PutIn(j: Json, k: string, v: Json): Json
    requires j.Dict?
  {
    Dict(Put(j.entries, k, v))
  }

  lemma {:induction false} PutGet(es: Entries, k: string, v: Json, l: string)
    ensures Lookup(Dict(Put(es, k, v)), l) == if l == k then Some(v) else Lookup(Dict(es), l)
    decreases es
  {
    if es.Cons? && es.key != k { PutGet(es.rest, k, v, l); }
  }

  lemma {:induction false} PutUnique(es: Entries, k: string, v: Json)
    requires UniqueAll(es) && Unique(v)
    ensures UniqueAll(Put(es, k, v))
    decreases es
  {
    if es.Cons? && es.key != k {
      PutUnique(es.rest, k, v);
      PutKeys(es.rest, k, v);
    }
  }

  /** What build() returns: a dictionary with a platforms and a meta block. */
  predicate Built(d: Json) {
    && d.Dict?
    && Lookup(d, "platforms").Some? && Lookup(d, "platforms").value.Dict?
    && Lookup(d, "meta").Some? && Lookup(d, "meta").value.Dict?
  }

  function CarryTiers(d: Json, previous: Json): Json
    requires Built(d)
  {
    match Tiers(previous)
    case None => d
    case Some(tiers) => PutIn(d, "platforms", PutIn(Lookup(d, "platforms").value, "tiers", tiers))
  }

  function CarryContracts(d: Json, previous: Json): Json
    requires d.Dict?
  {
    match Contracts(previous)
    case None => d
    case Some(contracts) => PutIn(d, "numerical_contracts", contracts)
  }

  function Carried(previous: Json): seq<string> {
    (if Contracts(previous).Some? then ["numerical_contracts"] else [])
    + (if Tiers(previous).Some? then ["platforms.tiers"] else [])
  }

  /** carry_forward: the two blocks that cannot be derived come from the previous
      snapshot, and the meta block says which. */
  function CarryForward(d: Json, previous: Json): Json
    requires Built(d)
  {
    var s := CarryContracts(CarryTiers(d, previous), previous);
    PutIn(s, "meta", PutIn(Lookup(d, "meta").value, "carried", Leaf(List(Carried(previous)))))
  }

  /** Every top-level block after carrying. */
  lemma CarryAt(d: Json, previous: Json, k: string)
    requires Built(d)
    ensures Lookup(CarryForward(d, previous), k) ==
            if k == "meta" then Some(PutIn(Lookup(d, "meta").value, "carried", Leaf(List(Carried(previous)))))
            else if k == "numerical_contracts" && Contracts(previous).Some? then Contracts(previous)
            else if k == "platforms" && Tiers(previous).Some? then
              Some(PutIn(Lookup(d, "platforms").value, "tiers", Tiers(previous).value))
            else Lookup(d, k)
  {
    var a := CarryTiers(d, previous);
    var b := CarryContracts(a, previous);
    var p := Lookup(d, "platforms").value;
    if Tiers(previous).Some? { PutGet(d.entries, "platforms", PutIn(p, "tiers", Tiers(previous).value), k); }
    if Contracts(previous).Some? { PutGet(a.entries, "numerical_contracts", Contracts(previous).value, k); }
    PutGet(b.entries, "meta", PutIn(Lookup(d, "meta").value, "carried", Leaf(List(Carried(previous)))), k);
  }

  /** Key k of a snapshot has this value. */
  predicate At(j: Json, k: string, v: Json) {
    j.Dict? && k in Keys(j.entries) && Get(j.entries, k) == v
  }

  /** The two blocks that are carried, each when it is there and not null, and the list of
      them that the meta block gets. */
  lemma CarriedExactly(d: Json, previous: Json, v: Json)
    requires Built(d)
    ensures Contracts(previous) == Some(v) <==> At(previous, "numerical_contracts", v) && v != Leaf(Null)
    ensures Tiers(previous) == Some(v) <==> (exists p :: At(previous, "platforms", p) && At(p, "tiers", v)) && v != Leaf(Null)
    ensures "numerical_contracts" in Carried(previous) <==> Contracts(previous).Some?
    ensures "platforms.tiers" in Carried(previous) <==> Tiers(previous).Some?
    ensures |Carried(previous)| <= 2 && forall x | x in Carried(previous) :: x == "numerical_contracts" || x == "platforms.tiers"
    ensures |Carried(previous)| == 2 ==> Carried(previous) == ["numerical_contracts", "platforms.tiers"]
    ensures exists m :: At(CarryForward(d, previous), "meta", m) && At(m, "carried", Leaf(List(Carried(previous))))
  {
    CarryAt(d, previous, "meta");
    var meta := Lookup(d, "meta").value;
    PutGet(meta.entries, "carried", Leaf(List(Carried(previous))), "carried");
    assert At(CarryForward(d, previous), "meta", PutIn(meta, "carried", Leaf(List(Carried(previous)))));
    if Tiers(previous).Some? { assert At(previous, "platforms", Lookup(previous, "platforms").value); }
  }

  /** A null block is not carried: the build's own stays. */
  lemma NullIsNotCarried(d: Json, previous: Json)
    requires Built(d) && At(previous, "numerical_contracts", Leaf(Null))
    ensures Lookup(CarryForward(d, previous), "numerical_contracts") == Lookup(d, "numerical_contracts")
  {
    CarryAt(d, previous, "numerical_contracts");
  }

  /** Whatever the build derives, what the previous snapshot held survives. */
  lemma CarryKeeps(d: Json, previous: Json)
    requires Built(d)
    ensures Tiers(CarryForward(d, previous)) == if Tiers(previous).Some? then Tiers(previous) else Tiers(d)
    ensures Contracts(CarryForward(d, previous)) == if Contracts(previous).Some? then Contracts(previous) else Contracts(d)
  {
    CarryAt(d, previous, "platforms");
    CarryAt(d, previous, "numerical_contracts");
    if Tiers(previous).Some? {
      PutGet(Lookup(d, "platforms").value.entries, "tiers", Tiers(previous).value, "tiers");
    }
  }

  /** Carrying gives a snapshot of the same form, in which no key is doubled. */
  lemma CarryBuilt(d: Json, previous: Json)
    requires Built(d)
    ensures Built(CarryForward(d, previous))
    ensures Unique(d) && Unique(previous) ==> Unique(CarryForward(d, previous))
  {
    CarryAt(d, previous, "platforms");
    CarryAt(d, previous, "meta");
    if Unique(d) && Unique(previous) { CarryUnique(d, previous); }
  }

  lemma UniqueBlock(j: Json, k: string)
    requires Unique(j) && Lookup(j, k).Some?
    ensures Unique(Lookup(j, k).value)
  {
    GetParts(j.entries, k);
  }

  lemma CarryUnique(d: Json, previous: Json)
    requires Built(d) && Unique(d) && Unique(previous)
    ensures Unique(CarryForward(d, previous))
  {
    var a := CarryTiers(d, previous);
    var b := CarryContracts(a, previous);
    UniqueBlock(d, "platforms");
    UniqueBlock(d, "meta");
    if Tiers(previous).Some? {
      UniqueBlock(previous, "platforms");
      UniqueBlock(Lookup(previous, "platforms").value, "tiers");
      PutUnique(Lookup(d, "platforms").value.entries, "tiers", Tiers(previous).value);
      PutUnique(d.entries, "platforms", PutIn(Lookup(d, "platforms").value, "tiers", Tiers(previous).value));
    }
    if Contracts(previous).Some? {
      UniqueBlock(previous, "numerical_contracts");
      PutUnique(a.entries, "numerical_contracts", Contracts(previous).value);
    }
    PutUnique(Lookup(d, "meta").value.entries, "carried", Leaf(List(Carried(previous))));
    PutUnique(b.entries, "meta", PutIn(Lookup(d, "meta").value, "carried", Leaf(List(Carried(previous)))));
  }

  // ----- the file

  /** Not there, not valid JSON, or a snapshot. */
  datatype Stored = Missing | Broken | Good(snapshot: Json)

  /** What --write saves: without a readable snapshot nothing is carried. */
  function Saved(file: Stored, d: Json): Json
    requires Built(d)
  {
    if file.Good? then CarryForward(d, file.snapshot) else d
  }

  /** What --write leaves behind: dump puts the keys in order. */
  function Written(file: Stored, d: Json): Stored
    requires Built(d)
  {
    Good(SortKeys(Saved(file, d)))
  }

  predicate UniqueFile(file: Stored) {
    file.Good? ==> Unique(file.snapshot)
  }

  lemma SavedUnique(file: Stored, d: Json)
    requires Built(d) && Unique(d) && UniqueFile(file)
    ensures Built(Saved(file, d)) && Unique(Saved(file, d))
  {
    if file.Good? { CarryBuilt(d, file.snapshot); }
  }

  function Sort(o: Option<Json>): Option<Json> {
    if o.None? then None else Some(SortKeys(o.value))
  }

  lemma SortedBlock(j: Json, k: string)
    requires Unique(j)
    ensures Lookup(SortKeys(j), k) == Sort(Lookup(j, k))
  {
    if j.Dict? { SortLookup(j.entries); }
  }

  /** Sorting the keys leaves what is to be carried, with its own keys sorted. */
  lemma SortedCarries(j: Json)
    requires Unique(j)
    ensures Tiers(SortKeys(j)) == Sort(Tiers(j)) && Contracts(SortKeys(j)) == Sort(Contracts(j))
    ensures Carried(SortKeys(j)) == Carried(j)
  {
    SortedBlock(j, "platforms");
    SortedBlock(j, "numerical_contracts");
    if Lookup(j, "platforms").Some? {
      UniqueBlock(j, "platforms");
      SortedBlock(Lookup(j, "platforms").value, "tiers");
    }
  }

  predicate IsMeta(r: Row) {
    Text.StartsWith(r.path, "meta.")
  }

  method Surface(rows: seq<Row>) returns (r: seq<Row>)
    ensures forall x :: x in r <==> x in rows && !IsMeta(x)
  {
    r := [];
    for n := 0 to |rows|
      invariant forall x :: x in r <==> x in rows[..n] && !IsMeta(x)
    {
      assert rows[..n + 1] == rows[..n] + [rows[n]];
      if !IsMeta(rows[n]) {
        r := r + [rows[n]];
      }
    }
    assert rows[..|rows|] == rows;
  }

  function RowAt(a: Flat, b: Flat, p: string): (r: Row)
    requires p in Differing(a, b)
    ensures r.path == p && IsRowOf(a, b, r)
  {
    if p !in b then Removed(p, a[p]) else if p !in a then Added(p, b[p]) else Changed(p, a[p], b[p])
  }

  /** All that differs lies in the meta block. */
  ghost predicate OnlyMeta(a: Flat, b: Flat) {
    forall q | q in Differing(a, b) :: Text.StartsWith(q, "meta.")
  }

  /** No row of the check. */
  ghost predicate Silent(s: Json, d: Json)
    requires Built(d)
  {
    OnlyMeta(Flatten(s, ""), Flatten(CarryForward(d, s), ""))
  }

  class SnapshotTool {
    var file: Stored

    constructor (f: Stored)
      ensures file == f
    {
      file := f;
    }

    method Write(d: Json)
      requires Built(d)
      modifies this
      ensures file == Written(old(file), d)
    {
      var snap := d;
      if file.Good? {
        snap := CarryForward(d, file.snapshot);
      }
      file := Good(SortKeys(snap));
    }

    /** None without a readable snapshot, else the differences outside the meta block. */
    method Check(d: Json) returns (found: Option<seq<Row>>)
      requires Built(d)
      ensures found.None? <==> !file.Good?
      ensures found.Some? ==> forall r :: r in found.value <==>
        && !IsMeta(r) && r.path in Differing(Flatten(file.snapshot, ""), Flatten(CarryForward(d, file.snapshot), ""))
        && IsRowOf(Flatten(file.snapshot, ""), Flatten(CarryForward(d, file.snapshot), ""), r)
      ensures found.Some? ==> (found.value == [] <==> Silent(file.snapshot, d))
    {
      if !file.Good? {
        return None;
      }
      var now := CarryForward(d, file.snapshot);
      var rows := Diff(file.snapshot, now);
      ghost var a, b := Flatten(file.snapshot, ""), Flatten(now, "");
      forall r
        ensures r in rows <==> r.path in Differing(a, b) && IsRowOf(a, b, r)
      {
        RowsExactly(a, b, rows, r);
      }
      var kept := Surface(rows);
      forall q | q in Differing(a, b)
        ensures RowAt(a, b, q) in kept <==> !Text.StartsWith(q, "meta.")
      {}
      if kept != [] { assert kept[0] in kept; }
      return Some(kept);
    }
  }

  /** A difference holds a row exactly when it is the row of a differing path. */
  lemma RowsExactly(a: Flat, b: Flat, rows: seq<Row>, r: Row)
    requires IsDiff(a, b, rows)
    ensures r in rows <==> r.path in Differing(a, b) && IsRowOf(a, b, r)
  {
    Sorting.SortedElems(Differing(a, b));
    if r in rows { PathOf(rows, r); }
    if r.path in Differing(a, b) && IsRowOf(a, b, r) {
      assert r.path in Paths(rows);
      var x := RowOfPath(rows, r.path);
    }
  }

  lemma {:induction false} PathOf(rows: seq<Row>, r: Row)
    requires r in rows
    ensures r.path in Paths(rows)
  {
    if r != rows[|rows| - 1] { PathOf(rows[..|rows| - 1], r); }
  }

  lemma {:induction false} RowOfPath(rows: seq<Row>, p: string) returns (r: Row)
    requires p in Paths(rows)
    ensures r in rows && r.path == p
  {
    r := rows[|rows| - 1];
    if r.path != p { r := RowOfPath(rows[..|rows| - 1], p); }
  }

  // ----- over time

  ghost function Writes(file: Stored, ds: seq<Json>): Stored
    requires forall d | d in ds :: Built(d)
  {
    if ds == [] then file
    else
      var init, last := ds[..|ds| - 1], ds[|ds| - 1];
      assert last in ds && forall d | d in init :: d in ds;
      Written(Writes(file, init), last)
  }

  /** Over every run of writes, whatever each build derives, a carried block keeps the
      value it had at the start; the first write puts its keys in order. */
  lemma {:induction false} WritesKeep(s: Json, ds: seq<Json>)
    requires Unique(s) && forall d | d in ds :: Built(d) && Unique(d)
    ensures var end := Writes(Good(s), ds);
            && end.Good? && Unique(end.snapshot)
            && (Tiers(s).Some? ==> Tiers(end.snapshot) == if ds == [] then Tiers(s) else Sort(Tiers(s)))
            && (Contracts(s).Some? ==> Contracts(end.snapshot) == if ds == [] then Contracts(s) else Sort(Contracts(s)))
  {
    if ds != [] {
      var init, last := ds[..|ds| - 1], ds[|ds| - 1];
      assert last in ds && forall d | d in init :: d in ds;
      WritesKeep(s, init);
      var before := Writes(Good(s), init);
      CarryKeeps(last, before.snapshot);
      SavedUnique(before, last);
      SortUnique(Saved(before, last));
      SortedCarries(Saved(before, last));
      if Tiers(s).Some? { SortTwice(Tiers(s).value); }
      if Contracts(s).Some? { SortTwice(Contracts(s).value); }
    }
  }

  lemma PutSame(es: Entries, k: string, v: Json)
    requires Lookup(Dict(es), k) == Some(v)
    ensures Put(es, k, v) == es
  {}

  /** Carrying twice from the same build changes no block but meta. */
  lemma SavedAgain(d: Json, file: Stored, k: string)
    requires Built(d) && k != "meta"
    ensures var s := Saved(file, d); Lookup(CarryForward(d, s), k) == Lookup(s, k)
  {
    var s := Saved(file, d);
    CarryAt(d, s, k);
    var p := Lookup(d, "platforms").value;
    if Tiers(d).Some? { PutSame(p.entries, "tiers", Tiers(d).value); }
    if file.Good? {
      CarryAt(d, file.snapshot, k);
      CarryKeeps(d, file.snapshot);
    }
  }

  /** ... and through the file they come back equal, in the order of their keys. */
  lemma CarryAgain(d: Json, file: Stored, k: string)
    requires Built(d) && Unique(d) && UniqueFile(file) && k != "meta"
    ensures var s := Written(file, d).snapshot; SameBlock(CarryForward(d, s), s, k)
  {
    var w, s := Saved(file, d), Written(file, d).snapshot;
    SavedUnique(file, d);
    SavedAgain(d, file, k);
    SortedBlock(w, k);
    SortedCarries(w);
    CarryAt(d, s, k);
    CarryAt(d, w, k);
    if Lookup(w, k).Some? {
      UniqueBlock(w, k);
      SortSame(Lookup(w, k).value);
      SortedSelf(Lookup(w, k).value);
    }
    if k == "platforms" && Tiers(w).Some? {
      UniqueBlock(Lookup(w, k).value, "tiers");
      UniqueBlock(d, k);
      TiersAgain(Lookup(d, "platforms").value, Tiers(w).value);
    }
  }

  lemma TiersAgain(p: Json, t: Json)
    requires p.Dict? && Unique(p) && Unique(t)
    ensures Same(PutIn(p, "tiers", SortKeys(t)), SortKeys(PutIn(p, "tiers", t)))
  {
    var es, fs := Put(p.entries, "tiers", SortKeys(t)), Put(p.entries, "tiers", t);
    SortUnique(t);
    PutUnique(p.entries, "tiers", SortKeys(t));
    PutUnique(p.entries, "tiers", t);
    PutKeys(p.entries, "tiers", SortKeys(t));
    PutKeys(p.entries, "tiers", t);
    SortLookup(fs);
    forall k | k in Keys(es)
      ensures Same(Get(es, k), Get(SortAll(fs), k))
    {
      PutGet(p.entries, "tiers", SortKeys(t), k);
      PutGet(p.entries, "tiers", t, k);
      if k == "tiers" {
        SortedSelf(t);
      } else {
        GetParts(p.entries, k);
        SortSame(Get(p.entries, k));
      }
    }
    SameByKeys(es, es, SortAll(fs));
  }

  lemma SortedSelf(j: Json)
    requires Unique(j)
    ensures Same(SortKeys(j), SortKeys(j))
  {
    SortUnique(j);
    SortTwice(j);
    SortSame(SortKeys(j));
  }

  /** The build with the carried blocks, but for the note in meta. */
  function Carrying(d: Json, previous: Json): (s: Json)
    requires Built(d)
    ensures s.Dict?
  {
    CarryContracts(CarryTiers(d, previous), previous)
  }

  function Meta(d: Json, previous: Json): (m: Json)
    requires Built(d)
    ensures m.Dict?
  {
    PutIn(Lookup(d, "meta").value, "carried", Leaf(List(Carried(previous))))
  }

  lemma SameTiers(d: Json, s: Json, previous: Option<Json>)
    requires Built(d)
    requires Tiers(s) == if previous.Some? && Tiers(previous.value).Some? then Tiers(previous.value) else Tiers(d)
    ensures CarryTiers(d, s) == if previous.Some? then CarryTiers(d, previous.value) else d
  {
    if Tiers(s).Some? && (previous.None? || Tiers(previous.value).None?) {
      var p := Lookup(d, "platforms").value;
      PutSame(p.entries, "tiers", Tiers(d).value);
      PutSame(d.entries, "platforms", p);
    }
  }

  lemma SameContracts(d: Json, s: Json, previous: Option<Json>)
    requires d.Dict?
    requires Contracts(s) == if previous.Some? && Contracts(previous.value).Some? then Contracts(previous.value) else Contracts(d)
    ensures CarryContracts(d, s) == if previous.Some? then CarryContracts(d, previous.value) else d
  {
    if Contracts(s).Some? && (previous.None? || Contracts(previous.value).None?) {
      PutSame(d.entries, "numerical_contracts", Contracts(d).value);
    }
  }

  /** What a second carrying leaves unchanged but for the note in meta. */
  lemma CarriesAgain(d: Json, file: Stored)
    requires Built(d)
    ensures var s := Saved(file, d);
            Carrying(d, s) == if file.Good? then Carrying(d, file.snapshot) else d
  {
    var s := Saved(file, d);
    var previous := if file.Good? then Some(file.snapshot) else None;
    if file.Good? { CarryKeeps(d, file.snapshot); }
    SameTiers(d, s, previous);
    var a := CarryTiers(d, s);
    if Tiers(s).Some? {
      PutGet(d.entries, "platforms", PutIn(Lookup(d, "platforms").value, "tiers", Tiers(s).value), "numerical_contracts");
    }
    SameContracts(a, s, previous);
  }

  lemma {:induction false} PutTwice(es: Entries, k: string, v: Json, w: Json)
    ensures Put(Put(es, k, v), k, w) == Put(es, k, w)
    decreases es
  {
    if es.Cons? && es.key != k { PutTwice(es.rest, k, v, w); }
  }

  /** What is carried from the snapshot being saved is that snapshot with another meta. */
  lemma OnlyMetaChanges(d: Json, file: Stored)
    requires Built(d)
    ensures var s := Saved(file, d); s.Dict? && CarryForward(d, s) == PutIn(s, "meta", Meta(d, s))
  {
    var s := Saved(file, d);
    CarriesAgain(d, file);
    if file.Good? { PutTwice(Carrying(d, file.snapshot).entries, "meta", Meta(d, file.snapshot), Meta(d, s)); }
  }

  /** Another value for one key changes only paths of the two values. */
  lemma {:induction false} PutDiffers(es: Entries, k: string, v: Json, w: Json, prefix: string, q: string)
    requires q in Differing(FlattenAll(Put(es, k, v), prefix), FlattenAll(Put(es, k, w), prefix))
    ensures q in Flatten(v, Path(prefix, k)) || q in Flatten(w, Path(prefix, k))
    decreases es
  {
    if es.Cons? && es.key != k { PutDiffers(es.rest, k, v, w, prefix, q); }
  }

  /** What is carried, once sorted, is the same whether its keys were sorted before or not. */
  lemma CarrySorted(d: Json, w: Json)
    requires Built(d) && Unique(w)
    ensures SortKeys(CarryForward(d, SortKeys(w))) == SortKeys(CarryForward(d, w))
  {
    var s := SortKeys(w);
    SortedCarries(w);
    AlikeSelf(d.entries);
    if Tiers(w).Some? {
      var t, p := Tiers(w).value, Lookup(d, "platforms").value;
      SortTwice(t);
      AlikeSelf(p.entries);
      AlikePut(p.entries, p.entries, "tiers", SortKeys(t), t);
      AlikeSort(Put(p.entries, "tiers", SortKeys(t)), Put(p.entries, "tiers", t));
      AlikePut(d.entries, d.entries, "platforms", PutIn(p, "tiers", SortKeys(t)), PutIn(p, "tiers", t));
    }
    if Contracts(w).Some? {
      var c := Contracts(w).value;
      SortTwice(c);
      AlikePut(CarryTiers(d, s).entries, CarryTiers(d, w).entries, "numerical_contracts", SortKeys(c), c);
    }
    AlikePut(Carrying(d, s).entries, Carrying(d, w).entries, "meta", Meta(d, s), Meta(d, w));
    AlikeSort(CarryForward(d, s).entries, CarryForward(d, w).entries);
  }

  /** What the check compares the file with, after a write of the same build. */
  function Rebuilt(file: Stored, d: Json): Json
    requires Built(d)
  {
    CarryForward(d, Written(file, d).snapshot)
  }

  /** Sorted, it is the file but for meta. */
  lemma RebuiltSorted(d: Json, file: Stored)
    requires Built(d) && Unique(d) && UniqueFile(file)
    ensures OnlyMeta(Flatten(Written(file, d).snapshot, ""), Flatten(SortKeys(Rebuilt(file, d)), ""))
  {
    var w := Saved(file, d);
    var n, es := SortKeys(Meta(d, w)), SortAll(w.entries);
    SavedUnique(file, d);
    CarrySorted(d, w);
    OnlyMetaChanges(d, file);
    SortedPut(w.entries, "meta", Meta(d, w));
    SortedBlock(w, "meta");
    var m := Get(es, "meta");
    PutSame(es, "meta", m);
    forall q | q in Differing(FlattenAll(es, ""), FlattenAll(Put(es, "meta", n), ""))
      ensures Text.StartsWith(q, "meta.")
    {
      PutDiffers(es, "meta", m, n, "", q);
      MetaIsNested(if q in Flatten(m, "meta") then m else n, q);
    }
  }

  /** A check straight after a write, on the same build, reports no row exactly when the
      order of the keys makes no difference to the flat form outside meta. */
  lemma WriteThenCheckExactly(d: Json, file: Stored)
    requires Built(d) && Unique(d) && UniqueFile(file)
    ensures Silent(Written(file, d).snapshot, d) <==>
            OnlyMeta(Flatten(Rebuilt(file, d), ""), Flatten(SortKeys(Rebuilt(file, d)), ""))
  {
    RebuiltSorted(d, file);
    var a, b := Flatten(Written(file, d).snapshot, ""), Flatten(Rebuilt(file, d), "");
    var c := Flatten(SortKeys(Rebuilt(file, d)), "");
    if OnlyMeta(a, b) { OnlyMetaTriple(b, a, c); }
    if OnlyMeta(b, c) { OnlyMetaTriple(a, c, b); }
  }

  lemma OnlyMetaTriple(a: Flat, b: Flat, c: Flat)
    requires OnlyMeta(a, b) || OnlyMeta(b, a)
    requires OnlyMeta(b, c) || OnlyMeta(c, b)
    ensures OnlyMeta(a, c)
  {}

  /** In particular it reports none where no key continues another one. */
  lemma WriteThenCheck(d: Json, file: Stored)
    requires Built(d) && Unique(d) && UniqueFile(file)
    requires SelfClear(Rebuilt(file, d)) && Rooted(Prune(Rebuilt(file, d)))
    ensures Silent(Written(file, d).snapshot, d)
  {
    SavedUnique(file, d);
    SortUnique(Saved(file, d));
    CarryBuilt(d, Written(file, d).snapshot);
    SortFlat(Rebuilt(file, d), "");
    WriteThenCheckExactly(d, file);
  }

  /** A build in which one key continues another one. */
  function Colliding(v: Value, w: Value, last: Entries): Json {
    Dict(Cons("a.b", Leaf(w), Cons("a", One("b", Leaf(v)), last)))
  }

  function Blocks(meta: Json): Entries {
    Cons("platforms", Dict(Nil), Cons("meta", meta, Nil))
  }

  lemma CollidingBuilt(v: Value, w: Value)
    ensures var d := Colliding(v, w, Blocks(Dict(Nil)));
            Built(d) && Unique(d) && Tiers(d).None? && Contracts(d).None?
  {
    var meta := Cons("meta", Dict(Nil), Nil);
    var last := Cons("platforms", Dict(Nil), meta);
    var a := Cons("a", One("b", Leaf(v)), last);
    assert Keys(meta) == {"meta"} && Keys(last) == {"platforms", "meta"};
    assert Keys(a) == {"a", "platforms", "meta"};
    assert Get(last, "platforms") == Dict(Nil) && Get(last, "meta") == Get(meta, "meta") == Dict(Nil);
    assert Get(a, "platforms") == Dict(Nil) && Get(a, "meta") == Dict(Nil);
    assert UniqueAll(meta) && UniqueAll(last) && Unique(One("b", Leaf(v)));
  }

  lemma CollidingSorted(v: Value, w: Value)
    ensures var last := Cons("meta", Dict(Nil), Cons("platforms", Dict(Nil), Nil));
            SortKeys(Colliding(v, w, Blocks(Dict(Nil)))) == Dict(Cons("a", One("b", Leaf(v)), Cons("a.b", Leaf(w), last)))
  {
    var meta := Cons("meta", Dict(Nil), Nil);
    var last := Cons("meta", Dict(Nil), Cons("platforms", Dict(Nil), Nil));
    var b := Cons("b", Leaf(v), Nil);
    var a := Cons("a", Dict(b), Blocks(Dict(Nil)));
    assert SortAll(meta) == meta && SortAll(b) == b by { assert SortAll(Nil) == Nil; }
    assert SortAll(Blocks(Dict(Nil))) == last;
    assert SortAll(a) == Cons("a", Dict(b), last);
    assert !Sorting.Le("a.b", "a") by { assert "a.b"[1..] == ".b" && "a"[1..] == ""; }
    var ab := Cons("a.b", Leaf(w), last);
    assert InsertKey("a.b", Leaf(w), last) == ab;
    assert InsertKey("a.b", Leaf(w), Cons("a", Dict(b), last)) == Cons("a", Dict(b), ab);
    assert SortAll(Cons("a.b", Leaf(w), a)) == InsertKey("a.b", SortKeys(Leaf(w)), SortAll(a));
  }

  /** The path has the value of the key that comes last. */
  lemma CollidingFlat(v: Value, w: Value, meta: Json)
    requires meta.Dict?
    ensures var m := Flatten(Colliding(v, w, Blocks(meta)), ""); "a.b" in m && m["a.b"] == v
  {
    var q := "a.b";
    var es := Cons("meta", meta, Nil);
    assert FlattenAll(es, "") == Flatten(meta, "meta") + FlattenAll(Nil, "");
    if q in FlattenAll(es, "") { MetaIsNested(meta, q); }
    assert FlattenAll(Blocks(meta), "") == Flatten(Dict(Nil), "platforms") + FlattenAll(es, "");
    FlattenOne("b", Leaf(v), "a");
    assert Path("a", "b") == q;
    var fs := Cons("a", One("b", Leaf(v)), Blocks(meta));
    assert FlattenAll(fs, "") == Flatten(One("b", Leaf(v)), "a") + FlattenAll(Blocks(meta), "");
    assert Flatten(Colliding(v, w, Blocks(meta)), "") == Flatten(Leaf(w), q) + FlattenAll(fs, "");
  }

  /** There the order of the keys decides: the file says w, the build says v, and a check
      straight after the write has a row. */
  lemma OrderDecides(v: Value, w: Value)
    requires v != w
    ensures var d := Colliding(v, w, Blocks(Dict(Nil)));
            Built(d) && Unique(d) && !Silent(Written(Missing, d).snapshot, d)
  {
    var d, q := Colliding(v, w, Blocks(Dict(Nil))), "a.b";
    var s := SortKeys(d);
    CollidingBuilt(v, w);
    CollidingSorted(v, w);
    SortedCarries(d);
    var last := Cons("meta", Dict(Nil), Cons("platforms", Dict(Nil), Nil));
    var es := Cons("platforms", Dict(Nil), Nil);
    assert FlattenAll(es, "") == Flatten(Dict(Nil), "platforms") + FlattenAll(Nil, "");
    assert FlattenAll(last, "") == Flatten(Dict(Nil), "meta") + FlattenAll(es, "");
    var ab := Cons(q, Leaf(w), last);
    assert FlattenAll(ab, "") == Flatten(Leaf(w), q) + FlattenAll(last, "");
    assert Flatten(s, "") == Flatten(One("b", Leaf(v)), "a") + FlattenAll(ab, "");
    assert Flatten(s, "")[q] == w;
    var m := Meta(d, s);
    assert Put(Blocks(Dict(Nil)), "meta", m) == Blocks(m);
    var a := Cons("a", One("b", Leaf(v)), Blocks(Dict(Nil)));
    assert Put(a, "meta", m) == Cons("a", One("b", Leaf(v)), Blocks(m));
    assert CarryForward(d, s) == Colliding(v, w, Blocks(m));
    CollidingFlat(v, w, m);
    assert q in Differing(Flatten(s, ""), Flatten(CarryForward(d, s), ""));
    assert !Text.StartsWith(q, "meta.");
  }

  lemma MetaIsNested(m: Json, q: string)
    requires m.Dict? && q in Flatten(m, "meta")
    ensures Text.StartsWith(q, "meta.")
  {
    FlattenedUnder(m, "meta", q);
    assert q[..5] == q[..4] + [q[4]];
  }

  // ----- what a silent check means

  /** Key k has equal values in the two dictionaries, or in neither. */
  predicate SameBlock(a: Json, b: Json, k: string) {
    match (Lookup(a, k), Lookup(b, k))
    case (None, None) => true
    case (Some(v), Some(w)) => Same(v, w)
    case _ => false
  }

  /** The keys of the file and of the build do not run into each other. */
  predicate Comparable(s: Json, d: Json)
    requires Built(d)
  {
    var a, b := Prune(s), Prune(CarryForward(d, s));
    Rooted(a) && Rooted(b) && Clear(a, b)
  }

  lemma MetaStays(d: Json, s: Json)
    requires Built(d)
    ensures "meta" in Keys(PruneAll(CarryForward(d, s).entries))
  {
    CarryAt(d, s, "meta");
    PutGet(Lookup(d, "meta").value.entries, "carried", Leaf(List(Carried(s))), "carried");
    LeafAt(Meta(d, s).entries, "carried");
    LeafyKeyStays(CarryForward(d, s).entries, "meta");
  }

  predicate MetaIsBlock(s: Json) {
    Lookup(s, "meta").Some? ==> Lookup(s, "meta").value.Dict?
  }

  /** The check is silent exactly when the file's meta is a block, if there is one, and file
      and build agree, but for dictionaries without a leaf, on everything else. */
  lemma SilentExactly(s: Json, d: Json)
    requires s.Dict? && Built(d) && Unique(s) && Unique(d) && Comparable(s, d)
    ensures Silent(s, d) <==>
            MetaIsBlock(s) && forall k | k != "meta" :: SameBlock(Prune(s), Prune(CarryForward(d, s)), k)
  {
    var c := CarryForward(d, s);
    CarryBuilt(d, s);
    MetaStays(d, s);
    PruneFlat(s, "");
    PruneFlat(c, "");
    Pruned(s);
    Pruned(c);
    if Silent(s, d) {
      forall k | k != "meta"
        ensures SameBlock(Prune(s), Prune(c), k)
      {
        BlockSame(Prune(s).entries, Prune(c).entries, k);
      }
      if !MetaIsBlock(s) { LeafMetaShows(s, c); }
    }
    if MetaIsBlock(s) && forall k | k != "meta" :: SameBlock(Prune(s), Prune(c), k) {
      forall q | q in Differing(Flatten(s, ""), Flatten(c, ""))
        ensures Text.StartsWith(q, "meta.")
      {
        MetaIsDict(s);
        MetaIsDict(c);
        OnlyInMeta(Prune(s).entries, Prune(c).entries, q);
      }
    }
  }

  lemma MetaIsDict(s: Json)
    requires s.Dict? && MetaIsBlock(s) && Unique(s)
    ensures var es := PruneAll(s.entries); "meta" in Keys(es) ==> Get(es, "meta").Dict?
  {
    if "meta" in Keys(PruneAll(s.entries)) { PruneGet(s.entries, "meta"); }
  }

  lemma LeafMetaShows(s: Json, c: Json)
    requires s.Dict? && !MetaIsBlock(s) && Unique(s) && Built(c) && Unique(c)
    requires Rooted(Prune(s)) && Rooted(Prune(c)) && Clear(Prune(s), Prune(c))
    requires "meta" in Keys(PruneAll(c.entries))
    ensures "meta" in Differing(Flatten(s, ""), Flatten(c, "")) && !Text.StartsWith("meta", "meta.")
  {
    var es, fs := PruneAll(s.entries), PruneAll(c.entries);
    PruneFlat(s, "");
    PruneFlat(c, "");
    Pruned(s);
    Pruned(c);
    LeafyKeyStays(s.entries, "meta");
    PruneGet(s.entries, "meta");
    MetaIsDict(c);
    BelowKey(es, "", "meta");
    BelowKey(fs, "", "meta");
    assert "meta" in Flatten(Get(es, "meta"), "meta");
    assert "meta" in Below(FlattenAll(es, ""), "meta");
    if "meta" in FlattenAll(fs, "") {
      assert "meta" in Below(FlattenAll(fs, ""), "meta");
      FlattenedUnder(Get(fs, "meta"), "meta", "meta");
    }
  }

  lemma BlockSame(es: Entries, fs: Entries, k: string)
    requires UniqueAll(es) && UniqueAll(fs) && FullAll(es) && FullAll(fs) && Named(es, "") && Named(fs, "")
    requires Apart(Keys(es) + Keys(fs)) && ClearIn(es, fs) && "meta" in Keys(fs) && k != "meta"
    requires forall q | q in Differing(FlattenAll(es, ""), FlattenAll(fs, "")) :: Text.StartsWith(q, "meta.")
    ensures SameBlock(Dict(es), Dict(fs), k)
  {
    if k in Keys(es) || k in Keys(fs) {
      BelowSame(es, fs, k);
      if k in Keys(es) { SameKeys(es, fs, "", k); } else { SameKeys(fs, es, "", k); }
      ClearInAt(es, fs, k);
      GetParts(es, k);
      GetParts(fs, k);
      FlattenInjective(Get(es, k), Get(fs, k), k);
    }
  }

  lemma BelowSame(es: Entries, fs: Entries, k: string)
    requires Apart(Keys(es) + Keys(fs)) && "meta" in Keys(fs) && k in Keys(es) + Keys(fs) && k != "meta"
    requires forall q | q in Differing(FlattenAll(es, ""), FlattenAll(fs, "")) :: Text.StartsWith(q, "meta.")
    ensures Below(FlattenAll(es, ""), k) == Below(FlattenAll(fs, ""), k)
  {
    var m, n := FlattenAll(es, ""), FlattenAll(fs, "");
    forall q | Under(k, q)
      ensures q in m <==> q in n
      ensures q in m && q in n ==> m[q] == n[q]
    {
      if (q in m || q in n) && !Agree(m, n, q) {
        assert q in Differing(m, n);
        assert q[..4] == q[..5][..4] == "meta" && q[4] == q[..5][4];
        UnderOneKey("", k, "meta", q);
      }
    }
  }

  lemma OnlyInMeta(es: Entries, fs: Entries, q: string)
    requires UniqueAll(es) && UniqueAll(fs) && Named(es, "") && Named(fs, "")
    requires Apart(Keys(es) + Keys(fs)) && ClearIn(es, fs)
    requires forall k | k != "meta" :: SameBlock(Dict(es), Dict(fs), k)
    requires "meta" in Keys(es) ==> Get(es, "meta").Dict?
    requires "meta" in Keys(fs) ==> Get(fs, "meta").Dict?
    requires q in Differing(FlattenAll(es, ""), FlattenAll(fs, ""))
    ensures Text.StartsWith(q, "meta.")
  {
    var here := q in FlattenAll(es, "");
    var gs := if here then es else fs;
    var k := FlattenedBelow(gs, "", q);
    BelowKey(gs, "", k);
    assert q in Below(FlattenAll(gs, ""), k);
    if k == "meta" {
      MetaIsNested(Get(gs, k), q);
    } else {
      assert SameBlock(Dict(es), Dict(fs), k);
      BlockFlat(es, fs, k);
      BelowAt(FlattenAll(es, ""), FlattenAll(fs, ""), k, q);
    }
  }

  lemma BlockFlat(es: Entries, fs: Entries, k: string)
    requires UniqueAll(es) && UniqueAll(fs) && Named(es, "") && Named(fs, "")
    requires Apart(Keys(es) + Keys(fs)) && ClearIn(es, fs)
    requires k in Keys(es) && k in Keys(fs) && Same(Get(es, k), Get(fs, k))
    ensures Below(FlattenAll(es, ""), k) == Below(FlattenAll(fs, ""), k)
  {
    ClearInAt(es, fs, k);
    GetParts(es, k);
    GetParts(fs, k);
    SameFlat(Get(es, k), Get(fs, k), k);
    BelowKey(es, "", k);
    BelowKey(fs, "", k);
  }
}
