/** The register of model-format fixtures, tools/model_fixture_manifest.py: digests are
    computed from the files, compared with the recorded ones, and recorded again. */
module FixtureRegister {
  import opened Prelude
  import Sorting

  datatype Entry = Entry(size: nat, sha: string)

  type Entries = map<string, Entry>

  type Register = map<string, Entries>

  /** A manifest row; a missing id or stem reads as "". */
  datatype Row = Row(id: string, stem: string)

  /** One moment: the manifest's rows, the suffix of each role, the files on disk, and
      the digest function. */
  datatype Tree = Tree(rows: seq<Row>, suffixes: map<string, string>, disk: map<string, seq<int>>, sha: seq<int> -> string)

  function PathOf(t: Tree, row: Row, role: string): string
    requires role in t.suffixes
  {
    row.stem + t.suffixes[role]
  }

  /** The file of a role is there and holds something. */
  predicate Holds(t: Tree, row: Row, role: string) {
    role in t.suffixes && PathOf(t, row, role) in t.disk && t.disk[PathOf(t, row, role)] != []
  }

  function EntryOf(t: Tree, row: Row, role: string): Entry
    requires Holds(t, row, role)
  {
    var content := t.disk[PathOf(t, row, role)];
    Entry(|content|, t.sha(content))
  }

  /** The digests of one fixture. */
  function EntriesOf(t: Tree, row: Row): Entries {
    map role | role in t.suffixes.Keys && Holds(t, row, role) :: EntryOf(t, row, role)
  }

  /** The digests of the first n rows; a later row with the same id replaces an earlier
      one unless it has no file. */
  function Computed(t: Tree, n: nat): Register
    requires n <= |t.rows|
  {
    if n == 0 then map[]
    else
      var out, row := Computed(t, n - 1), t.rows[n - 1];
      if row.id == "" || EntriesOf(t, row) == map[] then out else out[row.id := EntriesOf(t, row)]
  }

  datatype Problem =
    | Absent(id: string, role: string)
    | Empty(id: string, role: string)
    | Missing(id: string)
    | Unrecorded(id: string)
    | RoleUnrecorded(id: string, role: string)
    | RoleMissing(id: string, role: string)
    | Mismatch(id: string, role: string)
    | SizeChanged(id: string, role: string)

  /** What compute reports about the file of one role. */
  function RoleProblems(t: Tree, row: Row, role: string): seq<Problem> {
    if role !in t.suffixes then []
    else if PathOf(t, row, role) !in t.disk then [Absent(row.id, role)]
    else if t.disk[PathOf(t, row, role)] == [] then [Empty(row.id, role)]
    else []
  }

  /** What compute reports about a row, role by role, and about all of them. */
  function RowReport(t: Tree, row: Row): seq<Problem> {
    if row.id == "" then [] else FlatMap(role => RoleProblems(t, row, role), Sorting.Sorted(t.suffixes.Keys))
  }

  function FileReports(t: Tree): seq<Problem> {
    FlatMap(row => RowReport(t, row), t.rows)
  }

  predicate RowProblem(t: Tree, row: Row, p: Problem) {
    row.id != "" && (p.Absent? || p.Empty?) && p in RoleProblems(t, row, p.role)
  }

  predicate FileProblem(t: Tree, p: Problem, n: nat)
    requires n <= |t.rows|
  {
    exists k | 0 <= k < n :: RowProblem(t, t.rows[k], p)
  }

  /** The digests of the first roles. */
  function EntriesOver(t: Tree, row: Row, roles: seq<string>): Entries {
    if roles == [] then map[]
    else
      var init, last := EntriesOver(t, row, roles[..|roles| - 1]), roles[|roles| - 1];
      if Holds(t, row, last) then init[last := EntryOf(t, row, last)] else init
  }

  lemma {:induction false} EntriesOverAt(t: Tree, row: Row, roles: seq<string>, role: string)
    ensures role in EntriesOver(t, row, roles) <==> role in roles && Holds(t, row, role)
    ensures role in EntriesOver(t, row, roles) ==> EntriesOver(t, row, roles)[role] == EntryOf(t, row, role)
  {
    if roles != [] {
      var init, last := roles[..|roles| - 1], roles[|roles| - 1];
      assert roles == init + [last];
      EntriesOverAt(t, row, init, role);
    }
  }

  lemma EntriesNext(t: Tree, row: Row, roles: seq<string>, n: nat)
    requires n < |roles|
    ensures var entries := EntriesOver(t, row, roles[..n]);
            EntriesOver(t, row, roles[..n + 1]) ==
            if Holds(t, row, roles[n]) then entries[roles[n] := EntryOf(t, row, roles[n])] else entries
  {
    assert roles[..n + 1][..n] == roles[..n];
  }

  method ComputeRow(t: Tree, row: Row) returns (entry: Entries, problems: seq<Problem>)
    requires row.id != ""
    ensures entry == EntriesOf(t, row) && problems == RowReport(t, row)
    ensures forall p :: p in problems <==> RowProblem(t, row, p)
  {
    entry, problems := map[], [];
    var roles := Sorting.Sorted(t.suffixes.Keys);
    ghost var report := role => RoleProblems(t, row, role);
    for n := 0 to |roles|
      invariant entry == EntriesOver(t, row, roles[..n])
      invariant problems == FlatMap(report, roles[..n])
    {
      var role := roles[n];
      Sorting.SortedElems(t.suffixes.Keys);
      assert role in roles;
      FlatMapSnoc(report, roles, n);
      EntriesNext(t, row, roles, n);
      var path := PathOf(t, row, role);
      if path !in t.disk {
        problems := problems + [Absent(row.id, role)];
        continue;
      }
      if |t.disk[path]| == 0 {
        problems := problems + [Empty(row.id, role)];
        continue;
      }
      entry := entry[role := Entry(|t.disk[path]|, t.sha(t.disk[path]))];
    }
    assert roles[..|roles|] == roles;
    RowMeans(t, row, roles);
  }

  lemma RowMeans(t: Tree, row: Row, roles: seq<string>)
    requires row.id != "" && roles == Sorting.Sorted(t.suffixes.Keys)
    ensures EntriesOver(t, row, roles) == EntriesOf(t, row)
    ensures forall p :: p in FlatMap(role => RoleProblems(t, row, role), roles) <==> RowProblem(t, row, p)
  {
    Sorting.SortedElems(t.suffixes.Keys);
    forall role
      ensures role in EntriesOver(t, row, roles) <==> role in EntriesOf(t, row)
      ensures role in EntriesOf(t, row) ==> EntriesOver(t, row, roles)[role] == EntriesOf(t, row)[role]
    {
      EntriesOverAt(t, row, roles, role);
    }
    var report := role => RoleProblems(t, row, role);
    forall p
      ensures p in FlatMap(report, roles) <==> RowProblem(t, row, p)
    {
      FlatMapElems(report, roles, p);
      if RowProblem(t, row, p) { assert p.role in roles && p in report(p.role); }
    }
  }

  method Compute(t: Tree) returns (out: Register, problems: seq<Problem>)
    ensures out == Computed(t, |t.rows|) && problems == FileReports(t)
    ensures forall p :: p in problems <==> FileProblem(t, p, |t.rows|)
  {
    out, problems := map[], [];
    for n := 0 to |t.rows|
      invariant out == Computed(t, n) && problems == FlatMap(row => RowReport(t, row), t.rows[..n])
    {
      RowNext(t, n);
      var row := t.rows[n];
      if row.id == "" {
        continue;
      }
      var entry, found := ComputeRow(t, row);
      problems := problems + found;
      if entry != map[] {
        out := out[row.id := entry];
      }
    }
    assert t.rows[..|t.rows|] == t.rows;
    FilesMean(t);
  }

  lemma RowNext(t: Tree, n: nat)
    requires n < |t.rows|
    ensures FlatMap(row => RowReport(t, row), t.rows[..n + 1]) ==
            FlatMap(row => RowReport(t, row), t.rows[..n]) + RowReport(t, t.rows[n])
    ensures t.rows[n].id == "" ==> RowReport(t, t.rows[n]) == []
  {
    FlatMapSnoc(row => RowReport(t, row), t.rows, n);
  }

  lemma FilesMean(t: Tree)
    ensures forall p :: p in FileReports(t) <==> FileProblem(t, p, |t.rows|)
  {
    var report := row => RowReport(t, row);
    forall p
      ensures p in FileReports(t) <==> FileProblem(t, p, |t.rows|)
    {
      FlatMapElems(report, t.rows, p);
      forall row
        ensures p in RowReport(t, row) <==> RowProblem(t, row, p)
      {
        if row.id != "" { RowMeans(t, row, Sorting.Sorted(t.suffixes.Keys)); }
      }
      if k: nat :| k < |t.rows| && RowProblem(t, t.rows[k], p) { assert t.rows[k] in t.rows && p in report(t.rows[k]); }
    }
  }

  // ----- compare

  function Roles(r: Register, id: string): Entries {
    if id in r then r[id] else map[]
  }

  /** Exactly what compare reports. */
  predicate Reported(recorded: Register, computed: Register, p: Problem) {
    match p
    case Missing(id) => id in recorded && id !in computed
    case Unrecorded(id) => id !in recorded && id in computed
    case RoleUnrecorded(id, role) =>
      id in recorded && id in computed && role !in recorded[id] && role in computed[id]
    case RoleMissing(id, role) =>
      id in recorded && id in computed && role in recorded[id] && role !in computed[id]
    case Mismatch(id, role) =>
      && id in recorded && id in computed && role in recorded[id] && role in computed[id]
      && recorded[id][role].sha != computed[id][role].sha
    case SizeChanged(id, role) =>
      && id in recorded && id in computed && role in recorded[id] && role in computed[id]
      && recorded[id][role].sha == computed[id][role].sha && recorded[id][role].size != computed[id][role].size
    case _ => false
  }

  function RoleReport(id: string, was: Entries, now: Entries, role: string): seq<Problem> {
    if role !in was then (if role in now then [RoleUnrecorded(id, role)] else [])
    else if role !in now then [RoleMissing(id, role)]
    else if was[role].sha != now[role].sha then [Mismatch(id, role)]
    else if was[role].size != now[role].size then [SizeChanged(id, role)]
    else []
  }

  method CompareRoles(id: string, was: Entries, now: Entries) returns (problems: seq<Problem>)
    ensures problems == FlatMap(role => RoleReport(id, was, now, role), Sorting.Sorted(was.Keys + now.Keys))
  {
    problems := [];
    var roles := Sorting.Sorted(was.Keys + now.Keys);
    ghost var report := role => RoleReport(id, was, now, role);
    for n := 0 to |roles|
      invariant problems == FlatMap(report, roles[..n])
    {
      var role := roles[n];
      Sorting.SortedElems(was.Keys + now.Keys);
      assert role in roles;
      FlatMapSnoc(report, roles, n);
      if role !in was {
        problems := problems + [RoleUnrecorded(id, role)];
      } else if role !in now {
        problems := problems + [RoleMissing(id, role)];
      } else if was[role].sha != now[role].sha {
        problems := problems + [Mismatch(id, role)];
      } else if was[role].size != now[role].size {
        problems := problems + [SizeChanged(id, role)];
      }
    }
    assert roles[..|roles|] == roles;
  }

  function IdReport(recorded: Register, computed: Register, id: string): seq<Problem> {
    if id !in computed then (if id in recorded then [Missing(id)] else [])
    else if id !in recorded then [Unrecorded(id)]
    else
      FlatMap(role => RoleReport(id, recorded[id], computed[id], role), Sorting.Sorted(recorded[id].Keys + computed[id].Keys))
  }

  predicate OfRole(p: Problem, id: string, role: string) {
    (p.RoleUnrecorded? || p.RoleMissing? || p.Mismatch? || p.SizeChanged?) && p.id == id && p.role == role
  }

  lemma RoleReportMeans(recorded: Register, computed: Register, id: string, role: string, p: Problem)
    requires id in recorded && id in computed
    ensures p in RoleReport(id, recorded[id], computed[id], role) <==>
            OfRole(p, id, role) && Reported(recorded, computed, p)
  {}

  lemma RolesReportMean(recorded: Register, computed: Register, id: string, p: Problem)
    requires id in recorded && id in computed
    ensures p in IdReport(recorded, computed, id) <==>
            exists role :: OfRole(p, id, role) && Reported(recorded, computed, p)
  {
    var was, now := recorded[id], computed[id];
    var report := role => RoleReport(id, was, now, role);
    var roles := Sorting.Sorted(was.Keys + now.Keys);
    Sorting.SortedElems(was.Keys + now.Keys);
    FlatMapElems(report, roles, p);
    if role :| role in roles && p in report(role) { RoleReportMeans(recorded, computed, id, role, p); }
    if role :| OfRole(p, id, role) && Reported(recorded, computed, p) {
      RoleReportMeans(recorded, computed, id, role, p);
      assert p in report(role) && role in roles;
    }
  }

  lemma IdReportMeans(recorded: Register, computed: Register, id: string, p: Problem)
    ensures p in IdReport(recorded, computed, id) <==> p.id == id && Reported(recorded, computed, p)
  {
    if id in recorded && id in computed {
      RolesReportMean(recorded, computed, id, p);
      if p.id == id && Reported(recorded, computed, p) { assert OfRole(p, id, p.role); }
    }
  }

  /** What compare reports, id by id. */
  function Differences(recorded: Register, computed: Register): seq<Problem> {
    FlatMap(id => IdReport(recorded, computed, id), Sorting.Sorted(recorded.Keys + computed.Keys))
  }

  method Compare(recorded: Register, computed: Register) returns (problems: seq<Problem>)
    ensures problems == Differences(recorded, computed)
    ensures forall p :: p in problems <==> Reported(recorded, computed, p)
  {
    problems := [];
    var ids := Sorting.Sorted(recorded.Keys + computed.Keys);
    ghost var report := id => IdReport(recorded, computed, id);
    for n := 0 to |ids|
      invariant problems == FlatMap(report, ids[..n])
    {
      var id := ids[n];
      Sorting.SortedElems(recorded.Keys + computed.Keys);
      assert id in ids;
      FlatMapSnoc(report, ids, n);
      if id !in computed {
        problems := problems + [Missing(id)];
        continue;
      }
      if id !in recorded {
        problems := problems + [Unrecorded(id)];
        continue;
      }
      var found := CompareRoles(id, recorded[id], computed[id]);
      problems := problems + found;
    }
    assert ids[..|ids|] == ids;
    forall p
      ensures p in problems <==> Reported(recorded, computed, p)
    {
      FlatMapElems(report, ids, p);
      IdReportMeans(recorded, computed, p.id, p);
      Sorting.SortedElems(recorded.Keys + computed.Keys);
      if Reported(recorded, computed, p) { assert p.id in ids && p in report(p.id); }
      if p in problems {
        var id :| id in ids && p in report(id);
        IdReportMeans(recorded, computed, id, p);
      }
    }
  }

  /** compare is silent exactly when what is recorded is what is on disk. */
  lemma SilentExactly(recorded: Register, computed: Register)
    ensures (forall p :: !Reported(recorded, computed, p)) <==> recorded == computed
  {
    if forall p :: !Reported(recorded, computed, p) {
      forall id
        ensures id in recorded <==> id in computed
        ensures id in recorded && id in computed ==> recorded[id] == computed[id]
      {
        assert !Reported(recorded, computed, Missing(id)) && !Reported(recorded, computed, Unrecorded(id));
        if id in recorded && id in computed { SameEntries(recorded, computed, id); }
      }
    }
  }

  lemma SameEntries(recorded: Register, computed: Register, id: string)
    requires id in recorded && id in computed && forall p :: !Reported(recorded, computed, p)
    ensures recorded[id] == computed[id]
  {
    forall role
      ensures role in recorded[id] <==> role in computed[id]
      ensures role in recorded[id] && role in computed[id] ==> recorded[id][role] == computed[id][role]
    {
      assert !Reported(recorded, computed, RoleUnrecorded(id, role));
      assert !Reported(recorded, computed, RoleMissing(id, role));
      assert !Reported(recorded, computed, Mismatch(id, role));
      assert !Reported(recorded, computed, SizeChanged(id, role));
    }
  }

  // ----- write and check

  /** A recorded digest that the files no longer have. */
  predicate Clashes(recorded: Register, computed: Register, id: string, role: string) {
    && id in computed && role in computed[id] && id in recorded && role in recorded[id]
    && recorded[id][role].sha != computed[id][role].sha
  }

  ghost predicate AnyClash(recorded: Register, computed: Register) {
    exists id, role :: Clashes(recorded, computed, id, role)
  }

  function IdClashes(recorded: Register, computed: Register, id: string): seq<(string, string)> {
    FlatMap(role => if Clashes(recorded, computed, id, role) then [(id, role)] else [], Sorting.Sorted(Roles(computed, id).Keys))
  }

  lemma IdClashesMean(recorded: Register, computed: Register, id: string, c: (string, string))
    ensures c in IdClashes(recorded, computed, id) <==> c.0 == id && Clashes(recorded, computed, id, c.1)
  {
    var one := role => if Clashes(recorded, computed, id, role) then [(id, role)] else [];
    Sorting.SortedElems(Roles(computed, id).Keys);
    FlatMapElems(one, Sorting.Sorted(Roles(computed, id).Keys), c);
    if c.0 == id && Clashes(recorded, computed, id, c.1) { assert c in one(c.1); }
  }

  method FindIdClashes(recorded: Register, computed: Register, id: string) returns (clashes: seq<(string, string)>)
    requires id in computed
    ensures clashes == IdClashes(recorded, computed, id)
  {
    clashes := [];
    var was, roles := Roles(recorded, id), Sorting.Sorted(computed[id].Keys);
    ghost var one := role => if Clashes(recorded, computed, id, role) then [(id, role)] else [];
    for n := 0 to |roles|
      invariant clashes == FlatMap(one, roles[..n])
    {
      var role := roles[n];
      Sorting.SortedElems(computed[id].Keys);
      assert role in roles;
      FlatMapSnoc(one, roles, n);
      if role in was && was[role].sha != computed[id][role].sha {
        clashes := clashes + [(id, role)];
      }
    }
    assert roles[..|roles|] == roles;
  }

  method FindClashes(recorded: Register, computed: Register) returns (clashes: seq<(string, string)>)
    ensures forall c :: c in clashes <==> Clashes(recorded, computed, c.0, c.1)
  {
    clashes := [];
    var ids := Sorting.Sorted(computed.Keys);
    ghost var some := id => IdClashes(recorded, computed, id);
    for n := 0 to |ids|
      invariant clashes == FlatMap(some, ids[..n])
    {
      Sorting.SortedElems(computed.Keys);
      assert ids[n] in ids;
      FlatMapSnoc(some, ids, n);
      var found := FindIdClashes(recorded, computed, ids[n]);
      clashes := clashes + found;
    }
    assert ids[..|ids|] == ids;
    forall c
      ensures c in clashes <==> Clashes(recorded, computed, c.0, c.1)
    {
      FlatMapElems(some, ids, c);
      Sorting.SortedElems(computed.Keys);
      IdClashesMean(recorded, computed, c.0, c);
      if Clashes(recorded, computed, c.0, c.1) { assert c.0 in ids && c in some(c.0); }
      if c in clashes {
        var id :| id in ids && c in some(id);
        IdClashesMean(recorded, computed, id, c);
      }
    }
  }

  /** A write without --accept-new is refused when a digest would change. */
  ghost predicate Refuses(checksums: Option<Register>, t: Tree) {
    checksums.Some? && AnyClash(checksums.value, Computed(t, |t.rows|))
  }

  /** What a write without --accept-new leaves in the register: nothing new when it is
      refused, else the files' digests. */
  ghost function Recorded(checksums: Option<Register>, t: Tree): Option<Register> {
    if Refuses(checksums, t) then checksums else Some(Computed(t, |t.rows|))
  }

  class FixtureTool {
    var checksums: Option<Register>

    constructor (r: Option<Register>)
      ensures checksums == r
    {
      checksums := r;
    }

    method Write(t: Tree, acceptNew: bool) returns (refused: bool)
      modifies this
      ensures refused <==> !acceptNew && Refuses(old(checksums), t)
      ensures !acceptNew ==> checksums == Recorded(old(checksums), t)
      ensures acceptNew ==> checksums == Some(Computed(t, |t.rows|))
    {
      var computed, problems := Compute(t);
      var recorded := if checksums.Some? then checksums.value else map[];
      if recorded != map[] && !acceptNew {
        var clashes := FindClashes(recorded, computed);
        if clashes != [] {
          assert clashes[0] in clashes;
          return true;
        }
        forall id, role
          ensures !Clashes(recorded, computed, id, role)
        {
          assert (id, role) !in clashes;
        }
      }
      checksums := Some(computed);
      return false;
    }

    /** Whether the check passes; it changes nothing. */
    method Check(t: Tree) returns (problems: seq<Problem>, passed: bool)
      ensures passed <==> problems == [] && checksums.Some?
      ensures problems == FileReports(t) + if checksums.Some? then Differences(checksums.value, Computed(t, |t.rows|)) else []
      ensures checksums.Some? ==> forall p :: p in problems <==>
        FileProblem(t, p, |t.rows|) || Reported(checksums.value, Computed(t, |t.rows|), p)
    {
      var computed, found := Compute(t);
      problems := found;
      passed := false;
      if checksums.Some? {
        var differences := Compare(checksums.value, computed);
        problems := problems + differences;
        passed := problems == [];
      }
    }
  }

  // ----- what a digest survives

  /** Some file of the row is there and holds something. */
  predicate HasFile(t: Tree, row: Row) {
    exists role | role in t.suffixes :: Holds(t, row, role)
  }

  lemma HasFileMeans(t: Tree, row: Row)
    ensures EntriesOf(t, row) == map[] <==> !HasFile(t, row)
  {
    if role :| role in t.suffixes && Holds(t, row, role) { assert role in EntriesOf(t, row); }
    if role :| role in EntriesOf(t, row) { assert Holds(t, row, role); }
  }

  /** Row k is the last of the first n rows with this id that has a file. */
  predicate Wins(t: Tree, n: nat, k: nat, id: string)
    requires n <= |t.rows|
  {
    && id != "" && k < n && t.rows[k].id == id && HasFile(t, t.rows[k])
    && forall m | k < m < n && t.rows[m].id == id :: !HasFile(t, t.rows[m])
  }

  /** A digest is computed exactly for the declared fixtures that have a file, from the
      last row that declares them. */
  lemma {:induction false} ComputedExactly(t: Tree, n: nat, id: string)
    requires n <= |t.rows|
    ensures id in Computed(t, n) <==> exists k: nat :: Wins(t, n, k, id)
    ensures forall k: nat | Wins(t, n, k, id) :: id in Computed(t, n) && Computed(t, n)[id] == EntriesOf(t, t.rows[k])
  {
    if n > 0 {
      var m := n - 1;
      ComputedExactly(t, m, id);
      HasFileMeans(t, t.rows[m]);
      if t.rows[m].id == id && id != "" && HasFile(t, t.rows[m]) {
        assert Wins(t, n, m, id);
      } else {
        forall k: nat
          ensures Wins(t, n, k, id) <==> Wins(t, m, k, id)
        {}
        if k: nat :| Wins(t, n, k, id) { assert Wins(t, m, k, id); }
        if k: nat :| Wins(t, m, k, id) { assert Wins(t, n, k, id); }
      }
    }
  }

  /** The role has a recorded digest, namely sha. */
  predicate Digest(checksums: Option<Register>, id: string, role: string, sha: string) {
    checksums.Some? && id in checksums.value && role in checksums.value[id] && checksums.value[id][role].sha == sha
  }

  /** The last row with this id that has a file has one for this role. */
  ghost predicate Evident(t: Tree, id: string, role: string) {
    exists k: nat :: Wins(t, |t.rows|, k, id) && Holds(t, t.rows[k], role)
  }

  lemma OneWinner(t: Tree, n: nat, k: nat, l: nat, id: string)
    requires n <= |t.rows| && Wins(t, n, k, id) && Wins(t, n, l, id)
    ensures k == l
  {}

  lemma EvidentMeans(t: Tree, id: string, role: string)
    ensures var computed := Computed(t, |t.rows|); Evident(t, id, role) <==> id in computed && role in computed[id]
  {
    ComputedExactly(t, |t.rows|, id);
    if k: nat :| Wins(t, |t.rows|, k, id) && Holds(t, t.rows[k], role) { assert role in EntriesOf(t, t.rows[k]); }
    var computed := Computed(t, |t.rows|);
    if id in computed && role in computed[id] {
      var k: nat :| Wins(t, |t.rows|, k, id);
      assert Holds(t, t.rows[k], role);
    }
  }

  /** The file of the role is declared, present and not empty. */
  predicate Present(t: Tree, id: string, role: string) {
    id != "" && exists k | 0 <= k < |t.rows| :: t.rows[k].id == id && Holds(t, t.rows[k], role)
  }

  predicate DistinctIds(t: Tree) {
    forall j, k | 0 <= j < k < |t.rows| && t.rows[j].id != "" :: t.rows[j].id != t.rows[k].id
  }

  /** Where no two rows share an id, that is all it takes. */
  lemma PresentIsEvident(t: Tree, id: string, role: string)
    requires DistinctIds(t)
    ensures Evident(t, id, role) <==> Present(t, id, role)
  {
    if Present(t, id, role) {
      var k: nat :| k < |t.rows| && t.rows[k].id == id && Holds(t, t.rows[k], role);
      assert role in t.suffixes;
      assert HasFile(t, t.rows[k]);
      assert Wins(t, |t.rows|, k, id);
    }
  }

  /** Where they do, a later row that has some other file hides it. */
  lemma LaterRowHides(t: Tree, id: string, role: string, m: nat)
    requires Wins(t, |t.rows|, m, id) && !Holds(t, t.rows[m], role)
    ensures !Evident(t, id, role)
  {
    forall k: nat | Wins(t, |t.rows|, k, id)
      ensures !Holds(t, t.rows[k], role)
    {
      OneWinner(t, |t.rows|, k, m, id);
    }
  }

  /** Two rows with the id `a`; the first has both files, the second has one. */
  function Doubled(sha: seq<int> -> string): Tree {
    Tree([Row("a", "x"), Row("a", "y")], map["model" := ".m", "input" := ".i"],
      map["x.m" := [1], "x.i" := [1], "y.m" := [1]], sha)
  }

  /** The input file is declared, present and not empty, and a write drops its digest. */
  lemma DoubledDrops(sha: seq<int> -> string)
    ensures var t := Doubled(sha);
            && Present(t, "a", "input") && !Evident(t, "a", "input")
            && forall checksums | Digest(checksums, "a", "input", sha([1])) && !Refuses(checksums, t) ::
                 !HasDigest(Recorded(checksums, t), "a", "input")
  {
    var t := Doubled(sha);
    var x, y := t.rows[0], t.rows[1];
    assert "x" + ".i" == "x.i" && "y" + ".m" == "y.m" && "y" + ".i" == "y.i";
    assert "y.i"[0] != "x.m"[0] && "y.i"[2] != "y.m"[2];
    assert Holds(t, x, "input") && Holds(t, y, "model") && !Holds(t, y, "input");
    assert HasFile(t, y) && Wins(t, 2, 1, "a");
    LaterRowHides(t, "a", "input", 1);
    EvidentMeans(t, "a", "input");
  }

  /** A write keeps a recorded digest exactly when it is refused or the last row with its
      id that has a file has this one, present and not empty. */
  lemma WriteKeepsExactly(checksums: Option<Register>, t: Tree, id: string, role: string, sha: string)
    requires Digest(checksums, id, role, sha)
    ensures Digest(Recorded(checksums, t), id, role, sha) <==>
            Refuses(checksums, t) || Evident(t, id, role)
  {
    var computed := Computed(t, |t.rows|);
    EvidentMeans(t, id, role);
    if Evident(t, id, role) && !AnyClash(checksums.value, computed) {
      assert !Clashes(checksums.value, computed, id, role);
    }
  }

  datatype Step = CheckStep(tree: Tree) | WriteStep(tree: Tree)

  ghost function After(checksums: Option<Register>, step: Step): Option<Register> {
    match step
    case CheckStep(_) => checksums
    case WriteStep(t) => Recorded(checksums, t)
  }

  ghost function Run(checksums: Option<Register>, steps: seq<Step>): Option<Register>
    decreases |steps|
  {
    if steps == [] then checksums else Run(After(checksums, steps[0]), steps[1..])
  }

  /** At every write of the run that is not refused, that file is there for the digest. */
  ghost predicate EvidenceKept(checksums: Option<Register>, steps: seq<Step>, id: string, role: string)
    decreases |steps|
  {
    steps != [] ==>
      && (steps[0].WriteStep? ==> Refuses(checksums, steps[0].tree) || Evident(steps[0].tree, id, role))
      && EvidenceKept(After(checksums, steps[0]), steps[1..], id, role)
  }

  /** The role has this digest all through the run. */
  ghost predicate Stands(checksums: Option<Register>, steps: seq<Step>, id: string, role: string, sha: string)
    decreases |steps|
  {
    Digest(checksums, id, role, sha) && (steps != [] ==> Stands(After(checksums, steps[0]), steps[1..], id, role, sha))
  }

  /** Over every run of checks and writes without --accept-new, whatever happens to the
      files in between, a recorded digest stands exactly when its file is there at each
      write that is not refused. */
  lemma {:induction false} DigestsStand(checksums: Option<Register>, steps: seq<Step>, id: string, role: string, sha: string)
    requires Digest(checksums, id, role, sha)
    ensures Stands(checksums, steps, id, role, sha) <==> EvidenceKept(checksums, steps, id, role)
    ensures Stands(checksums, steps, id, role, sha) ==> Digest(Run(checksums, steps), id, role, sha)
    decreases |steps|
  {
    if steps != [] {
      var step := steps[0];
      var next := After(checksums, step);
      if step.WriteStep? { WriteKeepsExactly(checksums, step.tree, id, role, sha); }
      if Digest(next, id, role, sha) { DigestsStand(next, steps[1..], id, role, sha); }
    }
  }

  ghost predicate HasDigest(checksums: Option<Register>, id: string, role: string) {
    checksums.Some? && id in checksums.value && role in checksums.value[id]
  }

  /** The role has some digest all through the run. */
  ghost predicate StaysRecorded(checksums: Option<Register>, steps: seq<Step>, id: string, role: string)
    decreases |steps|
  {
    HasDigest(checksums, id, role) && (steps != [] ==> StaysRecorded(After(checksums, steps[0]), steps[1..], id, role))
  }

  /** No run puts another digest in the place of a recorded one: as long as the role has
      a digest at all, it is the one it had. */
  lemma {:induction false} NeverReplaced(checksums: Option<Register>, steps: seq<Step>, id: string, role: string, sha: string)
    requires Digest(checksums, id, role, sha) && StaysRecorded(checksums, steps, id, role)
    ensures Digest(Run(checksums, steps), id, role, sha)
    decreases |steps|
  {
    if steps != [] {
      var next := After(checksums, steps[0]);
      assert HasDigest(next, id, role);
      if steps[0].WriteStep? { EvidentMeans(steps[0].tree, id, role); WriteKeepsExactly(checksums, steps[0].tree, id, role, sha); }
      NeverReplaced(next, steps[1..], id, role, sha);
    }
  }

  /** A check straight after a write that was not refused finds no difference. */
  lemma CheckAfterWrite(checksums: Option<Register>, t: Tree, p: Problem)
    requires !Refuses(checksums, t)
    ensures Recorded(checksums, t).Some? && !Reported(Recorded(checksums, t).value, Computed(t, |t.rows|), p)
  {
    SilentExactly(Recorded(checksums, t).value, Computed(t, |t.rows|));
  }
}
