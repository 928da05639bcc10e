/** What tools/model_fixture_manifest.py records, refuses and reports, told from the rows
    and the files on disk. */
module FixtureContent {
  import opened Prelude
  import opened FixtureRegister

  /** The path of a row's file for a role holds c, which is not empty. */
  predicate FileHolds(t: Tree, k: nat, role: string, c: seq<int>) {
    && k < |t.rows| && role in t.suffixes && c != []
    && t.rows[k].stem + t.suffixes[role] in t.disk && t.disk[t.rows[k].stem + t.suffixes[role]] == c
  }

  /** Row k declares the fixture and has a file for some role; no later row with the same
      id has one. */
  ghost predicate Declares(t: Tree, k: nat, id: string) {
    && k < |t.rows| && t.rows[k].id == id != "" && (exists r, c :: FileHolds(t, k, r, c))
    && forall m: nat, r, c | k < m < |t.rows| && t.rows[m].id == id :: !FileHolds(t, m, r, c)
  }

  /** The content of a fixture's file. */
  ghost predicate Content(t: Tree, id: string, role: string, c: seq<int>) {
    exists k: nat :: Declares(t, k, id) && FileHolds(t, k, role, c)
  }

  /** The fixture has a file. */
  ghost predicate Tracked(t: Tree, id: string) {
    exists role, c :: Content(t, id, role, c)
  }

  lemma HoldsMeans(t: Tree, k: nat, role: string)
    requires k < |t.rows|
    ensures Holds(t, t.rows[k], role) <==> exists c :: FileHolds(t, k, role, c)
    ensures forall c | FileHolds(t, k, role, c) ::
              Holds(t, t.rows[k], role) && EntryOf(t, t.rows[k], role) == Entry(|c|, t.sha(c))
  {
    if Holds(t, t.rows[k], role) { assert FileHolds(t, k, role, t.disk[PathOf(t, t.rows[k], role)]); }
  }

  lemma HasFileHolds(t: Tree, k: nat)
    requires k < |t.rows|
    ensures HasFile(t, t.rows[k]) <==> exists r, c :: FileHolds(t, k, r, c)
  {
    if HasFile(t, t.rows[k]) {
      var r :| r in t.suffixes && Holds(t, t.rows[k], r);
      HoldsMeans(t, k, r);
    }
    if r, c :| FileHolds(t, k, r, c) { HoldsMeans(t, k, r); }
  }

  lemma DeclaresWins(t: Tree, k: nat, id: string)
    ensures Declares(t, k, id) <==> Wins(t, |t.rows|, k, id)
  {
    forall m: nat | m < |t.rows|
      ensures HasFile(t, t.rows[m]) <==> exists r, c :: FileHolds(t, m, r, c)
    {
      HasFileHolds(t, m);
    }
  }

  /** The register that is computed: for each fixture with a file, every such role with
      the size and the digest of what its file holds, and nothing else. */
  lemma ComputedContent(t: Tree, id: string, role: string)
    ensures var computed := Computed(t, |t.rows|);
            && (id in computed <==> Tracked(t, id))
            && (id in computed && role in computed[id] <==> exists c :: Content(t, id, role, c))
            && forall c | Content(t, id, role, c) ::
                 id in computed && role in computed[id] && computed[id][role] == Entry(|c|, t.sha(c))
  {
    var computed := Computed(t, |t.rows|);
    ComputedExactly(t, |t.rows|, id);
    forall k: nat
      ensures Declares(t, k, id) <==> Wins(t, |t.rows|, k, id)
    {
      DeclaresWins(t, k, id);
    }
    if id in computed {
      var k: nat :| Declares(t, k, id);
      assert computed[id] == EntriesOf(t, t.rows[k]);
      var r, c :| FileHolds(t, k, r, c);
      assert Content(t, id, r, c);
      HoldsMeans(t, k, role);
      if role in computed[id] {
        var d :| FileHolds(t, k, role, d);
        assert Content(t, id, role, d);
      }
    }
    forall c | Content(t, id, role, c)
      ensures id in computed && role in computed[id] && computed[id][role] == Entry(|c|, t.sha(c))
    {
      var k: nat :| Declares(t, k, id) && FileHolds(t, k, role, c);
      HoldsMeans(t, k, role);
    }
    if Tracked(t, id) {
      var r, c :| Content(t, id, r, c);
      var k: nat :| Declares(t, k, id) && FileHolds(t, k, r, c);
      assert id in computed;
    }
  }

  // ----- writing

  /** A write is refused exactly when a recorded digest is not that of what the file
      holds now. */
  lemma RefusesExactly(checksums: Option<Register>, t: Tree)
    ensures Refuses(checksums, t) <==>
            exists id, role, sha, c :: Digest(checksums, id, role, sha) && Content(t, id, role, c) && t.sha(c) != sha
  {
    var computed := Computed(t, |t.rows|);
    if Refuses(checksums, t) {
      var id, role :| Clashes(checksums.value, computed, id, role);
      ComputedContent(t, id, role);
      var c :| Content(t, id, role, c);
      assert Digest(checksums, id, role, checksums.value[id][role].sha);
    }
    if id, role, sha, c :| Digest(checksums, id, role, sha) && Content(t, id, role, c) && t.sha(c) != sha {
      ComputedContent(t, id, role);
      assert Clashes(checksums.value, computed, id, role);
    }
  }

  /** After a write that goes through, the register holds the size and the digest of each
      file, and nothing that is not on disk. */
  lemma WrittenContent(checksums: Option<Register>, t: Tree, id: string, role: string)
    requires !Refuses(checksums, t)
    ensures var after := Recorded(checksums, t);
            && after.Some?
            && (id in after.value && role in after.value[id] <==> exists c :: Content(t, id, role, c))
            && forall c | Content(t, id, role, c) ::
                 id in after.value && role in after.value[id] && after.value[id][role] == Entry(|c|, t.sha(c))
  {
    ComputedContent(t, id, role);
  }

  /** A file that changes after its digest was recorded stops the next write, and the
      check reports the mismatch. */
  lemma ChangeIsSeen(checksums: Option<Register>, before: Tree, after: Tree, id: string, role: string, c: seq<int>, d: seq<int>)
    requires !Refuses(checksums, before) && Content(before, id, role, c) && Content(after, id, role, d)
    requires before.sha(c) != after.sha(d)
    ensures var register := Recorded(checksums, before);
            && Refuses(register, after)
            && Reported(register.value, Computed(after, |after.rows|), Mismatch(id, role))
  {
    ComputedContent(before, id, role);
    ComputedContent(after, id, role);
    var register := Recorded(checksums, before);
    assert Clashes(register.value, Computed(after, |after.rows|), id, role);
  }

  // ----- checking

  /** What the check says about the files of a row: exactly those that are missing... */
  lemma AbsentExactly(t: Tree, id: string, role: string)
    ensures Absent(id, role) in FileReports(t) <==>
            exists k :: 0 <= k < |t.rows| && t.rows[k].id == id != "" && role in t.suffixes
              && t.rows[k].stem + t.suffixes[role] !in t.disk
  {
    FilesMean(t);
  }

  /** ... and those that are empty. */
  lemma EmptyExactly(t: Tree, id: string, role: string)
    ensures Empty(id, role) in FileReports(t) <==>
            exists k :: 0 <= k < |t.rows| && t.rows[k].id == id != "" && role in t.suffixes
              && t.rows[k].stem + t.suffixes[role] in t.disk && t.disk[t.rows[k].stem + t.suffixes[role]] == []
  {
    FilesMean(t);
  }

  /** What the check says about a fixture, told from the record and the files. */
  lemma FixtureReported(recorded: Register, t: Tree, id: string)
    ensures var computed := Computed(t, |t.rows|);
            && (Reported(recorded, computed, Missing(id)) <==> id in recorded && !Tracked(t, id))
            && (Reported(recorded, computed, Unrecorded(id)) <==> id !in recorded && Tracked(t, id))
  {
    ComputedContent(t, id, "");
  }

  /** ... and about one of its files. */
  lemma RoleReported(recorded: Register, t: Tree, id: string, role: string)
    requires id in recorded && Tracked(t, id)
    ensures var computed := Computed(t, |t.rows|);
            && (Reported(recorded, computed, RoleUnrecorded(id, role)) <==>
                role !in recorded[id] && exists c :: Content(t, id, role, c))
            && (Reported(recorded, computed, RoleMissing(id, role)) <==>
                role in recorded[id] && forall c :: !Content(t, id, role, c))
            && (Reported(recorded, computed, Mismatch(id, role)) <==>
                role in recorded[id] && exists c :: Content(t, id, role, c) && t.sha(c) != recorded[id][role].sha)
            && (Reported(recorded, computed, SizeChanged(id, role)) <==>
                role in recorded[id]
                && exists c :: Content(t, id, role, c) && t.sha(c) == recorded[id][role].sha && |c| != recorded[id][role].size)
  {
    ComputedContent(t, id, role);
  }
}
