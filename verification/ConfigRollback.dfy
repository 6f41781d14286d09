/** Rollback after an import: it goes back to the latest copy, and undoes whatever the import could not
    spoil for it. */
module ConfigRollback {
  import opened Options
  import opened ConfigFiles
  import opened ConfigTravel
  import ConfigDir

  /** What rollback promises: the files that were there, apart from the live ones and those in older
      copies, and the settings that were not. */
  predicate Concerns(before: Files, p: Path) {
    (p in before && !InOldCopy(p) && !KeptLive(p)) || Removable(p)
  }

  ghost predicate Undone(before: Files, latest: string, after: Files) {
    forall p | p != [] && p[0] != latest && Concerns(before, p) :: At(after, p) == At(before, p)
  }

  lemma RemovablePaths(p: Path)
    requires Removable(p)
    ensures !KeptLive(p) && !InOldCopy(p)
  {}

  /** What the copy holds of a file. */
  lemma CopyHolds(before: Files, snap: string, copied: Files, p: Path)
    requires Fresh(before, snap) && IsCopy(before, snap, copied) && p != [] && p[0] != snap
    ensures At(copied, [snap] + p) == if InOldCopy(p) then None else At(before, p)
    ensures HasPrefix(snap, PRE_IMPORT) ==> Plain(copied, snap, p)
  {
    assert At(copied, [snap] + p) == CopiedAt(before, snap, [snap] + p) && ([snap] + p)[1..] == p;
    forall f | f in copied && HasPrefix(snap, PRE_IMPORT) ensures !IsNestedOf(snap, f, p) {
      assert At(copied, f) == CopiedAt(before, snap, f);
    }
  }

  /** After a copy, any change, and the restoration of that copy: where the change has left the copy of `p`
      alone and nested nothing for it, a file that was there before has its old content, unless it is one of
      the live files kept on purpose or inside an older copy; a setting that was not there is gone; and
      everything else is as the change left it. */
  lemma RollbackUndoes(before: Files, snap: string, copied: Files, changed: Files, after: Files, p: Path)
    requires Fresh(before, snap) && IsCopy(before, snap, copied) && IsRestored(changed, snap, after)
    requires Plain(changed, snap, p) && At(changed, [snap] + p) == At(copied, [snap] + p)
    ensures Concerns(before, p) ==> At(after, p) == At(before, p)
    ensures !Concerns(before, p) ==> At(after, p) == At(changed, p)
  {
    CopyHolds(before, snap, copied, p);
    assert At(after, p) == RestoredAt(changed, snap, p);
    if Removable(p) { RemovablePaths(p); }
  }

  // ---- what an import touches ----

  /** The file of this name, or the temporary file that is written first, is at `u`. */
  predicate LeadsTo(dir: Path, raw: Path, u: Path) {
    && !IsSdn(raw) && Target(dir, raw).Some? && Target(dir, raw).value != []
    && (u == Target(dir, raw).value || u == Tmp(Target(dir, raw).value))
  }

  /** Importing a file of this name may change what is at `u`. */
  predicate Touches(dir: Path, raw: Path, u: Path) {
    LeadsTo(dir, raw, u) || (IsSdn(raw) && u in SDN_IMPORTED)
  }

  /** What an import leaves behind, complete, stopped after some file, or broken off in the middle of one. */
  ghost predicate ImportLeaves(
    dir: Path, backup: Files, withCerts: bool, order: seq<Path>, run: seq<Files>, changed: Files) {
    && ImportRun(dir, backup, withCerts, order, run) && ImportOrder(backup, order)
    && (changed == run[|order|] || exists raw ::
          IsNextFile(backup, order, raw) && BrokenOff(dir, raw, run[|order|], changed))
  }

  /** The import can write a file of this name; it refuses the others. */
  predicate Writable(dir: Path, raw: Path) {
    IsSdn(raw) || (Target(dir, raw).Some? && Target(dir, raw).value != [])
  }

  /** The import may get to the file: it is a key file, or no key file is refused. */
  predicate Reached(dir: Path, names: set<Path>, raw: Path) {
    raw in names && (IsKey(raw) || forall n | n in names && IsKey(n) :: Writable(dir, n))
  }

  lemma WrittenIsWritable(
    dir: Path, backup: Files, withCerts: bool, order: seq<Path>, run: seq<Files>, j: nat)
    requires ImportRun(dir, backup, withCerts, order, run) && j < |order|
    ensures Writable(dir, order[j])
  {
    assert WriteStep(dir, run[j], order[j], backup[order[j]], withCerts, run[j + 1]);
  }

  lemma OrderIsReached(dir: Path, backup: Files, withCerts: bool, order: seq<Path>, run: seq<Files>, i: nat)
    requires ImportRun(dir, backup, withCerts, order, run) && ImportOrder(backup, order) && i < |order|
    ensures Reached(dir, backup.Keys, order[i])
  {
    if !IsKey(order[i]) {
      assert KeysDone(backup, order, i);
      forall n | n in backup && IsKey(n) ensures Writable(dir, n) {
        assert Written(order, i, n);
        var j :| 0 <= j < i && order[j] == n;
        WrittenIsWritable(dir, backup, withCerts, order, run, j);
      }
    }
  }

  lemma NextIsReached(dir: Path, backup: Files, withCerts: bool, order: seq<Path>, run: seq<Files>, raw: Path)
    requires ImportRun(dir, backup, withCerts, order, run) && IsNextFile(backup, order, raw)
    ensures Reached(dir, backup.Keys, raw)
  {
    if !IsKey(raw) {
      forall n | n in backup && IsKey(n) ensures Writable(dir, n) {
        var j :| 0 <= j < |order| && order[j] == n;
        WrittenIsWritable(dir, backup, withCerts, order, run, j);
      }
    }
  }

  lemma {:induction false} RunUntouched(
    dir: Path, backup: Files, withCerts: bool, order: seq<Path>, run: seq<Files>, k: nat, u: Path)
    requires ImportRun(dir, backup, withCerts, order, run) && ImportOrder(backup, order) && k <= |order|
    requires forall n | Reached(dir, backup.Keys, n) :: !Touches(dir, n, u)
    ensures At(run[k], u) == At(run[0], u)
    decreases k
  {
    if k > 0 {
      RunUntouched(dir, backup, withCerts, order, run, k - 1, u);
      OrderIsReached(dir, backup, withCerts, order, run, k - 1);
      assert !Touches(dir, order[k - 1], u);
      assert WriteStep(dir, run[k - 1], order[k - 1], backup[order[k - 1]], withCerts, run[k - 1 + 1]);
    }
  }

  /** However an import ends, it leaves alone what none of the names it may get to leads to. */
  lemma ImportUntouched(
    dir: Path, backup: Files, withCerts: bool, order: seq<Path>, run: seq<Files>, changed: Files, u: Path)
    requires ImportLeaves(dir, backup, withCerts, order, run, changed)
    requires forall n | Reached(dir, backup.Keys, n) :: !Touches(dir, n, u)
    ensures At(changed, u) == At(run[0], u)
  {
    RunUntouched(dir, backup, withCerts, order, run, |order|, u);
    if changed != run[|order|] {
      var raw :| IsNextFile(backup, order, raw) && BrokenOff(dir, raw, run[|order|], changed);
      NextIsReached(dir, backup, withCerts, order, run, raw);
      assert !Touches(dir, raw, u);
    }
  }

  lemma NotSdn(p: Path)
    requires p != [] && HasPrefix(p[0], PRE_IMPORT)
    ensures p !in SDN_IMPORTED
  {}

  // ---- names in copies ----

  /** A write to `u` falls in the copy, on a file rollback is to put back or a setting it is to remove. */
  predicate Lands(before: Files, latest: string, u: Path) {
    |u| > 1 && u[0] == latest && Strip(latest, u) != [] && Concerns(before, Strip(latest, u))
  }

  /** The name, or the temporary one, leads there. */
  predicate Hits(dir: Path, before: Files, latest: string, raw: Path) {
    && !IsSdn(raw) && Target(dir, raw).Some? && Target(dir, raw).value != []
    && (Lands(before, latest, Target(dir, raw).value) || Lands(before, latest, Tmp(Target(dir, raw).value)))
  }

  predicate IsLater(latest: string, u: Path) {
    InCopy(u) && Less(latest, u[0])
  }

  /** The name leads to a directory that rollback takes for a later copy. */
  predicate Supersedes(dir: Path, latest: string, raw: Path) {
    !IsSdn(raw) && Target(dir, raw).Some? && IsLater(latest, Target(dir, raw).value)
  }

  // ---- import and rollback ----

  /** The copy has what was there; or it has nothing, rollback leaves the file alone, and so does every name. */
  ghost predicate Restorable(dir: Path, before: Files, copied: Files, latest: string, names: set<Path>, p: Path) {
    || At(copied, [latest] + p) == At(before, p)
    || ([latest] + p !in copied && !Removable(p) && forall n | Reached(dir, names, n) :: !Touches(dir, n, p))
  }

  /** No name spoils the latest copy or makes a later one, and it can restore everything rollback promises. */
  ghost predicate Undoable(dir: Path, before: Files, copied: Files, latest: string, names: set<Path>) {
    && (forall n | Reached(dir, names, n) :: !Supersedes(dir, latest, n) && !Hits(dir, before, latest, n))
    && forall p | p != [] && p[0] != latest && Concerns(before, p) :: Restorable(dir, before, copied, latest, names, p)
  }

  /** No copy has a copy of its own name inside. */
  predicate IsNested(f: Path) {
    InCopy(f) && f[1] == f[0]
  }

  ghost predicate NothingNested(fs: Files) {
    forall f | f in fs :: !IsNested(f)
  }

  lemma NothingNestedIsPlain(fs: Files, latest: string, p: Path)
    requires NothingNested(fs) && HasPrefix(latest, PRE_IMPORT) && p != [] && p[0] != latest
    ensures Plain(fs, latest, p)
  {}

  lemma CopyNestsNothing(before: Files, snap: string, copied: Files)
    requires HasPrefix(snap, PRE_IMPORT) && Fresh(before, snap) && IsCopy(before, snap, copied) && NothingNested(before)
    ensures NothingNested(copied)
  {
    forall f | f in copied ensures !IsNested(f) {
      assert At(copied, f) == CopiedAt(before, snap, f);
    }
  }

  /** The copy stays the latest while a file of it stays and no name makes a later one. */
  lemma StaysLatest(
    dir: Path, backup: Files, withCerts: bool, order: seq<Path>, run: seq<Files>, changed: Files, latest: string)
    requires ImportLeaves(dir, backup, withCerts, order, run, changed) && IsLatest(run[0], latest)
    requires forall n | Reached(dir, backup.Keys, n) :: !Supersedes(dir, latest, n)
    requires HasCopy(changed, latest)
    ensures IsLatest(changed, latest)
  {
    forall f | f in changed && InCopy(f) ensures !Less(latest, f[0]) {
      if IsLater(latest, f) {
        NotSdn(f);
        ImportUntouched(dir, backup, withCerts, order, run, changed, f);
      }
    }
  }

  lemma StripOfCopy(latest: string, p: Path)
    requires p != [] && p[0] != latest
    ensures Strip(latest, [latest] + p) == p && ([latest] + p)[1..] == p
  {
    assert ([latest] + p)[1..] == p;
  }

  /** What rollback takes from the copy is untouched. */
  lemma CopyUntouched(
    dir: Path, before: Files, backup: Files, withCerts: bool, order: seq<Path>, run: seq<Files>, changed: Files,
    latest: string, p: Path)
    requires ImportLeaves(dir, backup, withCerts, order, run, changed) && HasPrefix(latest, PRE_IMPORT)
    requires forall n | Reached(dir, backup.Keys, n) :: !Hits(dir, before, latest, n)
    requires Concerns(before, p) && Plain(run[0], latest, p)
    ensures At(changed, [latest] + p) == At(run[0], [latest] + p) && Plain(changed, latest, p)
  {
    StripOfCopy(latest, p);
    NotSdn([latest] + p);
    ImportUntouched(dir, backup, withCerts, order, run, changed, [latest] + p);
    forall f | f in changed ensures !IsNestedOf(latest, f, p) {
      if IsNestedOf(latest, f, p) {
        NotSdn(f);
        ImportUntouched(dir, backup, withCerts, order, run, changed, f);
      }
    }
  }

  /** Then the copy is still the latest after the import. */
  lemma LatestAfterImport(
    dir: Path, before: Files, backup: Files, withCerts: bool, order: seq<Path>, run: seq<Files>, changed: Files,
    latest: string)
    requires ImportLeaves(dir, backup, withCerts, order, run, changed) && IsLatest(run[0], latest)
    requires NothingNested(run[0]) && [latest] + ["config.json"] in run[0]
    requires forall n | Reached(dir, backup.Keys, n) :: !Supersedes(dir, latest, n) && !Hits(dir, before, latest, n)
    ensures IsLatest(changed, latest)
  {
    NothingNestedIsPlain(run[0], latest, ["config.json"]);
    CopyUntouched(dir, before, backup, withCerts, order, run, changed, latest, ["config.json"]);
    assert InCopy([latest] + ["config.json"]) && ([latest] + ["config.json"])[0] == latest;
    assert At(changed, [latest] + ["config.json"]) == At(run[0], [latest] + ["config.json"]);
    StaysLatest(dir, backup, withCerts, order, run, changed, latest);
  }

  lemma RestoresOne(
    dir: Path, before: Files, snap: string, backup: Files, withCerts: bool, order: seq<Path>, run: seq<Files>,
    changed: Files, latest: string, after: Files, p: Path)
    requires ImportLeaves(dir, backup, withCerts, order, run, changed) && IsCopy(before, snap, run[0])
    requires HasPrefix(latest, PRE_IMPORT) && NothingNested(run[0]) && IsRestored(changed, latest, after)
    requires forall n | Reached(dir, backup.Keys, n) :: !Hits(dir, before, latest, n)
    requires p != [] && p[0] != latest && Concerns(before, p) && !(|p| > 1 && p[0] == snap)
    requires Restorable(dir, before, run[0], latest, backup.Keys, p)
    ensures At(after, p) == At(before, p)
  {
    NothingNestedIsPlain(run[0], latest, p);
    CopyUntouched(dir, before, backup, withCerts, order, run, changed, latest, p);
    assert At(after, p) == RestoredAt(changed, latest, p);
    if Removable(p) { RemovablePaths(p); }
    if [latest] + p !in run[0] && !Removable(p) && At(run[0], [latest] + p) != At(before, p) {
      ImportUntouched(dir, backup, withCerts, order, run, changed, p);
      assert At(run[0], p) == CopiedAt(before, snap, p);
    }
  }

  /** The settings before an import: config.json is there, and no copy is nested in another of its name. */
  ghost predicate Usual(before: Files) {
    ["config.json"] in before && NothingNested(before)
  }

  /** Rollback goes back to the latest copy and undoes the import if no name spoils that. */
  lemma UndoableUndoes(
    dir: Path, before: Files, snap: string, backup: Files, withCerts: bool, order: seq<Path>, run: seq<Files>,
    changed: Files, latest: string, after: Files)
    requires HasPrefix(snap, PRE_IMPORT) && Fresh(before, snap) && Usual(before)
    requires ImportLeaves(dir, backup, withCerts, order, run, changed) && IsCopy(before, snap, run[0])
    requires IsLatest(run[0], latest) && Undoable(dir, before, run[0], latest, backup.Keys)
    requires IsRolledBack(changed, after)
    ensures Undone(before, latest, after)
  {
    CopyNestsNothing(before, snap, run[0]);
    assert Restorable(dir, before, run[0], latest, backup.Keys, ["config.json"]);
    LatestAfterImport(dir, before, backup, withCerts, order, run, changed, latest);
    var name :| IsLatest(changed, name) && IsRestored(changed, name, after);
    LatestIsUnique(changed, name, latest);
    forall p | p != [] && p[0] != latest && Concerns(before, p) ensures At(after, p) == At(before, p) {
      if |p| > 1 && p[0] == snap { assert p !in SDN_IMPORTED by { NotSdn(p); } }
      RestoresOne(dir, before, snap, backup, withCerts, order, run, changed, latest, after, p);
    }
  }

  // ---- without a later copy ----

  /** No copy made earlier has a later name. */
  ghost predicate NoLaterCopy(before: Files, snap: string) {
    forall f | f in before && InCopy(f) :: !Less(snap, f[0])
  }

  /** Then rollback goes back to the copy just made, and only the names of the backup matter. */
  lemma FreshIsLatest(dir: Path, before: Files, snap: string, copied: Files, names: set<Path>)
    requires HasPrefix(snap, PRE_IMPORT) && Fresh(before, snap) && Usual(before) && NoLaterCopy(before, snap)
    requires IsCopy(before, snap, copied)
    ensures IsLatest(copied, snap)
    ensures Undoable(dir, before, copied, snap, names)
      <==> forall n | Reached(dir, names, n) :: !Supersedes(dir, snap, n) && !Hits(dir, before, snap, n)
  {
    var f := [snap] + ["config.json"];
    CopyHolds(before, snap, copied, ["config.json"]);
    assert f in copied && InCopy(f) && f[0] == snap;
    LessIsIrreflexive(snap);
    forall f | f in copied && InCopy(f) ensures !Less(snap, f[0]) {
      assert At(copied, f) == CopiedAt(before, snap, f);
    }
    forall p | p != [] && p[0] != snap && Concerns(before, p) ensures Restorable(dir, before, copied, snap, names, p) {
      CopyHolds(before, snap, copied, p);
      if Removable(p) { RemovablePaths(p); }
    }
  }

  /** A backup made by an export hits no copy and makes none. */
  lemma ExportHitsNothing(dir: Path, before: Files, latest: string, source: Files, opts: ExportOptions, backup: Files)
    requires Proper(dir) && ProperNames(source) && IsExport(source, opts, backup) && HasPrefix(latest, PRE_IMPORT)
    ensures forall raw | raw in backup :: !Hits(dir, before, latest, raw) && !Supersedes(dir, latest, raw)
  {
    forall raw | raw in backup ensures !Hits(dir, before, latest, raw) && !Supersedes(dir, latest, raw) {
      assert At(backup, raw) == if Exported(raw, opts) then At(source, raw) else None;
      TargetIsInside(dir, raw);
      if |raw| > 1 { assert !SkipsDir(raw, 0, opts); }
    }
  }

  /** A backup that names a file in the copy decides what rollback puts back: for one, a file
      `.pre-import-.../users.json` becomes users.json. */
  lemma BackupOverwritesCopy(
    dir: Path, before: Files, snap: string, copied: Files, q: Path, content: Content, withCerts: bool, changed: Files,
    after: Files)
    requires Proper(dir) && Proper([snap] + q) && HasPrefix(snap, PRE_IMPORT) && q != [] && q[0] != snap
      && Concerns(before, q)
    requires Fresh(before, snap) && IsCopy(before, snap, copied)
    requires WriteStep(dir, copied, [snap] + q, content, withCerts, changed) && IsRestored(changed, snap, after)
    ensures Hits(dir, before, snap, [snap] + q) && At(after, q) == Some(content)
  {
    TargetIsInside(dir, [snap] + q);
    assert ([snap] + q)[1..] == q && Strip(snap, [snap] + q) == q;
    CopyHolds(before, snap, copied, q);
    assert !HasPrefix("sdn", PRE_IMPORT) && !HasPrefix("sdn-history", PRE_IMPORT)
      && !HasPrefix("config.json", PRE_IMPORT);
    if Removable(q) { RemovablePaths(q); }
    forall f | f in changed ensures !IsNestedOf(snap, f, q) {
      if f != [snap] + q { assert At(changed, f) == At(copied, f) || f !in changed; }
    }
  }

  // ---- the program's own sequence ----

  /** copyDir as a function. */
  function CopyOf(fs: Files, snap: string): Files {
    map p | p in fs.Keys + (set q | q in fs :: [snap] + q) && CopiedAt(fs, snap, p).Some? :: CopiedAt(fs, snap, p).value
  }

  lemma CopyOfIsCopy(fs: Files, snap: string, copied: Files)
    ensures IsCopy(fs, snap, copied) <==> copied == CopyOf(fs, snap)
  {
    forall p ensures At(CopyOf(fs, snap), p) == CopiedAt(fs, snap, p) {
      if |p| > 1 && p[0] == snap { assert p == [snap] + p[1..]; }
    }
    if IsCopy(fs, snap, copied) {
      forall p ensures At(copied, p) == At(CopyOf(fs, snap), p) { assert At(copied, p) == CopiedAt(fs, snap, p); }
      SameAt(copied, CopyOf(fs, snap));
    }
  }

  lemma SameAt(x: Files, y: Files)
    requires forall p :: At(x, p) == At(y, p)
    ensures x == y
  {
    assert forall p :: p in x <==> At(x, p).Some?;
    assert forall p :: p in y <==> At(y, p).Some?;
    forall p | p in x ensures p in y && x[p] == y[p] { assert At(x, p) == At(y, p); }
    forall p | p in y ensures p in x { assert At(x, p) == At(y, p); }
  }

  /** Copy, import and rollback, as the program does them. Rollback undoes the import, whether that ended or
      broke off, where the latest copy can restore everything and no name of the backup spoils that. */
  method ImportAndRollBack(c: ConfigDir.ConfigDir, snap: string, backup: Files, withCerts: bool) returns (ok: bool)
    requires HasPrefix(snap, PRE_IMPORT) && Fresh(c.files, snap) && Usual(c.files)
    modifies c
    ensures ok ==> forall latest | IsLatest(CopyOf(old(c.files), snap), latest)
        && Undoable(c.dir, old(c.files), CopyOf(old(c.files), snap), latest, backup.Keys) ::
      Undone(old(c.files), latest, c.files)
  {
    ghost var before := c.files;
    ok := c.CopyDir(snap);
    if !ok {
      return;
    }
    CopyOfIsCopy(before, snap, c.files);
    var imported; ghost var order, run;
    imported, order, run := c.WriteConfigFiles(backup, withCerts);
    ghost var changed := c.files;
    assert ImportLeaves(c.dir, backup, withCerts, order, run, changed);
    var name := c.LatestCopy();
    if name == "" {
      return false;
    }
    ok := c.RestoreSnapshot(name);
    if ok {
      assert IsRolledBack(changed, c.files);
      forall latest | IsLatest(run[0], latest) && Undoable(c.dir, before, run[0], latest, backup.Keys)
        ensures Undone(before, latest, c.files)
      {
        UndoableUndoes(c.dir, before, snap, backup, withCerts, order, run, changed, latest, c.files);
      }
    }
  }
}
