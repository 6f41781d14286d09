/** When rollback undoes every import of files with given names: if and only if the latest copy can restore
    everything and none of the names spoils that. */
module ConfigOverwrite {
  import opened Options
  import opened ConfigFiles
  import opened ConfigTravel
  import opened ConfigRollback
  import ConfigDir

  /** restoreSnapshot as a function. */
  function RestoreOf(fs: Files, snap: string): Files {
    map p | p in fs.Keys + (set q | q in fs && q != [] :: q[1..])
      && RestoredAt(fs, snap, p).Some? :: RestoredAt(fs, snap, p).value
  }

  lemma RestoreOfIsRestored(fs: Files, snap: string)
    ensures IsRestored(fs, snap, RestoreOf(fs, snap))
  {
    forall p ensures At(RestoreOf(fs, snap), p) == RestoredAt(fs, snap, p) {
      assert ([snap] + p)[1..] == p;
    }
  }

  lemma {:induction false} ObjectsRun(
    dir: Path, fs: Files, backup: Files, withCerts: bool, order: seq<Path>) returns (run: seq<Files>)
    requires (forall raw | raw in backup :: backup[raw].Object?) && forall raw | raw in order :: Writable(dir, raw)
    requires Named(backup, order)
    ensures ImportRun(dir, backup, withCerts, order, run) && run[0] == fs
    decreases |order|
  {
    if order == [] {
      run := [fs];
    } else {
      var n := |order| - 1;
      var raw := order[n];
      assert raw in order;
      var front := ObjectsRun(dir, fs, backup, withCerts, order[..n]);
      var last := front[n];
      if raw == ["sdn", "config.json"] {
        last := Drafted(front[n], backup[raw]);
      } else if !IsSdn(raw) {
        var merge := MergeOf(At(front[n], ["config.json"]), backup[raw], withCerts);
        var data := if raw == ["config.json"] then merge.content else backup[raw];
        assert DataFor(front[n], raw, backup[raw], withCerts, data);
        last := Placed(front[n], Target(dir, raw).value, data);
      }
      assert WriteStep(dir, front[n], raw, backup[raw], withCerts, last);
      run := front + [last];
      Extended(dir, backup, withCerts, order, front, last);
    }
  }

  /** The key files, if they have to come before `raw`. */
  lemma KeysBeforeFile(dir: Path, backup: Files, raw: Path) returns (order: seq<Path>)
    requires Reached(dir, backup.Keys, raw)
    ensures ImportOrder(backup, order) && Named(backup, order) && IsNextFile(backup, order, raw)
    ensures forall n | n in order :: Writable(dir, n)
  {
    if IsKey(raw) {
      order := [];
    } else {
      order := Listing(set n | n in backup && IsKey(n));
      assert forall i | 0 <= i < |order| :: order[i] in order;
    }
  }

  lemma ConfigJsonTarget(dir: Path)
    ensures Target(dir, ["config.json"]) == Some(["config.json"])
  {
    assert CleanInto(dir, ["config.json"]) == dir + ["config.json"];
  }

  /** An import of files with these names, all with content `c`, that leaves it at `u`. */
  lemma Overwrites(dir: Path, copied: Files, backup: Files, raw: Path, u: Path, c: Content)
    returns (order: seq<Path>, run: seq<Files>, changed: Files)
    requires c.Object? && forall n | n in backup :: backup[n] == c
    requires Reached(dir, backup.Keys, raw) && LeadsTo(dir, raw, u) && u != ["config.json"]
    ensures ImportLeaves(dir, backup, false, order, run, changed) && run[0] == copied && At(changed, u) == Some(c)
    ensures changed == run[|order|] || changed == run[|order|][u := c]
  {
    order := KeysBeforeFile(dir, backup, raw);
    run := ObjectsRun(dir, copied, backup, false, order);
    var t := Target(dir, raw).value;
    var last := run[|order|];
    if t == u {
      ConfigJsonTarget(dir);
      changed := Placed(last, t, c);
      assert DataFor(last, raw, c, false, c);
      ConfigDir.GrowOrder(backup, order, raw);
      ConfigDir.GrowRun(dir, backup, false, order, run, raw, changed);
      order, run := order + [raw], run + [changed];
    } else {
      changed := last[Tmp(t) := c];
      assert BrokenOff(dir, raw, last, changed);
    }
  }

  /** The name leads into a copy that is inside another of its name. */
  predicate Nests(dir: Path, raw: Path) {
    && !IsSdn(raw) && Target(dir, raw).Some? && Target(dir, raw).value != []
    && (IsNested(Target(dir, raw).value) || IsNested(Tmp(Target(dir, raw).value)))
  }

  lemma ImportNestsNothing(
    dir: Path, backup: Files, withCerts: bool, order: seq<Path>, run: seq<Files>, changed: Files)
    requires ImportLeaves(dir, backup, withCerts, order, run, changed)
    requires NothingNested(run[0]) && forall n | Reached(dir, backup.Keys, n) :: !Nests(dir, n)
    ensures NothingNested(changed)
  {
    forall f | f in changed ensures !IsNested(f) {
      if IsNested(f) {
        NotSdn(f);
        ImportUntouched(dir, backup, withCerts, order, run, changed, f);
      }
    }
  }

  // ---- imports that rollback does not undo ----

  /** An import of files with these names leads from the copied settings to `changed`. */
  ghost predicate MayLeave(dir: Path, copied: Files, names: set<Path>, changed: Files) {
    exists backup: Files, withCerts: bool, order: seq<Path>, run: seq<Files> ::
      backup.Keys == names && ImportLeaves(dir, backup, withCerts, order, run, changed) && run[0] == copied
  }

  ghost predicate AlwaysUndone(dir: Path, before: Files, copied: Files, latest: string, names: set<Path>) {
    forall changed, after | MayLeave(dir, copied, names, changed) && IsRolledBack(changed, after) ::
      Undone(before, latest, after)
  }

  /** A file that rollback to the copy at hand gets wrong. */
  lemma OneIsWrong(
    dir: Path, before: Files, copied: Files, latest: string, names: set<Path>, changed: Files, name: string, p: Path)
    requires MayLeave(dir, copied, names, changed) && IsLatest(changed, name) && Plain(changed, name, p)
    requires p[0] != latest && Concerns(before, p) && RestoredAt(changed, name, p) != At(before, p)
    ensures !AlwaysUndone(dir, before, copied, latest, names)
  {
    var after := RestoreOf(changed, name);
    RestoreOfIsRestored(changed, name);
    assert IsRolledBack(changed, after);
    assert At(after, p) == RestoredAt(changed, name, p);
  }

  /** A content that differs from what was there. */
  function OtherThan(was: Option<Content>): (c: Content)
    ensures c.Object? && Some(c) != was
  {
    assert "x" in map["x" := ""];
    if was == Some(Object(map[])) then Object(map["x" := ""]) else Object(map[])
  }

  function Filled(names: set<Path>, c: Content): Files {
    map n | n in names :: c
  }

  /** What was there is not in the copy, and rollback puts something else there or removes it. */
  lemma UnheldFails(
    dir: Path, before: Files, copied: Files, latest: string, names: set<Path>, p: Path)
    requires HasPrefix(latest, PRE_IMPORT) && NothingNested(copied) && IsLatest(copied, latest)
    requires p != [] && p[0] != latest && Concerns(before, p) && At(copied, [latest] + p) != At(before, p)
    requires [latest] + p in copied || Removable(p)
    ensures !AlwaysUndone(dir, before, copied, latest, names)
  {
    var backup := Filled(names, Null);
    assert ImportLeaves(dir, backup, false, [], [copied], copied);
    assert MayLeave(dir, copied, names, copied);
    NothingNestedIsPlain(copied, latest, p);
    if Removable(p) { RemovablePaths(p); }
    OneIsWrong(dir, before, copied, latest, names, copied, latest, p);
  }

  lemma HitLeads(dir: Path, before: Files, latest: string, raw: Path) returns (q: Path)
    requires Hits(dir, before, latest, raw) && !Nests(dir, raw) && HasPrefix(latest, PRE_IMPORT)
    ensures q != [] && q[0] != latest && Concerns(before, q) && LeadsTo(dir, raw, [latest] + q)
  {
    var t := Target(dir, raw).value;
    var u := if Lands(before, latest, t) then t else Tmp(t);
    q := u[1..];
    assert u == [latest] + q && Strip(latest, u) == Strip(latest, q);
    assert q[0] != latest && Strip(latest, q) == q;
  }

  /** A name that hits the latest copy. */
  lemma HitFails(dir: Path, before: Files, copied: Files, latest: string, names: set<Path>, raw: Path)
    requires NothingNested(copied) && IsLatest(copied, latest)
    requires forall n | Reached(dir, names, n) :: !Nests(dir, n) && !Supersedes(dir, latest, n)
    requires Reached(dir, names, raw) && Hits(dir, before, latest, raw)
    ensures !AlwaysUndone(dir, before, copied, latest, names)
  {
    var q := HitLeads(dir, before, latest, raw);
    var u := [latest] + q;
    var c := OtherThan(At(before, q));
    var backup := Filled(names, c);
    var order, run, changed := Overwrites(dir, copied, backup, raw, u, c);
    assert MayLeave(dir, copied, names, changed);
    ImportNestsNothing(dir, backup, false, order, run, changed);
    assert u in changed && InCopy(u) && u[0] == latest;
    StaysLatest(dir, backup, false, order, run, changed, latest);
    NothingNestedIsPlain(changed, latest, q);
    if Removable(q) { RemovablePaths(q); }
    OneIsWrong(dir, before, copied, latest, names, changed, latest, q);
  }

  /** A name that leads to a file which rollback leaves alone because the latest copy does not have it. */
  lemma UnlistedFails(
    dir: Path, before: Files, copied: Files, latest: string, names: set<Path>, raw: Path, p: Path)
    requires NothingNested(copied) && IsLatest(copied, latest) && [latest] + ["config.json"] in copied
    requires forall n | Reached(dir, names, n) ::
      !Nests(dir, n) && !Supersedes(dir, latest, n) && !Hits(dir, before, latest, n)
    requires p != [] && p[0] != latest && Concerns(before, p) && [latest] + p !in copied && !Removable(p)
    requires Reached(dir, names, raw) && Touches(dir, raw, p)
    ensures !AlwaysUndone(dir, before, copied, latest, names)
  {
    var c := OtherThan(At(before, p));
    var backup := Filled(names, c);
    var order, run, changed := Overwrites(dir, copied, backup, raw, p, c);
    assert MayLeave(dir, copied, names, changed);
    LatestAfterImport(dir, before, backup, false, order, run, changed, latest);
    NothingNestedIsPlain(copied, latest, p);
    CopyUntouched(dir, before, backup, false, order, run, changed, latest, p);
    assert At(changed, [latest] + p) == At(copied, [latest] + p);
    OneIsWrong(dir, before, copied, latest, names, changed, latest, p);
  }

  // ---- a name that makes a later copy ----

  /** All files in later copies are the backup's. */
  ghost predicate LaterFilled(fs: Files, latest: string, c: Content) {
    forall f | f in fs && IsLater(latest, f) :: fs[f] == c
  }

  lemma {:induction false} RunFills(
    dir: Path, backup: Files, order: seq<Path>, run: seq<Files>, latest: string, c: Content, k: nat)
    requires ImportRun(dir, backup, false, order, run) && k <= |order| && LaterFilled(run[0], latest, c)
    requires forall n | n in backup :: backup[n] == c
    ensures LaterFilled(run[k], latest, c)
    decreases k
  {
    if k > 0 {
      RunFills(dir, backup, order, run, latest, c, k - 1);
      assert order[k - 1] in backup;
      StepFills(dir, run[k - 1], order[k - 1], c, run[k - 1 + 1], latest);
    }
  }

  lemma StepFills(dir: Path, fs: Files, raw: Path, c: Content, fs': Files, latest: string)
    requires WriteStep(dir, fs, raw, c, false, fs') && LaterFilled(fs, latest, c)
    ensures LaterFilled(fs', latest, c)
  {
    ConfigJsonTarget(dir);
    forall f | f in fs' && IsLater(latest, f) ensures fs'[f] == c {
      NotSdn(f);
      assert At(fs', f) == Some(fs'[f]);
      if At(fs', f) == At(fs, f) { assert f in fs; }
    }
  }

  lemma {:induction false} GreatestExists(names: set<string>) returns (latest: string)
    requires "" !in names
    ensures ConfigDir.IsGreatest(names, latest)
    decreases names
  {
    if names == {} {
      latest := "";
    } else {
      var n :| n in names;
      latest := GreatestExists(names - {n});
      ConfigDir.StillGreatest(names - {n}, latest, n);
      assert names - {n} + {n} == names;
      latest := if Less(latest, n) then n else latest;
    }
  }

  lemma SupersedeFails(dir: Path, before: Files, copied: Files, latest: string, names: set<Path>, raw: Path)
    requires NothingNested(copied) && IsLatest(copied, latest) && ["config.json"] in before
    requires forall n | Reached(dir, names, n) :: !Nests(dir, n)
    requires Reached(dir, names, raw) && Supersedes(dir, latest, raw)
    ensures !AlwaysUndone(dir, before, copied, latest, names)
  {
    var u := Target(dir, raw).value;
    var p := ["config.json"];
    var c := OtherThan(At(before, p));
    var backup := Filled(names, c);
    var order, run, changed := Overwrites(dir, copied, backup, raw, u, c);
    assert MayLeave(dir, copied, names, changed);
    ImportNestsNothing(dir, backup, false, order, run, changed);
    RunFills(dir, backup, order, run, latest, c, |order|);
    var name := LaterIsTaken(changed, latest, u);
    NothingNestedIsPlain(changed, name, p);
    assert InCopy([name] + p) && ([name] + p)[0] == name;
    LessIsIrreflexive(latest);
    OneIsWrong(dir, before, copied, latest, names, changed, name, p);
  }

  lemma LaterIsTaken(fs: Files, latest: string, u: Path) returns (name: string)
    requires u in fs && IsLater(latest, u)
    ensures IsLatest(fs, name) && Less(latest, name)
  {
    name := GreatestExists(ConfigDir.CopyNames(fs));
    assert u[0] in ConfigDir.CopyNames(fs);
    ConfigDir.GreatestIsLatest(fs, name);
    LessIsTotal(name, u[0]);
    if Less(u[0], name) { LessIsTransitive(latest, u[0], name); }
  }

  // ---- if and only if ----

  /** Whatever the files hold, in whatever order they are taken and wherever the import stops, rollback goes
      back to the latest copy and undoes it, if and only if that copy holds what was there, or nothing for a
      file that rollback and every name leave alone, and no name leads, itself or by its temporary file, to
      a later copy or to a file of this one that rollback is to put back or a setting it is to remove. */
  lemma RollbackUndoesIff(
    dir: Path, before: Files, snap: string, copied: Files, latest: string, names: set<Path>)
    requires HasPrefix(snap, PRE_IMPORT) && Fresh(before, snap) && Usual(before)
    requires IsCopy(before, snap, copied) && IsLatest(copied, latest)
    requires forall n | Reached(dir, names, n) :: !Nests(dir, n)
    ensures Undoable(dir, before, copied, latest, names) <==> AlwaysUndone(dir, before, copied, latest, names)
  {
    CopyNestsNothing(before, snap, copied);
    if Undoable(dir, before, copied, latest, names) {
      forall changed, after | MayLeave(dir, copied, names, changed) && IsRolledBack(changed, after)
        ensures Undone(before, latest, after)
      {
        var backup: Files, withCerts: bool, order: seq<Path>, run: seq<Files> :|
          backup.Keys == names && ImportLeaves(dir, backup, withCerts, order, run, changed) && run[0] == copied;
        UndoableUndoes(dir, before, snap, backup, withCerts, order, run, changed, latest, after);
      }
    } else {
      NotUndoable(dir, before, copied, latest, names);
    }
  }

  lemma NotUndoable(dir: Path, before: Files, copied: Files, latest: string, names: set<Path>)
    requires Usual(before) && NothingNested(copied) && IsLatest(copied, latest)
    requires forall n | Reached(dir, names, n) :: !Nests(dir, n)
    requires !Undoable(dir, before, copied, latest, names)
    ensures !AlwaysUndone(dir, before, copied, latest, names)
  {
    if n :| Reached(dir, names, n) && Supersedes(dir, latest, n) {
      SupersedeFails(dir, before, copied, latest, names, n);
    } else if n :| Reached(dir, names, n) && Hits(dir, before, latest, n) {
      HitFails(dir, before, copied, latest, names, n);
    } else if [latest] + ["config.json"] !in copied {
      UnheldFails(dir, before, copied, latest, names, ["config.json"]);
    } else {
      var p :| p != [] && p[0] != latest && Concerns(before, p) && !Restorable(dir, before, copied, latest, names, p);
      if [latest] + p in copied || Removable(p) {
        UnheldFails(dir, before, copied, latest, names, p);
      } else {
        var n :| Reached(dir, names, n) && Touches(dir, n, p);
        UnlistedFails(dir, before, copied, latest, names, n, p);
      }
    }
  }

  /** With no later copy at hand: if and only if no name leads to a later copy, to a file of the copy just
      made that rollback is to put back, or to a setting it is to remove. */
  lemma RollbackOfFreshUndoesIff(dir: Path, before: Files, snap: string, copied: Files, names: set<Path>)
    requires HasPrefix(snap, PRE_IMPORT) && Fresh(before, snap) && Usual(before) && NoLaterCopy(before, snap)
    requires IsCopy(before, snap, copied)
    requires forall n | Reached(dir, names, n) :: !Nests(dir, n)
    ensures (forall n | Reached(dir, names, n) :: !Supersedes(dir, snap, n) && !Hits(dir, before, snap, n))
      <==> AlwaysUndone(dir, before, copied, snap, names)
  {
    FreshIsLatest(dir, before, snap, copied, names);
    RollbackUndoesIff(dir, before, snap, copied, snap, names);
  }

  lemma {:induction false} LessAfter(prefix: string, a: string, b: string)
    requires Less(a, b)
    ensures Less(prefix + a, prefix + b)
    decreases |prefix|
  {
    if prefix == "" {
      assert prefix + a == a && prefix + b == b;
    } else {
      LessAfter(prefix[1..], a, b);
      assert (prefix + a)[1..] == prefix[1..] + a && (prefix + b)[1..] == prefix[1..] + b;
    }
  }

  lemma ProperName(later: string, name: string)
    requires Proper([name])
    ensures Proper([PRE_IMPORT + later, name]) && !IsSdn([PRE_IMPORT + later, name])
    ensures HasPrefix(PRE_IMPORT + later, PRE_IMPORT)
  {
    var n := PRE_IMPORT + later;
    assert n[1] == 'p' && n[0] == '.' && |n| >= 12 && n[..12] == PRE_IMPORT;
    assert [name][0] == name;
  }

  lemma LoneNameFails(dir: Path, before: Files, snap: string, copied: Files, raw: Path)
    requires HasPrefix(snap, PRE_IMPORT) && Fresh(before, snap) && Usual(before) && NoLaterCopy(before, snap)
    requires IsCopy(before, snap, copied) && Writable(dir, raw) && !Nests(dir, raw) && Supersedes(dir, snap, raw)
    ensures !AlwaysUndone(dir, before, copied, snap, {raw})
  {
    assert Reached(dir, {raw}, raw);
    RollbackOfFreshUndoesIff(dir, before, snap, copied, {raw});
  }

  lemma LaterName(dir: Path, before: Files, time: string, later: string)
    requires Proper(dir) && Less(time, later)
    ensures var raw := [PRE_IMPORT + later, "users.json"];
      && Writable(dir, raw) && !Nests(dir, raw)
      && !Hits(dir, before, PRE_IMPORT + time, raw) && Supersedes(dir, PRE_IMPORT + time, raw)
  {
    var raw := [PRE_IMPORT + later, "users.json"];
    LessAfter(PRE_IMPORT, time, later);
    LessIsIrreflexive(PRE_IMPORT + time);
    ProperName(later, "users.json");
    TargetIsInside(dir, raw);
    assert Target(dir, raw) == Some(raw) && Tmp(raw)[0] == raw[0] && |raw[0]| >= 12;
    assert "users.json" != raw[0] && Tmp(raw)[1] != raw[0] by { assert Tmp(raw)[1][0] == 'u' && raw[0][0] == '.'; }
  }

  /** A name that hits no file of the copy just made and is not safe: with `.pre-import-9/users.json`, say,
      rollback goes back to a copy that is the backup's. */
  lemma LaterNameFails(dir: Path, before: Files, copied: Files, time: string, later: string)
    requires Proper(dir) && Less(time, later) && Fresh(before, PRE_IMPORT + time) && Usual(before)
    requires NoLaterCopy(before, PRE_IMPORT + time) && IsCopy(before, PRE_IMPORT + time, copied)
    ensures var raw := [PRE_IMPORT + later, "users.json"];
      && Writable(dir, raw) && !Hits(dir, before, PRE_IMPORT + time, raw)
      && !AlwaysUndone(dir, before, copied, PRE_IMPORT + time, {raw})
  {
    LaterName(dir, before, time, later);
    ProperName(time, "users.json");
    LoneNameFails(dir, before, PRE_IMPORT + time, copied, [PRE_IMPORT + later, "users.json"]);
  }
}
