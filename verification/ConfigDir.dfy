/** The settings directory as the program changes it: walks that write, rename and remove files. */
module ConfigDir {
  import opened Options
  import opened ConfigFiles

  /** The loop of mergeLocalConfig updates the incoming map; storing into a nil map crashes. */
  method KeepLocal(mine: map<string, string>, incoming: map<string, string>, isNil: bool, kept: set<string>)
    returns (merged: map<string, string>, crashed: bool)
    ensures crashed <==> isNil && exists k :: k in kept && k in mine
    ensures !crashed ==> merged == MergedKeys(mine, incoming, kept)
  {
    merged := incoming;
    ghost var done: set<string> := {};
    var todo := kept;
    while todo != {}
      invariant done !! todo && done + todo == kept
      invariant isNil ==> forall k | k in done :: k !in mine
      invariant merged == MergedKeys(mine, incoming, done)
      decreases |todo|
    {
      var k :| k in todo;
      MergeOneKey(mine, incoming, done, k);
      todo := todo - {k};
      done := done + {k};
      if k in mine {
        if isNil {
          return merged, true;
        }
        merged := merged[k := mine[k]];
      } else {
        merged := merged - {k};
      }
    }
    assert done == kept;
    crashed := false;
  }

  /** mergeLocalConfig. */
  method MergeLocalConfig(local: Option<Content>, incoming: Content, withCerts: bool) returns (r: Merge)
    ensures r == MergeOf(local, incoming, withCerts)
    ensures incoming.Other? ==> r == Unreadable
    ensures incoming.Object? ==> r.Merged? && r.content.Object?
    ensures incoming.Null? ==> r == Merged(Null) || r == Crash
    ensures incoming.Object? ==> forall k ::
      var mine := local.Some? && local.value.Object? && k in local.value.keys;
      if k in LOCAL_KEYS || (k == "active_cert_name" && !withCerts) then
        (k in r.content.keys <==> mine) && (mine ==> r.content.keys[k] == local.value.keys[k])
      else
        && (k in r.content.keys <==> k in incoming.keys)
        && (k in incoming.keys ==> r.content.keys[k] == incoming.keys[k])
    ensures incoming.Null? ==> (r == Crash <==> exists k ::
      local.Some? && local.value.Object? && k in local.value.keys
        && (k in LOCAL_KEYS || (k == "active_cert_name" && !withCerts)))
  {
    match incoming
    case Other(_) =>
      return Unreadable;
    case Object(keys) =>
      var merged, crashed := KeepLocal(KeysOf(local), keys, false, KeptKeys(withCerts));
      return Merged(Object(merged));
    case Null =>
      var merged, crashed := KeepLocal(KeysOf(local), map[], true, KeptKeys(withCerts));
      return if crashed then Crash else Merged(Null);
  }

  lemma MergeOneKey(mine: map<string, string>, first: map<string, string>, done: set<string>, k: string)
    ensures MergedKeys(mine, first, done + {k}) ==
      if k in mine then MergedKeys(mine, first, done)[k := mine[k]] else MergedKeys(mine, first, done) - {k}
  {}

  class ConfigDir {
    var files: Files
    const dir: Path

    constructor (files: Files, dir: Path)
      ensures this.files == files && this.dir == dir
    {
      this.files, this.dir := files, dir;
    }

    /** collectConfigFiles; a file that cannot be read fails the export. */
    method Collect(opts: ExportOptions) returns (backup: Option<Files>)
      ensures backup.Some? ==> IsExport(files, opts, backup.value)
    {
      var collected: Files := map[];
      var todo := files.Keys;
      while todo != {}
        invariant todo <= files.Keys
        invariant forall p :: At(collected, p) == if Exported(p, opts) && p !in todo then At(files, p) else None
        decreases |todo|
      {
        var p :| p in todo;
        todo := todo - {p};
        if Exported(p, opts) {
          if * {
            return None;
          }
          collected := collected[p := files[p]];
        }
      }
      return Some(collected);
    }

    /** What is at `p` while the files `todo` are still to be copied. */
    static function PartlyCopied(first: Files, snap: string, todo: set<Path>, p: Path): Option<Content> {
      if |p| > 1 && p[0] == snap && p[1..] in todo then At(first, p) else CopiedAt(first, snap, p)
    }

    /** copyDir into the directory `snap`. */
    method CopyDir(snap: string) returns (ok: bool)
      requires HasPrefix(snap, PRE_IMPORT)
      modifies this
      ensures ok ==> IsCopy(old(files), snap, files)
      ensures forall p | !(|p| > 1 && p[0] == snap) :: At(files, p) == At(old(files), p)
    {
      ghost var first := files;
      var todo := files.Keys;
      while todo != {}
        invariant todo <= first.Keys
        invariant forall p :: At(files, p) == PartlyCopied(first, snap, todo, p)
        decreases |todo|
      {
        var p :| p in todo;
        todo := todo - {p};
        if !InOldCopy(p) && p != [] {
          if * {
            return false;
          }
          assert |p| > 1 ==> !HasPrefix(p[0], PRE_IMPORT);
          assert At(files, p) == At(first, p);
          ghost var was := files;
          files := files[[snap] + p := files[p]];
          forall q ensures At(files, q) == PartlyCopied(first, snap, todo, q) {
            assert At(was, q) == PartlyCopied(first, snap, todo + {p}, q);
            if |q| > 1 && q[0] == snap { assert q == [snap] + q[1..]; }
          }
        }
      }
      return true;
    }

    /** sdnImportToDraft. What the firewall store makes of the configuration is up to it. */
    method SdnImportToDraft() returns (ok: bool)
      modifies this`files
      ensures ok ==> SdnImport(old(files), files)
      ensures forall p | p !in SDN_IMPORTED :: At(files, p) == At(old(files), p)
    {
      var enabled: bool := *;
      var config: Content := *;
      var draft: Content := *;
      if * {
        return false;
      }
      if enabled {
        files := files[["sdn", "draft.json"] := draft];
        return true;
      }
      files := files[["sdn", "config.json"] := config];
      if * {
        return false;
      }
      files := files[["sdn", "draft.json"] := draft];
      if * {
        return false;
      }
      files := files[["sdn", "restored.json"] := Object(map[])];
      ok := true;
    }

    /** A file is written under its temporary name and renamed. */
    method Place(p: Path, data: Content) returns (ok: bool)
      requires p != []
      modifies this`files
      ensures ok ==> files == Placed(old(files), p, data)
      ensures !ok ==> forall q | q != Tmp(p) :: At(files, q) == At(old(files), q)
    {
      if * {
        return false;
      }
      files := files[Tmp(p) := data];
      if * {
        return false;
      }
      assert Tmp(p)[|p| - 1] != p[|p| - 1];
      files := files[p := files[Tmp(p)]] - {Tmp(p)};
      ok := true;
    }

    /** One round of the loop of writeConfigFiles. */
    method WriteOne(raw: Path, content: Content, withCerts: bool) returns (ok: bool)
      modifies this`files
      ensures ok ==> WriteStep(dir, old(files), raw, content, withCerts, files)
      ensures !ok ==> BrokenOff(dir, raw, old(files), files)
    {
      if IsSdn(raw) {
        if raw == ["sdn", "config.json"] {
          ok := SdnImportToDraft();
          return ok;
        }
        return true;
      }
      var data := content;
      if raw == ["config.json"] {
        var merge := MergeLocalConfig(At(files, ["config.json"]), content, withCerts);
        if !merge.Merged? {
          return false;
        }
        data := merge.content;
      }
      var target := Target(dir, raw);
      if target.None? || target.value == [] {
        return false;
      }
      assert DataFor(files, raw, content, withCerts, data);
      ok := Place(target.value, data);
    }

    /** The key files of a set of names. */
    function Keys(names: set<Path>): set<Path> {
      set n | n in names && IsKey(n)
    }

    /** writeConfigFiles: key files first, otherwise in any order; the first failure ends it. The
        states in between, and the order, are given for the proof. */
    method WriteConfigFiles(
      backup: Files, withCerts: bool) returns (ok: bool, ghost order: seq<Path>, ghost run: seq<Files>)
      modifies this`files
      ensures ImportRun(dir, backup, withCerts, order, run) && run[0] == old(files)
      ensures ImportOrder(backup, order)
      ensures ok ==> Complete(backup, order) && files == run[|order|]
      ensures !ok ==> exists raw :: IsNextFile(backup, order, raw) && BrokenOff(dir, raw, run[|order|], files)
    {
      order, run := [], [files];
      var pending := backup.Keys;
      while pending != {}
        invariant ImportRun(dir, backup, withCerts, order, run) && run[0] == old(files) && files == run[|order|]
        invariant ImportOrder(backup, order)
        invariant forall raw | raw in backup :: raw in pending <==> raw !in order
        invariant pending <= backup.Keys
        decreases |pending|
      {
        var keys := Keys(pending);
        var raw: Path;
        if keys != {} {
          raw :| raw in keys;
        } else {
          raw :| raw in pending;
        }
        ghost var before := files;
        ok := WriteOne(raw, backup[raw], withCerts);
        if !ok {
          return;
        }
        GrowOrder(backup, order, raw);
        GrowRun(dir, backup, withCerts, order, run, raw, files);
        order, run := order + [raw], run + [files];
        pending := pending - {raw};
      }
      ok := true;
    }

    /** The walk of restoreSnapshot writes the files of the copy back. */
    method PutFilesBack(snap: string) returns (ok: bool)
      modifies this`files
      ensures ok ==> IsPutBack(old(files), snap, {}, files)
    {
      ghost var first := files;
      var todo := set p | p in files && |p| > 1 && p[0] == snap;
      while todo != {}
        invariant todo <= first.Keys * files.Keys && forall p | p in todo :: |p| > 1 && p[0] == snap
        invariant IsPutBack(first, snap, todo, files)
        decreases |todo|
      {
        var p :| p in todo;
        if * {
          return false;
        }
        var rel := p[1..];
        assert p == [snap] + rel;
        if !KeptLive(rel) {
          PutOne(first, snap, todo, files, rel);
          files := files[rel := files[p]];
        } else {
          SkipOne(first, snap, todo, files, rel);
        }
        todo := todo - {p};
      }
      ok := true;
    }

    /** The settings at the top that the copy does not have are removed. */
    method RemoveAdded(snap: string) returns (ok: bool)
      modifies this`files
      ensures ok ==> IsTrimmed(old(files), snap, files)
    {
      ghost var first := files;
      var todo := set p | p in files && TopSetting(p);
      while todo != {}
        invariant forall p | p in todo :: TopSetting(p)
        invariant forall p | TopSetting(p) && p in first && p !in todo :: p in files ==> [snap] + p in first
        invariant forall p :: At(files, p) == At(first, p) || (TopSetting(p) && [snap] + p !in first && p !in files)
        decreases |todo|
      {
        var p :| p in todo;
        todo := todo - {p};
        assert At(files, [snap] + p) == At(first, [snap] + p);
        if [snap] + p !in files {
          if * {
            return false;
          }
          files := files - {p};
        }
      }
      ok := true;
    }

    /** A firewall file that the copy does not have is removed. */
    method RemoveNew(snap: string, p: Path) returns (ok: bool)
      modifies this`files
      ensures ok ==> files == WithoutNew(old(files), snap, p)
    {
      if [snap] + p !in files {
        if * {
          return false;
        }
        files := files - {p};
      }
      ok := true;
    }

    method RemoveFirewall(snap: string) returns (ok: bool)
      requires HasPrefix(snap, PRE_IMPORT)
      modifies this`files
      ensures ok ==> IsUnfirewalled(old(files), snap, files)
    {
      ok := RemoveNew(snap, ["sdn", "config.json"]);
      if !ok {
        return;
      }
      ok := RemoveNew(snap, ["sdn", "draft.json"]);
      if !ok {
        return;
      }
      ok := RemoveNew(snap, ["sdn", "restored.json"]);
      if ok {
        ThreeRemoved(snap, old(files), files);
      }
    }

    /** The choice of HandleBackupRollback: the directory entries in any order. */
    method LatestCopy() returns (latest: string)
      ensures latest == "" ==> forall f | f in files :: !InCopy(f)
      ensures latest != "" ==> IsLatest(files, latest)
    {
      latest := "";
      var todo := CopyNames(files);
      ghost var names, seen: set<string> := todo, {};
      while todo != {}
        invariant "" !in names && seen + todo == names && IsGreatest(seen, latest)
        decreases |todo|
      {
        var n :| n in todo;
        StillGreatest(seen, latest, n);
        todo := todo - {n};
        seen := seen + {n};
        if Less(latest, n) {
          latest := n;
        }
      }
      assert seen == names;
      GreatestIsLatest(files, latest);
    }

    /** restoreSnapshot. */
    method RestoreSnapshot(snap: string) returns (ok: bool)
      requires HasPrefix(snap, PRE_IMPORT)
      modifies this`files
      ensures ok ==> IsRestored(old(files), snap, files)
    {
      ok := PutFilesBack(snap);
      if !ok {
        return;
      }
      ghost var put := files;
      ok := RemoveAdded(snap);
      if !ok {
        return;
      }
      ghost var removed := files;
      ok := RemoveFirewall(snap);
      if ok {
        RestoredInSteps(old(files), snap, put, removed, files);
      }
    }
  }

  /** The greatest of the names seen so far, or none. */
  ghost predicate IsGreatest(names: set<string>, latest: string) {
    if names == {} then latest == "" else latest in names && forall n | n in names :: !Less(latest, n)
  }

  /** The directories at the top that have the name of a copy. */
  function CopyNames(fs: Files): (names: set<string>)
    ensures "" !in names
  {
    set f | f in fs && InCopy(f) :: f[0]
  }

  lemma GreatestIsLatest(fs: Files, latest: string)
    requires IsGreatest(CopyNames(fs), latest)
    ensures latest == "" ==> forall f | f in fs :: !InCopy(f)
    ensures latest != "" ==> IsLatest(fs, latest)
  {
    forall f | f in fs && InCopy(f) ensures f[0] in CopyNames(fs) {}
  }

  lemma StillGreatest(names: set<string>, latest: string, n: string)
    requires IsGreatest(names, latest) && n != ""
    ensures IsGreatest(names + {n}, if Less(latest, n) then n else latest)
  {
    if Less(latest, n) {
      LessIsIrreflexive(n);
      forall m | m in names ensures !Less(n, m) {
        if Less(n, m) { LessIsTransitive(latest, n, m); }
      }
    }
  }

  ghost predicate IsTrimmed(fs: Files, snap: string, fs': Files) {
    forall p :: At(fs', p) == if TopSetting(p) && [snap] + p !in fs then None else At(fs, p)
  }

  ghost predicate IsUnfirewalled(fs: Files, snap: string, fs': Files) {
    forall p :: At(fs', p) == if p in SDN_IMPORTED && [snap] + p !in fs then None else At(fs, p)
  }

  /** The files outside the copy are put back, apart from those in `todo`. */
  ghost predicate IsPutBack(fs: Files, snap: string, todo: set<Path>, fs': Files) {
    forall p | Plain(fs, snap, p) ::
      Plain(fs', snap, p) && At(fs', p) == PutBack(fs, snap, todo, p) && At(fs', [snap] + p) == At(fs, [snap] + p)
  }

  lemma PutElsewhere(fs: Files, snap: string, fs': Files, rel: Path, content: Content, p: Path)
    requires [snap] + rel in fs && rel != [] && rel != p && Plain(fs, snap, p) && Plain(fs', snap, p)
    ensures Plain(fs'[rel := content], snap, p)
    ensures At(fs'[rel := content], p) == At(fs', p) && At(fs'[rel := content], [snap] + p) == At(fs', [snap] + p)
  {
    var f := [snap] + rel;
    assert f[1..] == rel && ([snap] + p)[1..] == p;
    assert !IsNestedOf(snap, f, p);
    assert Strip(snap, [snap] + p) == p;
  }

  lemma PutOne(fs: Files, snap: string, todo: set<Path>, fs': Files, rel: Path)
    requires IsPutBack(fs, snap, todo, fs') && rel != [] && [snap] + rel in todo && [snap] + rel in fs
      && [snap] + rel in fs'
    requires !KeptLive(rel)
    ensures IsPutBack(fs, snap, todo - {[snap] + rel}, fs'[rel := fs'[[snap] + rel]])
  {
    var next := fs'[rel := fs'[[snap] + rel]];
    forall p | Plain(fs, snap, p)
      ensures Plain(next, snap, p) && At(next, p) == PutBack(fs, snap, todo - {[snap] + rel}, p)
      ensures At(next, [snap] + p) == At(fs, [snap] + p)
    {
      assert ([snap] + p)[1..] == p && ([snap] + rel)[1..] == rel;
      if p != rel { PutElsewhere(fs, snap, fs', rel, fs'[[snap] + rel], p); }
    }
  }

  lemma SkipOne(fs: Files, snap: string, todo: set<Path>, fs': Files, rel: Path)
    requires IsPutBack(fs, snap, todo, fs') && KeptLive(rel)
    ensures IsPutBack(fs, snap, todo - {[snap] + rel}, fs')
  {
    forall p | Plain(fs, snap, p) ensures PutBack(fs, snap, todo - {[snap] + rel}, p) == PutBack(fs, snap, todo, p) {
      assert ([snap] + p)[1..] == p && ([snap] + rel)[1..] == rel;
    }
  }

  function WithoutNew(fs: Files, snap: string, p: Path): Files {
    if [snap] + p !in fs then fs - {p} else fs
  }

  lemma ThreeRemoved(snap: string, fs: Files, fs': Files)
    requires HasPrefix(snap, PRE_IMPORT)
    requires fs' == WithoutNew(WithoutNew(WithoutNew(fs, snap, ["sdn", "config.json"]), snap, ["sdn", "draft.json"]),
      snap, ["sdn", "restored.json"])
    ensures IsUnfirewalled(fs, snap, fs')
  {}

  lemma RestoredInSteps(fs: Files, snap: string, put: Files, removed: Files, fs': Files)
    requires HasPrefix(snap, PRE_IMPORT) && IsPutBack(fs, snap, {}, put)
    requires IsTrimmed(put, snap, removed) && IsUnfirewalled(removed, snap, fs')
    ensures IsRestored(fs, snap, fs')
  {
    forall p | Plain(fs, snap, p) ensures At(fs', p) == RestoredAt(fs, snap, p) {
      assert At(put, p) == PutBack(fs, snap, {}, p);
      assert At(removed, [snap] + p) == At(put, [snap] + p);
    }
  }

  /** What is at `p` in the middle of the first step of a rollback. */
  function PutBack(fs: Files, snap: string, todo: set<Path>, p: Path): Option<Content> {
    if p != [] && [snap] + p in fs && !KeptLive(p) && [snap] + p !in todo then Some(fs[[snap] + p]) else At(fs, p)
  }

  lemma GrowOrder(backup: Files, order: seq<Path>, raw: Path)
    requires ImportOrder(backup, order) && raw !in order
    requires !IsKey(raw) ==> forall n | n in backup && IsKey(n) :: n in order
    ensures ImportOrder(backup, order + [raw])
  {
    var more := order + [raw];
    forall i | 0 <= i < |more| && !IsKey(more[i]) ensures KeysDone(backup, more, i) {
      forall n | n in backup && IsKey(n) ensures Written(more, i, n) {
        if i < |order| {
          assert KeysDone(backup, order, i) && Written(order, i, n);
          var j :| 0 <= j < i && order[j] == n;
          assert more[j] == n;
        } else {
          var j :| 0 <= j < |order| && order[j] == n;
          assert more[j] == n;
        }
      }
    }
  }

  lemma GrowRun(dir: Path, backup: Files, withCerts: bool, order: seq<Path>, run: seq<Files>, raw: Path, next: Files)
    requires ImportRun(dir, backup, withCerts, order, run) && raw in backup
    requires WriteStep(dir, run[|order|], raw, backup[raw], withCerts, next)
    ensures ImportRun(dir, backup, withCerts, order + [raw], run + [next])
  {}
}
