/** What the names in the settings directory decide, spelled out: which files an export takes, an import
    writes, a copy holds and a rollback puts back or removes. */
module ConfigNames {
  import opened Options
  import opened ConfigFiles

  predicate EndsIn(s: string, suffix: string) {
    |suffix| <= |s| && s[|s| - |suffix|..] == suffix
  }

  predicate BeginsWith(s: string, prefix: string) {
    |prefix| <= |s| && s[..|prefix|] == prefix
  }

  // ---- export ----

  /** An export takes every file but these: caches, sessions and logs, temporary files, the firewall's own
      state, what is in a hidden directory or in one of three others, and certificates, charts and the audit
      log unless asked for. */
  lemma ExportTakes(p: Path, opts: ExportOptions)
    requires p != []
    ensures var name := p[|p| - 1];
      Exported(p, opts) <==>
      && name !in {"session.key", "sessions.json.enc", "smart_cache.json", "updates_cache.json", "lxc.log", "qemu.log"}
      && !EndsIn(name, ".tmp") && (EndsIn(name, ".rrd.json") ==> opts.charts) && (name == "audit.log" ==> opts.audit)
      && p !in {["sdn", "state.json"], ["sdn", "pending.json"], ["sdn", "revert.json"], ["sdn", "draft.json"],
                ["sdn", "ids-state.json"], ["sdn", "restored.json"]}
      && (|p| > 1 ==> p[0] !in {"folder_usage", "lxd_metrics", "sdn-history"} && (p[0] == "certs" ==> opts.certs))
      && forall k | 0 <= k < |p| - 1 :: p[k] == "" || p[k][0] != '.'
  {
    forall k | 0 <= k < |p| - 1 ensures HasPrefix(p[k], ".") <==> p[k] != "" && p[k][0] == '.' {
      if p[k] != "" { assert p[k][..1] == [p[k][0]]; }
    }
    assert HasPrefix(p[0], PRE_IMPORT) ==> p[0] != "" && p[0][0] == '.' by {
      assert PRE_IMPORT[0] == '.';
      if HasPrefix(p[0], PRE_IMPORT) { assert p[0][..12][0] == p[0][0]; }
    }
    if |p| > 1 { ExportSkips(p, opts); }
  }

  lemma ExportSkips(p: Path, opts: ExportOptions)
    requires |p| > 1 && (HasPrefix(p[0], PRE_IMPORT) ==> HasPrefix(p[0], "."))
    ensures (forall k | 0 <= k < |p| - 1 :: !SkipsDir(p, k, opts)) <==>
      && p[0] !in {"folder_usage", "lxd_metrics", "sdn-history"} && (p[0] == "certs" ==> opts.certs)
      && forall k | 0 <= k < |p| - 1 :: !HasPrefix(p[k], ".")
  {
    if forall k | 0 <= k < |p| - 1 :: !SkipsDir(p, k, opts) {
      assert !SkipsDir(p, 0, opts);
      forall k | 0 <= k < |p| - 1 ensures !HasPrefix(p[k], ".") { assert !SkipsDir(p, k, opts); }
    }
  }

  // ---- import ----

  /** A name with "." or an empty component leads where it leads without, one with ".." back past the
      component before it, and one that leaves the directory is refused. */
  lemma DotsAreCleaned(dir: Path, before: Path, name: string, rest: Path)
    requires Proper([name])
    ensures Target(dir, before + ([""] + rest)) == Target(dir, before + rest)
    ensures Target(dir, before + (["."] + rest)) == Target(dir, before + rest)
    ensures Target(dir, before + ([name] + ([".."] + rest))) == Target(dir, before + rest)
  {
    var d := CleanInto(dir, before);
    CleanedInTwo(dir, before, rest);
    CleanedInTwo(dir, before, [""] + rest);
    OneCleaned(d, "", rest);
    CleanedInTwo(dir, before, ["."] + rest);
    OneCleaned(d, ".", rest);
    CleanedInTwo(dir, before, [name] + ([".."] + rest));
    OneCleaned(d, name, [".."] + rest);
    OneCleaned(d + [name], "..", rest);
    assert [name][0] == name && (d + [name])[..|d|] == d;
  }

  lemma OneCleaned(dir: Path, name: string, rest: Path)
    ensures CleanInto(dir, [name] + rest) == CleanInto(Enter(dir, name), rest)
  {
    assert ([name] + rest)[1..] == rest;
  }

  lemma OutsideIsRefused(dir: Path, name: string, rest: Path)
    requires dir != [] && Proper([name] + rest) && name != dir[|dir| - 1]
    ensures Target(dir, [".."]) == None && Target(dir, [".."] + ([name] + rest)) == None
  {
    var up := dir[..|dir| - 1];
    OneCleaned(dir, "..", []);
    OneCleaned(dir, "..", [name] + rest);
    CleanOfProper(up, [name] + rest);
    assert [".."] + [] == [".."];
    assert (up + ([name] + rest))[|up|] == name;
    var c := up + ([name] + rest);
    if |dir| <= |c| { assert c[..|dir|][|up|] == name; }
  }

  lemma {:induction false} CleanedInTwo(dir: Path, before: Path, rest: Path)
    ensures CleanInto(dir, before + rest) == CleanInto(CleanInto(dir, before), rest)
    decreases |before|
  {
    if before == [] {
      assert before + rest == rest;
    } else {
      assert (before + rest)[1..] == before[1..] + rest;
      CleanedInTwo(Enter(dir, before[0]), before[1..], rest);
    }
  }

  /** Of the firewall's files only its configuration is imported, through the store, which may change three
      files; the others leave everything as it is. */
  lemma SdnStaysOut(dir: Path, fs: Files, raw: Path, content: Content, withCerts: bool, fs': Files)
    requires WriteStep(dir, fs, raw, content, withCerts, fs') && |raw| > 1 && raw[0] in {"sdn", "sdn-history"}
    ensures raw != ["sdn", "config.json"] ==> fs' == fs
    ensures raw == ["sdn", "config.json"] ==>
      && ["sdn", "draft.json"] in fs'
      && (At(fs', ["sdn", "config.json"]) == At(fs, ["sdn", "config.json"])
          || (["sdn", "config.json"] in fs' && ["sdn", "restored.json"] in fs'))
    ensures forall p | p !in {["sdn", "config.json"], ["sdn", "draft.json"], ["sdn", "restored.json"]} ::
      At(fs', p) == At(fs, p)
  {}

  /** Any other file but config.json is written as it is in the backup, its temporary file is gone, and no
      other file changes. */
  lemma WrittenAsSent(dir: Path, fs: Files, raw: Path, content: Content, withCerts: bool, fs': Files)
    requires WriteStep(dir, fs, raw, content, withCerts, fs') && Proper(dir) && Proper(raw) && raw != []
    requires raw != ["config.json"] && (|raw| == 1 || raw[0] !in {"sdn", "sdn-history"})
    ensures At(fs', raw) == Some(content)
    ensures var tmp := raw[..|raw| - 1] + [raw[|raw| - 1] + ".import-tmp"];
      At(fs', tmp) == None && forall p | p != raw && p != tmp :: At(fs', p) == At(fs, p)
  {
    TargetIsInside(dir, raw);
    assert |raw[|raw| - 1] + ".import-tmp"| == |raw[|raw| - 1]| + 11;
    assert (raw[..|raw| - 1] + [raw[|raw| - 1] + ".import-tmp"])[|raw| - 1] != raw[|raw| - 1];
  }

  /** No file whose name ends in ".key" comes after one whose name does not. */
  lemma KeysComeFirst(backup: Files, order: seq<Path>, i: nat, j: nat)
    requires ImportOrder(backup, order) && i < j < |order| && order[i] in backup && order[j] in backup
    requires order[i] != [] && order[j] != []
    ensures EndsIn(order[j][|order[j]| - 1], ".key") ==> EndsIn(order[i][|order[i]| - 1], ".key")
  {}

  // ---- copy and rollback ----

  /** A copy holds every file that is not in a directory with the name of a copy, and changes nothing else. */
  lemma CopyHoldsAll(fs: Files, snap: string, fs': Files, p: Path)
    requires IsCopy(fs, snap, fs') && p != []
    ensures p in fs && (forall k | 0 <= k < |p| - 1 :: !BeginsWith(p[k], ".pre-import-")) ==>
      At(fs', [snap] + p) == Some(fs[p])
    ensures p !in fs || (exists k :: 0 <= k < |p| - 1 && BeginsWith(p[k], ".pre-import-")) ==>
      At(fs', [snap] + p) == At(fs, [snap] + p)
    ensures p[0] != snap || |p| == 1 ==> At(fs', p) == At(fs, p)
  {
    assert ([snap] + p)[1..] == p;
    assert forall k | 0 <= k < |p| - 1 :: HasPrefix(p[k], PRE_IMPORT) <==> BeginsWith(p[k], ".pre-import-");
    assert At(fs', [snap] + p) == CopiedAt(fs, snap, [snap] + p) && At(fs', p) == CopiedAt(fs, snap, p);
  }

  /** A rollback puts the files of the copy back, apart from the sessions, caches and logs at the top, which stay
      as they are; of the files the copy does not have, the other settings at the top and three files of the
      firewall are removed, and the rest stays. */
  lemma RollbackRestores(fs: Files, snap: string, fs': Files, p: Path)
    requires IsRestored(fs, snap, fs') && Plain(fs, snap, p)
    ensures var live := |p| == 1
        && p[0] in {"session.key", "sessions.json.enc", "smart_cache.json", "updates_cache.json", "lxc.log",
          "qemu.log"};
      var setting := |p| == 1 && EndsIn(p[0], ".json") && !live;
      var firewall := p in {["sdn", "config.json"], ["sdn", "draft.json"], ["sdn", "restored.json"]};
      && (live ==> At(fs', p) == At(fs, p))
      && (!live && [snap] + p in fs ==> At(fs', p) == Some(fs[[snap] + p]))
      && (!live && [snap] + p !in fs ==> At(fs', p) == if setting || firewall then None else At(fs, p))
  {
    assert At(fs', p) == RestoredAt(fs, snap, p);
  }
}
