/** What an export carries to the server that imports it, and what rollback undoes. */
module ConfigTravel {
  import opened Options
  import opened ConfigFiles

  /** The names of a backup made by an export. */
  ghost predicate ProperNames(fs: Files) {
    forall p | p in fs :: p != [] && Proper(p)
  }

  lemma TmpShape(p: Path)
    requires p != []
    ensures Tmp(p) != p && |Tmp(p)| == |p| && !IsKey(Tmp(p)) && Tmp(p) != ["config.json"]
    ensures IsSdn(Tmp(p)) <==> IsSdn(p)
  {
    var name := p[|p| - 1] + ".import-tmp";
    assert Name(Tmp(p)) == name && name[|name| - 1] == 'p';
    assert |name| == |p[|p| - 1]| + 11;
  }

  /** Writing `raw` does not touch `p`. */
  predicate Spares(raw: Path, p: Path) {
    raw != [] && (IsSdn(raw) || (raw != p && Tmp(raw) != p))
  }

  lemma StepLeaves(dir: Path, fs: Files, raw: Path, content: Content, withCerts: bool, fs': Files, p: Path)
    requires WriteStep(dir, fs, raw, content, withCerts, fs') && Proper(dir) && Proper(raw)
    requires p !in SDN_IMPORTED && Spares(raw, p)
    ensures At(fs', p) == At(fs, p)
  {
    TargetIsInside(dir, raw);
  }

  lemma {:induction false} StepsLeave(
    dir: Path, backup: Files, withCerts: bool, order: seq<Path>, run: seq<Files>, i: nat, k: nat, p: Path)
    requires ProperNames(backup) && Proper(dir) && ImportRun(dir, backup, withCerts, order, run) && i <= k <= |order|
    requires p !in SDN_IMPORTED && forall j | i <= j < k :: Spares(order[j], p)
    ensures At(run[k], p) == At(run[i], p)
    decreases k
  {
    if i < k {
      StepsLeave(dir, backup, withCerts, order, run, i, k - 1, p);
      StepLeaves(dir, run[k - 1], order[k - 1], backup[order[k - 1]], withCerts, run[k], p);
    }
  }

  /** No file of the backup has the temporary name of another, except beside a key file or a firewall file. */
  ghost predicate Safe(backup: Files) {
    forall p | p in backup && p != [] && !IsSdn(p) && !IsKey(p) :: Tmp(p) !in backup
  }

  ghost predicate Arrived(fs: Files, backup: Files, withCerts: bool, p: Path, r: Files)
    requires p in backup
  {
    p in r && DataFor(fs, p, backup[p], withCerts, r[p])
  }

  ghost predicate Carried(fs: Files, backup: Files, withCerts: bool, r: Files) {
    forall p | p in backup && !IsSdn(p) :: Arrived(fs, backup, withCerts, p, r)
  }

  /** The write of the i-th file delivers it. */
  lemma Delivered(dir: Path, backup: Files, withCerts: bool, order: seq<Path>, run: seq<Files>, i: nat)
    requires ProperNames(backup) && Proper(dir) && ImportRun(dir, backup, withCerts, order, run) && i < |order|
    requires ImportOrder(backup, order) && !IsSdn(order[i])
    ensures Arrived(run[0], backup, withCerts, order[i], run[i + 1])
  {
    var p := order[i];
    TargetIsInside(dir, p);
    assert WriteStep(dir, run[i], p, backup[p], withCerts, run[i + 1]);
    if p == ["config.json"] {
      forall j | 0 <= j < i ensures Spares(order[j], p) { assert order[j] in backup; TmpShape(order[j]); }
      StepsLeave(dir, backup, withCerts, order, run, 0, i, p);
    }
  }

  /** No later write takes it away. */
  lemma NotTaken(backup: Files, order: seq<Path>, i: nat, k: nat)
    requires ProperNames(backup) && ImportOrder(backup, order) && Safe(backup) && i < k < |order|
    requires order[i] in backup && order[k] in backup && !IsSdn(order[i])
    ensures Spares(order[k], order[i])
  {
    TmpShape(order[k]);
    if !IsKey(order[i]) { KeysBefore(backup, order, i, k); }
  }

  lemma KeysBefore(backup: Files, order: seq<Path>, i: nat, k: nat)
    requires ImportOrder(backup, order) && i < k < |order| && order[k] in backup && !IsKey(order[i])
    ensures !IsKey(order[k])
  {}

  lemma StaysDelivered(dir: Path, backup: Files, withCerts: bool, order: seq<Path>, run: seq<Files>, i: nat)
    requires ProperNames(backup) && Proper(dir) && ImportRun(dir, backup, withCerts, order, run) && i < |order|
    requires ImportOrder(backup, order) && !IsSdn(order[i]) && Safe(backup)
    ensures Arrived(run[0], backup, withCerts, order[i], run[|order|])
  {
    var p := order[i];
    Delivered(dir, backup, withCerts, order, run, i);
    forall k | i + 1 <= k < |order| ensures Spares(order[k], p) {
      NotTaken(backup, order, i, k);
    }
    StepsLeave(dir, backup, withCerts, order, run, i + 1, |order|, p);
  }

  /** Every complete import in every order delivers the backup. */
  lemma ImportCarries(dir: Path, backup: Files, withCerts: bool, order: seq<Path>, run: seq<Files>)
    requires ProperNames(backup) && Proper(dir) && ImportRun(dir, backup, withCerts, order, run)
    requires ImportOrder(backup, order) && Complete(backup, order) && Safe(backup)
    ensures Carried(run[0], backup, withCerts, run[|order|])
  {
    forall p | p in backup && !IsSdn(p) ensures Arrived(run[0], backup, withCerts, p, run[|order|]) {
      var i :| 0 <= i < |order| && order[i] == p;
      StaysDelivered(dir, backup, withCerts, order, run, i);
    }
  }

  /** The keys of config.json that are this machine's. */
  predicate IsLocal(k: string, withCerts: bool) {
    k in LOCAL_KEYS || (k == "active_cert_name" && !withCerts)
  }

  lemma TwelveLocalKeys(k: string)
    ensures k in LOCAL_KEYS <==> k in {"port", "bind_port_443", "smart_last_refresh", "version_check_cache",
      "pending_cert_restart", "sudoers_hardening_enabled", "sudoers_silenced_lines", "sudoers_silenced_missing",
      "sudoers_silenced_extra", "sudoers_applied_hash", "sudoers_applied_content", "interlink_relay_mode"}
  {}

  lemma MergedByKey(was: Option<Content>, sent: map<string, string>, withCerts: bool, got: Content, k: string)
    requires MergeOf(was, Object(sent), withCerts) == Merged(got)
    ensures got.Object?
    ensures var mine := was.Some? && was.value.Object? && k in was.value.keys;
      if IsLocal(k, withCerts) then (k in got.keys <==> mine) && (mine ==> got.keys[k] == was.value.keys[k])
      else (k in got.keys <==> k in sent) && (k in sent ==> got.keys[k] == sent[k])
  {}

  /** What that means for config.json, key by key: twelve keys, and the active certificate if the backup has
      none, are what they were here before, present or absent, and any other key is what it is in the backup. */
  lemma ImportCarriesConfig(dir: Path, backup: Files, withCerts: bool, order: seq<Path>, run: seq<Files>, k: string)
    requires ProperNames(backup) && Proper(dir) && ImportRun(dir, backup, withCerts, order, run)
    requires ImportOrder(backup, order) && Complete(backup, order) && Safe(backup)
    requires ["config.json"] in backup && backup[["config.json"]].Object?
    ensures ["config.json"] in run[|order|] && run[|order|][["config.json"]].Object?
    ensures var was, sent, got := At(run[0], ["config.json"]), backup[["config.json"]].keys,
        run[|order|][["config.json"]].keys;
      var mine := was.Some? && was.value.Object? && k in was.value.keys;
      if k in {"port", "bind_port_443", "smart_last_refresh", "version_check_cache", "pending_cert_restart",
               "sudoers_hardening_enabled", "sudoers_silenced_lines", "sudoers_silenced_missing",
               "sudoers_silenced_extra", "sudoers_applied_hash", "sudoers_applied_content", "interlink_relay_mode"}
        || (k == "active_cert_name" && !withCerts)
      then (k in got <==> mine) && (mine ==> got[k] == was.value.keys[k])
      else (k in got <==> k in sent) && (k in sent ==> got[k] == sent[k])
  {
    ImportCarries(dir, backup, withCerts, order, run);
    var p := ["config.json"];
    assert Arrived(run[0], backup, withCerts, p, run[|order|]);
    MergedByKey(At(run[0], p), backup[p].keys, withCerts, run[|order|][p], k);
    TwelveLocalKeys(k);
  }

  /** A file that the backup does not name stays, unless it is the temporary name of one that is written. */
  lemma OthersStay(dir: Path, backup: Files, withCerts: bool, order: seq<Path>, run: seq<Files>, p: Path)
    requires ProperNames(backup) && Proper(dir) && ImportRun(dir, backup, withCerts, order, run)
    requires p !in SDN_IMPORTED && (p !in backup || IsSdn(p))
    requires forall q | q in backup && !IsSdn(q) :: Tmp(q) != p
    ensures At(run[|order|], p) == At(run[0], p)
  {
    forall j | 0 <= j < |order| ensures Spares(order[j], p) { assert order[j] in backup; }
    StepsLeave(dir, backup, withCerts, order, run, 0, |order|, p);
  }

  // ---- when files get lost ----

  /** Writing a file takes away the file that has its temporary name. */
  lemma StepTakes(dir: Path, fs: Files, raw: Path, content: Content, withCerts: bool, fs': Files)
    requires WriteStep(dir, fs, raw, content, withCerts, fs') && Proper(dir) && Proper(raw) && raw != [] && !IsSdn(raw)
    ensures Tmp(raw) !in fs'
  {
    TargetIsInside(dir, raw);
    TmpShape(raw);
  }

  /** The import can merge config.json. */
  ghost predicate Mergeable(fs: Files, backup: Files, withCerts: bool) {
    ["config.json"] in backup ==> MergeOf(At(fs, ["config.json"]), backup[["config.json"]], withCerts).Merged?
  }

  /** The firewall is on and takes the configuration as a draft. */
  function Drafted(fs: Files, draft: Content): (r: Files)
    ensures SdnImport(fs, r)
  {
    fs[["sdn", "draft.json"] := draft]
  }

  /** In every order an import can run to its end. */
  lemma {:induction false} RunExists(
    dir: Path, fs: Files, backup: Files, withCerts: bool, order: seq<Path>) returns (run: seq<Files>)
    requires ProperNames(backup) && Proper(dir) && Mergeable(fs, backup, withCerts)
    requires Named(backup, order)
    requires forall i, j | 0 <= i < j < |order| :: order[i] != order[j]
    ensures ImportRun(dir, backup, withCerts, order, run) && run[0] == fs
    decreases |order|
  {
    if order == [] {
      run := [fs];
    } else {
      var n := |order| - 1;
      var raw := order[n];
      var front := RunExists(dir, fs, backup, withCerts, order[..n]);
      TargetIsInside(dir, raw);
      var data := backup[raw];
      if raw == ["config.json"] {
        forall j | 0 <= j < n ensures Spares(order[..n][j], raw) { assert order[j] in backup; TmpShape(order[j]); }
        StepsLeave(dir, backup, withCerts, order[..n], front, 0, n, raw);
        data := MergeOf(At(fs, raw), data, withCerts).content;
      }
      var last := if raw == ["sdn", "config.json"] then Drafted(front[n], data)
        else if IsSdn(raw) then front[n] else Placed(front[n], raw, data);
      assert DataFor(front[n], raw, backup[raw], withCerts, data);
      assert WriteStep(dir, front[n], raw, backup[raw], withCerts, last);
      run := front + [last];
      Extended(dir, backup, withCerts, order, front, last);
    }
  }

  lemma Extended(dir: Path, backup: Files, withCerts: bool, order: seq<Path>, front: seq<Files>, last: Files)
    requires order != [] && ImportRun(dir, backup, withCerts, order[..|order| - 1], front)
      && order[|order| - 1] in backup
    requires WriteStep(dir, front[|order| - 1], order[|order| - 1], backup[order[|order| - 1]], withCerts, last)
    ensures ImportRun(dir, backup, withCerts, order, front + [last])
  {}

  function ToEnd(order: seq<Path>, k: nat): (moved: seq<Path>)
    requires k < |order|
    ensures |moved| == |order| && moved[|order| - 1] == order[k]
  {
    order[..k] + order[k + 1..] + [order[k]]
  }

  function PlaceBefore(n: nat, k: nat, i: nat): (j: nat)
    requires k < n && i < n
    ensures j < n
  {
    if i < k then i else if i < n - 1 then i + 1 else k
  }

  lemma ToEndAt(order: seq<Path>, k: nat, i: nat)
    requires k < |order| && i < |order|
    ensures ToEnd(order, k)[i] == order[PlaceBefore(|order|, k, i)]
  {}

  lemma StillOnce(order: seq<Path>, k: nat)
    requires k < |order| && forall i, j | 0 <= i < j < |order| :: order[i] != order[j]
    ensures forall i, j | 0 <= i < j < |order| :: ToEnd(order, k)[i] != ToEnd(order, k)[j]
  {}

  /** An ordinary file can be written last. */
  lemma MovedLast(backup: Files, order: seq<Path>, k: nat)
    requires ImportOrder(backup, order) && k < |order| && !IsKey(order[k])
    ensures ImportOrder(backup, ToEnd(order, k))
  {
    var moved := ToEnd(order, k);
    forall i | 0 <= i < |moved| && !IsKey(moved[i]) ensures KeysDone(backup, moved, i) {
      KeysEarly(backup, order, k, i);
    }
    StillOnce(order, k);
  }

  ghost predicate Named(backup: Files, order: seq<Path>) {
    forall i | 0 <= i < |order| :: order[i] in backup
  }

  lemma StillAll(backup: Files, order: seq<Path>, k: nat)
    requires Complete(backup, order) && Named(backup, order) && k < |order|
    ensures Complete(backup, ToEnd(order, k)) && Named(backup, ToEnd(order, k))
  {}

  lemma KeysEarly(backup: Files, order: seq<Path>, k: nat, i: nat)
    requires ImportOrder(backup, order) && k < |order| && !IsKey(order[k]) && i < |order| && !IsKey(ToEnd(order, k)[i])
    ensures KeysDone(backup, ToEnd(order, k), i)
  {
    var first := if i < k then i else k;
    ToEndAt(order, k, i);
    assert KeysDone(backup, order, first);
    forall raw | raw in backup && IsKey(raw) ensures Written(ToEnd(order, k), i, raw) {
      assert Written(order, first, raw);
      var j :| 0 <= j < first && order[j] == raw;
      ToEndAt(order, k, j);
    }
  }

  lemma {:induction false} Listing(names: set<Path>) returns (s: seq<Path>)
    ensures forall n :: n in s <==> n in names
    ensures forall i, j | 0 <= i < j < |s| :: s[i] != s[j]
    decreases |names|
  {
    if names == {} {
      s := [];
    } else {
      var n :| n in names;
      var rest := Listing(names - {n});
      s := rest + [n];
    }
  }

  /** The key files in any order, and then the others. */
  lemma SomeOrder(backup: Files) returns (order: seq<Path>)
    ensures ImportOrder(backup, order) && Complete(backup, order) && Named(backup, order)
  {
    var keys := Listing(set n | n in backup && IsKey(n));
    var rest := Listing(set n | n in backup && !IsKey(n));
    order := keys + rest;
    forall raw | raw in backup ensures raw in order {
      if IsKey(raw) { assert raw in keys; } else { assert raw in rest; }
    }
    forall i | 0 <= i < |order| ensures order[i] in backup {
      if i < |keys| { assert keys[i] in keys; } else { assert rest[i - |keys|] in rest; }
    }
    KeysFirst(backup, keys, rest);
  }

  lemma KeysFirst(backup: Files, keys: seq<Path>, rest: seq<Path>)
    requires forall n :: n in keys <==> n in backup && IsKey(n)
    requires forall n :: n in rest <==> n in backup && !IsKey(n)
    requires forall i, j | 0 <= i < j < |keys| :: keys[i] != keys[j]
    requires forall i, j | 0 <= i < j < |rest| :: rest[i] != rest[j]
    ensures ImportOrder(backup, keys + rest)
  {
    var order := keys + rest;
    assert forall i | 0 <= i < |keys| :: order[i] in keys;
    assert forall i | |keys| <= i < |order| :: order[i] in rest;
    forall i | 0 <= i < |order| && !IsKey(order[i]) ensures KeysDone(backup, order, i) {
      forall raw | raw in backup && IsKey(raw) ensures Written(order, i, raw) {
        var j :| 0 <= j < |keys| && keys[j] == raw;
        assert order[j] == raw;
      }
    }
  }

  /** Some order loses a file whose temporary twin is in the backup. */
  lemma LosesOne(
    dir: Path, fs: Files, backup: Files, withCerts: bool, p: Path) returns (order: seq<Path>, run: seq<Files>)
    requires ProperNames(backup) && Proper(dir) && Mergeable(fs, backup, withCerts)
    requires p in backup && !IsSdn(p) && !IsKey(p) && Tmp(p) in backup
    ensures ImportOrder(backup, order) && Complete(backup, order) && ImportRun(dir, backup, withCerts, order, run)
      && run[0] == fs
    ensures !Carried(fs, backup, withCerts, run[|order|]) && p != [] && Tmp(p) !in run[|order|]
  {
    var some := SomeOrder(backup);
    order := LastOrder(backup, some, p);
    run := RunExists(dir, fs, backup, withCerts, order);
    LastTakes(dir, backup, withCerts, order, run);
    assert !Arrived(fs, backup, withCerts, Tmp(p), run[|order|]);
    TmpShape(p);
  }

  lemma LastTakes(dir: Path, backup: Files, withCerts: bool, order: seq<Path>, run: seq<Files>)
    requires ProperNames(backup) && Proper(dir) && ImportRun(dir, backup, withCerts, order, run)
    requires order != [] && !IsSdn(order[|order| - 1])
    ensures order[|order| - 1] != [] && Tmp(order[|order| - 1]) !in run[|order|]
  {
    var k := |order| - 1;
    assert order[k] in backup;
    StepTakes(dir, run[k], order[k], backup[order[k]], withCerts, run[k + 1]);
  }

  lemma LastOrder(backup: Files, some: seq<Path>, p: Path) returns (order: seq<Path>)
    requires ImportOrder(backup, some) && Complete(backup, some) && Named(backup, some)
    requires p in backup && !IsKey(p)
    ensures ImportOrder(backup, order) && Complete(backup, order) && Named(backup, order)
    ensures order != [] && order[|order| - 1] == p
  {
    var k :| 0 <= k < |some| && some[k] == p;
    order := ToEnd(some, k);
    MovedLast(backup, some, k);
    StillAll(backup, some, k);
  }

  /** An import delivers every file of a backup, whichever order it takes, exactly if no ordinary
      file of the backup has beside it one with its temporary name. */
  lemma ImportCarriesIff(dir: Path, fs: Files, backup: Files, withCerts: bool)
    requires ProperNames(backup) && Proper(dir) && Mergeable(fs, backup, withCerts)
    ensures Safe(backup) <==> forall order, run |
      ImportOrder(backup, order) && Complete(backup, order) && ImportRun(dir, backup, withCerts, order, run)
        && run[0] == fs ::
      Carried(fs, backup, withCerts, run[|order|])
  {
    if Safe(backup) {
      forall order, run | ImportOrder(backup, order) && Complete(backup, order)
        && ImportRun(dir, backup, withCerts, order, run) && run[0] == fs
        ensures Carried(fs, backup, withCerts, run[|order|])
      {
        ImportCarries(dir, backup, withCerts, order, run);
      }
    } else {
      var p :| p in backup && p != [] && !IsSdn(p) && !IsKey(p) && Tmp(p) in backup;
      var order, run := LosesOne(dir, fs, backup, withCerts, p);
    }
  }

  // ---- a server's own export ----

  /** A leftover temporary file travels with the file it belongs to. */
  lemma TmpExported(p: Path, opts: ExportOptions)
    requires Exported(p, opts) && !IsSdn(p)
    ensures Exported(Tmp(p), opts)
  {
    var n := |p| - 1;
    TmpShape(p);
    TmpName(p[n]);
    SdnLocalPaths(Tmp(p));
    forall k | 0 <= k < n ensures !SkipsDir(Tmp(p), k, opts) {
      assert Tmp(p)[k] == p[k] && Tmp(p)[0] == p[0] && !SkipsDir(p, k, opts);
    }
  }

  lemma SdnLocalPaths(p: Path)
    ensures p in SDN_LOCAL ==> IsSdn(p)
  {}

  lemma NoSuffix(s: string, suffix: string, k: nat)
    requires k < |suffix| <= |s| && s[|s| - |suffix| + k] != suffix[k]
    ensures !HasSuffix(s, suffix)
  {}

  lemma TmpName(name: string)
    ensures !HasSuffix(name + ".import-tmp", ".tmp") && !HasSuffix(name + ".import-tmp", ".rrd.json")
    ensures name + ".import-tmp" !in SKIP_NAMES && name + ".import-tmp" != "audit.log"
  {
    var t := name + ".import-tmp";
    assert t[|t| - 1] == 'p' && t[|t| - 4] == '-';
    NoSuffix(t, ".tmp", 0);
    NoSuffix(t, ".rrd.json", 8);
  }

  /** A server that imports its own fresh export keeps all its files outside sdn/ as they are,
      unless an earlier import has left a temporary file beside an ordinary one. */
  lemma OwnExportIsIdentity(
    dir: Path, fs: Files, opts: ExportOptions, backup: Files, order: seq<Path>, run: seq<Files>, p: Path)
    requires ProperNames(fs) && Proper(dir) && IsExport(fs, opts, backup) && Safe(backup)
    requires ImportRun(dir, backup, opts.certs, order, run) && run[0] == fs
    requires ImportOrder(backup, order) && Complete(backup, order) && p !in SDN_IMPORTED
    ensures At(run[|order|], p) == At(fs, p)
  {
    forall q | q in backup
      ensures q in fs && backup[q] == fs[q] && Exported(q, opts) { assert At(backup, q) == At(fs, q); }
    if p in backup && !IsSdn(p) {
      ImportCarries(dir, backup, opts.certs, order, run);
      assert Arrived(fs, backup, opts.certs, p, run[|order|]);
      MergeWithItself(backup[p], opts.certs);
    } else if exists q :: q in backup && !IsSdn(q) && Tmp(q) == p {
      var q :| q in backup && !IsSdn(q) && Tmp(q) == p;
      TmpShape(q);
      TmpExported(q, opts);
      assert At(backup, p) == At(fs, p);
      TmpGone(dir, backup, opts.certs, order, run, q);
    } else {
      OthersStay(dir, backup, opts.certs, order, run, p);
    }
  }

  ghost predicate SameOutsideSdn(fs: Files, fs': Files) {
    forall p | p !in SDN_IMPORTED :: At(fs', p) == At(fs, p)
  }

  lemma OwnExportStays(
    dir: Path, fs: Files, opts: ExportOptions, backup: Files, order: seq<Path>, run: seq<Files>)
    requires ProperNames(fs) && Proper(dir) && IsExport(fs, opts, backup) && ProperNames(backup) && Safe(backup)
    requires ImportRun(dir, backup, opts.certs, order, run) && run[0] == fs
    requires ImportOrder(backup, order) && Complete(backup, order)
    ensures SameOutsideSdn(fs, run[|order|])
  {
    forall p | p !in SDN_IMPORTED ensures At(run[|order|], p) == At(fs, p) {
      OwnExportIsIdentity(dir, fs, opts, backup, order, run, p);
    }
  }

  /** It keeps them in every order if and only if there is no such temporary file. */
  lemma OwnExportIsIdentityIff(dir: Path, fs: Files, opts: ExportOptions, backup: Files)
    requires ProperNames(fs) && Proper(dir) && IsExport(fs, opts, backup) && Mergeable(fs, backup, opts.certs)
    ensures Safe(backup) <==> forall order, run |
      ImportOrder(backup, order) && Complete(backup, order) && ImportRun(dir, backup, opts.certs, order, run)
        && run[0] == fs ::
      SameOutsideSdn(fs, run[|order|])
  {
    forall q | q in backup ensures q in fs { assert At(backup, q) == At(fs, q); }
    if Safe(backup) {
      forall order, run | ImportOrder(backup, order) && Complete(backup, order)
        && ImportRun(dir, backup, opts.certs, order, run) && run[0] == fs
        ensures SameOutsideSdn(fs, run[|order|])
      {
        OwnExportStays(dir, fs, opts, backup, order, run);
      }
    } else {
      var p :| p in backup && p != [] && !IsSdn(p) && !IsKey(p) && Tmp(p) in backup;
      var order, run := LosesOne(dir, fs, backup, opts.certs, p);
      TmpIsNotSdn(p);
      assert At(run[|order|], Tmp(p)) == None && At(fs, Tmp(p)).Some?;
    }
  }

  /** No temporary file is left, unless the backup itself has one. */
  lemma TmpGone(dir: Path, backup: Files, withCerts: bool, order: seq<Path>, run: seq<Files>, q: Path)
    requires ProperNames(backup) && Proper(dir) && ImportRun(dir, backup, withCerts, order, run)
    requires Complete(backup, order) && q in backup && !IsSdn(q) && q != [] && Tmp(q) !in backup
    ensures Tmp(q) !in run[|order|]
  {
    var i :| 0 <= i < |order| && order[i] == q;
    StepTakes(dir, run[i], q, backup[q], withCerts, run[i + 1]);
    TmpIsNotSdn(q);
    StaysGone(dir, backup, withCerts, order, run, i + 1, |order|, Tmp(q));
  }

  lemma TmpIsNotSdn(p: Path)
    requires p != [] && !IsSdn(p)
    ensures Tmp(p) !in SDN_IMPORTED
  {
    TmpShape(p);
  }

  lemma StepStaysGone(dir: Path, fs: Files, raw: Path, content: Content, withCerts: bool, fs': Files, p: Path)
    requires Proper(dir) && Proper(raw) && raw != [] && WriteStep(dir, fs, raw, content, withCerts, fs')
    requires p !in fs && raw != p && p !in SDN_IMPORTED
    ensures p !in fs'
  {
    TargetIsInside(dir, raw);
    assert At(fs, p) == None;
  }

  lemma {:induction false} StaysGone(
    dir: Path, backup: Files, withCerts: bool, order: seq<Path>, run: seq<Files>, i: nat, k: nat, p: Path)
    requires ProperNames(backup) && Proper(dir) && ImportRun(dir, backup, withCerts, order, run) && i <= k <= |order|
    requires p !in run[i] && p !in backup && p !in SDN_IMPORTED
    ensures p !in run[k]
    decreases k
  {
    if i < k {
      StaysGone(dir, backup, withCerts, order, run, i, k - 1, p);
      assert order[k - 1] in backup;
      StepStaysGone(dir, run[k - 1], order[k - 1], backup[order[k - 1]], withCerts, run[k], p);
    }
  }
}
