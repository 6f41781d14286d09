/** The settings directory as a map from paths to contents, and what export, import and rollback
    (handlers/backup.go) do to it. */
module ConfigFiles {
  import opened Options

  /** A path is its components below the settings directory. */
  type Path = seq<string>

  /** JSON texts are compared up to formatting. */
  datatype Content = Object(keys: map<string, string>) | Null | Other(bytes: string)

  type Files = map<Path, Content>

  function At(fs: Files, p: Path): Option<Content> {
    if p in fs then Some(fs[p]) else None
  }

  predicate HasPrefix(s: string, prefix: string) {
    |prefix| <= |s| && s[..|prefix|] == prefix
  }

  predicate HasSuffix(s: string, suffix: string) {
    |suffix| <= |s| && s[|s| - |suffix|..] == suffix
  }

  function Name(p: Path): string {
    if p == [] then "" else p[|p| - 1]
  }

  const SKIP_NAMES: set<string> :=
    {"session.key", "sessions.json.enc", "smart_cache.json", "updates_cache.json", "lxc.log", "qemu.log"}
  const SKIP_DIRS: set<string> := {"folder_usage", "lxd_metrics", "sdn-history"}
  const PRE_IMPORT: string := ".pre-import-"
  const LOCAL_KEYS: set<string> :=
    {"port", "bind_port_443", "smart_last_refresh", "version_check_cache", "pending_cert_restart",
     "sudoers_hardening_enabled", "sudoers_silenced_lines", "sudoers_silenced_missing", "sudoers_silenced_extra",
     "sudoers_applied_hash", "sudoers_applied_content", "interlink_relay_mode"}
  const SDN_LOCAL: set<Path> :=
    {["sdn", "state.json"], ["sdn", "pending.json"], ["sdn", "revert.json"], ["sdn", "draft.json"],
     ["sdn", "ids-state.json"], ["sdn", "restored.json"]}
  const SDN_IMPORTED: set<Path> := {["sdn", "config.json"], ["sdn", "draft.json"], ["sdn", "restored.json"]}

  // ---- export ----

  datatype ExportOptions = ExportOptions(charts: bool, audit: bool, certs: bool)

  /** The walk does not enter the directory p[..k + 1]. */
  predicate SkipsDir(p: Path, k: nat, opts: ExportOptions)
    requires k < |p|
  {
    p[0] in SKIP_DIRS || HasPrefix(p[0], PRE_IMPORT) || HasPrefix(p[k], ".") || (p[0] == "certs" && !opts.certs)
  }

  /** collectConfigFiles puts the regular file `p` in the backup. */
  predicate Exported(p: Path, opts: ExportOptions) {
    && p != []
    && (forall k | 0 <= k < |p| - 1 :: !SkipsDir(p, k, opts))
    && Name(p) !in SKIP_NAMES && !HasSuffix(Name(p), ".tmp")
    && (Name(p) == "audit.log" ==> opts.audit)
    && (HasSuffix(Name(p), ".rrd.json") ==> opts.charts)
    && p !in SDN_LOCAL
  }

  ghost predicate IsExport(fs: Files, opts: ExportOptions, backup: Files) {
    forall p :: At(backup, p) == if Exported(p, opts) then At(fs, p) else None
  }

  // ---- merging config.json ----

  datatype Merge = Merged(content: Content) | Unreadable | Crash

  function KeptKeys(withCerts: bool): set<string> {
    if withCerts then LOCAL_KEYS else LOCAL_KEYS + {"active_cert_name"}
  }

  function KeysOf(local: Option<Content>): map<string, string> {
    if local.Some? && local.value.Object? then local.value.keys else map[]
  }

  /** The kept keys come from this machine, present or absent, and all others from the backup. */
  function MergedKeys(
    local: map<string, string>, incoming: map<string, string>, kept: set<string>): map<string, string> {
    map k | k in local.Keys + incoming.Keys && (if k in kept then k in local else k in incoming) ::
      if k in kept then local[k] else incoming[k]
  }

  /** A backup whose config.json is the JSON null leaves a nil map, and storing a kept key in it crashes. */
  ghost function MergeOf(local: Option<Content>, incoming: Content, withCerts: bool): Merge {
    match incoming
    case Other(_) => Unreadable
    case Object(keys) => Merged(Object(MergedKeys(KeysOf(local), keys, KeptKeys(withCerts))))
    case Null => if exists k :: k in KeptKeys(withCerts) && k in KeysOf(local) then Crash else Merged(Null)
  }

  /** Merging a configuration with itself changes nothing. */
  lemma MergeWithItself(c: Content, withCerts: bool)
    ensures MergeOf(Some(c), c, withCerts) == if c.Other? then Unreadable else Merged(c)
  {}

  // ---- import ----

  function Enter(dir: Path, name: string): Path {
    if name == "" || name == "." then dir
    else if name != ".." then dir + [name]
    else if dir == [] then []
    else dir[..|dir| - 1]
  }

  /** filepath.Clean of `raw` below the absolute path `dir`. */
  function CleanInto(dir: Path, raw: Path): Path
    decreases |raw|
  {
    if raw == [] then dir else CleanInto(Enter(dir, raw[0]), raw[1..])
  }

  /** Where the name `raw` of the backup is written, if that is below the settings directory. */
  function Target(dir: Path, raw: Path): Option<Path> {
    var c := CleanInto(dir, raw);
    if |dir| < |c| && c[..|dir|] == dir then Some(c[|dir|..]) else None
  }

  predicate Proper(p: Path) {
    forall i | 0 <= i < |p| :: p[i] != "" && p[i] != "." && p[i] != ".."
  }

  lemma {:induction false} CleanOfProper(dir: Path, p: Path)
    requires Proper(p)
    ensures CleanInto(dir, p) == dir + p
    decreases |p|
  {
    if p != [] {
      CleanOfProper(dir + [p[0]], p[1..]);
      assert dir + [p[0]] + p[1..] == dir + p;
    } else {
      assert dir + p == dir;
    }
  }

  lemma {:induction false} CleanIsProper(dir: Path, raw: Path)
    requires Proper(dir)
    ensures Proper(CleanInto(dir, raw))
    decreases |raw|
  {
    if raw != [] {
      CleanIsProper(Enter(dir, raw[0]), raw[1..]);
    }
  }

  /** Whatever a backup names its files, a write stays below the settings directory; proper names stay as they are. */
  lemma TargetIsInside(dir: Path, raw: Path)
    requires Proper(dir)
    ensures Target(dir, raw).Some? ==> Target(dir, raw).value != [] && Proper(Target(dir, raw).value)
    ensures Proper(raw) && raw != [] ==> Target(dir, raw) == Some(raw)
  {
    CleanIsProper(dir, raw);
    if Proper(raw) { CleanOfProper(dir, raw); }
  }

  predicate IsKey(raw: Path) {
    HasSuffix(Name(raw), ".key")
  }

  predicate IsSdn(raw: Path) {
    |raw| > 1 && (raw[0] == "sdn" || raw[0] == "sdn-history")
  }

  /** The name a file is first written under. */
  function Tmp(p: Path): Path
    requires p != []
  {
    p[..|p| - 1] + [p[|p| - 1] + ".import-tmp"]
  }

  /** A write to the temporary name and a rename. */
  function Placed(fs: Files, p: Path, data: Content): Files
    requires p != []
  {
    (fs - {Tmp(p)})[p := data]
  }

  /** The firewall store takes the imported configuration: with the firewall off as the confirmed one, with a
      fresh draft and a mark that it was restored; with the firewall on as a draft. */
  ghost predicate SdnImport(fs: Files, fs': Files) {
    && ["sdn", "draft.json"] in fs'
    && (forall p | p !in SDN_IMPORTED :: At(fs', p) == At(fs, p))
    && (|| (["sdn", "config.json"] in fs' && ["sdn", "restored.json"] in fs')
        || (At(fs', ["sdn", "config.json"]) == At(fs, ["sdn", "config.json"])
            && At(fs', ["sdn", "restored.json"]) == At(fs, ["sdn", "restored.json"])))
  }

  /** What is written for `raw`: the content in the backup, merged for config.json. */
  ghost predicate DataFor(fs: Files, raw: Path, content: Content, withCerts: bool, data: Content) {
    if raw == ["config.json"] then MergeOf(At(fs, ["config.json"]), content, withCerts) == Merged(data)
    else data == content
  }

  /** One file of the backup is written. */
  ghost predicate WriteStep(dir: Path, fs: Files, raw: Path, content: Content, withCerts: bool, fs': Files) {
    if IsSdn(raw) then if raw == ["sdn", "config.json"] then SdnImport(fs, fs') else fs' == fs
    else
      && Target(dir, raw).Some? && Target(dir, raw).value != []
      && exists data :: DataFor(fs, raw, content, withCerts, data) && fs' == Placed(fs, Target(dir, raw).value, data)
  }

  /** The states of an import that writes `order`. */
  ghost predicate ImportRun(dir: Path, backup: Files, withCerts: bool, order: seq<Path>, run: seq<Files>) {
    && |run| == |order| + 1
    && (forall i | 0 <= i < |order| :: order[i] in backup)
    && (forall i | 0 <= i < |order| :: WriteStep(dir, run[i], order[i], backup[order[i]], withCerts, run[i + 1]))
  }

  /** Each file at most once, and no ordinary file while a key file is pending. */
  ghost predicate ImportOrder(backup: Files, order: seq<Path>) {
    && (forall i, j | 0 <= i < j < |order| :: order[i] != order[j])
    && (forall i | 0 <= i < |order| && !IsKey(order[i]) :: KeysDone(backup, order, i))
  }

  ghost predicate Written(order: seq<Path>, i: nat, raw: Path)
    requires i <= |order|
  {
    exists j :: 0 <= j < i && order[j] == raw
  }

  ghost predicate KeysDone(backup: Files, order: seq<Path>, i: nat)
    requires i <= |order|
  {
    forall raw | raw in backup && IsKey(raw) :: Written(order, i, raw)
  }

  /** The file that an import may take after those of `order`. */
  ghost predicate IsNextFile(backup: Files, order: seq<Path>, raw: Path) {
    raw in backup && raw !in order && (IsKey(raw) || forall n | n in backup && IsKey(n) :: n in order)
  }

  ghost predicate Complete(backup: Files, order: seq<Path>) {
    forall raw | raw in backup :: raw in order
  }

  /** What a failing write of `raw` cannot have touched. */
  predicate Bystander(dir: Path, raw: Path, q: Path) {
    if IsSdn(raw) then q !in SDN_IMPORTED
    else Target(dir, raw).Some? && Target(dir, raw).value != [] ==> q != Tmp(Target(dir, raw).value)
  }

  /** A write of `raw` has failed half-way. */
  ghost predicate BrokenOff(dir: Path, raw: Path, fs: Files, fs': Files) {
    forall q | Bystander(dir, raw, q) :: At(fs', q) == At(fs, q)
  }

  // ---- the copy rollback goes back to ----

  /** The order of Go's strings. */
  predicate Less(a: string, b: string) {
    b != "" && (a == "" || a[0] < b[0] || (a[0] == b[0] && Less(a[1..], b[1..])))
  }

  lemma {:induction false} LessIsIrreflexive(a: string)
    ensures !Less(a, a)
    decreases |a|
  {
    if a != "" { LessIsIrreflexive(a[1..]); }
  }

  lemma {:induction false} LessIsTransitive(a: string, b: string, c: string)
    requires Less(a, b) && Less(b, c)
    ensures Less(a, c)
    decreases |a|
  {
    if a != "" && a[0] == b[0] == c[0] { LessIsTransitive(a[1..], b[1..], c[1..]); }
  }

  lemma {:induction false} LessIsTotal(a: string, b: string)
    ensures Less(a, b) || a == b || Less(b, a)
    decreases |a|
  {
    if a != "" && b != "" && a[0] == b[0] {
      LessIsTotal(a[1..], b[1..]);
      assert a == [a[0]] + a[1..] && b == [b[0]] + b[1..];
    }
  }

  /** The first place where two names differ decides: of two times written in the same way the later is greater. */
  lemma {:induction false} LessAtDifference(a: string, b: string, i: nat)
    requires i < |a| && i < |b| && a[..i] == b[..i] && a[i] != b[i]
    ensures Less(a, b) <==> a[i] < b[i]
    decreases i
  {
    if i > 0 {
      assert a[0] == a[..i][0] && b[0] == b[..i][0];
      assert a[1..][..i - 1] == a[..i][1..] && b[1..][..i - 1] == b[..i][1..];
      LessAtDifference(a[1..], b[1..], i - 1);
    }
  }

  lemma {:induction false} ShorterIsLess(a: string, rest: string)
    requires rest != ""
    ensures Less(a, a + rest)
    decreases |a|
  {
    if a == "" {
      assert a + rest == rest;
    } else {
      assert (a + rest)[1..] == a[1..] + rest;
      ShorterIsLess(a[1..], rest);
    }
  }

  /** The file is below a directory at the top that has the name of a copy. */
  predicate InCopy(f: Path) {
    |f| > 1 && HasPrefix(f[0], PRE_IMPORT)
  }

  ghost predicate HasCopy(fs: Files, name: string) {
    exists f :: f in fs && InCopy(f) && f[0] == name
  }

  /** Of the directories with the name of a copy, the one with the greatest. */
  ghost predicate IsLatest(fs: Files, name: string) {
    HasCopy(fs, name) && forall f | f in fs && InCopy(f) :: !Less(name, f[0])
  }

  lemma LatestIsUnique(fs: Files, x: string, y: string)
    requires IsLatest(fs, x) && IsLatest(fs, y)
    ensures x == y
  {
    LessIsTotal(x, y);
  }

  // ---- rollback ----

  /** The file is in an older copy, which a copy skips. */
  predicate InOldCopy(p: Path) {
    exists k :: 0 <= k < |p| - 1 && HasPrefix(p[k], PRE_IMPORT)
  }

  /** copyDir into the directory `snap`: what is at `p` afterwards. */
  function CopiedAt(fs: Files, snap: string, p: Path): Option<Content> {
    if |p| > 1 && p[0] == snap && p[1..] in fs && !InOldCopy(p[1..]) then Some(fs[p[1..]]) else At(fs, p)
  }

  ghost predicate IsCopy(fs: Files, snap: string, fs': Files) {
    forall p :: At(fs', p) == CopiedAt(fs, snap, p)
  }

  predicate KeptLive(p: Path) {
    |p| == 1 && p[0] in SKIP_NAMES
  }

  /** A settings file at the top that rollback removes if the copy does not have it. */
  predicate TopSetting(p: Path) {
    |p| == 1 && HasSuffix(p[0], ".json") && p[0] !in SKIP_NAMES
  }

  predicate Removable(p: Path) {
    TopSetting(p) || p in SDN_IMPORTED
  }

  /** restoreSnapshot from the directory `snap`: what is at `p` afterwards. */
  function RestoredAt(fs: Files, snap: string, p: Path): Option<Content> {
    if p != [] && [snap] + p in fs && !KeptLive(p) then Some(fs[[snap] + p])
    else if Removable(p) && [snap] + p !in fs then None
    else At(fs, p)
  }

  /** The path without the copies it leads into. */
  function Strip(snap: string, p: Path): Path
    decreases |p|
  {
    if p != [] && p[0] == snap then Strip(snap, p[1..]) else p
  }

  /** A file in a copy inside the copy, which would be put back into the copy first. */
  predicate IsNestedOf(snap: string, f: Path, p: Path) {
    |f| > 1 && f[0] == snap && f[1] == snap && Strip(snap, f) == p
  }

  /** A path outside the copy with no file nested for it. */
  ghost predicate Plain(fs: Files, snap: string, p: Path) {
    p != [] && p[0] != snap && forall f | f in fs :: !IsNestedOf(snap, f, p)
  }

  ghost predicate IsRestored(fs: Files, snap: string, fs': Files) {
    forall p | Plain(fs, snap, p) :: At(fs', p) == RestoredAt(fs, snap, p)
  }

  /** HandleBackupRollback: back to the latest copy. */
  ghost predicate IsRolledBack(fs: Files, fs': Files) {
    exists name :: IsLatest(fs, name) && IsRestored(fs, name, fs')
  }

  /** No file below the directory `snap`. */
  ghost predicate Fresh(fs: Files, snap: string) {
    forall p | p in fs :: p != [] && p[0] != snap
  }
}
