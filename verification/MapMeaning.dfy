/** What the storage map says about a host, without the tables it is made with. */
module MapMeaning {
  import opened Options
  import opened MapPaths
  import opened MapTopology
  import opened MapBuilder
  import opened MapDocument

  // ---- datasets and mountpoints ----

  /** The last volume with a name or a mountpoint is the one found under it. */
  ghost predicate IsLastAt(volumes: seq<Volume>, i: int, mountpoint: string) {
    0 <= i < |volumes| && volumes[i].mountpoint == mountpoint
      && forall j | i < j < |volumes| :: volumes[j].mountpoint != mountpoint
  }

  lemma {:induction false} DatasetsByMount(volumes: seq<Volume>, mountpoint: string, i: int)
    requires IsLastAt(volumes, i, mountpoint) && mountpoint !in {"", "none", "legacy"}
    ensures mountpoint in ByMount(volumes) && ByMount(volumes)[mountpoint] == "ds:" + volumes[i].name
    decreases |volumes|
  {
    var n := |volumes| - 1;
    if i < n { DatasetsByMount(volumes[..n], mountpoint, i); }
  }

  lemma {:induction false} OnlyMountpoints(volumes: seq<Volume>, mountpoint: string)
    requires mountpoint in {"", "none", "legacy"} || forall v | v in volumes :: v.mountpoint != mountpoint
    ensures mountpoint !in ByMount(volumes)
    decreases |volumes|
  {
    if volumes != [] { OnlyMountpoints(volumes[..|volumes| - 1], mountpoint); }
  }

  lemma {:induction false} DatasetsByName(volumes: seq<Volume>, name: string)
    ensures name in ByName(volumes) <==> exists v :: v in volumes && v.name == name
    ensures name in ByName(volumes) ==> ByName(volumes)[name] == "ds:" + name
    decreases |volumes|
  {
    if volumes != [] {
      var n := |volumes| - 1;
      DatasetsByName(volumes[..n], name);
      assert volumes == volumes[..n] + [volumes[n]];
    }
  }

  lemma DatasetsInOrder(volumes: seq<Volume>, i: nat)
    requires i < |volumes|
    ensures |DatasetsOf(volumes)| == |volumes|
    ensures DatasetsOf(volumes)[i].id == "ds:" + volumes[i].name && DatasetsOf(volumes)[i].name == volumes[i].name
  {}

  lemma {:induction false} UnionsByMount(unions: seq<Merged>, i: nat)
    requires i < |unions| && unions[i].mountpoint != ""
    requires forall j | i < j < |unions| :: unions[j].mountpoint != unions[i].mountpoint
    ensures unions[i].mountpoint in ByUnion(unions) && ByUnion(unions)[unions[i].mountpoint] == "mfs:" + unions[i].name
    decreases |unions|
  {
    var n := |unions| - 1;
    if i < n { UnionsByMount(unions[..n], i); }
  }

  lemma {:induction false} OnlyUnions(unions: seq<Merged>, mountpoint: string)
    requires mountpoint == "" || forall u | u in unions :: u.mountpoint != mountpoint
    ensures mountpoint !in ByUnion(unions)
    decreases |unions|
  {
    if unions != [] { OnlyUnions(unions[..|unions| - 1], mountpoint); }
  }

  // ---- sessions ----

  /** The clients dispatched are the sessions of the shares, each with its share, its address and its name. */
  lemma {:induction false} EverySession(shares: seq<Share>, i: nat, j: nat)
    requires i < |shares| && j < |shares[i].sessions|
    ensures exists k :: (0 <= k < |Sessions(shares)| && Sessions(shares)[k].consumerID == shares[i].id
      && Sessions(shares)[k].ip == shares[i].sessions[j].ip && Sessions(shares)[k].fqdn == shares[i].sessions[j].fqdn)
    decreases |shares|
  {
    var n := |shares| - 1;
    var front := Sessions(shares[..n]);
    if i < n {
      EverySession(shares[..n], i, j);
      var k :| 0 <= k < |front| && front[k].consumerID == shares[i].id
        && front[k].ip == shares[i].sessions[j].ip && front[k].fqdn == shares[i].sessions[j].fqdn;
      assert Sessions(shares)[k] == front[k];
    } else {
      assert Sessions(shares)[|front| + j] == SessionsOf(shares[n])[j];
    }
  }

  lemma {:induction false} OnlySessions(shares: seq<Share>, k: nat)
    requires k < |Sessions(shares)|
    ensures exists s, j :: (s in shares && 0 <= j < |s.sessions| && Sessions(shares)[k].consumerID == s.id
      && Sessions(shares)[k].ip == s.sessions[j].ip && Sessions(shares)[k].fqdn == s.sessions[j].fqdn)
    decreases |shares|
  {
    var n := |shares| - 1;
    var front := Sessions(shares[..n]);
    if k < |front| {
      OnlySessions(shares[..n], k);
    } else {
      assert shares[n] in shares;
      assert Sessions(shares)[k] == SessionsOf(shares[n])[k - |front|];
    }
  }

  /** In the document, a session of a share is a link of a guest with its address, or else of the remote box for
      its address, and never both. */
  lemma SessionIsLinked(
    host: Host, first: seq<Consumer>, now: seq<Consumer>, remotes: map<string, Remote>, i: nat, j: nat)
    requires AreLinks(host, first, now, remotes)
    requires forall k | 0 <= k < |Sessions(host.shares)| :: LinkedOnce(now, remotes, Sessions(host.shares)[k])
    requires i < |host.shares| && j < |host.shares[i].sessions|
    ensures var share, ip := host.shares[i].id, host.shares[i].sessions[j].ip;
      (exists c :: c in now && c.kind in {"vm", "container"} && c.ip == ip && ip != "" && share in c.clientOf)
      <==> !("client:" + ip in remotes && share in remotes["client:" + ip].consumerIDs)
  {
    EverySession(host.shares, i, j);
    var share, ip := host.shares[i].id, host.shares[i].sessions[j].ip;
    var k :| 0 <= k < |Sessions(host.shares)| && Sessions(host.shares)[k].consumerID == share
      && Sessions(host.shares)[k].ip == ip;
    assert LinkedOnce(now, remotes, Sessions(host.shares)[k]);
    GuestWith(now, ip, share);
    assert IsLateral(now, Sessions(host.shares)[k]) <==>
      exists c :: c in now && c.kind in {"vm", "container"} && c.ip == ip && ip != "" && share in c.clientOf;
  }

  lemma GuestWith(consumers: seq<Consumer>, ip: string, share: string)
    ensures (exists i: nat :: i < |consumers| && IsGuest(consumers[i], ip) && share in consumers[i].clientOf) <==>
      exists c :: c in consumers && c.kind in {"vm", "container"} && c.ip == ip && ip != "" && share in c.clientOf
  {
    if c :| c in consumers && c.kind in {"vm", "container"} && c.ip == ip && ip != "" && share in c.clientOf {
      var i :| 0 <= i < |consumers| && consumers[i] == c;
      assert IsGuest(consumers[i], ip);
    }
  }

  // ---- guests without a disk of their own ----

  /** The pool that stands in is that of the last root disk. */
  lemma {:induction false} LastRootDisk(disks: seq<Disk>, poolSource: map<string, string>, i: nat)
    requires i < |disks| && disks[i].path == "/" && disks[i].pool in poolSource
    requires disks[i].pool != "" || disks[i].source == "" || disks[i].source[0] != '/'
    requires forall j | i < j < |disks| :: disks[j].path != "/" || disks[j].pool !in poolSource
    ensures RootSource(disks, poolSource) == Some(poolSource[disks[i].pool])
    decreases |disks|
  {
    var n := |disks| - 1;
    if i < n { LastRootDisk(disks[..n], poolSource, i); }
  }

  lemma {:induction false} NoRootDisk(disks: seq<Disk>, poolSource: map<string, string>)
    requires forall dk | dk in disks ::
      || dk.path != "/" || dk.pool !in poolSource
      || (dk.pool == "" && dk.source != "" && dk.source[0] == '/')
    ensures RootSource(disks, poolSource) == None
    decreases |disks|
  {
    if disks != [] { NoRootDisk(disks[..|disks| - 1], poolSource); }
  }

  lemma FirstIsMember(s: seq<string>)
    ensures s != [] ==> s[0] in s
  {}

  lemma NoMembers(s: seq<string>)
    requires forall x :: x !in s
    ensures s == []
  {
    FirstIsMember(s);
  }

  /** A guest none of whose disks is backed by a dataset is drawn on the root dataset of its pool. */
  lemma PoolStandsIn(
    c: Consumer, name: string, kind: string, disks: seq<Disk>, poolSource: map<string, string>, ip: string,
    dsByName: map<string, string>, dsByMount: map<string, string>, i: nat)
    requires IsInstance(c, name, kind, disks, poolSource, ip, dsByName, dsByMount)
    requires forall dk, id | dk in disks :: !BacksDisk(dk, name, kind, poolSource, dsByName, dsByMount, Some(id))
    requires i < |disks| && disks[i].path == "/" && disks[i].pool in poolSource && disks[i].pool != ""
    requires forall j | i < j < |disks| :: disks[j].path != "/" || disks[j].pool !in poolSource
    ensures c.id == kind + ":" + name && c.kind == kind && c.ip == ip
    ensures c.datasetIDs == if poolSource[disks[i].pool] in dsByName then [dsByName[poolSource[disks[i].pool]]] else []
  {
    LastRootDisk(disks, poolSource, i);
    var found :| AreDisks(disks, name, kind, poolSource, dsByName, dsByMount, found)
      && c.datasetIDs == WithFallback(found, RootSource(disks, poolSource), dsByName);
    NoMembers(found);
  }

  /** A guest one of whose disks is backed is drawn on what backs its disks and nothing else. */
  lemma GuestOnItsDisks(
    c: Consumer, name: string, kind: string, disks: seq<Disk>, poolSource: map<string, string>, ip: string,
    dsByName: map<string, string>, dsByMount: map<string, string>, dk: Disk)
    requires IsInstance(c, name, kind, disks, poolSource, ip, dsByName, dsByMount)
    requires dk in disks && !BacksDisk(dk, name, kind, poolSource, dsByName, dsByMount, None)
    ensures AreDisks(disks, name, kind, poolSource, dsByName, dsByMount, c.datasetIDs)
    ensures exists id :: id in c.datasetIDs && BacksDisk(dk, name, kind, poolSource, dsByName, dsByMount, Some(id))
  {
    var found :| AreDisks(disks, name, kind, poolSource, dsByName, dsByMount, found)
      && c.datasetIDs == WithFallback(found, RootSource(disks, poolSource), dsByName);
    assert DiskCovered(dk, name, kind, poolSource, dsByName, dsByMount, found);
  }

  /** A branch of a union, and the bucket store, is backed by the dataset of its name, and by the one its path
      lies on only if there is none of that name. */
  lemma NameBeforePath(b: Branch, dsByName: map<string, string>, dsByMount: map<string, string>, id: Option<string>)
    requires Backs(b, dsByName, dsByMount, id)
    ensures b.zfsDataset in dsByName ==> id == Some(dsByName[b.zfsDataset])
    ensures b.zfsDataset !in dsByName && id.Some? ==>
      exists m :: m in dsByMount && Contains(m, b.path) && dsByMount[m] == id.value
    ensures b.zfsDataset !in dsByName && id.None? && TrimSlashes(b.path) != "" ==>
      forall m | m in dsByMount :: !Contains(m, b.path)
  {}
}
