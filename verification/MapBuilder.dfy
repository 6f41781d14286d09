/** The construction of the storage map (buildMapTopology in handlers/map.go), step by step. */
module MapBuilder {
  import opened Options
  import opened MapPaths
  import opened MapTopology

  ghost predicate HasDataset(datasets: seq<Dataset>, id: string) {
    exists d :: d in datasets && d.id == id
  }

  ghost predicate HasUnion(unions: seq<Union>, id: string) {
    exists u :: u in unions && u.id == id
  }

  ghost predicate AllDatasets(datasets: seq<Dataset>, ids: seq<string>) {
    forall id | id in ids :: HasDataset(datasets, id)
  }

  ghost predicate AllUnions(unions: seq<Union>, ids: seq<string>) {
    forall id | id in ids :: HasUnion(unions, id)
  }

  ghost predicate NamesDatasets(datasets: seq<Dataset>, m: map<string, string>) {
    forall k | k in m :: HasDataset(datasets, m[k])
  }

  ghost predicate NamesUnions(unions: seq<Union>, m: map<string, string>) {
    forall k | k in m :: HasUnion(unions, m[k])
  }

  /** Every identifier named in the document is in the document; a consumer is backed by datasets
      or by a union, never by both. */
  ghost predicate Integrity(datasets: seq<Dataset>, unions: seq<Union>, consumers: seq<Consumer>) {
    && (forall u | u in unions :: AllDatasets(datasets, u.datasetIDs))
    && (forall c | c in consumers :: AllDatasets(datasets, c.datasetIDs) && AllUnions(unions, c.mergerfsIDs))
    && (forall c | c in consumers :: c.datasetIDs == [] || c.mergerfsIDs == [])
  }

  /** Some consumer or union names the dataset. */
  ghost predicate Referenced(unions: seq<Union>, consumers: seq<Consumer>, id: string) {
    (exists c :: c in consumers && id in c.datasetIDs) || (exists u :: u in unions && id in u.datasetIDs)
  }

  /** What backs a branch of a union: the dataset of its name, else the one its path lies on, if any. */
  ghost predicate Backs(b: Branch, dsByName: map<string, string>, dsByMount: map<string, string>, id: Option<string>) {
    if b.zfsDataset in dsByName then id == Some(dsByName[b.zfsDataset]) else IsResolved(dsByMount, b.path, id)
  }

  ghost predicate IsCovered(
    b: Branch, dsByName: map<string, string>, dsByMount: map<string, string>, ids: seq<string>) {
    Backs(b, dsByName, dsByMount, None) || exists id :: id in ids && Backs(b, dsByName, dsByMount, Some(id))
  }

  /** A union names exactly what backs its branches, each dataset once. */
  ghost predicate IsUnion(
    u: Union, name: string, mountpoint: string, branches: seq<Branch>, dsByName: map<string, string>,
      dsByMount: map<string, string>) {
    && u.id == "mfs:" + name && u.mountpoint == mountpoint && NoDuplicates(u.datasetIDs)
    && (forall b | b in branches :: IsCovered(b, dsByName, dsByMount, u.datasetIDs))
    && (forall id | id in u.datasetIDs :: exists b :: b in branches && Backs(b, dsByName, dsByMount, Some(id)))
  }

  /** A bucket names the dataset of the object store, found by name, else by path. */
  ghost predicate IsBucket(
    c: Consumer, id: string, store: Branch, dsByName: map<string, string>, dsByMount: map<string, string>) {
    && c == Consumer(id, "s3", c.datasetIDs, [], "", []) && |c.datasetIDs| <= 1
    && Backs(store, dsByName, dsByMount, if c.datasetIDs == [] then None else Some(c.datasetIDs[0]))
  }

  /** What is said to back a share is what serves its path. */
  ghost predicate IsBacked(c: Consumer, dsByMount: map<string, string>, mfsByMount: map<string, string>, path: string) {
    if ServedByUnion(dsByMount, mfsByMount, path) then |c.mergerfsIDs| == 1
      && IsResolved(mfsByMount, path, Some(c.mergerfsIDs[0]))
    else c.mergerfsIDs == [] && IsResolved(dsByMount, path, if c.datasetIDs == [] then None else Some(c.datasetIDs[0]))
  }

  lemma MoreDatasets(datasets: seq<Dataset>, d: Dataset, id: string)
    ensures HasDataset(datasets + [d], id) <==> HasDataset(datasets, id) || d.id == id
  {}

  lemma MoreUnions(unions: seq<Union>, u: Union, id: string)
    ensures HasUnion(unions + [u], id) <==> HasUnion(unions, id) || u.id == id
  {}

  class Builder {
    var datasets: seq<Dataset>
    var unions: seq<Union>
    var consumers: seq<Consumer>
    var remotes: map<string, Remote>
    var dsByName: map<string, string>
    var dsByMount: map<string, string>
    var mfsByMount: map<string, string>

    /** The lookup tables name datasets and unions of the document. */
    ghost predicate Valid()
      reads this
    {
      && Integrity(datasets, unions, consumers)
      && NamesDatasets(datasets, dsByName) && NamesDatasets(datasets, dsByMount) && NamesUnions(unions, mfsByMount)
    }

    constructor ()
      ensures Valid() && datasets == [] && unions == [] && consumers == [] && remotes == map[]
      ensures dsByName == map[] && dsByMount == map[] && mfsByMount == map[]
    {
      datasets, unions, consumers, remotes := [], [], [], map[];
      dsByName, dsByMount, mfsByMount := map[], map[], map[];
    }

    /** One filesystem or, without a mountpoint, one zvol. */
    method AddDataset(name: string, mountpoint: string)
      requires Valid()
      modifies this`datasets, this`dsByName, this`dsByMount
      ensures Valid() && datasets == old(datasets) + [Dataset("ds:" + name, name)]
      ensures dsByName == old(dsByName)[name := "ds:" + name]
      ensures dsByMount == if mountpoint in {"", "none", "legacy"} then old(dsByMount)
        else old(dsByMount)[mountpoint := "ds:" + name]
    {
      var d := Dataset("ds:" + name, name);
      forall id ensures HasDataset(datasets + [d], id)
        <==> HasDataset(datasets, id) || d.id == id { MoreDatasets(datasets, d, id); }
      datasets := datasets + [d];
      dsByName := dsByName[name := d.id];
      if mountpoint != "" && mountpoint != "none" && mountpoint != "legacy" {
        dsByMount := dsByMount[mountpoint := d.id];
      }
    }

    /** The dataset of one branch of a union: by name, else by path. */
    method BranchDataset(b: Branch) returns (id: Option<string>)
      requires Valid()
      ensures id.Some? ==> HasDataset(datasets, id.value)
      ensures Backs(b, dsByName, dsByMount, id)
    {
      if b.zfsDataset in dsByName {
        return Some(dsByName[b.zfsDataset]);
      }
      id := ResolveByPath(dsByMount, b.path);
    }

    /** One union, linked to the datasets of its branches, each once. */
    method AddUnion(name: string, mountpoint: string, branches: seq<Branch>)
      requires Valid()
      modifies this`unions, this`mfsByMount
      ensures Valid() && |unions| == |old(unions)| + 1 && unions[..|old(unions)|] == old(unions)
      ensures IsUnion(unions[|old(unions)|], name, mountpoint, branches, dsByName, dsByMount)
      ensures mfsByMount == if mountpoint == "" then old(mfsByMount) else old(mfsByMount)[mountpoint := "mfs:" + name]
    {
      var ids: seq<string> := [];
      for i := 0 to |branches|
        invariant unchanged(this) && AllDatasets(datasets, ids) && NoDuplicates(ids)
        invariant forall k | 0 <= k < i :: IsCovered(branches[k], dsByName, dsByMount, ids)
        invariant forall id | id in ids :: exists b :: b in branches && Backs(b, dsByName, dsByMount, Some(id))
      {
        var id := BranchDataset(branches[i]);
        assert branches[i] in branches;
        if id.Some? {
          ids := AppendUnique(ids, id.value);
        }
      }
      var u := Union("mfs:" + name, mountpoint, ids);
      forall id ensures HasUnion(unions + [u], id)
        <==> HasUnion(unions, id) || u.id == id { MoreUnions(unions, u, id); }
      unions := unions + [u];
      if mountpoint != "" {
        mfsByMount := mfsByMount[mountpoint := u.id];
      }
    }

    /** A consumer whose backing is known to exist. */
    method AddConsumer(c: Consumer)
      requires Valid() && AllDatasets(datasets, c.datasetIDs) && AllUnions(unions, c.mergerfsIDs)
      requires c.datasetIDs == [] || c.mergerfsIDs == []
      modifies this`consumers
      ensures Valid() && consumers == old(consumers) + [c]
    {
      consumers := consumers + [c];
    }

    /** An SMB or NFS share: on the union its path is served by, else on the dataset it lies on. */
    method AddShare(id: string, kind: string, path: string)
      requires Valid()
      modifies this`consumers
      ensures Valid() && |consumers| == |old(consumers)| + 1 && consumers[..|old(consumers)|] == old(consumers)
      ensures var c := consumers[|old(consumers)|];
        c == Consumer(id, kind, c.datasetIDs, c.mergerfsIDs, "", []) && IsBacked(c, dsByMount, mfsByMount, path)
    {
      var datasetIDs, mergerfsIDs := BackingIDs(dsByMount, mfsByMount, path);
      AddConsumer(Consumer(id, kind, datasetIDs, mergerfsIDs, "", []));
    }

    /** An iSCSI share of a zvol, with its initiators as remote boxes. */
    method AddISCSI(id: string, zvol: string, initiators: seq<string>)
      requires Valid()
      modifies this`consumers, this`remotes
      ensures Valid()
      ensures consumers == old(consumers) + [Consumer(id, "iscsi", if zvol in dsByName then [dsByName[zvol]]
        else [], [], "", [])]
      ensures forall key, share :: Linked(remotes, key, share) <==>
        Linked(old(remotes), key, share)
          || (share == id && exists i :: 0 <= i < |initiators| && key == "iscsi:" + initiators[i])
      ensures NoDoubleLinks(old(consumers), old(remotes)) ==> NoDoubleLinks(consumers, remotes)
      ensures forall key | key in remotes :: key in old(remotes) || StartsWith(key, "iscsi:")
    {
      AddConsumer(Consumer(id, "iscsi", if zvol in dsByName then [dsByName[zvol]] else [], [], "", []));
      ghost var linked := consumers;
      for i := 0 to |initiators|
        invariant Valid() && consumers == linked
        invariant NoDoubleLinks(old(consumers), old(remotes)) ==> NoDoubleLinks(consumers, remotes)
        invariant forall key | key in remotes :: key in old(remotes) || StartsWith(key, "iscsi:")
        invariant forall key, share :: Linked(remotes, key, share) <==>
          Linked(old(remotes), key, share) || (share == id && exists k :: 0 <= k < i && key == "iscsi:" + initiators[k])
      {
        AddRemote("iscsi:" + initiators[i], initiators[i], "", id);
      }
    }

    /** A bucket, on the dataset of the object store. */
    method AddBucket(id: string, dataset: string, dataDir: string)
      requires Valid()
      modifies this`consumers
      ensures Valid() && |consumers| == |old(consumers)| + 1 && consumers[..|old(consumers)|] == old(consumers)
      ensures IsBucket(consumers[|old(consumers)|], id, Branch(dataset, dataDir), dsByName, dsByMount)
    {
      var backing := BranchDataset(Branch(dataset, dataDir));
      AddConsumer(Consumer(id, "s3", if backing.None? then [] else [backing.value], [], "", []));
    }

    /** Which guest has an address: a later one replaces an earlier one. */
    method GuestsByIP() returns (vmByIP: map<string, nat>)
      ensures forall ip :: ip in vmByIP <==> HasGuest(consumers, ip)
      ensures forall ip | ip in vmByIP :: IsGuestAt(consumers, ip, vmByIP[ip])
      ensures forall ip, j | ip in vmByIP && vmByIP[ip] < j < |consumers| && consumers[j].kind in {"vm", "container"} ::
        consumers[j].ip != ip
    {
      vmByIP := map[];
      for i := 0 to |consumers|
        invariant forall ip | ip in vmByIP :: IsGuestAt(consumers[..i], ip, vmByIP[ip])
        invariant forall ip, k | 0 <= k < i && IsGuest(consumers[k], ip) :: ip in vmByIP
      {
        var c := consumers[i];
        if (c.kind == "vm" || c.kind == "container") && c.ip != "" {
          vmByIP := vmByIP[c.ip := i];
        }
      }
      assert consumers[..|consumers|] == consumers;
    }

    method FoldOne(
      pc: Client, vmByIP: map<string, nat>, ghost first: seq<Consumer>, ghost before: map<string, Remote>,
        ghost done: seq<Client>)
      requires NoDoubleLinks(consumers, remotes)
      requires LateralLinks(first, consumers, done) && OutsideLinks(first, before, remotes, done)
      requires pc.ip in vmByIP <==> HasGuest(first, pc.ip)
      requires pc.ip in vmByIP ==> IsGuestAt(first, pc.ip, vmByIP[pc.ip])
      modifies this`consumers, this`remotes
      ensures NoDoubleLinks(consumers, remotes)
      ensures LateralLinks(first, consumers, done + [pc]) && OutsideLinks(first, before, remotes, done + [pc])
    {
      if pc.ip in vmByIP {
        var idx := vmByIP[pc.ip];
        var clientOf := AppendUnique(consumers[idx].clientOf, pc.consumerID);
        GrowLateral(first, consumers, done, pc, idx, clientOf);
        GrowNoOutside(first, before, remotes, done, pc);
        consumers := consumers[idx := consumers[idx].(clientOf := clientOf)];
      } else {
        GrowNoLateral(first, consumers, done, pc);
        GrowOutside(first, done, pc);
        AddRemote(ClientKey(pc.ip), if pc.fqdn == "" then pc.ip else pc.fqdn, pc.ip, pc.consumerID);
      }
    }

    /** foldShareClients: each session to the guest with its address, else to a remote box. */
    method FoldShareClients(clients: seq<Client>)
      requires Valid() && NoDoubleLinks(consumers, remotes)
      modifies this`consumers, this`remotes
      ensures Valid() && NoDoubleLinks(consumers, remotes)
      ensures LateralLinks(old(consumers), consumers, clients)
      ensures OutsideLinks(old(consumers), old(remotes), remotes, clients)
    {
      ghost var first, before := consumers, remotes;
      var vmByIP := GuestsByIP();
      ghost var done: seq<Client> := [];
      for k := 0 to |clients|
        invariant done == clients[..k]
        invariant NoDoubleLinks(consumers, remotes)
        invariant LateralLinks(first, consumers, done)
        invariant OutsideLinks(first, before, remotes, done)
      {
        FoldOne(clients[k], vmByIP, first, before, done);
        assert clients[..k + 1] == done + [clients[k]];
        done := done + [clients[k]];
      }
      assert clients[..|clients|] == clients;
      SameGuestsIntegrity(datasets, unions, first, consumers);
    }

    /** findCustomVol: any volume of the pool with this name, in whatever order the map gives them. */
    method FindCustomVol(src: string, vol: string) returns (name: Option<string>)
      ensures name.Some? ==> name.value in dsByName && IsCustomVol(name.value, src, vol)
      ensures name.None? ==> forall n | n in dsByName :: !IsCustomVol(n, src, vol)
    {
      var todo := dsByName.Keys;
      while todo != {}
        invariant todo <= dsByName.Keys
        invariant forall n | n in dsByName && n !in todo :: !IsCustomVol(n, src, vol)
        decreases |todo|
      {
        var n :| n in todo;
        todo := todo - {n};
        if IsCustomVol(n, src, vol) {
          return Some(n);
        }
      }
      return None;
    }

    /** What backs one disk of an instance. */
    method DiskDataset(
      dk: Disk, name: string, kind: string, poolSource: map<string, string>) returns (id: Option<string>)
      requires Valid()
      ensures id.Some? ==> HasDataset(datasets, id.value)
      ensures BacksDisk(dk, name, kind, poolSource, dsByName, dsByMount, id)
      ensures dk.pool == "" && dk.source != "" && dk.source[0] == '/' ==> IsResolved(dsByMount, dk.source, id)
      ensures dk.pool != "" && dk.pool in poolSource && dk.path == "/" ==>
        var src := poolSource[dk.pool];
        var root := if kind == "vm" then src + "/virtual-machines/" + name + ".block" else src + "/containers/" + name;
        id == if root in dsByName then Some(dsByName[root]) else None
      ensures dk.pool != "" && (dk.pool !in poolSource || (dk.path != "/" && dk.source == "")) ==> id == None
    {
      if IsBind(dk) {
        id := ResolveByPath(dsByMount, dk.source);
        return;
      }
      if dk.pool !in poolSource {
        return None;
      }
      var src := poolSource[dk.pool];
      if dk.path == "/" {
        var cand := RootVolume(src, name, kind);
        return if cand in dsByName then Some(dsByName[cand]) else None;
      }
      if dk.source != "" {
        var cand := FindCustomVol(src, dk.source);
        return if cand.Some? then Some(dsByName[cand.value]) else None;
      }
      return None;
    }

    /** A VM or container, linked to what backs each of its disks, or failing that to the pool its root is in. */
    method AddInstance(name: string, kind: string, disks: seq<Disk>, poolSource: map<string, string>, ip: string)
      requires Valid()
      modifies this`consumers
      ensures Valid() && |consumers| == |old(consumers)| + 1 && consumers[..|old(consumers)|] == old(consumers)
      ensures IsInstance(consumers[|old(consumers)|], name, kind, disks, poolSource, ip, dsByName, dsByMount)
    {
      var ids, rootSrc := DisksDatasets(name, kind, disks, poolSource);
      ghost var found := ids;
      if ids == [] && rootSrc.Some? && rootSrc.value in dsByName {
        ids := [dsByName[rootSrc.value]];
      }
      assert ids == WithFallback(found, rootSrc, dsByName);
      AddConsumer(Consumer(kind + ":" + name, kind, ids, [], ip, []));
    }

    /** The loop over the disks. */
    method DisksDatasets(name: string, kind: string, disks: seq<Disk>, poolSource: map<string, string>)
      returns (ids: seq<string>, rootSrc: Option<string>)
      requires Valid()
      ensures AllDatasets(datasets, ids) && rootSrc == RootSource(disks, poolSource)
      ensures AreDisks(disks, name, kind, poolSource, dsByName, dsByMount, ids)
    {
      ids, rootSrc := [], None;
      ghost var done: seq<Disk> := [];
      for i := 0 to |disks|
        invariant done == disks[..i] && AllDatasets(datasets, ids) && rootSrc == RootSource(done, poolSource)
        invariant AreDisks(done, name, kind, poolSource, dsByName, dsByMount, ids)
      {
        var id := DiskDataset(disks[i], name, kind, poolSource);
        if IsRoot(disks[i], poolSource) {
          rootSrc := Some(poolSource[disks[i].pool]);
        }
        var more := ids;
        if id.Some? {
          more := AppendUnique(ids, id.value);
        }
        OneMoreDisk(done, disks[i], name, kind, poolSource, dsByName, dsByMount, ids, id, more);
        ids := more;
        assert disks[..i + 1] == done + [disks[i]];
        done := done + [disks[i]];
      }
      assert disks[..|disks|] == disks;
    }

    /** Datasets and zvols nobody uses are hidden on a virtualization host, in place. */
    method Prune(virtual: bool)
      requires Valid()
      modifies this`datasets
      ensures Integrity(datasets, unions, consumers)
      ensures !virtual ==> datasets == old(datasets)
      ensures virtual ==> IsPruned(old(datasets), unions, consumers, datasets)
    {
      if !virtual {
        return;
      }
      ghost var first := datasets;
      var referenced := ReferencedIDs();
      var kept: seq<Dataset> := [];
      for i := 0 to |datasets|
        invariant unchanged(this)
        invariant kept == Kept(datasets[..i], referenced)
      {
        assert datasets[..i + 1][..i] == datasets[..i];
        if datasets[i].id in referenced {
          kept := kept + [datasets[i]];
        }
      }
      assert datasets[..|datasets|] == datasets;
      datasets := kept;
      KeptIntegrity(first, unions, consumers, referenced);
    }

    /** The identifiers some consumer or union names. */
    method ReferencedIDs() returns (referenced: set<string>)
      ensures forall id :: id in referenced <==> Referenced(unions, consumers, id)
    {
      referenced := {};
      for i := 0 to |consumers|
        invariant forall id :: id in referenced <==> exists k :: 0 <= k < i && id in consumers[k].datasetIDs
      {
        referenced := referenced + (set id | id in consumers[i].datasetIDs);
      }
      for i := 0 to |unions|
        invariant forall id :: id in referenced <==>
          (exists k :: 0 <= k < |consumers| && id in consumers[k].datasetIDs)
          || (exists k :: 0 <= k < i && id in unions[k].datasetIDs)
      {
        referenced := referenced + (set id | id in unions[i].datasetIDs);
      }
    }

    /** addRemote: one box for a key, one link for a consumer. */
    method AddRemote(key: string, title: string, ip: string, consumerID: string)
      modifies this`remotes
      ensures forall k, share ::
        Linked(remotes, k, share) <==> Linked(old(remotes), k, share) || (k == key && share == consumerID)
      ensures (forall k | k in old(remotes) :: NoDuplicates(old(remotes)[k].consumerIDs)) ==>
        forall k | k in remotes :: NoDuplicates(remotes[k].consumerIDs)
      ensures remotes.Keys == old(remotes.Keys) + {key}
    {
      var r := if key in remotes then remotes[key] else Remote("rem:" + key, title, ip, []);
      remotes := remotes[key := r];
      for i := 0 to |r.consumerIDs|
        invariant consumerID !in r.consumerIDs[..i]
      {
        if r.consumerIDs[i] == consumerID {
          return;
        }
      }
      remotes := remotes[key := r.(consumerIDs := r.consumerIDs + [consumerID])];
    }
  }

  predicate EndsWith(s: string, suffix: string) {
    |suffix| <= |s| && s[|s| - |suffix|..] == suffix
  }

  predicate IsCustomVol(name: string, src: string, vol: string) {
    StartsWith(name, src + "/custom/")
      && (EndsWith(name, "_" + vol) || EndsWith(name, "/" + vol) || name == src + "/custom/" + vol)
  }

  /** A custom volume lies under custom/ of the pool's source and is named after its project and itself. */
  lemma CustomVolNames(src: string, project: string, vol: string)
    ensures IsCustomVol(src + "/custom/" + project + "_" + vol, src, vol)
    ensures IsCustomVol(src + "/custom/" + project + "/" + vol, src, vol)
    ensures IsCustomVol(src + "/custom/" + vol, src, vol)
  {
    NamedAfter(src + "/custom/", project, "_" + vol);
    NamedAfter(src + "/custom/", project, "/" + vol);
    assert src + "/custom/" + project + "_" + vol == src + "/custom/" + project + ("_" + vol);
    assert src + "/custom/" + project + "/" + vol == src + "/custom/" + project + ("/" + vol);
    BeginsWith(src + "/custom/", vol);
  }

  lemma NamedAfter(head: string, middle: string, tail: string)
    ensures StartsWith(head + middle + tail, head) && EndsWith(head + middle + tail, tail)
  {
    assert head + middle + tail == head + (middle + tail);
  }

  lemma OnlyCustomVols(src: string, vol: string, name: string)
    requires IsCustomVol(name, src, vol)
    ensures StartsWith(name, src + "/custom/") && EndsWith(name, vol)
    ensures name == src + "/custom/" + vol
      || (|vol| < |name| && (name[|name| - |vol| - 1] == '_' || name[|name| - |vol| - 1] == '/'))
  {
    if EndsWith(name, "_" + vol) {
      EndsWithTail(name, '_', vol);
    } else if EndsWith(name, "/" + vol) {
      EndsWithTail(name, '/', vol);
    } else {
      EndOf(src + "/custom/", vol);
    }
  }

  lemma BeginsWith(head: string, rest: string)
    ensures StartsWith(head + rest, head)
  {}

  lemma EndOf(head: string, tail: string)
    ensures EndsWith(head + tail, tail)
  {}

  lemma EndsWithTail(s: string, c: char, tail: string)
    requires EndsWith(s, [c] + tail)
    ensures EndsWith(s, tail) && s[|s| - |tail| - 1] == c
  {
    var n := |s| - |tail| - 1;
    assert s[n..][0] == ([c] + tail)[0] && s[n..][1..] == ([c] + tail)[1..] == tail;
  }

  /** The volume of the root disk of an instance. */
  function RootVolume(src: string, name: string, kind: string): string {
    if kind == "vm" then src + "/virtual-machines/" + name + ".block" else src + "/containers/" + name
  }

  /** A bind mount of a host path. */
  predicate IsBind(dk: Disk) {
    dk.pool == "" && StartsWith(dk.source, "/")
  }

  predicate IsRoot(dk: Disk, poolSource: map<string, string>) {
    !IsBind(dk) && dk.pool in poolSource && dk.path == "/"
  }

  /** A volume of this name in the pool, if there is one. */
  ghost predicate IsVolume(dsByName: map<string, string>, src: string, vol: string, id: Option<string>) {
    match id
    case Some(found) => exists n :: n in dsByName && IsCustomVol(n, src, vol) && dsByName[n] == found
    case None => forall n | n in dsByName :: !IsCustomVol(n, src, vol)
  }

  /** What backs a disk: a bind mount by its path, the root disk by the name of its volume, another
      volume by its own; anything else by nothing. */
  ghost predicate BacksDisk(
    dk: Disk, name: string, kind: string, poolSource: map<string, string>,
    dsByName: map<string, string>, dsByMount: map<string, string>, id: Option<string>) {
    if IsBind(dk) then IsResolved(dsByMount, dk.source, id)
    else if dk.pool !in poolSource then id == None
    else if dk.path == "/" then
      var root := RootVolume(poolSource[dk.pool], name, kind);
      id == if root in dsByName then Some(dsByName[root]) else None
    else if dk.source != "" then IsVolume(dsByName, poolSource[dk.pool], dk.source, id)
    else id == None
  }

  /** `ids` are exactly what backs the disks, each dataset once. */
  ghost predicate AreDisks(
    disks: seq<Disk>, name: string, kind: string, poolSource: map<string, string>,
    dsByName: map<string, string>, dsByMount: map<string, string>, ids: seq<string>) {
    && NoDuplicates(ids)
    && (forall dk | dk in disks :: DiskCovered(dk, name, kind, poolSource, dsByName, dsByMount, ids))
    && (forall id | id in ids :: exists dk ::
          dk in disks && BacksDisk(dk, name, kind, poolSource, dsByName, dsByMount, Some(id)))
  }

  ghost predicate DiskCovered(
    dk: Disk, name: string, kind: string, poolSource: map<string, string>,
    dsByName: map<string, string>, dsByMount: map<string, string>, ids: seq<string>) {
    || BacksDisk(dk, name, kind, poolSource, dsByName, dsByMount, None)
    || exists id :: id in ids && BacksDisk(dk, name, kind, poolSource, dsByName, dsByMount, Some(id))
  }

  lemma OneMoreDisk(
    disks: seq<Disk>, dk: Disk, name: string, kind: string, poolSource: map<string, string>,
    dsByName: map<string, string>, dsByMount: map<string, string>, ids: seq<string>, id: Option<string>,
      more: seq<string>)
    requires AreDisks(disks, name, kind, poolSource, dsByName, dsByMount, ids)
    requires BacksDisk(dk, name, kind, poolSource, dsByName, dsByMount, id)
    requires NoDuplicates(more) && forall x :: x in more <==> x in ids || id == Some(x)
    ensures AreDisks(disks + [dk], name, kind, poolSource, dsByName, dsByMount, more)
  {
    forall d | d in disks + [dk] ensures DiskCovered(d, name, kind, poolSource, dsByName, dsByMount, more) {
      if d in disks { assert DiskCovered(d, name, kind, poolSource, dsByName, dsByMount, ids); }
    }
    forall x | x in more
      ensures exists d :: d in disks + [dk] && BacksDisk(d, name, kind, poolSource, dsByName, dsByMount, Some(x)) {
      if x in ids {
        var d :| d in disks && BacksDisk(d, name, kind, poolSource, dsByName, dsByMount, Some(x));
        assert d in disks + [dk];
      } else {
        assert dk in disks + [dk];
      }
    }
  }

  /** The pool of the last root disk. */
  function RootSource(disks: seq<Disk>, poolSource: map<string, string>): Option<string> {
    if disks == [] then None
    else
      var dk := disks[|disks| - 1];
      if IsRoot(dk, poolSource) then Some(poolSource[dk.pool]) else RootSource(disks[..|disks| - 1], poolSource)
  }

  /** If nothing backs any disk, the root dataset of the pool stands in. */
  function WithFallback(found: seq<string>, rootSrc: Option<string>, dsByName: map<string, string>): seq<string> {
    if found == [] && rootSrc.Some? && rootSrc.value in dsByName then [dsByName[rootSrc.value]] else found
  }

  ghost predicate IsInstance(
    c: Consumer, name: string, kind: string, disks: seq<Disk>, poolSource: map<string, string>, ip: string,
    dsByName: map<string, string>, dsByMount: map<string, string>) {
    && c == Consumer(kind + ":" + name, kind, c.datasetIDs, [], ip, [])
    && exists found :: AreDisks(disks, name, kind, poolSource, dsByName, dsByMount, found)
         && c.datasetIDs == WithFallback(found, RootSource(disks, poolSource), dsByName)
  }

  function Kept(datasets: seq<Dataset>, referenced: set<string>): seq<Dataset> {
    if datasets == [] then []
    else
      var n := |datasets| - 1;
      Kept(datasets[..n], referenced) + if datasets[n].id in referenced then [datasets[n]] else []
  }

  /** Exactly the referenced datasets are left, each of them as often as before. */
  ghost predicate IsPruned(first: seq<Dataset>, unions: seq<Union>, consumers: seq<Consumer>, kept: seq<Dataset>) {
    forall d: Dataset :: multiset(kept)[d] == if Referenced(unions, consumers, d.id) then multiset(first)[d] else 0
  }

  lemma {:induction false} KeptCount(datasets: seq<Dataset>, referenced: set<string>, d: Dataset)
    ensures multiset(Kept(datasets, referenced))[d] == if d.id in referenced then multiset(datasets)[d] else 0
    decreases |datasets|
  {
    if datasets != [] {
      var n := |datasets| - 1;
      KeptCount(datasets[..n], referenced, d);
      assert datasets == datasets[..n] + [datasets[n]];
    }
  }

  /** Every identifier named is still in the document. */
  lemma KeptIntegrity(first: seq<Dataset>, unions: seq<Union>, consumers: seq<Consumer>, referenced: set<string>)
    requires Integrity(first, unions, consumers)
    requires forall id :: id in referenced <==> Referenced(unions, consumers, id)
    ensures Integrity(Kept(first, referenced), unions, consumers)
    ensures IsPruned(first, unions, consumers, Kept(first, referenced))
  {
    var kept := Kept(first, referenced);
    forall d: Dataset ensures multiset(kept)[d] == if Referenced(unions, consumers, d.id) then multiset(first)[d]
      else 0 {
      KeptCount(first, referenced, d);
    }
    forall id | HasDataset(first, id) && id in referenced ensures HasDataset(kept, id) {
      var d :| d in first && d.id == id;
      KeptCount(first, referenced, d);
      assert d in multiset(first) && d in multiset(kept);
      assert d in kept;
    }
    forall u | u in unions ensures AllDatasets(kept, u.datasetIDs) {}
    forall c | c in consumers ensures AllDatasets(kept, c.datasetIDs) {}
  }

  lemma MoreLateral(consumers: seq<Consumer>, done: seq<Client>, pc: Client, i: nat, share: string)
    ensures SomeLateral(consumers, done + [pc], i, share)
      <==> SomeLateral(consumers, done, i, share) || Lateral(consumers, pc, i, share)
  {
    var more := done + [pc];
    assert more[|done|] == pc;
    assert forall k | 0 <= k < |done| :: more[k] == done[k];
  }

  lemma MoreOutside(consumers: seq<Consumer>, done: seq<Client>, pc: Client, key: string, share: string)
    ensures SomeOutside(consumers, done + [pc], key, share)
      <==> SomeOutside(consumers, done, key, share) || Outside(consumers, pc, key, share)
  {
    var more := done + [pc];
    assert more[|done|] == pc;
    assert forall k | 0 <= k < |done| :: more[k] == done[k];
  }

  lemma GrowLateral(
    first: seq<Consumer>, now: seq<Consumer>, done: seq<Client>, pc: Client, idx: nat, clientOf: seq<string>)
    requires LateralLinks(first, now, done) && IsGuestAt(first, pc.ip, idx)
    requires forall x :: x in clientOf <==> x in now[idx].clientOf || x == pc.consumerID
    ensures LateralLinks(first, now[idx := now[idx].(clientOf := clientOf)], done + [pc])
  {
    var next := now[idx := now[idx].(clientOf := clientOf)];
    forall i, share | 0 <= i < |first|
      ensures share in next[i].clientOf <==> share in first[i].clientOf || SomeLateral(first, done + [pc], i, share)
    {
      MoreLateral(first, done, pc, i, share);
    }
  }

  lemma GrowNoLateral(first: seq<Consumer>, now: seq<Consumer>, done: seq<Client>, pc: Client)
    requires LateralLinks(first, now, done) && !HasGuest(first, pc.ip)
    ensures LateralLinks(first, now, done + [pc])
  {
    forall i, share | 0 <= i < |first|
      ensures share in now[i].clientOf <==> share in first[i].clientOf || SomeLateral(first, done + [pc], i, share)
    {
      MoreLateral(first, done, pc, i, share);
    }
  }

  lemma GrowNoOutside(
    first: seq<Consumer>, before: map<string, Remote>, now: map<string, Remote>, done: seq<Client>, pc: Client)
    requires OutsideLinks(first, before, now, done) && HasGuest(first, pc.ip)
    ensures OutsideLinks(first, before, now, done + [pc])
  {
    forall key, share ensures Linked(now, key, share)
      <==> Linked(before, key, share) || SomeOutside(first, done + [pc], key, share) {
      MoreOutside(first, done, pc, key, share);
    }
  }

  lemma GrowOutside(first: seq<Consumer>, done: seq<Client>, pc: Client)
    requires !HasGuest(first, pc.ip)
    ensures forall key, share :: SomeOutside(first, done + [pc], key, share) <==>
      SomeOutside(first, done, key, share) || (key == ClientKey(pc.ip) && share == pc.consumerID)
  {
    forall key, share ensures SomeOutside(first, done + [pc], key, share) <==>
      SomeOutside(first, done, key, share) || (key == ClientKey(pc.ip) && share == pc.consumerID)
    {
      MoreOutside(first, done, pc, key, share);
    }
  }

  lemma SameGuestsIntegrity(datasets: seq<Dataset>, unions: seq<Union>, first: seq<Consumer>, now: seq<Consumer>)
    requires Integrity(datasets, unions, first) && SameGuests(first, now)
    ensures Integrity(datasets, unions, now)
  {}
}
