/** The whole storage map document of a host. */
module MapDocument {
  import opened MapPaths
  import opened MapTopology
  import opened MapBuilder

  datatype Guest = Guest(name: string, kind: string, disks: seq<Disk>, ip: string)
  datatype Session = Session(ip: string, fqdn: string)
  datatype Share = Share(id: string, kind: string, path: string, sessions: seq<Session>)
  datatype Target = Target(id: string, zvol: string, initiators: seq<string>)
  datatype Merged = Merged(name: string, mountpoint: string, branches: seq<Branch>)
  datatype Bucket = Bucket(id: string, dataset: string, dataDir: string)
  datatype Volume = Volume(name: string, mountpoint: string)

  /** What the system reports: filesystems and zvols, the latter without a mountpoint, and what uses them. */
  datatype Host = Host(
    volumes: seq<Volume>, unions: seq<Merged>, shares: seq<Share>, targets: seq<Target>, buckets: seq<Bucket>,
    virtual: bool, guests: seq<Guest>, poolSource: map<string, string>)

  /** The sessions of one share. */
  function SessionsOf(s: Share): seq<Client> {
    seq(|s.sessions|, i requires 0 <= i < |s.sessions| => Client(s.id, s.sessions[i].ip, s.sessions[i].fqdn))
  }

  function Sessions(shares: seq<Share>): seq<Client> {
    if shares == [] then [] else Sessions(shares[..|shares| - 1]) + SessionsOf(shares[|shares| - 1])
  }

  // ---- what the document of a host holds ----

  function DatasetsOf(volumes: seq<Volume>): seq<Dataset> {
    seq(|volumes|, i requires 0 <= i < |volumes| => Dataset("ds:" + volumes[i].name, volumes[i].name))
  }

  function ByName(volumes: seq<Volume>): map<string, string> {
    if volumes == [] then map[]
    else
      var v := volumes[|volumes| - 1];
      ByName(volumes[..|volumes| - 1])[v.name := "ds:" + v.name]
  }

  function ByMount(volumes: seq<Volume>): map<string, string> {
    if volumes == [] then map[]
    else
      var v := volumes[|volumes| - 1];
      var rest := ByMount(volumes[..|volumes| - 1]);
      if v.mountpoint in {"", "none", "legacy"} then rest else rest[v.mountpoint := "ds:" + v.name]
  }

  function ByUnion(unions: seq<Merged>): map<string, string> {
    if unions == [] then map[]
    else
      var u := unions[|unions| - 1];
      var rest := ByUnion(unions[..|unions| - 1]);
      if u.mountpoint == "" then rest else rest[u.mountpoint := "mfs:" + u.name]
  }

  ghost predicate AreUnions(
    unions: seq<Union>, merged: seq<Merged>, dsByName: map<string, string>, dsByMount: map<string, string>) {
    && |unions| == |merged|
    && forall i | 0 <= i < |merged| ::
      IsUnion(unions[i], merged[i].name, merged[i].mountpoint, merged[i].branches, dsByName, dsByMount)
  }

  ghost predicate IsShare(c: Consumer, s: Share, dsByMount: map<string, string>, mfsByMount: map<string, string>) {
    c == Consumer(s.id, s.kind, c.datasetIDs, c.mergerfsIDs, "", []) && IsBacked(c, dsByMount, mfsByMount, s.path)
  }

  ghost predicate IsTarget(c: Consumer, t: Target, dsByName: map<string, string>) {
    c == Consumer(t.id, "iscsi", if t.zvol in dsByName then [dsByName[t.zvol]] else [], [], "", [])
  }

  ghost predicate AreShares(
    cs: seq<Consumer>, shares: seq<Share>, dsByMount: map<string, string>, mfsByMount: map<string, string>) {
    |cs| == |shares| && forall i | 0 <= i < |cs| :: IsShare(cs[i], shares[i], dsByMount, mfsByMount)
  }

  ghost predicate AreTargets(cs: seq<Consumer>, targets: seq<Target>, dsByName: map<string, string>) {
    |cs| == |targets| && forall i | 0 <= i < |cs| :: IsTarget(cs[i], targets[i], dsByName)
  }

  ghost predicate AreBuckets(
    cs: seq<Consumer>, buckets: seq<Bucket>, dsByName: map<string, string>, dsByMount: map<string, string>) {
    && |cs| == |buckets|
    && forall i | 0 <= i < |cs| ::
      IsBucket(cs[i], buckets[i].id, Branch(buckets[i].dataset, buckets[i].dataDir), dsByName, dsByMount)
  }

  ghost predicate AreGuests(
    cs: seq<Consumer>, guests: seq<Guest>, poolSource: map<string, string>, dsByName: map<string, string>,
      dsByMount: map<string, string>) {
    && |cs| == |guests|
    && forall i | 0 <= i < |cs| ::
      IsInstance(cs[i], guests[i].name, guests[i].kind, guests[i].disks, poolSource, guests[i].ip, dsByName, dsByMount)
  }

  /** The consumers of each kind are those of the host. */
  ghost predicate AreParts(
    host: Host, shares: seq<Consumer>, targets: seq<Consumer>, buckets: seq<Consumer>, guests: seq<Consumer>) {
    var names, mounts := ByName(host.volumes), ByMount(host.volumes);
    && AreShares(shares, host.shares, mounts, ByUnion(host.unions))
    && AreTargets(targets, host.targets, names)
    && AreBuckets(buckets, host.buckets, names, mounts)
    && AreGuests(guests, if host.virtual then host.guests else [], host.poolSource, names, mounts)
  }

  /** One consumer for each share, target, bucket and, on a virtualization host, guest, in this order. */
  ghost predicate AreConsumers(cs: seq<Consumer>, host: Host) {
    exists shares, targets, buckets, guests ::
      AreParts(host, shares, targets, buckets, guests) && cs == shares + targets + buckets + guests
  }

  /** An initiator of a target, as a remote box. */
  ghost predicate FromTarget(targets: seq<Target>, key: string, share: string) {
    exists t, i :: t in targets && share == t.id && 0 <= i < |t.initiators| && key == "iscsi:" + t.initiators[i]
  }

  ghost predicate TargetLinks(targets: seq<Target>, remotes: map<string, Remote>) {
    forall key, share :: Linked(remotes, key, share) <==> FromTarget(targets, key, share)
  }

  /** No session has been dispatched yet. */
  ghost predicate Ready(b: Builder)
    reads b
  {
    b.Valid() && NoClientsYet(b.consumers, b.remotes) && NoDoubleLinks(b.consumers, b.remotes)
  }

  // ---- the phases ----

  method AddVolumes(b: Builder, volumes: seq<Volume>)
    requires Ready(b) && b.datasets == [] && b.dsByName == map[] && b.dsByMount == map[]
    modifies b`datasets, b`dsByName, b`dsByMount
    ensures Ready(b) && b.datasets == DatasetsOf(volumes) && b.dsByName == ByName(volumes)
      && b.dsByMount == ByMount(volumes)
  {
    ghost var done: seq<Volume> := [];
    for i := 0 to |volumes|
      invariant done == volumes[..i] && Ready(b)
      invariant b.datasets == DatasetsOf(done) && b.dsByName == ByName(done) && b.dsByMount == ByMount(done)
    {
      b.AddDataset(volumes[i].name, volumes[i].mountpoint);
      OneMoreVolume(done, volumes[i]);
      assert volumes[..i + 1] == done + [volumes[i]];
      done := done + [volumes[i]];
    }
    assert volumes[..|volumes|] == volumes;
  }

  lemma OneMoreVolume(done: seq<Volume>, v: Volume)
    ensures DatasetsOf(done + [v]) == DatasetsOf(done) + [Dataset("ds:" + v.name, v.name)]
    ensures ByName(done + [v]) == ByName(done)[v.name := "ds:" + v.name]
    ensures ByMount(done + [v]) ==
      if v.mountpoint in {"", "none", "legacy"} then ByMount(done) else ByMount(done)[v.mountpoint := "ds:" + v.name]
  {
    assert (done + [v])[..|done|] == done;
  }

  method AddUnions(b: Builder, merged: seq<Merged>)
    requires Ready(b) && b.unions == [] && b.mfsByMount == map[]
    modifies b`unions, b`mfsByMount
    ensures Ready(b) && AreUnions(b.unions, merged, b.dsByName, b.dsByMount) && b.mfsByMount == ByUnion(merged)
  {
    for i := 0 to |merged|
      invariant Ready(b) && AreUnions(b.unions, merged[..i], b.dsByName, b.dsByMount)
        && b.mfsByMount == ByUnion(merged[..i])
    {
      assert merged[..i + 1][..i] == merged[..i];
      b.AddUnion(merged[i].name, merged[i].mountpoint, merged[i].branches);
    }
    assert merged[..|merged|] == merged;
  }

  lemma OneMoreShare(shares: seq<Share>, i: nat)
    requires i < |shares|
    ensures Sessions(shares[..i + 1]) == Sessions(shares[..i]) + SessionsOf(shares[i])
  {
    assert shares[..i + 1][..i] == shares[..i];
  }

  lemma OneMoreConsumer(first: seq<Consumer>, added: seq<Consumer>, was: seq<Consumer>, now: seq<Consumer>)
    requires was == first + added && |now| == |was| + 1 && now[..|was|] == was
    ensures now == first + (added + [now[|was|]])
  {}

  lemma OneMoreIsShare(
    cs: seq<Consumer>, shares: seq<Share>, i: nat, c: Consumer, dsByMount: map<string, string>,
      mfsByMount: map<string, string>)
    requires i < |shares| && AreShares(cs, shares[..i], dsByMount, mfsByMount)
      && IsShare(c, shares[i], dsByMount, mfsByMount)
    ensures AreShares(cs + [c], shares[..i + 1], dsByMount, mfsByMount)
  {}

  method AddShares(b: Builder, shares: seq<Share>) returns (clients: seq<Client>, ghost added: seq<Consumer>)
    requires Ready(b)
    modifies b`consumers
    ensures Ready(b) && clients == Sessions(shares)
    ensures b.consumers == old(b.consumers) + added && AreShares(added, shares, b.dsByMount, b.mfsByMount)
  {
    clients, added := [], [];
    for i := 0 to |shares|
      invariant Ready(b) && clients == Sessions(shares[..i])
      invariant b.consumers == old(b.consumers) + added && AreShares(added, shares[..i], b.dsByMount, b.mfsByMount)
    {
      ghost var was := b.consumers;
      b.AddShare(shares[i].id, shares[i].kind, shares[i].path);
      OneMoreShare(shares, i);
      OneMoreIsShare(added, shares, i, b.consumers[|was|], b.dsByMount, b.mfsByMount);
      clients := clients + SessionsOf(shares[i]);
      OneMoreConsumer(old(b.consumers), added, was, b.consumers);
      added := added + [b.consumers[|was|]];
    }
    assert shares[..|shares|] == shares;
  }

  lemma NotAClientKey(key: string, ip: string)
    requires StartsWith(key, "iscsi:")
    ensures key != ClientKey(ip)
  {
    assert key[0] == 'i' && ClientKey(ip)[0] == 'c';
  }

  lemma OneMoreTarget(done: seq<Target>, t: Target, key: string, share: string)
    ensures FromTarget(done + [t], key, share) <==>
      FromTarget(done, key, share)
        || (share == t.id && exists i :: 0 <= i < |t.initiators| && key == "iscsi:" + t.initiators[i])
  {
    if FromTarget(done, key, share) {
      var u, i :| u in done && share == u.id && 0 <= i < |u.initiators| && key == "iscsi:" + u.initiators[i];
      assert u in done + [t];
    }
    assert t in done + [t];
  }

  method AddTargets(b: Builder, targets: seq<Target>) returns (ghost added: seq<Consumer>)
    requires Ready(b) && b.remotes == map[]
    modifies b`consumers, b`remotes
    ensures Ready(b) && TargetLinks(targets, b.remotes)
    ensures b.consumers == old(b.consumers) + added && AreTargets(added, targets, b.dsByName)
  {
    added := [];
    ghost var done: seq<Target> := [];
    for i := 0 to |targets|
      invariant done == targets[..i] && Ready(b) && TargetLinks(done, b.remotes)
      invariant b.consumers == old(b.consumers) + added && AreTargets(added, done, b.dsByName)
    {
      ghost var was := b.consumers;
      b.AddISCSI(targets[i].id, targets[i].zvol, targets[i].initiators);
      forall ip ensures ClientKey(ip) !in b.remotes {
        if StartsWith(ClientKey(ip), "iscsi:") { NotAClientKey(ClientKey(ip), ip); }
      }
      forall key, share ensures Linked(b.remotes, key, share) <==> FromTarget(done + [targets[i]], key, share) {
        OneMoreTarget(done, targets[i], key, share);
      }
      assert targets[..i + 1] == done + [targets[i]];
      added, done := added + [b.consumers[|was|]], done + [targets[i]];
    }
    assert targets[..|targets|] == targets;
  }

  method AddBuckets(b: Builder, buckets: seq<Bucket>) returns (ghost added: seq<Consumer>)
    requires Ready(b)
    modifies b`consumers
    ensures Ready(b)
    ensures b.consumers == old(b.consumers) + added && AreBuckets(added, buckets, b.dsByName, b.dsByMount)
  {
    added := [];
    for i := 0 to |buckets|
      invariant Ready(b)
      invariant b.consumers == old(b.consumers) + added && AreBuckets(added, buckets[..i], b.dsByName, b.dsByMount)
    {
      ghost var was := b.consumers;
      b.AddBucket(buckets[i].id, buckets[i].dataset, buckets[i].dataDir);
      OneMoreConsumer(old(b.consumers), added, was, b.consumers);
      added := added + [b.consumers[|was|]];
    }
    assert buckets[..|buckets|] == buckets;
  }

  method AddGuests(b: Builder, guests: seq<Guest>, poolSource: map<string, string>) returns (ghost added: seq<Consumer>)
    requires Ready(b)
    modifies b`consumers
    ensures Ready(b)
    ensures b.consumers == old(b.consumers) + added && AreGuests(added, guests, poolSource, b.dsByName, b.dsByMount)
  {
    added := [];
    for i := 0 to |guests|
      invariant Ready(b)
      invariant b.consumers == old(b.consumers) + added
        && AreGuests(added, guests[..i], poolSource, b.dsByName, b.dsByMount)
    {
      ghost var was := b.consumers;
      b.AddInstance(guests[i].name, guests[i].kind, guests[i].disks, poolSource, guests[i].ip);
      OneMoreConsumer(old(b.consumers), added, was, b.consumers);
      added := added + [b.consumers[|was|]];
    }
    assert guests[..|guests|] == guests;
  }

  // ---- the document ----

  /** The document before sessions are dispatched and unused datasets are hidden. */
  method Assemble(host: Host) returns (b: Builder, clients: seq<Client>)
    ensures fresh(b) && Ready(b) && clients == Sessions(host.shares)
    ensures b.datasets == DatasetsOf(host.volumes)
    ensures AreUnions(b.unions, host.unions, ByName(host.volumes), ByMount(host.volumes))
    ensures AreConsumers(b.consumers, host) && TargetLinks(host.targets, b.remotes)
  {
    b := new Builder();
    AddVolumes(b, host.volumes);
    AddUnions(b, host.unions);
    clients := AddAll(b, host);
  }

  method AddAll(b: Builder, host: Host) returns (clients: seq<Client>)
    requires Ready(b) && b.consumers == [] && b.remotes == map[]
    requires b.dsByName == ByName(host.volumes) && b.dsByMount == ByMount(host.volumes)
      && b.mfsByMount == ByUnion(host.unions)
    modifies b`consumers, b`remotes
    ensures Ready(b) && clients == Sessions(host.shares)
    ensures AreConsumers(b.consumers, host) && TargetLinks(host.targets, b.remotes)
  {
    ghost var shares, targets, buckets, guests;
    clients, shares := AddShares(b, host.shares);
    targets := AddTargets(b, host.targets);
    buckets := AddBuckets(b, host.buckets);
    guests := AddGuests(b, if host.virtual then host.guests else [], host.poolSource);
    PartsMake(b.consumers, host, shares, targets, buckets, guests);
  }

  lemma PartsMake(
    cs: seq<Consumer>, host: Host, shares: seq<Consumer>, targets: seq<Consumer>, buckets: seq<Consumer>,
      guests: seq<Consumer>)
    requires AreParts(host, shares, targets, buckets, guests) && cs == [] + shares + targets + buckets + guests
    ensures AreConsumers(cs, host)
  {
    FromNothing(shares, targets, buckets, guests);
  }

  lemma FromNothing(a: seq<Consumer>, b: seq<Consumer>, c: seq<Consumer>, d: seq<Consumer>)
    ensures [] + a + b + c + d == a + b + c + d
  {
    assert [] + a == a;
  }

  /** The session is a lateral link of a guest. */
  ghost predicate IsLateral(consumers: seq<Consumer>, client: Client) {
    exists i: nat :: i < |consumers| && IsGuest(consumers[i], client.ip) && client.consumerID in consumers[i].clientOf
  }

  ghost predicate LinkedOnce(consumers: seq<Consumer>, remotes: map<string, Remote>, client: Client) {
    IsLateral(consumers, client) <==> !Linked(remotes, ClientKey(client.ip), client.consumerID)
  }

  /** The links of the document are those of the targets' initiators and one for each session. */
  ghost predicate AreLinks(host: Host, first: seq<Consumer>, now: seq<Consumer>, remotes: map<string, Remote>) {
    && LateralLinks(first, now, Sessions(host.shares))
    && forall key, share :: Linked(remotes, key, share) <==>
      FromTarget(host.targets, key, share) || SomeOutside(first, Sessions(host.shares), key, share)
  }

  /** buildMapTopology. The document has the host's datasets, on a virtualization host those that are
      named; its unions; one consumer for each share, target, bucket and guest, backed by what serves it;
      and exactly the links of its sessions, `first` being the consumers before these were made. Every
      identifier named in it is in it, and every session is linked exactly once. */
  method Build(host: Host) returns (b: Builder, ghost first: seq<Consumer>)
    ensures fresh(b)
    ensures if host.virtual then IsPruned(DatasetsOf(host.volumes), b.unions, b.consumers, b.datasets)
            else b.datasets == DatasetsOf(host.volumes)
    ensures AreUnions(b.unions, host.unions, ByName(host.volumes), ByMount(host.volumes))
    ensures AreConsumers(first, host) && AreLinks(host, first, b.consumers, b.remotes)
    ensures Integrity(b.datasets, b.unions, b.consumers)
    ensures forall k | 0 <= k < |Sessions(host.shares)| :: LinkedOnce(b.consumers, b.remotes, Sessions(host.shares)[k])
    ensures NoDoubleLinks(b.consumers, b.remotes)
  {
    var clients;
    b, clients := Assemble(host);
    first := b.consumers;
    ghost var before := b.remotes;
    b.FoldShareClients(clients);
    forall k | 0 <= k < |clients| ensures LinkedOnce(b.consumers, b.remotes, clients[k]) {
      OneLinkForEachSession(first, b.consumers, before, b.remotes, clients, k);
    }
    b.Prune(host.virtual);
  }
}
