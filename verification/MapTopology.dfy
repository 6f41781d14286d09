/** The storage map's document (handlers/map.go): datasets, unions and consumers that name each
    other by identifier, and the clients of shares. */
module MapTopology {

  datatype Dataset = Dataset(id: string, name: string)
  datatype Union = Union(id: string, mountpoint: string, datasetIDs: seq<string>)
  datatype Consumer = Consumer(
    id: string, kind: string, datasetIDs: seq<string>, mergerfsIDs: seq<string>, ip: string, clientOf: seq<string>)
  datatype Remote = Remote(id: string, title: string, ip: string, consumerIDs: seq<string>)

  /** One session of a share. */
  datatype Client = Client(consumerID: string, ip: string, fqdn: string)

  datatype Branch = Branch(zfsDataset: string, path: string)
  datatype Disk = Disk(pool: string, source: string, path: string)

  predicate NoDuplicates(s: seq<string>) {
    forall i, j | 0 <= i < j < |s| :: s[i] != s[j]
  }

  /** appendUniqueStr. */
  method AppendUnique(s: seq<string>, v: string) returns (r: seq<string>)
    ensures r == if v in s then s else s + [v]
    ensures NoDuplicates(s) ==> NoDuplicates(r)
    ensures forall x :: x in r <==> x in s || x == v
  {
    for i := 0 to |s|
      invariant v !in s[..i]
    {
      if s[i] == v {
        return s;
      }
    }
    return s + [v];
  }

  // ---- sessions of shares ----

  predicate IsGuest(c: Consumer, ip: string) {
    (c.kind == "vm" || c.kind == "container") && c.ip != "" && c.ip == ip
  }

  /** The guest that has an address: the last, if several claim it. */
  ghost predicate IsGuestAt(consumers: seq<Consumer>, ip: string, i: nat) {
    i < |consumers| && IsGuest(consumers[i], ip) && forall j | i < j < |consumers| :: !IsGuest(consumers[j], ip)
  }

  ghost predicate HasGuest(consumers: seq<Consumer>, ip: string) {
    exists i :: 0 <= i < |consumers| && IsGuest(consumers[i], ip)
  }

  /** The session makes consumer `i` a client of share `share`. */
  ghost predicate Lateral(consumers: seq<Consumer>, client: Client, i: nat, share: string) {
    client.consumerID == share && IsGuestAt(consumers, client.ip, i)
  }

  function ClientKey(ip: string): string {
    "client:" + ip
  }

  /** The session makes a remote box with key `key` a user of share `share`. */
  ghost predicate Outside(consumers: seq<Consumer>, client: Client, key: string, share: string) {
    client.consumerID == share && key == ClientKey(client.ip) && !HasGuest(consumers, client.ip)
  }

  predicate Linked(remotes: map<string, Remote>, key: string, share: string) {
    key in remotes && share in remotes[key].consumerIDs
  }

  /** Consumers that differ at most in whose clients they are. */
  ghost predicate SameGuests(a: seq<Consumer>, b: seq<Consumer>) {
    |a| == |b| && forall i | 0 <= i < |a| :: b[i] == a[i].(clientOf := b[i].clientOf)
  }

  ghost predicate SomeLateral(consumers: seq<Consumer>, clients: seq<Client>, i: nat, share: string) {
    exists k :: 0 <= k < |clients| && Lateral(consumers, clients[k], i, share)
  }

  ghost predicate SomeOutside(consumers: seq<Consumer>, clients: seq<Client>, key: string, share: string) {
    exists k :: 0 <= k < |clients| && Outside(consumers, clients[k], key, share)
  }

  /** Where the sessions have gone: `links` are all links there are, and only those. */
  ghost predicate LateralLinks(first: seq<Consumer>, now: seq<Consumer>, clients: seq<Client>) {
    && SameGuests(first, now)
    && forall i, share | 0 <= i < |first| ::
      share in now[i].clientOf <==> share in first[i].clientOf || SomeLateral(first, clients, i, share)
  }

  ghost predicate OutsideLinks(
    consumers: seq<Consumer>, first: map<string, Remote>, now: map<string, Remote>, clients: seq<Client>) {
    forall key, share :: Linked(now, key, share)
      <==> Linked(first, key, share) || SomeOutside(consumers, clients, key, share)
  }

  ghost predicate NoDoubleLinks(consumers: seq<Consumer>, remotes: map<string, Remote>) {
    && (forall i | 0 <= i < |consumers| :: NoDuplicates(consumers[i].clientOf))
    && (forall key | key in remotes :: NoDuplicates(remotes[key].consumerIDs))
  }

  /** No client box is there before the sessions are dispatched. */
  ghost predicate NoClientsYet(consumers: seq<Consumer>, remotes: map<string, Remote>) {
    && (forall i | 0 <= i < |consumers| :: consumers[i].clientOf == [])
    && (forall ip :: ClientKey(ip) !in remotes)
  }

  /** Every session is exactly one of a lateral link of the guest with its address and a link of a
      remote box for its address. */
  lemma OneLinkForEachSession(
    first: seq<Consumer>, now: seq<Consumer>, before: map<string, Remote>, remotes: map<string, Remote>,
      clients: seq<Client>, k: nat)
    requires NoClientsYet(first, before) && k < |clients|
    requires LateralLinks(first, now, clients) && OutsideLinks(first, before, remotes, clients)
    ensures (exists i: nat :: i < |now| && IsGuest(now[i], clients[k].ip) && clients[k].consumerID in now[i].clientOf)
      <==> !Linked(remotes, ClientKey(clients[k].ip), clients[k].consumerID)
  {
    var ip, share := clients[k].ip, clients[k].consumerID;
    if HasGuest(first, ip) {
      var i := LastGuest(first, ip);
      assert Lateral(first, clients[k], i, share);
      assert SomeLateral(first, clients, i, share);
      assert IsGuest(now[i], ip) && share in now[i].clientOf;
      if SomeOutside(first, clients, ClientKey(ip), share) {
        var m :| 0 <= m < |clients| && Outside(first, clients[m], ClientKey(ip), share);
        SameKeySameIP(ip, clients[m].ip);
      }
    } else {
      assert Outside(first, clients[k], ClientKey(ip), share);
      forall i: nat | i < |now|
        ensures !IsGuest(now[i], ip) { assert now[i] == first[i].(clientOf := now[i].clientOf); }
    }
  }

  lemma SameKeySameIP(a: string, b: string)
    requires ClientKey(a) == ClientKey(b)
    ensures a == b
  {
    assert a == ClientKey(a)[7..] && b == ClientKey(b)[7..];
  }

  lemma LastGuest(consumers: seq<Consumer>, ip: string) returns (i: nat)
    requires HasGuest(consumers, ip)
    ensures IsGuestAt(consumers, ip, i)
  {
    i := |consumers| - 1;
    while !IsGuest(consumers[i], ip)
      invariant i < |consumers| && forall j | i < j < |consumers| :: !IsGuest(consumers[j], ip)
      invariant exists j :: 0 <= j <= i && IsGuest(consumers[j], ip)
      decreases i
    {
      i := i - 1;
    }
  }
}
