/** The pairing protocol between servers: link, accept, repair, unlink and remote-unlink as
    exchanges of a request and a reply, either of which may be lost, interleaved in any way
    as long as one pair has one exchange at a time. Identifiers and secrets are fresh, and
    every server is known under one address. */
module LinkNetwork {
  import opened Options
  import opened LinkTable

  type Server = nat
  type ExchangeId = nat

  /** An exchange from `a` to `b`; a replied one carries the identifier, or the answer, the peer
      sent back. A repair remembers the backing array and the place of the entry it looked up.
      `agreed` records whether the two entries mirrored each other when the unlink began. */
  datatype Flight =
    | Linking(a: Server, b: Server, id: Id, secret: Secret, reply: Option<Id>)
    | Repairing(a: Server, b: Server, id: Id, secret: Secret, reply: Option<Id>, backing: nat, index: nat)
    | Unlinking(a: Server, b: Server, id: Id, secret: Secret, target: Id, removed: Option<bool>, agreed: bool)

  /** An identifier is made by one server for its link with one peer, and so is a secret. */
  datatype Issue = Issue(owner: Server, peer: Server)

  datatype Net = Net(
    address: map<Server, Url>,
    tables: map<Server, seq<Link>>,
    backing: map<Server, nat>,          // counts the backing arrays a table has had
    room: map<Server, nat>,             // how many entries fit in the present one
    flights: map<ExchangeId, Flight>,
    issued: map<Id, Issue>,
    secrets: map<Secret, Issue>)

  predicate SamePair(i: Issue, a: Server, b: Server) {
    i == Issue(a, b) || i == Issue(b, a)
  }

  predicate Joins(f: Flight, a: Server, b: Server) {
    SamePair(Issue(f.a, f.b), a, b)
  }

  ghost predicate Quiet(n: Net, a: Server, b: Server) {
    forall x | x in n.flights :: !Joins(n.flights[x], a, b)
  }

  // ---- what holds in every state ----

  /** An entry was made by its server for the peer whose address it has; the identifier it names,
      if any, was made by that peer for this server, but need not exist there any more. */
  ghost predicate EntryOk(n: Net, s: Server, l: Link) {
    && l.id in n.issued && n.issued[l.id].owner == s
    && n.issued[l.id].peer in n.address && n.issued[l.id].peer != s
    && l.url == n.address[n.issued[l.id].peer]
    && (l.remoteID != NONE ==> l.remoteID in n.issued && n.issued[l.remoteID] == Issue(n.issued[l.id].peer, s))
    && l.sharedSecret in n.secrets && SamePair(n.secrets[l.sharedSecret], s, n.issued[l.id].peer)
  }

  ghost predicate TableOk(n: Net, s: Server) {
    s in n.tables && UniqueIds(n.tables[s]) && forall l | l in n.tables[s] :: EntryOk(n, s, l)
  }

  ghost predicate HasEntry(links: seq<Link>, id: Id, remoteID: Id, secret: Secret) {
    exists l :: l in links && l.id == id && l.remoteID == remoteID && l.sharedSecret == secret
  }

  /** The two entries of a pair agree: same secret, each naming the other's identifier. */
  ghost predicate Mirrored(n: Net, a: Server, ida: Id, b: Server, idb: Id)
    requires a in n.tables && b in n.tables
  {
    exists secret :: HasEntry(n.tables[a], ida, idb, secret) && HasEntry(n.tables[b], idb, ida, secret)
  }

  /** Server `s` holds an entry for `peer`. */
  ghost predicate Holds(n: Net, s: Server, peer: Server)
    requires s in n.tables
  {
    exists l :: l in n.tables[s] && l.id in n.issued && n.issued[l.id].peer == peer
  }

  predicate IsIssued(n: Net, id: Id, owner: Server, peer: Server) {
    id in n.issued && n.issued[id] == Issue(owner, peer)
  }

  /** If the table has the identifier at all, then in an entry with this remote one and this secret. */
  ghost predicate Unaltered(links: seq<Link>, id: Id, remoteID: Id, secret: Secret) {
    HasId(links, id) ==> HasEntry(links, id, remoteID, secret)
  }

  /** Once the peer has replied, its entry of the identifier in the reply holds the secret, unless the
      entry was a duplicate and dropped. */
  ghost predicate ReplyOk(n: Net, f: Flight)
    requires !f.Unlinking? && f.b in n.tables
  {
    f.reply.Some? ==> IsIssued(n, f.reply.value, f.b, f.a) && Unaltered(n.tables[f.b], f.reply.value, f.id, f.secret)
  }

  /** The place a repair looked up is still its entry's, unless the table moved to another backing array. */
  ghost predicate PlaceOk(n: Net, f: Flight)
    requires f.Repairing? && f.a in n.tables && f.a in n.backing
  {
    && f.backing <= n.backing[f.a]
    && (f.backing == n.backing[f.a] ==> f.index < |n.tables[f.a]| && n.tables[f.a][f.index].id == f.id)
  }

  ghost predicate FlightOk(n: Net, f: Flight) {
    && f.a in n.tables && f.b in n.tables && f.a != f.b && f.a in n.backing
    && IsIssued(n, f.id, f.a, f.b)
    && f.secret in n.secrets && SamePair(n.secrets[f.secret], f.a, f.b)
    && (match f
        case Linking(a, b, id, secret, reply) => !Holds(n, a, b) && ReplyOk(n, f)
        case Repairing(a, b, id, secret, reply, backing, index) =>
          PlaceOk(n, f) && ReplyOk(n, f) && forall l | l in n.tables[a] :: l.sharedSecret != secret
        case Unlinking(a, b, id, secret, target, removed, agreed) =>
          && IsIssued(n, target, b, a)
          && !HasId(n.tables[a], id)
          && (removed == None && agreed ==> Unaltered(n.tables[b], target, id, secret))
          && (removed.Some? && (agreed || removed.value) ==> !HasId(n.tables[b], target)))
  }

  ghost predicate FlightsOk(n: Net) {
    && (forall x | x in n.flights :: FlightOk(n, n.flights[x]))
    && (forall x, y | x in n.flights && y in n.flights
      && x != y :: !Joins(n.flights[x], n.flights[y].a, n.flights[y].b))
  }

  ghost predicate ServersOk(n: Net) {
    && n.tables.Keys == n.address.Keys && n.backing.Keys == n.address.Keys
    && NONE !in n.issued
    && (forall s, t | s in n.address && t in n.address && s != t :: n.address[s].key != n.address[t].key)
  }

  /** Well-formed tables, possibly with duplicates, one-sided entries and disagreeing secrets. */
  ghost predicate Inv(n: Net) {
    ServersOk(n) && (forall s | s in n.address :: TableOk(n, s)) && FlightsOk(n)
  }

  // ---- changes of one table on behalf of one pair ----

  ghost predicate Extends<K(!new), V>(before: map<K, V>, after: map<K, V>) {
    forall k | k in before :: k in after && after[k] == before[k]
  }

  ghost predicate ForPeer(n: Net, l: Link, p: Server) {
    l.id in n.issued && n.issued[l.id].peer == p
  }

  /** What a step of the pair (s, p) may do to the table of `s`: the entries for other peers
      stay, and while the backing array stays so does the place of each. */
  ghost predicate Change(n: Net, n': Net, s: Server, p: Server) {
    && n.address == n'.address && s in n.address
    && Extends(n.issued, n'.issued) && Extends(n.secrets, n'.secrets)
    && n.tables.Keys == n'.tables.Keys && n.backing.Keys == n'.backing.Keys
    && n.tables.Keys == n.address.Keys && n.backing.Keys == n.address.Keys
    && (forall t | t in n.address && t != s :: n'.tables[t] == n.tables[t] && n'.backing[t] == n.backing[t])
    && (forall l | l in n.tables[s] && !ForPeer(n', l, p) :: l in n'.tables[s])
    && (forall l | l in n'.tables[s] && !ForPeer(n', l, p) :: l in n.tables[s])
    && n.backing[s] <= n'.backing[s]
    && (n.backing[s] == n'.backing[s] ==>
          |n.tables[s]| <= |n'.tables[s]|
            && forall i | 0 <= i < |n.tables[s]| :: n'.tables[s][i].id == n.tables[s][i].id)
  }

  /** The other tables stay well formed. */
  lemma OtherTables(n: Net, n': Net, s: Server, p: Server, t: Server)
    requires Change(n, n', s, p) && t in n.address && t != s && TableOk(n, t)
    ensures TableOk(n', t)
  {}

  lemma KeepsEntry(n: Net, n': Net, s: Server, p: Server, t: Server, q: Server, id: Id, remoteID: Id, secret: Secret)
    requires Change(n, n', s, p) && t in n.address && IsIssued(n, id, t, q) && (t, q) != (s, p)
    ensures HasEntry(n.tables[t], id, remoteID, secret) ==> HasEntry(n'.tables[t], id, remoteID, secret)
    ensures HasId(n'.tables[t], id) <==> HasId(n.tables[t], id)
  {
    if HasId(n'.tables[t], id) {
      var i :| 0 <= i < |n'.tables[t]| && n'.tables[t][i].id == id;
      assert n'.tables[t][i] in n.tables[t];
    }
    if HasId(n.tables[t], id) {
      var i :| 0 <= i < |n.tables[t]| && n.tables[t][i].id == id;
      assert n.tables[t][i] in n'.tables[t];
    }
  }

  lemma KeepsAbsence(n: Net, n': Net, s: Server, p: Server, t: Server, q: Server)
    requires Change(n, n', s, p) && t in n.address && (t, q) != (s, p)
    requires (forall u | u in n.address :: TableOk(n, u)) && !Holds(n, t, q)
    ensures !Holds(n', t, q)
  {}

  /** Nor does it disturb the exchanges of other pairs. */
  lemma KeepsFlight(n: Net, n': Net, s: Server, p: Server, f: Flight)
    requires Change(n, n', s, p) && FlightOk(n, f) && !Joins(f, s, p)
    requires forall u | u in n.address :: TableOk(n, u)
    requires TableOk(n', s)
    requires forall l | l in n'.tables[s] && ForPeer(n', l, p) :: SamePair(n'.secrets[l.sharedSecret], s, p)
    ensures FlightOk(n', f)
  {
    match f
    case Linking(a, b, id, secret, reply) =>
      KeepsAbsence(n, n', s, p, a, b);
      if reply.Some? { KeepsEntry(n, n', s, p, b, a, reply.value, id, secret); }
    case Repairing(a, b, id, secret, reply, backing, index) =>
      if reply.Some? { KeepsEntry(n, n', s, p, b, a, reply.value, id, secret); }
    case Unlinking(a, b, id, secret, target, removed, agreed) =>
      KeepsEntry(n, n', s, p, a, b, id, target, secret);
      KeepsEntry(n, n', s, p, b, a, target, id, secret);
  }

  ghost predicate OnlyAt(n: Net, n': Net, x: ExchangeId) {
    forall y | y != x :: (y in n.flights <==> y in n'.flights) && (y in n.flights ==> n'.flights[y] == n.flights[y])
  }

  lemma PairsApart(n: Net, n': Net, s: Server, p: Server, x: ExchangeId)
    requires FlightsOk(n) && OnlyAt(n, n', x)
    requires x in n'.flights ==> Joins(n'.flights[x], s, p)
    requires forall y | y in n.flights && y != x :: !Joins(n.flights[y], s, p)
    ensures forall y, z | y in n'.flights && z in n'.flights
      && y != z :: !Joins(n'.flights[y], n'.flights[z].a, n'.flights[z].b)
  {}

  /** A step of the pair (s, p), whose only exchange is `x`. */
  ghost predicate PairStep(n: Net, n': Net, s: Server, p: Server, x: ExchangeId) {
    && Change(n, n', s, p) && ServersOk(n') && TableOk(n', s)
    && OnlyAt(n, n', x)
    && (x in n'.flights ==> Joins(n'.flights[x], s, p) && FlightOk(n', n'.flights[x]))
    && (forall y | y in n.flights && y != x :: !Joins(n.flights[y], s, p))
  }

  lemma PairStepKeepsInv(n: Net, n': Net, s: Server, p: Server, x: ExchangeId)
    requires Inv(n) && PairStep(n, n', s, p, x)
    ensures Inv(n')
  {
    forall t | t in n'.address ensures TableOk(n', t) {
      if t != s { OtherTables(n, n', s, p, t); }
    }
    forall y | y in n'.flights ensures FlightOk(n', n'.flights[y]) {
      if y != x { KeepsFlight(n, n', s, p, n.flights[y]); }
    }
    PairsApart(n, n', s, p, x);
  }

  // ---- the steps ----

  /** Same servers, addresses and tables. */
  ghost predicate SameTables(n: Net, n': Net) {
    n'.address == n.address && n'.tables == n.tables && n'.backing == n.backing && n'.room == n.room
  }

  function Room(n: Net, s: Server): nat {
    if s in n.room then n.room[s] else 0
  }

  /** An append to the table of `s` moves it to another backing array. */
  predicate Full(n: Net, s: Server)
    requires s in n.tables
  {
    |n.tables[s]| >= Room(n, s)
  }

  /** Only the table of `s` changes: in place, or into another backing array. */
  ghost predicate OnlyTable(n: Net, n': Net, s: Server, table: seq<Link>)
    requires s in n.tables && s in n.backing
  {
    && n'.address == n.address && n'.tables == n.tables[s := table]
    && s in n'.backing && n'.backing[s] >= n.backing[s] && n'.backing == n.backing[s := n'.backing[s]]
    && n'.room == (if InPlace(n, n', s) then n.room else n.room[s := Room(n', s)])
    && (!InPlace(n, n', s) ==> |table| <= Room(n', s))
  }

  ghost predicate InPlace(n: Net, n': Net, s: Server)
    requires s in n.backing && s in n'.backing
  {
    n'.backing[s] == n.backing[s]
  }

  ghost predicate NewExchange(n: Net, n': Net, x: ExchangeId, f: Flight) {
    x !in n.flights && Quiet(n, f.a, f.b) && n'.flights == n.flights[x := f]
  }

  /** HandleInterlinkLink up to its request: refused if an entry has this very address. */
  ghost predicate LinkStart(n: Net, x: ExchangeId, a: Server, b: Server, id: Id, secret: Secret, n': Net) {
    && a in n.tables && b in n.address && a != b
    && (forall l | l in n.tables[a] :: l.url.raw != n.address[b].raw)
    && id != NONE && id !in n.issued && secret !in n.secrets
    && SameTables(n, n')
    && NewExchange(n, n', x, Linking(a, b, id, secret, None))
    && n'.issued == n.issued[id := Issue(a, b)] && n'.secrets == n.secrets[secret := Issue(a, b)]
  }

  /** HandleInterlinkRepairLink up to its request, with a pointer to the entry at `i`. */
  ghost predicate RepairStart(n: Net, x: ExchangeId, a: Server, i: nat, secret: Secret, n': Net) {
    && a in n.tables && a in n.backing && i < |n.tables[a]| && n.tables[a][i].id in n.issued
    && secret !in n.secrets
    && SameTables(n, n')
    && var l := n.tables[a][i];
       var b := n.issued[l.id].peer;
       && NewExchange(n, n', x, Repairing(a, b, l.id, secret, None, n.backing[a], i))
       && n'.issued == n.issued && n'.secrets == n.secrets[secret := Issue(a, b)]
  }

  /** HandleInterlinkAcceptLink at the peer of exchange `x`. */
  ghost predicate Accept(n: Net, x: ExchangeId, localID: Id, at: int, n': Net) {
    && x in n.flights && !n.flights[x].Unlinking? && n.flights[x].reply == None
    && var f := n.flights[x];
       && f.a in n.address && f.b in n.tables && f.b in n.backing
       && localID != NONE && localID !in n.issued
       && n'.issued == n.issued[localID := Issue(f.b, f.a)] && n'.secrets == n.secrets
       && exists after, reply :: AcceptedAs(n, x, f, localID, at, after, reply, n')
  }

  function RequestOf(n: Net, f: Flight): AcceptRequest
    requires f.a in n.address
  {
    AcceptRequest(n.address[f.a], f.id, f.secret)
  }

  ghost predicate AcceptedAs(
    n: Net, x: ExchangeId, f: Flight, localID: Id, at: int, after: seq<Link>, reply: Id, n': Net)
    requires !f.Unlinking? && f.a in n.address && f.b in n.tables && f.b in n.backing
  {
    && AcceptStep(n.tables[f.b], RequestOf(n, f), localID, at, after, reply)
    && OnlyTable(n, n', f.b, after)
    && (InPlace(n, n', f.b) <==> Known(n.tables[f.b], RequestOf(n, f)) || !Full(n, f.b))
    && n'.flights == n.flights[x := f.(reply := Some(reply))]
  }

  /** The exchange ends without a reply: the request or the reply was lost, or the peer refused. */
  ghost predicate Lose(n: Net, x: ExchangeId, n': Net) {
    x in n.flights && SameTables(n, n') && n'.issued == n.issued && n'.secrets == n.secrets
      && n'.flights == n.flights - {x}
  }

  predicate IsNewEntry(n: Net, f: Flight, l: Link) {
    && f.Linking? && f.reply.Some? && f.b in n.address
    && l.id == f.id && l.url == n.address[f.b] && l.sharedSecret == f.secret && l.remoteID == f.reply.value
  }

  /** HandleInterlinkLink after the reply. */
  ghost predicate LinkEnd(n: Net, x: ExchangeId, l: Link, n': Net) {
    && x in n.flights && IsNewEntry(n, n.flights[x], l)
    && n.flights[x].a in n.tables && n.flights[x].a in n.backing
    && OnlyTable(n, n', n.flights[x].a, n.tables[n.flights[x].a] + [l])
    && (InPlace(n, n', n.flights[x].a) <==> !Full(n, n.flights[x].a))
    && n'.issued == n.issued && n'.secrets == n.secrets && n'.flights == n.flights - {x}
  }

  /** HandleInterlinkRepairLink after the reply: the write goes to the backing array that was looked up. */
  ghost predicate RepairEnd(n: Net, x: ExchangeId, n': Net) {
    && x in n.flights && n.flights[x].Repairing? && n.flights[x].reply.Some?
    && n'.issued == n.issued && n'.secrets == n.secrets && n'.flights == n.flights - {x}
    && var f := n.flights[x];
       && f.a in n.tables && f.a in n.backing
       && if f.backing != n.backing[f.a] then SameTables(n, n')
          else
            && f.index < |n.tables[f.a]|
            && OnlyTable(n, n', f.a, n.tables[f.a][f.index := Renewed(n.tables[f.a][f.index], f.secret, f.reply.value)])
            && InPlace(n, n', f.a)
  }

  /** The local half of HandleInterlinkUnlink, and its request if the entry names a remote one. */
  ghost predicate Unlink(n: Net, x: ExchangeId, a: Server, l: Link, n': Net) {
    && a in n.tables && a in n.backing && l in n.tables[a] && l.id in n.issued
    && n'.issued == n.issued && n'.secrets == n.secrets
    && OnlyTable(n, n', a, Without(n.tables[a], l.id)) && !InPlace(n, n', a)
    && x !in n.flights
    && var b := n.issued[l.id].peer;
       && b in n.tables && Quiet(n, a, b)
       && if l.remoteID == NONE then n'.flights == n.flights
          else NewExchange(n, n', x,
            Unlinking(a, b, l.id, l.sharedSecret, l.remoteID, None, Mirrored(n, a, l.id, b, l.remoteID)))
  }

  /** HandleInterlinkRemoteUnlink at the peer of exchange `x`; the secret signs the request. */
  ghost predicate RemoteUnlink(n: Net, x: ExchangeId, n': Net) {
    && x in n.flights && n.flights[x].Unlinking? && n.flights[x].removed == None
    && n'.issued == n.issued && n'.secrets == n.secrets
    && var f := n.flights[x];
       && f.b in n.tables && f.b in n.backing
       && OnlyTable(n, n', f.b, RemoteUnlinked(n.tables[f.b], f.target, f.secret))
       && (InPlace(n, n', f.b) <==> !Signed(n.tables[f.b], f.target, f.secret))
       && n'.flights == n.flights[x := f.(removed := Some(Signed(n.tables[f.b], f.target, f.secret)))]
  }

  /** dedupeInterLink, which any list request runs, at any time. It changes nothing while a table has no
      duplicate; a table that has some is deduplicated into a new slice. */
  ghost predicate Dedupe(n: Net, s: Server, n': Net) {
    && s in n.tables && s in n.backing
    && n'.issued == n.issued && n'.secrets == n.secrets && n'.flights == n.flights
    && if !HasDuplicate(n.tables[s]) then SameTables(n, n')
       else exists kept :: IsDeduped(n.tables[s], kept) && OnlyTable(n, n', s, kept) && !InPlace(n, n', s)
  }

  ghost predicate IsLinkStart(n: Net, n': Net) { exists x, a, b, id, secret :: LinkStart(n, x, a, b, id, secret, n') }
  ghost predicate IsRepairStart(n: Net, n': Net) { exists x, a, i: nat, secret :: RepairStart(n, x, a, i, secret, n') }
  ghost predicate IsAccept(n: Net, n': Net) { exists x, localID, at :: Accept(n, x, localID, at, n') }
  ghost predicate IsLose(n: Net, n': Net) { exists x :: Lose(n, x, n') }
  ghost predicate IsLinkEnd(n: Net, n': Net) { exists x, l :: LinkEnd(n, x, l, n') }
  ghost predicate IsRepairEnd(n: Net, n': Net) { exists x :: RepairEnd(n, x, n') }
  ghost predicate IsUnlink(n: Net, n': Net) { exists x, a, l :: Unlink(n, x, a, l, n') }
  ghost predicate IsRemoteUnlink(n: Net, n': Net) { exists x :: RemoteUnlink(n, x, n') }
  ghost predicate IsDedupe(n: Net, n': Net) { exists s :: Dedupe(n, s, n') }

  ghost predicate Next(n: Net, n': Net) {
    || IsLinkStart(n, n')
    || IsRepairStart(n, n')
    || IsAccept(n, n')
    || IsLose(n, n')
    || IsLinkEnd(n, n')
    || IsRepairEnd(n, n')
    || IsUnlink(n, n')
    || IsRemoteUnlink(n, n')
    || IsDedupe(n, n')
  }

  /** The peer has dealt with the request: its entry of the identifier in the reply holds the new secret,
      or it says whether it has removed what an unlink asked for. */
  ghost predicate IsServed(n: Net, n': Net, x: ExchangeId) {
    && x in n.flights && x in n'.flights
    && var f, f' := n.flights[x], n'.flights[x];
       && f.b in n.tables && f.b in n'.tables
       && if f.Unlinking? then
            f.removed == None && f' == f.(removed := Some(Signed(n.tables[f.b], f.target, f.secret)))
          else
            && !f'.Unlinking? && f.reply == None && f'.reply.Some? && f' == f.(reply := f'.reply)
            && HasEntry(n'.tables[f.b], f'.reply.value, f.id, f.secret)
  }

  // ---- every step keeps the invariant ----

  lemma SameTableOk(n: Net, n': Net, s: Server)
    requires TableOk(n, s) && s in n'.tables && n'.tables[s] == n.tables[s] && n'.address == n.address
    requires Extends(n.issued, n'.issued) && Extends(n.secrets, n'.secrets)
    ensures TableOk(n', s)
  {}

  lemma Apart(n: Net, x: ExchangeId)
    requires FlightsOk(n) && x in n.flights
    ensures forall y | y in n.flights && y != x :: !Joins(n.flights[y], n.flights[x].b, n.flights[x].a)
  {}

  lemma SameTablesChange(n: Net, n': Net, s: Server, p: Server)
    requires ServersOk(n) && TableOk(n, s) && s in n.address && SameTables(n, n')
    requires Extends(n.issued, n'.issued) && Extends(n.secrets, n'.secrets) && NONE !in n'.issued
    ensures Change(n, n', s, p) && ServersOk(n') && TableOk(n', s)
  {}

  lemma LinkStartFlight(n: Net, x: ExchangeId, a: Server, b: Server, id: Id, secret: Secret, n': Net)
    requires ServersOk(n) && TableOk(n, a) && LinkStart(n, x, a, b, id, secret, n')
    ensures FlightOk(n', n'.flights[x])
  {}

  lemma LinkStartIsPairStep(n: Net, x: ExchangeId, a: Server, b: Server, id: Id, secret: Secret, n': Net)
    requires Inv(n) && LinkStart(n, x, a, b, id, secret, n')
    ensures PairStep(n, n', a, b, x)
  {
    SameTablesChange(n, n', a, b);
    LinkStartFlight(n, x, a, b, id, secret, n');
  }

  lemma RepairStartFlight(n: Net, x: ExchangeId, a: Server, i: nat, secret: Secret, n': Net)
    requires ServersOk(n) && TableOk(n, a) && RepairStart(n, x, a, i, secret, n')
    ensures FlightOk(n', n'.flights[x])
  {
    var l := n.tables[a][i];
    assert l in n.tables[a] && EntryOk(n, a, l);
    forall l | l in n'.tables[a] ensures l.sharedSecret != secret {
      assert EntryOk(n, a, l);
    }
  }

  lemma RepairStartIsPairStep(n: Net, x: ExchangeId, a: Server, i: nat, secret: Secret, n': Net)
    requires Inv(n) && RepairStart(n, x, a, i, secret, n')
    ensures PairStep(n, n', a, n.issued[n.tables[a][i].id].peer, x)
  {
    var b := n.issued[n.tables[a][i].id].peer;
    SameTablesChange(n, n', a, b);
    RepairStartFlight(n, x, a, i, secret, n');
  }

  lemma LoseIsPairStep(n: Net, x: ExchangeId, n': Net)
    requires Inv(n) && Lose(n, x, n')
    ensures PairStep(n, n', n.flights[x].b, n.flights[x].a, x)
  {
    var f := n.flights[x];
    assert FlightOk(n, f);
    SameTablesChange(n, n', f.b, f.a);
    Apart(n, x);
  }

  /** What accepting does to the table, whichever branch is taken. */
  lemma AcceptTable(
    n: Net, n': Net, b: Server, a: Server, req: AcceptRequest, localID: Id, at: int, after: seq<Link>, reply: Id)
    requires ServersOk(n) && TableOk(n, b) && a in n.address && a != b && req.callerURL == n.address[a]
    requires IsIssued(n, req.callerID, a, b) && req.sharedSecret in n.secrets
      && SamePair(n.secrets[req.sharedSecret], a, b)
    requires n'.issued == n.issued[localID := Issue(b, a)] && n'.secrets == n.secrets && n'.address == n.address
    requires localID != NONE && localID !in n.issued
    requires b in n'.tables && n'.tables[b] == after
    requires AcceptStep(n.tables[b], req, localID, at, after, reply)
    ensures TableOk(n', b)
    ensures IsIssued(n', reply, b, a) && HasEntry(after, reply, req.callerID, req.sharedSecret)
    ensures forall l | l in n.tables[b] && !ForPeer(n', l, a) :: l in after
    ensures forall l | l in after && !ForPeer(n', l, a) :: l in n.tables[b]
  {
    var before := n.tables[b];
    if Known(before, req) {
      var i: nat :| IsAcceptedEntry(before, req, i)
        && after == before[i := Renewed(before[i], req.sharedSecret, req.callerID)] && reply == before[i].id;
      AcceptedIsForCaller(n, b, a, req, i);
      RenewInTable(n, n', b, a, before, i, req.sharedSecret, req.callerID, after);
    } else {
      var l := Accepted(req, localID, at);
      forall k | k in before ensures k.id != l.id { assert EntryOk(n, b, k); }
      AddToTable(n, n', b, a, before, l, after);
      assert after[|before|] == l;
    }
  }

  /** Places in the table stay. */
  lemma AcceptPlaces(before: seq<Link>, req: AcceptRequest, localID: Id, at: int, after: seq<Link>, reply: Id)
    requires AcceptStep(before, req, localID, at, after, reply)
    ensures |before| <= |after| && forall i | 0 <= i < |before| :: after[i].id == before[i].id
  {}

  /** The entry an accept-link request is about is one for the caller. */
  lemma AcceptedIsForCaller(n: Net, b: Server, a: Server, req: AcceptRequest, i: nat)
    requires ServersOk(n) && TableOk(n, b) && IsIssued(n, req.callerID, a, b) && a in n.address
      && req.callerURL == n.address[a]
    requires Known(n.tables[b], req) && IsAcceptedEntry(n.tables[b], req, i)
    ensures IsIssued(n, n.tables[b][i].id, b, a)
  {
    var l := n.tables[b][i];
    assert l in n.tables[b] && EntryOk(n, b, l);
  }

  lemma RenewInTable(
    n: Net, n': Net, s: Server, p: Server, before: seq<Link>, i: nat, secret: Secret, remoteID: Id, after: seq<Link>)
    requires TableOk(n, s) && before == n.tables[s] && i < |before|
      && after == before[i := Renewed(before[i], secret, remoteID)]
    requires IsIssued(n, before[i].id, s, p) && IsIssued(n, remoteID, p, s)
    requires secret in n.secrets && SamePair(n.secrets[secret], s, p)
    requires n'.address == n.address && Extends(n.issued, n'.issued) && Extends(n.secrets, n'.secrets)
    requires s in n'.tables && n'.tables[s] == after
    ensures TableOk(n', s)
    ensures HasEntry(after, before[i].id, remoteID, secret)
    ensures forall l | l in before && !ForPeer(n', l, p) :: l in after
    ensures forall l | l in after && !ForPeer(n', l, p) :: l in before
  {
    var l' := Renewed(before[i], secret, remoteID);
    assert l' in after by { assert after[i] == l'; }
    assert before[i] in before && EntryOk(n, s, before[i]);
    forall l | l in before && !ForPeer(n', l, p) ensures l in after {
      var k :| 0 <= k < |before| && before[k] == l;
      assert after[k] == l;
    }
    forall l | l in after ensures l == l' || l in before {}
    assert forall k | 0 <= k < |after| :: after[k].id == before[k].id;
  }

  lemma AddToTable(n: Net, n': Net, s: Server, p: Server, before: seq<Link>, l: Link, after: seq<Link>)
    requires TableOk(n, s) && before == n.tables[s] && after == before + [l]
    requires n'.address == n.address && Extends(n.issued, n'.issued) && Extends(n.secrets, n'.secrets)
    requires s in n'.tables && n'.tables[s] == after
    requires forall k | k in before :: k.id != l.id
    requires EntryOk(n', s, l) && ForPeer(n', l, p)
    ensures TableOk(n', s)
    ensures forall l | l in before && !ForPeer(n', l, p) :: l in after
    ensures forall l | l in after && !ForPeer(n', l, p) :: l in before
  {}

  lemma AcceptChange(
    n: Net, n': Net, b: Server, a: Server, req: AcceptRequest, localID: Id, at: int, after: seq<Link>, reply: Id)
    requires ServersOk(n) && b in n.address && OnlyTable(n, n', b, after) && localID !in n.issued && localID != NONE
    requires AcceptStep(n.tables[b], req, localID, at, after, reply)
    requires n'.issued == n.issued[localID := Issue(b, a)] && n'.secrets == n.secrets
    requires forall l | l in n.tables[b] && !ForPeer(n', l, a) :: l in after
    requires forall l | l in after && !ForPeer(n', l, a) :: l in n.tables[b]
    ensures Change(n, n', b, a) && ServersOk(n')
  {
    AcceptPlaces(n.tables[b], req, localID, at, after, reply);
  }

  lemma AcceptParts(n: Net, x: ExchangeId, f: Flight, localID: Id, at: int, after: seq<Link>, reply: Id, n': Net)
    requires ServersOk(n) && !f.Unlinking? && f.a in n.address && f.b in n.address && FlightOk(n, f)
    requires TableOk(n, f.a) && TableOk(n, f.b) && AcceptedAs(n, x, f, localID, at, after, reply, n')
    requires localID != NONE && localID !in n.issued
    requires n'.issued == n.issued[localID := Issue(f.b, f.a)] && n'.secrets == n.secrets
    ensures Change(n, n', f.b, f.a) && ServersOk(n') && TableOk(n', f.b)
    ensures FlightOk(n', f.(reply := Some(reply))) && HasEntry(n'.tables[f.b], reply, f.id, f.secret)
  {
    AcceptTable(n, n', f.b, f.a, RequestOf(n, f), localID, at, after, reply);
    AcceptChange(n, n', f.b, f.a, RequestOf(n, f), localID, at, after, reply);
    AcceptedFlight(n, n', f, reply);
  }

  lemma AcceptIsPairStep(n: Net, x: ExchangeId, localID: Id, at: int, n': Net)
    requires Inv(n) && Accept(n, x, localID, at, n')
    ensures PairStep(n, n', n.flights[x].b, n.flights[x].a, x) && IsServed(n, n', x)
  {
    var f := n.flights[x];
    assert FlightOk(n, f);
    AcceptResult(n, x, f, localID, at, n');
    Apart(n, x);
  }

  lemma AcceptResult(n: Net, x: ExchangeId, f: Flight, localID: Id, at: int, n': Net)
    requires ServersOk(n) && FlightOk(n, f) && TableOk(n, f.a) && TableOk(n, f.b)
    requires Accept(n, x, localID, at, n') && n.flights[x] == f
    ensures Change(n, n', f.b, f.a) && ServersOk(n') && TableOk(n', f.b)
    ensures OnlyAt(n, n', x) && x in n'.flights && FlightOk(n', n'.flights[x])
    ensures IsServed(n, n', x)
  {
    var after, reply :| AcceptedAs(n, x, f, localID, at, after, reply, n');
    AcceptParts(n, x, f, localID, at, after, reply, n');
    assert n'.flights[x] == f.(reply := Some(reply));
  }

  lemma AcceptedFlight(n: Net, n': Net, f: Flight, reply: Id)
    requires ServersOk(n) && TableOk(n, f.a) && FlightOk(n, f) && !f.Unlinking?
    requires f.b in n'.tables && n'.tables == n.tables[f.b := n'.tables[f.b]]
    requires n'.address == n.address && f.b in n'.backing && n'.backing == n.backing[f.b := n'.backing[f.b]]
    requires Extends(n.issued, n'.issued) && n'.secrets == n.secrets
    requires IsIssued(n', reply, f.b, f.a) && HasEntry(n'.tables[f.b], reply, f.id, f.secret)
    ensures FlightOk(n', f.(reply := Some(reply)))
  {}

  /** After its reply a link is appended, and mirrors the peer's entry. */
  lemma LinkEndTable(n: Net, x: ExchangeId, l: Link, n': Net)
    requires ServersOk(n) && x in n.flights && FlightOk(n, n.flights[x]) && LinkEnd(n, x, l, n')
    requires TableOk(n, n.flights[x].a)
    ensures TableOk(n', n.flights[x].a) && ServersOk(n') && Change(n, n', n.flights[x].a, n.flights[x].b)
  {
    var f := n.flights[x];
    var before := n.tables[f.a];
    forall k | k in before ensures k.id != l.id { assert !ForPeer(n, k, f.b); }
    AddToTable(n, n', f.a, f.b, before, l, before + [l]);
  }

  lemma LinkEndIsPairStep(n: Net, x: ExchangeId, l: Link, n': Net)
    requires Inv(n) && LinkEnd(n, x, l, n')
    ensures PairStep(n, n', n.flights[x].a, n.flights[x].b, x)
  {
    var f := n.flights[x];
    assert FlightOk(n, f) && TableOk(n, f.a);
    LinkEndTable(n, x, l, n');
    Apart(n, x);
    Gone(n, n', x);
  }

  lemma RepairEndTable(n: Net, x: ExchangeId, n': Net)
    requires ServersOk(n) && x in n.flights && FlightOk(n, n.flights[x]) && RepairEnd(n, x, n')
    requires TableOk(n, n.flights[x].a)
    ensures TableOk(n', n.flights[x].a) && ServersOk(n') && Change(n, n', n.flights[x].a, n.flights[x].b)
  {
    var f := n.flights[x];
    if f.backing == n.backing[f.a] {
      RenewInTable(n, n', f.a, f.b, n.tables[f.a], f.index, f.secret, f.reply.value, n'.tables[f.a]);
    } else {
      SameTablesChange(n, n', f.a, f.b);
    }
  }

  lemma RepairEndIsPairStep(n: Net, x: ExchangeId, n': Net)
    requires Inv(n) && RepairEnd(n, x, n')
    ensures PairStep(n, n', n.flights[x].a, n.flights[x].b, x)
  {
    var f := n.flights[x];
    assert FlightOk(n, f) && TableOk(n, f.a);
    RepairEndTable(n, x, n');
    Apart(n, x);
    Gone(n, n', x);
  }

  lemma Gone(n: Net, n': Net, x: ExchangeId)
    requires n'.flights == n.flights - {x}
    ensures OnlyAt(n, n', x) && x !in n'.flights
  {}

  lemma RemoveFromTable(n: Net, n': Net, s: Server, p: Server, id: Id)
    requires ServersOk(n) && TableOk(n, s) && s in n.address && IsIssued(n, id, s, p)
    requires OnlyTable(n, n', s, Without(n.tables[s], id)) && !InPlace(n, n', s)
    requires n'.issued == n.issued && n'.secrets == n.secrets
    ensures TableOk(n', s) && ServersOk(n') && Change(n, n', s, p) && !HasId(n'.tables[s], id)
  {
    WithoutMembers(n.tables[s], id);
    WithoutUnique(n.tables[s], id);
    forall l | l in n'.tables[s] ensures EntryOk(n', s, l) { assert EntryOk(n, s, l); }
  }

  lemma UnlinkFlight(n: Net, x: ExchangeId, a: Server, l: Link, n': Net)
    requires ServersOk(n) && TableOk(n, a) && a in n.address && Unlink(n, x, a, l, n') && EntryOk(n, a, l)
    requires !HasId(n'.tables[a], l.id) && l.remoteID != NONE
    ensures FlightOk(n', n'.flights[x])
  {}

  lemma UnlinkResult(n: Net, x: ExchangeId, a: Server, l: Link, n': Net)
    requires ServersOk(n) && TableOk(n, a) && a in n.address && EntryOk(n, a, l) && Unlink(n, x, a, l, n')
    ensures Change(n, n', a, n.issued[l.id].peer) && ServersOk(n') && TableOk(n', a) && OnlyAt(n, n', x)
    ensures x in n'.flights ==> Joins(n'.flights[x], a, n.issued[l.id].peer) && FlightOk(n', n'.flights[x])
  {
    RemoveFromTable(n, n', a, n.issued[l.id].peer, l.id);
    if l.remoteID != NONE { UnlinkFlight(n, x, a, l, n'); }
  }

  lemma UnlinkIsPairStep(n: Net, x: ExchangeId, a: Server, l: Link, n': Net)
    requires Inv(n) && Unlink(n, x, a, l, n')
    ensures PairStep(n, n', a, n.issued[l.id].peer, x)
  {
    assert TableOk(n, a) && EntryOk(n, a, l);
    UnlinkResult(n, x, a, l, n');
  }

  lemma RemoteUnlinkIsPairStep(n: Net, x: ExchangeId, n': Net)
    requires Inv(n) && RemoteUnlink(n, x, n')
    ensures PairStep(n, n', n.flights[x].b, n.flights[x].a, x) && IsServed(n, n', x)
  {
    var f := n.flights[x];
    assert FlightOk(n, f) && TableOk(n, f.b);
    RemoteUnlinkTable(n, x, n');
    RemoteUnlinkFlight(n, x, n');
    Apart(n, x);
  }

  lemma RemoteUnlinkTable(n: Net, x: ExchangeId, n': Net)
    requires ServersOk(n) && x in n.flights && FlightOk(n, n.flights[x]) && RemoteUnlink(n, x, n')
    requires TableOk(n, n.flights[x].b)
    ensures TableOk(n', n.flights[x].b) && ServersOk(n') && Change(n, n', n.flights[x].b, n.flights[x].a)
  {
    var f := n.flights[x];
    if Signed(n.tables[f.b], f.target, f.secret) {
      RemoveFromTable(n, n', f.b, f.a, f.target);
    } else {
      SameTableOk(n, n', f.b);
    }
  }

  lemma RemoteUnlinkFlight(n: Net, x: ExchangeId, n': Net)
    requires ServersOk(n) && x in n.flights && FlightOk(n, n.flights[x]) && RemoteUnlink(n, x, n')
    ensures FlightOk(n', n'.flights[x])
  {
    var f := n.flights[x];
    WithoutMembers(n.tables[f.b], f.target);
    if f.agreed && HasId(n.tables[f.b], f.target) {
      var l :| l in n.tables[f.b] && l.id == f.target && l.remoteID == f.id && l.sharedSecret == f.secret;
      var i :| 0 <= i < |n.tables[f.b]| && n.tables[f.b][i] == l;
      assert Signed(n.tables[f.b], f.target, f.secret);
    }
  }

  /** A part of a table has an unaltered entry or none. */
  lemma PartUnaltered(links: seq<Link>, part: seq<Link>, id: Id, remoteID: Id, secret: Secret)
    requires UniqueIds(links) && (forall l | l in part :: l in links) && Unaltered(links, id, remoteID, secret)
    ensures Unaltered(part, id, remoteID, secret)
  {
    if HasId(part, id) {
      var i :| 0 <= i < |part| && part[i].id == id;
      assert part[i] in part;
      HasIdOfMember(links, part[i]);
      var l :| l in links && l.id == id && l.remoteID == remoteID && l.sharedSecret == secret;
      IdDetermines(links, l, part[i]);
    }
  }

  lemma PartLacks(links: seq<Link>, part: seq<Link>, id: Id)
    requires (forall l | l in part :: l in links) && !HasId(links, id)
    ensures !HasId(part, id)
  {
    if HasId(part, id) {
      var i :| 0 <= i < |part| && part[i].id == id;
      assert part[i] in part;
      HasIdOfMember(links, part[i]);
    }
  }

  /** The table of `s` is reduced to a part of it, in another backing array. */
  ghost predicate Reduced(n: Net, n': Net, s: Server) {
    && s in n.tables && s in n.backing && s in n'.tables && OnlyTable(n, n', s, n'.tables[s]) && !InPlace(n, n', s)
    && n'.issued == n.issued && n'.secrets == n.secrets && n'.flights == n.flights
    && (forall l | l in n'.tables[s] :: l in n.tables[s]) && UniqueIds(n'.tables[s])
  }

  lemma DedupeReduces(n: Net, s: Server, n': Net)
    requires Dedupe(n, s, n') && TableOk(n, s)
    ensures n' == n || Reduced(n, n', s)
  {
    if HasDuplicate(n.tables[s]) {
      var kept :| IsDeduped(n.tables[s], kept) && OnlyTable(n, n', s, kept) && !InPlace(n, n', s);
      DedupedMembers(n.tables[s], kept);
    }
  }

  /** An exchange survives the loss of entries of either server. */
  lemma ReducedKeepsFlight(n: Net, n': Net, s: Server, f: Flight)
    requires FlightOk(n, f) && Reduced(n, n', s) && TableOk(n, s)
    ensures FlightOk(n', f)
  {
    match f
    case Linking(a, b, id, secret, reply) =>
      if b == s && reply.Some? { PartUnaltered(n.tables[s], n'.tables[s], reply.value, id, secret); }
    case Repairing(a, b, id, secret, reply, backing, index) =>
      if b == s && reply.Some? { PartUnaltered(n.tables[s], n'.tables[s], reply.value, id, secret); }
    case Unlinking(a, b, id, secret, target, removed, agreed) =>
      ReducedKeepsUnlinking(n, n', s, f);
  }

  lemma ReducedKeepsUnlinking(n: Net, n': Net, s: Server, f: Flight)
    requires FlightOk(n, f) && Reduced(n, n', s) && TableOk(n, s) && f.Unlinking?
    ensures FlightOk(n', f)
  {
    if f.a == s { PartLacks(n.tables[s], n'.tables[s], f.id); }
    if f.b == s && !HasId(n.tables[s], f.target) { PartLacks(n.tables[s], n'.tables[s], f.target); }
    if f.b == s && f.removed == None && f.agreed {
      PartUnaltered(n.tables[s], n'.tables[s], f.target, f.id, f.secret);
    }
  }

  /** Deduplication keeps every table and every exchange well formed, whatever is in flight. */
  lemma DedupeKeepsInv(n: Net, s: Server, n': Net)
    requires Inv(n) && Dedupe(n, s, n')
    ensures Inv(n')
  {
    assert TableOk(n, s);
    DedupeReduces(n, s, n');
    if n' != n {
      forall l | l in n'.tables[s] ensures EntryOk(n', s, l) { assert EntryOk(n, s, l); }
      forall t | t in n'.address && t != s ensures TableOk(n', t) { assert TableOk(n, t); }
      forall y | y in n'.flights ensures FlightOk(n', n'.flights[y]) {
        ReducedKeepsFlight(n, n', s, n.flights[y]);
      }
    }
  }
}
