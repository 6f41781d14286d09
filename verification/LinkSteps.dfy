/** Every step of the pairing protocol can be taken whenever the program would take it: no handler waits for
    anything but its own request or reply. */
module LinkSteps {
  import opened Options
  import opened LinkTable
  import opened LinkNetwork

  // ---- one table changes ----

  function WithTable(n: Net, s: Server, table: seq<Link>, moves: bool): Net
    requires s in n.backing
  {
    if moves then n.(tables := n.tables[s := table], backing := n.backing[s := n.backing[s] + 1],
      room := n.room[s := |table|])
    else n.(tables := n.tables[s := table])
  }

  lemma TableChanges(n: Net, s: Server, table: seq<Link>, moves: bool)
    requires s in n.tables && s in n.backing
    ensures OnlyTable(n, WithTable(n, s, table, moves), s, table)
    ensures InPlace(n, WithTable(n, s, table, moves), s) <==> !moves
  {
    var n' := WithTable(n, s, table, moves);
    assert n'.backing == n.backing[s := n'.backing[s]];
  }

  // ---- the exchanges ----

  /** A link can be started with any server of whose very address there is no entry, and only then. */
  lemma LinkStartIff(n: Net, x: ExchangeId, a: Server, b: Server, id: Id, secret: Secret)
    requires a in n.tables && b in n.address && a != b && x !in n.flights && Quiet(n, a, b)
    requires id != NONE && id !in n.issued && secret !in n.secrets
    ensures (exists n' :: LinkStart(n, x, a, b, id, secret, n'))
      <==> forall l | l in n.tables[a] :: l.url.raw != n.address[b].raw
  {
    if forall l | l in n.tables[a] :: l.url.raw != n.address[b].raw {
      var n' := n.(flights := n.flights[x := Linking(a, b, id, secret, None)],
                   issued := n.issued[id := Issue(a, b)], secrets := n.secrets[secret := Issue(a, b)]);
      assert LinkStart(n, x, a, b, id, secret, n');
    }
  }

  /** A repair can be started for every entry. */
  lemma RepairStartExists(n: Net, x: ExchangeId, a: Server, b: Server, i: nat, secret: Secret) returns (n': Net)
    requires a in n.tables && a in n.backing && i < |n.tables[a]| && IsIssued(n, n.tables[a][i].id, a, b)
    requires x !in n.flights && secret !in n.secrets && Quiet(n, a, b)
    ensures RepairStart(n, x, a, i, secret, n') && n'.flights[x].id == n.tables[a][i].id
  {
    var l := n.tables[a][i];
    n' := n.(flights := n.flights[x := Repairing(a, b, l.id, secret, None, n.backing[a], i)],
             secrets := n.secrets[secret := Issue(a, b)]);
  }

  lemma FirstWhere(links: seq<Link>, good: set<nat>) returns (i: nat)
    requires good != {} && forall k | k in good :: k < |links|
    ensures i in good && forall k: nat | k < i :: k !in good
  {
    i := 0;
    while i !in good
      invariant forall k: nat | k < i :: k !in good
      invariant exists k :: k in good && i <= k
      decreases |links| - i
    {
      i := i + 1;
    }
  }

  lemma AcceptedEntryExists(links: seq<Link>, req: AcceptRequest) returns (i: nat)
    requires Known(links, req)
    ensures IsAcceptedEntry(links, req, i)
  {
    var callers := set k: nat | k < |links| && IsCaller(links[k], req);
    var keys := set k: nat | k < |links| && SameKey(links[k], req);
    if k: nat :| k < |links| && IsCaller(links[k], req) {
      assert k in callers;
      i := FirstWhere(links, callers);
      forall j: nat | j < i ensures !IsCaller(links[j], req) { assert j !in callers; }
    } else {
      var k: nat :| k < |links| && SameKey(links[k], req);
      assert k in keys;
      i := FirstWhere(links, keys);
      forall j: nat | j < i ensures !SameKey(links[j], req) { assert j !in keys; }
    }
  }

  lemma AcceptStepExists(links: seq<Link>, req: AcceptRequest, localID: Id, at: int)
    returns (after: seq<Link>, reply: Id)
    ensures AcceptStep(links, req, localID, at, after, reply)
  {
    if Known(links, req) {
      var i := AcceptedEntryExists(links, req);
      after, reply := links[i := Renewed(links[i], req.sharedSecret, req.callerID)], links[i].id;
    } else {
      after, reply := links + [Accepted(req, localID, at)], localID;
    }
  }

  /** A request of a link or a repair that has not been answered can be accepted. */
  lemma AcceptExists(n: Net, x: ExchangeId, localID: Id, at: int) returns (n': Net)
    requires Inv(n) && x in n.flights && !n.flights[x].Unlinking? && n.flights[x].reply == None
    requires localID != NONE && localID !in n.issued
    ensures Accept(n, x, localID, at, n')
  {
    var f := n.flights[x];
    assert FlightOk(n, f);
    var after, reply := AcceptStepExists(n.tables[f.b], RequestOf(n, f), localID, at);
    var moves := !Known(n.tables[f.b], RequestOf(n, f)) && Full(n, f.b);
    TableChanges(n, f.b, after, moves);
    n' := WithTable(n, f.b, after, moves).(flights := n.flights[x := f.(reply := Some(reply))],
      issued := n.issued[localID := Issue(f.b, f.a)]);
    assert AcceptedAs(n, x, f, localID, at, after, reply, n');
  }

  /** A message can be lost at any point. */
  lemma LoseExists(n: Net, x: ExchangeId) returns (n': Net)
    requires x in n.flights
    ensures Lose(n, x, n') && x !in n'.flights
  {
    n' := n.(flights := n.flights - {x});
  }

  /** A link that has its reply can be completed. */
  lemma LinkEndExists(n: Net, x: ExchangeId, tls: string, trusted: bool, at: int) returns (l: Link, n': Net)
    requires Inv(n) && x in n.flights && n.flights[x].Linking? && n.flights[x].reply.Some?
    ensures LinkEnd(n, x, l, n') && l.tlsFingerprint == tls && l.lxdTrusted == trusted && l.linkedAt == at
  {
    var f := n.flights[x];
    assert FlightOk(n, f);
    l := Link(f.id, n.address[f.b], f.secret, f.reply.value, tls, trusted, at);
    TableChanges(n, f.a, n.tables[f.a] + [l], Full(n, f.a));
    n' := WithTable(n, f.a, n.tables[f.a] + [l], Full(n, f.a)).(flights := n.flights - {x});
  }

  /** So can a repair, whether or not its write reaches the table. */
  lemma RepairEndExists(n: Net, x: ExchangeId) returns (n': Net)
    requires Inv(n) && x in n.flights && n.flights[x].Repairing? && n.flights[x].reply.Some?
    ensures RepairEnd(n, x, n')
  {
    var f := n.flights[x];
    assert FlightOk(n, f);
    if f.backing == n.backing[f.a] {
      var table := n.tables[f.a][f.index := Renewed(n.tables[f.a][f.index], f.secret, f.reply.value)];
      TableChanges(n, f.a, table, false);
      n' := WithTable(n, f.a, table, false).(flights := n.flights - {x});
    } else {
      n' := n.(flights := n.flights - {x});
    }
  }

  /** Every entry can be unlinked while no exchange of its pair is in flight. */
  lemma UnlinkExists(n: Net, x: ExchangeId, a: Server, l: Link) returns (n': Net)
    requires Inv(n) && a in n.address && l in n.tables[a] && x !in n.flights && l.id in n.issued
    requires Quiet(n, a, n.issued[l.id].peer)
    ensures Unlink(n, x, a, l, n') && (x in n'.flights <==> l.remoteID != NONE)
  {
    assert TableOk(n, a) && EntryOk(n, a, l);
    var b := n.issued[l.id].peer;
    TableChanges(n, a, Without(n.tables[a], l.id), true);
    var m := WithTable(n, a, Without(n.tables[a], l.id), true);
    if l.remoteID == NONE {
      n' := m;
    } else {
      ghost var agreed := Mirrored(n, a, l.id, b, l.remoteID);
      n' := m.(flights := n.flights[x := Unlinking(a, b, l.id, l.sharedSecret, l.remoteID, None, agreed)]);
    }
  }

  /** The request to the peer can be served. */
  lemma RemoteUnlinkExists(n: Net, x: ExchangeId) returns (n': Net)
    requires Inv(n) && x in n.flights && n.flights[x].Unlinking? && n.flights[x].removed == None
    ensures RemoteUnlink(n, x, n')
  {
    var f := n.flights[x];
    assert FlightOk(n, f);
    ghost var signed := Signed(n.tables[f.b], f.target, f.secret);
    var table := RemoteUnlinked(n.tables[f.b], f.target, f.secret);
    TableChanges(n, f.b, table, signed);
    n' := WithTable(n, f.b, table, signed).(flights := n.flights[x := f.(removed := Some(signed))]);
  }

  /** A table has a result of deduplication, so a server can deduplicate at any time. */
  lemma {:induction false} DedupedExists(links: seq<Link>) returns (kept: seq<Link>)
    ensures IsDeduped(links, kept)
    decreases |links|
  {
    if links == [] {
      kept := [];
    } else {
      var front, l := links[..|links| - 1], links[|links| - 1];
      assert links == front + [l];
      kept := DedupedExists(front);
      if l.url.key in FirstKeys(front) {
        var at :| 0 <= at < |kept| && FirstKeys(front)[at] == l.url.key;
        DedupeRival(front, kept, l, at);
        kept := if Better(l, kept[at]) then kept[at := l] else kept;
      } else {
        DedupeNewKey(front, kept, l);
        kept := kept + [l];
      }
    }
  }

  lemma DedupeExists(n: Net, s: Server) returns (n': Net)
    requires s in n.tables && s in n.backing
    ensures Dedupe(n, s, n')
  {
    if HasDuplicate(n.tables[s]) {
      var kept := DedupedExists(n.tables[s]);
      TableChanges(n, s, kept, true);
      n' := WithTable(n, s, kept, true);
    } else {
      n' := n;
    }
  }
}
