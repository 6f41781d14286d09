/** What the pairing protocol promises over its runs, and where it fails. */
module LinkRuns {
  import opened Options
  import opened LinkTable
  import opened LinkNetwork

  // ---- a completed exchange ----

  lemma HasAppended(n: Net, f: Flight, l: Link, links: seq<Link>)
    requires IsNewEntry(n, f, l)
    ensures HasEntry(links + [l], f.id, f.reply.value, f.secret)
  {}

  /** A link exchange that completes leaves the pair mirrored exactly if the peer still has its entry. */
  lemma LinkMirrors(n: Net, x: ExchangeId, l: Link, n': Net)
    requires Inv(n) && LinkEnd(n, x, l, n')
    ensures n.flights[x].a in n'.tables && n.flights[x].b in n.tables && n.flights[x].b in n'.tables
    ensures Mirrored(n', n.flights[x].a, n.flights[x].id, n.flights[x].b, n.flights[x].reply.value)
      <==> HasId(n.tables[n.flights[x].b], n.flights[x].reply.value)
  {
    var f := n.flights[x];
    assert FlightOk(n, f);
    HasAppended(n, f, l, n.tables[f.a]);
    assert HasEntry(n'.tables[f.a], f.id, f.reply.value, f.secret);
  }

  /** A repair exchange that completes leaves the pair mirrored exactly if the peer still has its entry and
      the table the backing array it had when the entry was looked up. Without the latter the peer has the new
      secret, this server keeps the old one, and success is reported all the same. */
  lemma RepairMirrors(n: Net, x: ExchangeId, n': Net)
    requires Inv(n) && RepairEnd(n, x, n')
    ensures n.flights[x].a in n'.tables && n.flights[x].b in n.tables && n.flights[x].b in n'.tables
    ensures Mirrored(n', n.flights[x].a, n.flights[x].id, n.flights[x].b, n.flights[x].reply.value)
      <==> n.flights[x].backing == n.backing[n.flights[x].a]
             && HasId(n.tables[n.flights[x].b], n.flights[x].reply.value)
  {
    var f := n.flights[x];
    assert FlightOk(n, f) && TableOk(n, f.b);
    if f.backing == n.backing[f.a] {
      assert n'.tables[f.a][f.index] in n'.tables[f.a];
      assert HasEntry(n'.tables[f.a], f.id, f.reply.value, f.secret);
    } else {
      LostRepair(n, f);
    }
  }

  lemma LostRepair(n: Net, f: Flight)
    requires FlightOk(n, f) && f.Repairing? && f.reply.Some? && TableOk(n, f.b)
    ensures !Mirrored(n, f.a, f.id, f.b, f.reply.value)
  {}

  // ---- one entry for each peer ----

  ghost predicate OnePerPeer(n: Net) {
    forall s | s in n.tables :: !HasDuplicate(n.tables[s])
  }

  ghost predicate UnlinkedOk(n: Net, f: Flight) {
    f.Unlinking? && f.a in n.tables && f.b in n.tables ==>
      !Holds(n, f.a, f.b) && (f.removed == Some(true) ==> !Holds(n, f.b, f.a))
  }

  /** Tables with one entry for each peer, and unlinked pairs without any. */
  ghost predicate Tidy(n: Net) {
    OnePerPeer(n) && forall x | x in n.flights :: UnlinkedOk(n, n.flights[x])
  }

  lemma SoleEntry(n: Net, s: Server, l: Link, peer: Server)
    requires ServersOk(n) && TableOk(n, s) && !HasDuplicate(n.tables[s]) && l in n.tables[s] && ForPeer(n, l, peer)
    ensures forall k | k in n.tables[s] && ForPeer(n, k, peer) :: k == l
  {}

  /** What a step of one pair has to leave behind for the tables to be tidy. */
  ghost predicate LeavesTidy(n': Net, s: Server, x: ExchangeId)
    requires s in n'.tables
  {
    !HasDuplicate(n'.tables[s]) && (x in n'.flights ==> UnlinkedOk(n', n'.flights[x]))
  }

  lemma KeepsUnlinked(n: Net, n': Net, s: Server, p: Server, f: Flight)
    requires Inv(n) && Change(n, n', s, p) && !Joins(f, s, p) && FlightOk(n, f) && UnlinkedOk(n, f)
    ensures UnlinkedOk(n', f)
  {
    if f.Unlinking? {
      KeepsAbsence(n, n', s, p, f.a, f.b);
      if f.removed == Some(true) { KeepsAbsence(n, n', s, p, f.b, f.a); }
    }
  }

  lemma PairStepKeepsTidy(n: Net, n': Net, s: Server, p: Server, x: ExchangeId)
    requires Inv(n) && Tidy(n) && PairStep(n, n', s, p, x) && LeavesTidy(n', s, x)
    ensures Tidy(n')
  {
    forall y | y in n'.flights ensures UnlinkedOk(n', n'.flights[y]) {
      if y != x {
        assert FlightOk(n, n.flights[y]);
        KeepsUnlinked(n, n', s, p, n.flights[y]);
      }
    }
  }

  lemma LinkEndTidy(n: Net, x: ExchangeId, l: Link, n': Net)
    requires Inv(n) && Tidy(n) && LinkEnd(n, x, l, n')
    ensures LeavesTidy(n', n.flights[x].a, x)
  {}

  lemma StillNoDuplicate(links: seq<Link>, l: Link)
    requires !HasDuplicate(links) && forall k | k in links :: k.url.key != l.url.key
    ensures !HasDuplicate(links + [l])
  {}

  lemma RenewedNoDuplicate(links: seq<Link>, i: nat, secret: Secret, remoteID: Id)
    requires !HasDuplicate(links) && i < |links|
    ensures !HasDuplicate(links[i := Renewed(links[i], secret, remoteID)])
  {}

  lemma RepairEndTidy(n: Net, x: ExchangeId, n': Net)
    requires Inv(n) && Tidy(n) && RepairEnd(n, x, n')
    ensures LeavesTidy(n', n.flights[x].a, x)
  {}

  lemma AcceptedNoDuplicate(before: seq<Link>, req: AcceptRequest, localID: Id, at: int, after: seq<Link>, reply: Id)
    requires !HasDuplicate(before) && AcceptStep(before, req, localID, at, after, reply)
    ensures !HasDuplicate(after)
  {
    if Known(before, req) {
      var i: nat :| IsAcceptedEntry(before, req, i)
        && after == before[i := Renewed(before[i], req.sharedSecret, req.callerID)] && reply == before[i].id;
      RenewedNoDuplicate(before, i, req.sharedSecret, req.callerID);
    } else {
      StillNoDuplicate(before, Accepted(req, localID, at));
    }
  }

  lemma AcceptTidy(n: Net, x: ExchangeId, localID: Id, at: int, n': Net)
    requires Inv(n) && Tidy(n) && Accept(n, x, localID, at, n')
    ensures LeavesTidy(n', n.flights[x].b, x)
  {
    var f := n.flights[x];
    var after, reply :| AcceptedAs(n, x, f, localID, at, after, reply, n');
    AcceptedNoDuplicate(n.tables[f.b], RequestOf(n, f), localID, at, after, reply);
  }

  /** Removing an entry of a tidy table leaves a tidy table, without entry for that peer. */
  lemma RemovedTidy(n: Net, n': Net, s: Server, l: Link, peer: Server)
    requires ServersOk(n) && TableOk(n, s) && !HasDuplicate(n.tables[s])
    requires l in n.tables[s] && ForPeer(n, l, peer)
    requires s in n'.tables && n'.tables[s] == Without(n.tables[s], l.id) && n'.issued == n.issued
    ensures !HasDuplicate(n'.tables[s]) && !Holds(n', s, peer)
  {
    WithoutMembers(n.tables[s], l.id);
    WithoutUnique(n.tables[s], l.id);
    SoleEntry(n, s, l, peer);
    WithoutNoDuplicate(n.tables[s], l.id);
  }

  lemma {:induction false} WithoutNoDuplicate(links: seq<Link>, id: Id)
    requires !HasDuplicate(links)
    ensures !HasDuplicate(Without(links, id))
    decreases |links|
  {
    if links != [] {
      var rest := links[1..];
      forall i, j | 0 <= i < j < |rest| ensures rest[i].url.key != rest[j].url.key {
        assert rest[i] == links[i + 1] && rest[j] == links[j + 1];
      }
      WithoutNoDuplicate(rest, id);
      WithoutMembers(rest, id);
      forall l | l in Without(rest, id) ensures l.url.key != links[0].url.key {
        var k :| 0 <= k < |rest| && rest[k] == l;
        assert links[k + 1] == l;
      }
    }
  }

  lemma UnlinkTidy(n: Net, x: ExchangeId, a: Server, l: Link, n': Net)
    requires Inv(n) && Tidy(n) && Unlink(n, x, a, l, n')
    ensures LeavesTidy(n', a, x)
  {
    assert TableOk(n, a) && EntryOk(n, a, l);
    RemovedTidy(n, n', a, l, n.issued[l.id].peer);
  }

  lemma SignedRemoved(n: Net, n': Net, s: Server, peer: Server, id: Id, secret: Secret)
    requires ServersOk(n) && TableOk(n, s) && !HasDuplicate(n.tables[s]) && IsIssued(n, id, s, peer)
    requires Signed(n.tables[s], id, secret)
    requires s in n'.tables && n'.tables[s] == Without(n.tables[s], id) && n'.issued == n.issued
    ensures !HasDuplicate(n'.tables[s]) && !Holds(n', s, peer)
  {
    var i :| 0 <= i < |n.tables[s]| && n.tables[s][i].id == id && n.tables[s][i].sharedSecret == secret;
    RemovedTidy(n, n', s, n.tables[s][i], peer);
  }

  lemma RemoteUnlinkTidy(n: Net, x: ExchangeId, n': Net)
    requires Inv(n) && Tidy(n) && RemoteUnlink(n, x, n')
    ensures LeavesTidy(n', n.flights[x].b, x)
  {
    var f := n.flights[x];
    assert FlightOk(n, f) && TableOk(n, f.b) && UnlinkedOk(n, f);
    if Signed(n.tables[f.b], f.target, f.secret) { SignedRemoved(n, n', f.b, f.a, f.target, f.secret); }
    assert n'.tables[f.a] == n.tables[f.a];
  }

  /** With one entry for each peer, deduplication changes nothing. */
  lemma DedupeOfTidy(n: Net, s: Server, n': Net)
    requires Inv(n) && Tidy(n) && Dedupe(n, s, n')
    ensures n'.tables == n.tables && Tidy(n')
  {}

  // ---- every step ----

  /** A step of one pair that leaves tidy tables tidy; an exchange in flight before and after was served. */
  ghost predicate GoodPairStep(n: Net, n': Net, s: Server, p: Server, x: ExchangeId) {
    && PairStep(n, n', s, p, x) && (Tidy(n) ==> LeavesTidy(n', s, x))
    && (x in n.flights && x in n'.flights ==> IsServed(n, n', x))
  }

  ghost predicate GoodStep(n: Net, n': Net) {
    exists s, p, x :: GoodPairStep(n, n', s, p, x)
  }

  lemma LinkStartIsGood(n: Net, n': Net)
    requires Inv(n) && IsLinkStart(n, n')
    ensures GoodStep(n, n')
  {
    var x, a, b, id, secret :| LinkStart(n, x, a, b, id, secret, n');
    LinkStartIsPairStep(n, x, a, b, id, secret, n');
    assert GoodPairStep(n, n', a, b, x);
  }

  lemma RepairStartIsGood(n: Net, n': Net)
    requires Inv(n) && IsRepairStart(n, n')
    ensures GoodStep(n, n')
  {
    var x, a, i: nat, secret :| RepairStart(n, x, a, i, secret, n');
    RepairStartIsPairStep(n, x, a, i, secret, n');
    assert GoodPairStep(n, n', a, n.issued[n.tables[a][i].id].peer, x);
  }

  lemma AcceptIsGood(n: Net, n': Net)
    requires Inv(n) && IsAccept(n, n')
    ensures GoodStep(n, n')
  {
    var x, localID, at :| Accept(n, x, localID, at, n');
    AcceptIsPairStep(n, x, localID, at, n');
    if Tidy(n) { AcceptTidy(n, x, localID, at, n'); }
    assert GoodPairStep(n, n', n.flights[x].b, n.flights[x].a, x);
  }

  lemma LoseIsGood(n: Net, n': Net)
    requires Inv(n) && IsLose(n, n')
    ensures GoodStep(n, n')
  {
    var x :| Lose(n, x, n');
    LoseIsPairStep(n, x, n');
    assert GoodPairStep(n, n', n.flights[x].b, n.flights[x].a, x);
  }

  lemma LinkEndIsGood(n: Net, n': Net)
    requires Inv(n) && IsLinkEnd(n, n')
    ensures GoodStep(n, n')
  {
    var x, l :| LinkEnd(n, x, l, n');
    LinkEndIsPairStep(n, x, l, n');
    if Tidy(n) { LinkEndTidy(n, x, l, n'); }
    assert GoodPairStep(n, n', n.flights[x].a, n.flights[x].b, x);
  }

  lemma RepairEndIsGood(n: Net, n': Net)
    requires Inv(n) && IsRepairEnd(n, n')
    ensures GoodStep(n, n')
  {
    var x :| RepairEnd(n, x, n');
    RepairEndIsPairStep(n, x, n');
    if Tidy(n) { RepairEndTidy(n, x, n'); }
    assert GoodPairStep(n, n', n.flights[x].a, n.flights[x].b, x);
  }

  lemma UnlinkIsGood(n: Net, n': Net)
    requires Inv(n) && IsUnlink(n, n')
    ensures GoodStep(n, n')
  {
    var x, a, l :| Unlink(n, x, a, l, n');
    UnlinkIsPairStep(n, x, a, l, n');
    if Tidy(n) { UnlinkTidy(n, x, a, l, n'); }
    assert GoodPairStep(n, n', a, n.issued[l.id].peer, x);
  }

  lemma RemoteUnlinkIsGood(n: Net, n': Net)
    requires Inv(n) && IsRemoteUnlink(n, n')
    ensures GoodStep(n, n')
  {
    var x :| RemoteUnlink(n, x, n');
    RemoteUnlinkIsPairStep(n, x, n');
    if Tidy(n) { RemoteUnlinkTidy(n, x, n'); }
    assert GoodPairStep(n, n', n.flights[x].b, n.flights[x].a, x);
  }

  lemma StepIsGood(n: Net, n': Net)
    requires Inv(n) && Next(n, n')
    ensures GoodStep(n, n') || IsDedupe(n, n')
  {
    if
    case IsLinkStart(n, n') => LinkStartIsGood(n, n');
    case IsRepairStart(n, n') => RepairStartIsGood(n, n');
    case IsAccept(n, n') => AcceptIsGood(n, n');
    case IsLose(n, n') => LoseIsGood(n, n');
    case IsLinkEnd(n, n') => LinkEndIsGood(n, n');
    case IsRepairEnd(n, n') => RepairEndIsGood(n, n');
    case IsUnlink(n, n') => UnlinkIsGood(n, n');
    case IsRemoteUnlink(n, n') => RemoteUnlinkIsGood(n, n');
    case IsDedupe(n, n') =>
  }

  lemma StepKeepsInv(n: Net, n': Net)
    requires Inv(n) && Next(n, n')
    ensures Inv(n')
  {
    StepIsGood(n, n');
    if IsDedupe(n, n') {
      var s :| Dedupe(n, s, n');
      DedupeKeepsInv(n, s, n');
    } else {
      var s, p, x :| GoodPairStep(n, n', s, p, x);
      PairStepKeepsInv(n, n', s, p, x);
    }
  }

  lemma StepKeepsTidy(n: Net, n': Net)
    requires Inv(n) && Tidy(n) && Next(n, n')
    ensures Tidy(n')
  {
    StepIsGood(n, n');
    if IsDedupe(n, n') {
      var s :| Dedupe(n, s, n');
      DedupeOfTidy(n, s, n');
    } else {
      var s, p, x :| GoodPairStep(n, n', s, p, x);
      PairStepKeepsTidy(n, n', s, p, x);
    }
  }

  ghost predicate IsRun(run: seq<Net>) {
    |run| > 0 && forall i | 0 < i < |run| :: Next(run[i - 1], run[i])
  }

  /** Any tables, however half-updated, stay well formed through every interleaving. */
  lemma {:induction false} RunKeepsInv(run: seq<Net>, k: nat)
    requires IsRun(run) && Inv(run[0]) && k < |run|
    ensures Inv(run[k])
  {
    if k > 0 {
      RunKeepsInv(run, k - 1);
      StepKeepsInv(run[k - 1], run[k]);
    }
  }

  /** Tables that start with one entry for each peer keep one through every interleaving. So an
      unlink that reports the peer's removal leaves neither server any entry for the other. */
  lemma {:induction false} RunKeepsTidy(run: seq<Net>, k: nat)
    requires IsRun(run) && Inv(run[0]) && Tidy(run[0]) && k < |run|
    ensures OnePerPeer(run[k])
    ensures forall x | x in run[k].flights && run[k].flights[x].Unlinking? && run[k].flights[x].removed == Some(true) ::
      UnlinkedBoth(run[k], run[k].flights[x])
    ensures Inv(run[k]) && Tidy(run[k])
  {
    RunKeepsInv(run, k);
    if k > 0 {
      RunKeepsTidy(run, k - 1);
      StepKeepsTidy(run[k - 1], run[k]);
    }
    forall x | x in run[k].flights && run[k].flights[x].Unlinking? && run[k].flights[x].removed == Some(true)
      ensures UnlinkedBoth(run[k], run[k].flights[x])
    {
      assert FlightOk(run[k], run[k].flights[x]) && UnlinkedOk(run[k], run[k].flights[x]);
    }
  }

  ghost predicate UnlinkedBoth(n: Net, f: Flight) {
    f.a in n.tables && f.b in n.tables && !Holds(n, f.a, f.b) && !Holds(n, f.b, f.a)
  }
}
