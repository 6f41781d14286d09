/** Exchanges over runs in which tables are deduplicated at any time: what is left of a completed link or
    unlink when the peer drops the entry in between. */
module LinkDrops {
  import opened Options
  import opened LinkTable
  import opened LinkNetwork
  import opened LinkRuns
  import LinkClash

  /** A deduplication at `b` drops the entry of an identifier. */
  ghost predicate Drops(n: Net, n': Net, b: Server, id: Id) {
    b in n'.tables && Dedupe(n, b, n') && HasId(n.tables[b], id) && !HasId(n'.tables[b], id)
  }

  /** It drops exactly the entries that are not the earliest of the best with their address. */
  lemma DropsIff(n: Net, n': Net, b: Server, i: nat)
    requires Inv(n) && Dedupe(n, b, n') && i < |n.tables[b]|
    ensures Drops(n, n', b, n.tables[b][i].id) <==> !EarliestBest(n.tables[b], i)
  {
    var links := n.tables[b];
    assert TableOk(n, b);
    if HasDuplicate(links) {
      var kept :| IsDeduped(links, kept) && OnlyTable(n, n', b, kept) && !InPlace(n, n', b);
      if HasId(kept, links[i].id) { LinkClash.KeptIsBest(links, kept, i); }
      if EarliestBest(links, i) { LinkClash.BestIsKept(links, kept, i); }
    }
  }

  /** The entry at the peer that an exchange counts on: the one named in the reply, or the one that the
      unlink of a mirrored pair asks to remove. */
  function CountsOn(f: Flight): Option<Id> {
    if !f.Unlinking? then f.reply
    else if f.agreed && f.removed == None then Some(f.target) else None
  }

  ghost predicate DropsCountedOn(n: Net, n': Net, f: Flight) {
    CountsOn(f).Some? && Drops(n, n', f.b, CountsOn(f).value)
  }

  /** A step that leaves an exchange in flight: the entry it counts on stays unless dropped, or the
      peer serves the request, and removes that entry exactly if it still has it. */
  ghost predicate Carries(n: Net, n': Net, x: ExchangeId) {
    && x in n.flights && x in n'.flights && n.flights[x].b in n.tables && n.flights[x].b in n'.tables
    && var f := n.flights[x];
       if n'.flights[x] == f then
         CountsOn(f).Some? ==>
           (HasId(n'.tables[f.b], CountsOn(f).value)
            <==> HasId(n.tables[f.b], CountsOn(f).value) && !DropsCountedOn(n, n', f))
       else
         && IsServed(n, n', x) && !DropsCountedOn(n, n', f)
         && (CountsOn(f).Some? ==> (n'.flights[x].removed.value <==> HasId(n.tables[f.b], CountsOn(f).value)))
  }

  lemma OfOthers(n: Net, n': Net, s: Server, p: Server, f: Flight)
    requires Inv(n) && Change(n, n', s, p) && !Joins(f, s, p) && FlightOk(n, f) && CountsOn(f).Some?
    ensures f.b in n'.tables && (HasId(n'.tables[f.b], CountsOn(f).value) <==> HasId(n.tables[f.b], CountsOn(f).value))
  {
    KeepsEntry(n, n', s, p, f.b, f.a, CountsOn(f).value, f.id, f.secret);
  }

  lemma ServedUnlink(n: Net, n': Net, x: ExchangeId)
    requires IsServed(n, n', x) && n.flights[x].Unlinking? && n.flights[x].agreed && FlightOk(n, n.flights[x])
    ensures n'.flights[x].removed.value <==> HasId(n.tables[n.flights[x].b], n.flights[x].target)
  {
    var f := n.flights[x];
    var links := n.tables[f.b];
    if HasId(links, f.target) {
      var l :| l in links && l.id == f.target && l.remoteID == f.id && l.sharedSecret == f.secret;
      var i :| 0 <= i < |links| && links[i] == l;
      assert Signed(links, f.target, f.secret);
    }
  }

  lemma PairStepCarries(n: Net, n': Net, s: Server, p: Server, y: ExchangeId, x: ExchangeId)
    requires Inv(n) && GoodPairStep(n, n', s, p, y) && x in n.flights && x in n'.flights
    ensures Carries(n, n', x)
  {
    var f := n.flights[x];
    assert FlightOk(n, f);
    if y == x {
      assert n'.flights[x] != f;
      assert !DropsCountedOn(n, n', f);
      if CountsOn(f).Some? { ServedUnlink(n, n', x); }
    } else if CountsOn(f).Some? {
      OfOthers(n, n', s, p, f);
    }
  }

  lemma DedupeCarries(n: Net, n': Net, s: Server, x: ExchangeId)
    requires Inv(n) && Dedupe(n, s, n') && x in n.flights
    ensures Carries(n, n', x)
  {
    var f := n.flights[x];
    assert FlightOk(n, f) && TableOk(n, s);
    DedupeReduces(n, s, n');
    if n' != n && f.b == s && CountsOn(f).Some? && !HasId(n.tables[s], CountsOn(f).value) {
      PartLacks(n.tables[s], n'.tables[s], CountsOn(f).value);
    }
  }

  lemma StepCarries(n: Net, n': Net, x: ExchangeId)
    requires Inv(n) && Next(n, n') && x in n.flights && x in n'.flights
    ensures Carries(n, n', x)
  {
    StepIsGood(n, n');
    if IsDedupe(n, n') {
      var s :| Dedupe(n, s, n');
      DedupeCarries(n, n', s, x);
    } else {
      var s, p, y :| GoodPairStep(n, n', s, p, y);
      PairStepCarries(n, n', s, p, y, x);
    }
  }

  // ---- runs ----

  ghost predicate InFlight(run: seq<Net>, x: ExchangeId, i: nat, k: nat)
    requires k < |run|
  {
    forall j | i <= j <= k :: x in run[j].flights
  }

  /** From the i-th state to the k-th, no deduplication at the peer drops the entry the exchange counts on. */
  ghost predicate Spared(run: seq<Net>, x: ExchangeId, i: nat, k: nat)
    requires k < |run| && InFlight(run, x, i, k)
  {
    forall j | i <= j < k :: !DropsCountedOn(run[j], run[j + 1], run[j].flights[x])
  }

  ghost predicate Carried(run: seq<Net>, x: ExchangeId, i: nat, k: nat)
    requires k < |run|
  {
    forall j | i <= j < k :: Carries(run[j], run[j + 1], x)
  }

  lemma RunCarries(run: seq<Net>, x: ExchangeId, i: nat, k: nat)
    requires IsRun(run) && Inv(run[0]) && i <= k < |run| && InFlight(run, x, i, k)
    ensures Carried(run, x, i, k)
  {
    forall j | i <= j < k ensures Carries(run[j], run[j + 1], x) {
      RunKeepsInv(run, j);
      StepCarries(run[j], run[j + 1], x);
    }
  }

  lemma SparedStep(run: seq<Net>, x: ExchangeId, i: nat, k: nat)
    requires i < k < |run| && InFlight(run, x, i, k)
    ensures InFlight(run, x, i, k - 1)
    ensures Spared(run, x, i, k)
      <==> Spared(run, x, i, k - 1) && !DropsCountedOn(run[k - 1], run[k], run[k - 1].flights[x])
  {
    assert run[k - 1 + 1] == run[k];
    if Spared(run, x, i, k - 1) && !DropsCountedOn(run[k - 1], run[k], run[k - 1].flights[x]) {
      forall j | i <= j < k ensures !DropsCountedOn(run[j], run[j + 1], run[j].flights[x]) {
        assert j == k - 1 || j < k - 1;
      }
    }
  }

  /** A link or a repair is the one it was, apart from its reply. */
  predicate SameButReply(f: Flight, g: Flight) {
    !f.Unlinking? && !g.Unlinking? && g == f.(reply := g.reply)
  }

  ghost predicate Holding(n: Net, x: ExchangeId) {
    x in n.flights && n.flights[x].b in n.tables && CountsOn(n.flights[x]).Some?
      && HasId(n.tables[n.flights[x].b], CountsOn(n.flights[x]).value)
  }

  /** While a link or a repair is in flight, the peer has the entry it replied with if and only if no
      deduplication has dropped it. */
  lemma {:induction false} ReplyHeldIff(run: seq<Net>, x: ExchangeId, i: nat, k: nat)
    requires i <= k < |run| && InFlight(run, x, i, k) && Carried(run, x, i, k)
    requires !run[i].flights[x].Unlinking? && run[i].flights[x].reply == None
    ensures SameButReply(run[i].flights[x], run[k].flights[x])
    ensures run[k].flights[x].reply == None ==> Spared(run, x, i, k)
    ensures run[k].flights[x].reply.Some? ==> (Holding(run[k], x) <==> Spared(run, x, i, k))
    decreases k
  {
    if i < k {
      SparedStep(run, x, i, k);
      ReplyHeldIff(run, x, i, k - 1);
      assert Carries(run[k - 1], run[k - 1 + 1], x);
    }
  }

  predicate SameButAnswer(f: Flight, g: Flight) {
    f.Unlinking? && g.Unlinking? && g == f.(removed := g.removed)
  }

  /** While the unlink of a mirrored pair is under way, the peer has its entry if and only if no
      deduplication has dropped it, and then removes it. */
  lemma {:induction false} UnlinkHeldIff(run: seq<Net>, x: ExchangeId, i: nat, k: nat)
    requires i <= k < |run| && InFlight(run, x, i, k) && Carried(run, x, i, k)
    requires run[i].flights[x].Unlinking? && run[i].flights[x].agreed && Holding(run[i], x)
    ensures SameButAnswer(run[i].flights[x], run[k].flights[x])
    ensures match run[k].flights[x].removed
      case None => Holding(run[k], x) <==> Spared(run, x, i, k)
      case Some(removed) => removed <==> Spared(run, x, i, k)
    decreases k
  {
    if i < k {
      SparedStep(run, x, i, k);
      UnlinkHeldIff(run, x, i, k - 1);
      assert Carries(run[k - 1], run[k - 1 + 1], x);
    }
  }

  lemma RepliedHolds(run: seq<Net>, x: ExchangeId, i: nat, k: nat)
    requires IsRun(run) && Inv(run[0]) && i <= k < |run| && InFlight(run, x, i, k)
    requires !run[i].flights[x].Unlinking? && run[i].flights[x].reply == None
    ensures SameButReply(run[i].flights[x], run[k].flights[x]) && Inv(run[k])
    ensures run[k].flights[x].reply.Some? ==> (Holding(run[k], x) <==> Spared(run, x, i, k))
  {
    RunCarries(run, x, i, k);
    ReplyHeldIff(run, x, i, k);
    RunKeepsInv(run, k);
  }

  /** A link that completes leaves the pair mirrored if and only if, after the reply, no deduplication
      at the peer dropped the entry named in it. */
  lemma LinkOverRunMirrorsIff(
    run: seq<Net>, x: ExchangeId, a: Server, b: Server, id: Id, secret: Secret, l: Link, i: nat, k: nat)
    requires IsRun(run) && Inv(run[0]) && i < k < |run| - 1
    requires LinkStart(run[i], x, a, b, id, secret, run[i + 1]) && InFlight(run, x, i + 1, k)
      && LinkEnd(run[k], x, l, run[k + 1])
    ensures run[k].flights[x] == Linking(a, b, id, secret, run[k].flights[x].reply) && run[k].flights[x].reply.Some?
    ensures a in run[k + 1].tables && b in run[k + 1].tables
    ensures Mirrored(run[k + 1], a, id, b, run[k].flights[x].reply.value) <==> Spared(run, x, i + 1, k)
  {
    RepliedHolds(run, x, i + 1, k);
    LinkMirrors(run[k], x, l, run[k + 1]);
  }

  lemma MirroredHas(n: Net, a: Server, ida: Id, b: Server, idb: Id)
    requires a in n.tables && b in n.tables && Mirrored(n, a, ida, b, idb)
    ensures HasId(n.tables[b], idb)
  {
    var secret :| HasEntry(n.tables[a], ida, idb, secret) && HasEntry(n.tables[b], idb, ida, secret);
    var k :| k in n.tables[b] && k.id == idb && k.remoteID == ida && k.sharedSecret == secret;
    HasIdOfMember(n.tables[b], k);
  }

  lemma HoldsTarget(n: Net, x: ExchangeId, a: Server, l: Link, n': Net)
    requires Inv(n) && Unlink(n, x, a, l, n') && l.remoteID != NONE
    requires Mirrored(n, a, l.id, n.issued[l.id].peer, l.remoteID)
    ensures x in n'.flights && Holding(n', x)
    ensures n'.flights[x] == Unlinking(a, n.issued[l.id].peer, l.id, l.sharedSecret, l.remoteID, None, true)
  {
    assert TableOk(n, a) && EntryOk(n, a, l);
    MirroredHas(n, a, l.id, n.issued[l.id].peer, l.remoteID);
  }

  lemma UnlinkServed(run: seq<Net>, x: ExchangeId, i: nat, k: nat)
    requires IsRun(run) && Inv(run[0]) && i <= k < |run| && InFlight(run, x, i, k)
    requires run[i].flights[x].Unlinking? && run[i].flights[x].agreed && Holding(run[i], x)
    ensures SameButAnswer(run[i].flights[x], run[k].flights[x]) && FlightOk(run[k], run[k].flights[x])
    ensures run[k].flights[x].removed.Some? ==> (run[k].flights[x].removed.value <==> Spared(run, x, i, k))
  {
    RunCarries(run, x, i, k);
    UnlinkHeldIff(run, x, i, k);
    RunKeepsInv(run, k);
  }

  /** Once the peer has served the unlink of a mirrored pair, neither table has its entry. It reports
      a removal if and only if no deduplication had dropped the entry before. */
  lemma UnlinkOverRunRemovesBoth(run: seq<Net>, x: ExchangeId, a: Server, l: Link, i: nat, k: nat)
    requires IsRun(run) && Inv(run[0]) && i < k < |run|
    requires Unlink(run[i], x, a, l, run[i + 1]) && l.remoteID != NONE
    requires Mirrored(run[i], a, l.id, run[i].issued[l.id].peer, l.remoteID)
    requires InFlight(run, x, i + 1, k) && run[k].flights[x].Unlinking? && run[k].flights[x].removed.Some?
    ensures a in run[k].tables && run[i].issued[l.id].peer in run[k].tables
    ensures !HasId(run[k].tables[a], l.id) && !HasId(run[k].tables[run[i].issued[l.id].peer], l.remoteID)
    ensures run[k].flights[x].removed.value <==> Spared(run, x, i + 1, k)
  {
    RunKeepsInv(run, i);
    HoldsTarget(run[i], x, a, l, run[i + 1]);
    UnlinkServed(run, x, i + 1, k);
  }

  lemma {:induction false} UnlinkStays(run: seq<Net>, x: ExchangeId, i: nat, k: nat)
    requires i <= k < |run| && InFlight(run, x, i, k) && Carried(run, x, i, k) && run[i].flights[x].Unlinking?
    ensures SameButAnswer(run[i].flights[x], run[k].flights[x])
    decreases k
  {
    if i < k {
      UnlinkStays(run, x, i, k - 1);
      assert Carries(run[k - 1], run[k - 1 + 1], x);
    }
  }

  lemma UnlinkReported(run: seq<Net>, x: ExchangeId, i: nat, k: nat)
    requires IsRun(run) && Inv(run[0]) && i <= k < |run| && InFlight(run, x, i, k) && run[i].flights[x].Unlinking?
    ensures SameButAnswer(run[i].flights[x], run[k].flights[x]) && FlightOk(run[k], run[k].flights[x])
  {
    RunCarries(run, x, i, k);
    UnlinkStays(run, x, i, k);
    RunKeepsInv(run, k);
  }

  /** An unlink that reports a removal, of a mirrored pair or not, has left neither table an entry of
      its identifier. */
  lemma ReportedUnlinkRemovedBoth(run: seq<Net>, x: ExchangeId, a: Server, l: Link, i: nat, k: nat)
    requires IsRun(run) && Inv(run[0]) && i < k < |run|
    requires Unlink(run[i], x, a, l, run[i + 1]) && l.remoteID != NONE
    requires InFlight(run, x, i + 1, k) && run[k].flights[x].Unlinking? && run[k].flights[x].removed == Some(true)
    ensures a in run[k].tables && run[i].issued[l.id].peer in run[k].tables
    ensures !HasId(run[k].tables[a], l.id) && !HasId(run[k].tables[run[i].issued[l.id].peer], l.remoteID)
  {
    UnlinkReported(run, x, i + 1, k);
  }
}
