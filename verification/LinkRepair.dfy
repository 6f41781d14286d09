/** When a completed repair reaches the table: which steps in between move it to another backing array. */
module LinkRepair {
  import opened Options
  import opened LinkTable
  import opened LinkNetwork
  import opened LinkRuns
  import opened LinkDrops

  // ---- the steps that move the table of `a` ----

  ghost predicate AppendsOwn(n: Net, n': Net, a: Server) {
    exists x, l :: LinkEnd(n, x, l, n') && n.flights[x].a == a && Full(n, a)
  }

  ghost predicate AppendsCaller(n: Net, n': Net, a: Server) {
    exists x, localID, at :: Accept(n, x, localID, at, n') && n.flights[x].b == a
      && !Known(n.tables[a], RequestOf(n, n.flights[x])) && Full(n, a)
  }

  ghost predicate Unlinks(n: Net, n': Net, a: Server) {
    exists x, l :: Unlink(n, x, a, l, n')
  }

  ghost predicate IsUnlinked(n: Net, n': Net, a: Server) {
    exists x :: RemoteUnlink(n, x, n') && n.flights[x].b == a
      && Signed(n.tables[a], n.flights[x].target, n.flights[x].secret)
  }

  ghost predicate Collapses(n: Net, n': Net, a: Server) {
    Dedupe(n, a, n') && HasDuplicate(n.tables[a])
  }

  /** An append to a full slice, an unlink on either side, or the removal of duplicates. */
  ghost predicate Moves(n: Net, n': Net, a: Server) {
    AppendsOwn(n, n', a) || AppendsCaller(n, n', a) || Unlinks(n, n', a) || IsUnlinked(n, n', a) || Collapses(n, n', a)
  }

  ghost predicate Moved(n: Net, n': Net, a: Server)
    requires a in n.backing && a in n'.backing
  {
    n'.backing[a] > n.backing[a]
  }

  lemma MovesMove(n: Net, n': Net, a: Server)
    requires a in n.backing && a in n'.backing && Moves(n, n', a)
    ensures Moved(n, n', a)
  {
    if AppendsCaller(n, n', a) {
      var x, localID, at :| Accept(n, x, localID, at, n') && n.flights[x].b == a
        && !Known(n.tables[a], RequestOf(n, n.flights[x])) && Full(n, a);
      var after, reply :| AcceptedAs(n, x, n.flights[x], localID, at, after, reply, n');
    }
  }

  lemma AcceptMoves(n: Net, n': Net, a: Server)
    requires a in n.backing && a in n'.backing && IsAccept(n, n')
    ensures n'.backing[a] == n.backing[a] || (Moved(n, n', a) && AppendsCaller(n, n', a))
  {
    var x, localID, at :| Accept(n, x, localID, at, n');
    var after, reply :| AcceptedAs(n, x, n.flights[x], localID, at, after, reply, n');
  }

  lemma LinkEndMoves(n: Net, n': Net, a: Server)
    requires a in n.backing && a in n'.backing && IsLinkEnd(n, n')
    ensures n'.backing[a] == n.backing[a] || (Moved(n, n', a) && AppendsOwn(n, n', a))
  {}

  lemma UnlinkMoves(n: Net, n': Net, a: Server)
    requires a in n.backing && a in n'.backing && IsUnlink(n, n')
    ensures n'.backing[a] == n.backing[a] || (Moved(n, n', a) && Unlinks(n, n', a))
  {
    var x, s, l :| Unlink(n, x, s, l, n');
    if s == a { assert Unlink(n, x, a, l, n'); }
  }

  lemma RemoteUnlinkMoves(n: Net, n': Net, a: Server)
    requires a in n.backing && a in n'.backing && IsRemoteUnlink(n, n')
    ensures n'.backing[a] == n.backing[a] || (Moved(n, n', a) && IsUnlinked(n, n', a))
  {}

  lemma DedupeMoves(n: Net, n': Net, a: Server)
    requires a in n.backing && a in n'.backing && IsDedupe(n, n')
    ensures n'.backing[a] == n.backing[a] || (Moved(n, n', a) && Collapses(n, n', a))
  {
    var s :| Dedupe(n, s, n');
  }

  /** A table moves in exactly these steps, and never back. */
  lemma MovedIff(n: Net, n': Net, a: Server)
    requires a in n.backing && a in n'.backing && Next(n, n')
    ensures n.backing[a] <= n'.backing[a] && (Moved(n, n', a) <==> Moves(n, n', a))
  {
    if Moves(n, n', a) { MovesMove(n, n', a); }
    if
    case IsLinkStart(n, n') =>
    case IsRepairStart(n, n') =>
    case IsAccept(n, n') => AcceptMoves(n, n', a);
    case IsLose(n, n') =>
    case IsLinkEnd(n, n') => LinkEndMoves(n, n', a);
    case IsRepairEnd(n, n') =>
    case IsUnlink(n, n') => UnlinkMoves(n, n', a);
    case IsRemoteUnlink(n, n') => RemoteUnlinkMoves(n, n', a);
    case IsDedupe(n, n') => DedupeMoves(n, n', a);
  }

  // ---- a repair over a run ----

  /** No step from the i-th state to the k-th moves the table. */
  ghost predicate Stays(run: seq<Net>, a: Server, i: nat, k: nat)
    requires k < |run|
  {
    forall j | i <= j < k :: !Moves(run[j], run[j + 1], a)
  }

  ghost predicate HasTable(run: seq<Net>, a: Server, i: nat, k: nat)
    requires k < |run|
  {
    forall j | i <= j <= k :: a in run[j].backing
  }

  lemma TableThere(run: seq<Net>, x: ExchangeId, i: nat, k: nat)
    requires IsRun(run) && Inv(run[0]) && i <= k < |run| && InFlight(run, x, i, k)
    requires run[i].flights[x].Repairing? && run[i].flights[x].reply == None
    ensures HasTable(run, run[i].flights[x].a, i, k)
  {
    forall j | i <= j <= k ensures run[i].flights[x].a in run[j].backing {
      RepliedHolds(run, x, i, j);
      assert FlightOk(run[j], run[j].flights[x]);
    }
  }

  /** A counter that never falls is the same at two places exactly if it is at all between. */
  lemma {:induction false} CounterStays(c: seq<nat>, i: nat, k: nat)
    requires i <= k < |c| && forall j | i <= j < k :: c[j] <= c[j + 1]
    ensures c[i] <= c[k] && (c[i] == c[k] <==> forall j | i <= j < k :: c[j] == c[j + 1])
    decreases k
  {
    if i < k { CounterStays(c, i, k - 1); }
  }

  lemma SameArrayIff(run: seq<Net>, a: Server, i: nat, k: nat)
    requires IsRun(run) && i <= k < |run| && HasTable(run, a, i, k)
    ensures a in run[i].backing && a in run[k].backing
    ensures run[i].backing[a] == run[k].backing[a] <==> Stays(run, a, i, k)
  {
    var c := seq(|run|, j requires 0 <= j < |run| => if a in run[j].backing then run[j].backing[a] else 0);
    forall j | i <= j < k ensures c[j] <= c[j + 1] && (c[j] == c[j + 1] <==> !Moves(run[j], run[j + 1], a)) {
      CounterStep(run[j], run[j + 1], a);
    }
    CounterStays(c, i, k);
  }

  lemma CounterStep(n: Net, n': Net, a: Server)
    requires Next(n, n') && a in n.backing && a in n'.backing
    ensures n.backing[a] <= n'.backing[a] && (n.backing[a] == n'.backing[a] <==> !Moves(n, n', a))
  {
    MovedIff(n, n', a);
  }

  lemma Looked(n: Net, x: ExchangeId, a: Server, place: nat, secret: Secret, n': Net)
    requires RepairStart(n, x, a, place, secret, n')
    ensures x in n'.flights && a in n'.backing && n'.flights[x].Repairing? && n'.flights[x].reply == None
    ensures n'.flights[x].a == a && n'.flights[x].secret == secret && n'.flights[x].backing == n'.backing[a]
  {}

  lemma Completed(run: seq<Net>, x: ExchangeId, i: nat, k: nat)
    requires IsRun(run) && Inv(run[0]) && i <= k < |run| - 1 && InFlight(run, x, i, k)
    requires run[i].flights[x].Repairing? && run[i].flights[x].reply == None && RepairEnd(run[k], x, run[k + 1])
    ensures SameButReply(run[i].flights[x], run[k].flights[x])
    ensures var f := run[k].flights[x];
      f.a in run[k].backing && f.a in run[k + 1].tables && f.b in run[k + 1].tables
      && (Mirrored(run[k + 1], f.a, f.id, f.b, f.reply.value)
          <==> f.backing == run[k].backing[f.a] && Spared(run, x, i, k))
  {
    RepliedHolds(run, x, i, k);
    assert FlightOk(run[k], run[k].flights[x]);
    RepairMirrors(run[k], x, run[k + 1]);
  }

  /** A repair that completes leaves the pair mirrored if and only if, between the lookup and the write,
      this server made no append to a full slice, no unlink on either side and no deduplication of
      duplicates, and after the reply no deduplication at the peer dropped the entry named in it. */
  lemma RepairOverRunMirrorsIff(run: seq<Net>, x: ExchangeId, a: Server, place: nat, secret: Secret, i: nat, k: nat)
    requires IsRun(run) && Inv(run[0]) && i < k < |run| - 1
    requires RepairStart(run[i], x, a, place, secret, run[i + 1]) && InFlight(run, x, i + 1, k)
      && RepairEnd(run[k], x, run[k + 1])
    ensures var f := run[k].flights[x];
      f.a == a && f.secret == secret && f.b in run[k + 1].tables && a in run[k + 1].tables
      && (Mirrored(run[k + 1], a, f.id, f.b, f.reply.value) <==> Stays(run, a, i + 1, k) && Spared(run, x, i + 1, k))
  {
    Looked(run[i], x, a, place, secret, run[i + 1]);
    TableThere(run, x, i + 1, k);
    SameArrayIff(run, a, i + 1, k);
    Completed(run, x, i + 1, k);
  }
}
