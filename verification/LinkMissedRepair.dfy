/** Two runs in which a repair completes and leaves the pair unmirrored: another link is removed while the
    peer is called, and the peer drops a duplicate after it has replied. */
module LinkMissedRepair {
  import opened Options
  import opened LinkTable
  import opened LinkNetwork
  import opened LinkRuns

  const Servers: set<Server> := {1, 2, 3}

  function Address(s: Server): Url {
    if s == 1 then Url("https://a", "a") else if s == 2 then Url("https://bb", "bb") else Url("https://ccc", "ccc")
  }

  const OnOne := Link(10, Address(2), 100, 20, "", false, 0)
  const OnTwo := Link(20, Address(1), 100, 10, "", false, 0)
  const Other := Link(11, Address(3), 101, NONE, "", false, 0)
  const Made: map<Id, Issue> := map[10 := Issue(1, 2), 11 := Issue(1, 3), 20 := Issue(2, 1)]
  const Shared: map<Secret, Issue> := map[100 := Issue(1, 2), 101 := Issue(1, 3)]

  function State(
    one: seq<Link>, two: seq<Link>, moved: nat, movedTwo: nat, flights: map<ExchangeId, Flight>, issued: map<Id, Issue>,
    secrets: map<Secret, Issue>): Net {
    Net(map s | s in Servers :: Address(s), map s | s in Servers :: if s == 1 then one else if s == 2 then two else [],
        map s | s in Servers :: if s == 1 then moved else if s == 2 then movedTwo else 0, map s | s in Servers ::
          2, flights, issued, secrets)
  }

  function Repair(reply: Option<Id>): map<ExchangeId, Flight> {
    map[0 := Repairing(1, 2, 10, 102, reply, 0, 0)]
  }

  const Linked := State([OnOne, Other], [OnTwo], 0, 0, map[], Made, Shared)
  const Asked := State([OnOne, Other], [OnTwo], 0, 0, Repair(None), Made, Shared[102 := Issue(1, 2)])
  const Removed := State([OnOne], [OnTwo], 1, 0, Repair(None), Made, Shared[102 := Issue(1, 2)])
  const Answered := State([OnOne], [Renewed(OnTwo, 102, 10)], 1, 0, Repair(Some(20)), Made[30 := Issue(2, 1)],
    Shared[102 := Issue(1, 2)])
  const Reported := State([OnOne], [Renewed(OnTwo, 102, 10)], 1, 0, map[], Made[30 := Issue(2, 1)],
    Shared[102 := Issue(1, 2)])

  lemma ServersWellFormed(n: Net)
    requires n.address == (map s | s in Servers :: Address(s)) && NONE !in n.issued
    requires n.tables.Keys == Servers && n.backing.Keys == Servers
    ensures ServersOk(n) && n.address.Keys == Servers
  {
    assert forall s, t | s in Servers && t in Servers && s != t :: |Address(s).key| != |Address(t).key|;
  }

  lemma TablesWellFormed()
    ensures TableOk(Linked, 1) && TableOk(Linked, 2) && TableOk(Linked, 3)
  {
    assert EntryOk(Linked, 1, OnOne);
    assert EntryOk(Linked, 1, Other);
    assert EntryOk(Linked, 2, OnTwo);
  }

  lemma LinkedIsWellFormed()
    ensures Inv(Linked)
  {
    ServersWellFormed(Linked);
    TablesWellFormed();
    assert FlightsOk(Linked);
  }

  lemma Asks()
    ensures RepairStart(Linked, 0, 1, 0, 102, Asked)
  {}

  lemma Removes()
    ensures Unlink(Asked, 1, 1, Other, Removed)
  {
    assert [OnOne, Other][1..] == [Other];
    assert Without([Other], 11) == [];
    assert Without([OnOne, Other], 11) == [OnOne];
    assert [OnOne, Other][1] == Other;
    assert [OnOne, Other][1] == Other;
    MovesTo(Asked, Removed);
  }

  lemma MovesTo(n: Net, n': Net)
    requires n == Asked && n' == Removed
    ensures OnlyTable(n, n', 1, [OnOne])
  {
    assert n'.tables == n.tables[1 := [OnOne]];
    assert n'.backing == n.backing[1 := 1];
    assert n'.room == n.room[1 := 2];
  }

  lemma TakesSecret()
    ensures AcceptStep([OnTwo], AcceptRequest(Address(1), 10, 102), 30, 5, [Renewed(OnTwo, 102, 10)], 20)
    ensures Known([OnTwo], AcceptRequest(Address(1), 10, 102))
  {
    var req := AcceptRequest(Address(1), 10, 102);
    assert IsCaller([OnTwo][0], req);
    assert IsAcceptedEntry([OnTwo], req, 0);
    assert [OnTwo][0 := Renewed(OnTwo, 102, 10)] == [Renewed(OnTwo, 102, 10)];
  }

  lemma RenewsInPlace(n: Net, n': Net)
    requires n == Removed && n' == Answered
    ensures OnlyTable(n, n', 2, [Renewed(OnTwo, 102, 10)]) && InPlace(n, n', 2)
  {
    assert n'.tables == n.tables[2 := [Renewed(OnTwo, 102, 10)]];
    assert n'.backing == n.backing[2 := 0];
  }

  /** Server 2 renews the entry of the caller. */
  lemma IsAnswered(n: Net, after: seq<Link>, n': Net)
    requires n.flights == Repair(None) && n'.flights == Repair(Some(20)) && 30 !in n.issued
    requires 1 in n.address && n.address[1] == Address(1) && 2 in n.tables && 2 in n.backing
    requires n'.issued == n.issued[30 := Issue(2, 1)] && n'.secrets == n.secrets
    requires AcceptStep(n.tables[2], AcceptRequest(Address(1), 10, 102), 30, 5, after, 20)
    requires Known(n.tables[2], AcceptRequest(Address(1), 10, 102))
    requires OnlyTable(n, n', 2, after) && InPlace(n, n', 2)
    ensures Accept(n, 0, 30, 5, n')
  {
    assert Repair(Some(20)) == Repair(None)[0 := Repair(None)[0].(reply := Some(20))];
    assert AcceptedAs(n, 0, n.flights[0], 30, 5, after, 20, n');
  }

  lemma Answers()
    ensures Accept(Removed, 0, 30, 5, Answered)
  {
    TakesSecret();
    RenewsInPlace(Removed, Answered);
    IsAnswered(Removed, [Renewed(OnTwo, 102, 10)], Answered);
  }

  lemma Reports()
    ensures RepairEnd(Answered, 0, Reported)
  {
    assert Reported.flights == Answered.flights - {0};
  }

  lemma FirstTwo()
    ensures Next(Linked, Asked) && Next(Asked, Removed)
  {
    Asks();
    Removes();
  }

  lemma LastTwo()
    ensures Next(Removed, Answered) && Next(Answered, Reported)
  {
    Answers();
    Reports();
  }

  lemma TwoSteps(n: Net, m: Net, k: Net)
    requires Inv(n) && Next(n, m) && Next(m, k)
    ensures Inv(m) && Inv(k)
  {
    StepKeepsInv(n, m);
    StepKeepsInv(m, k);
  }

  lemma RemovedIsWellFormed()
    ensures Inv(Removed)
  {
    LinkedIsWellFormed();
    FirstTwo();
    TwoSteps(Linked, Asked, Removed);
  }

  lemma WasMirrored()
    ensures Mirrored(Linked, 1, 10, 2, 20)
  {
    assert OnOne in Linked.tables[1] && OnTwo in Linked.tables[2];
    assert HasEntry(Linked.tables[1], 10, 20, 100) && HasEntry(Linked.tables[2], 20, 10, 100);
  }

  lemma Misses()
    ensures RepairEnd(Answered, 0, Reported) && !Mirrored(Reported, 1, 10, 2, 20)
  {
    RemovedIsWellFormed();
    LastTwo();
    TwoSteps(Removed, Answered, Reported);
    Reports();
    RepairMirrors(Answered, 0, Reported);
  }

  /** The pair was mirrored, another link is removed while the repair is under way, the repair
      completes, and the pair is mirrored no more. */
  lemma RepairMisses()
    ensures Inv(Linked) && Mirrored(Linked, 1, 10, 2, 20)
    ensures Next(Linked, Asked) && Next(Asked, Removed) && Next(Removed, Answered) && Next(Answered, Reported)
    ensures RepairEnd(Answered, 0, Reported) && !Mirrored(Reported, 1, 10, 2, 20)
  {
    LinkedIsWellFormed();
    WasMirrored();
    FirstTwo();
    LastTwo();
    Misses();
  }

  // ---- the peer drops the entry it has renewed ----

  const Twin := Link(21, Address(1), 100, 10, "pinned", false, 9)
  const Renewal := Renewed(OnTwo, 102, 10)
  const MadeTwice: map<Id, Issue> := Made[21 := Issue(2, 1)]
  const WithNew: map<Secret, Issue> := Shared[102 := Issue(1, 2)]

  const Doubled := State([OnOne], [OnTwo, Twin], 0, 0, map[], MadeTwice, Shared)
  const Called := State([OnOne], [OnTwo, Twin], 0, 0, Repair(None), MadeTwice, WithNew)
  const Replied := State([OnOne], [Renewal, Twin], 0, 0, Repair(Some(20)), MadeTwice[30 := Issue(2, 1)], WithNew)
  const Dropped := State([OnOne], [Twin], 0, 1, Repair(Some(20)), MadeTwice[30 := Issue(2, 1)], WithNew)
  const Repaired := State([Renewed(OnOne, 102, 20)], [Twin], 0, 1, map[], MadeTwice[30 := Issue(2, 1)], WithNew)

  lemma DoubledTables()
    ensures TableOk(Doubled, 1) && TableOk(Doubled, 2) && TableOk(Doubled, 3)
  {
    assert EntryOk(Doubled, 1, OnOne);
    assert EntryOk(Doubled, 2, OnTwo);
    assert EntryOk(Doubled, 2, Twin);
  }

  lemma DoubledIsWellFormed()
    ensures Inv(Doubled)
  {
    ServersWellFormed(Doubled);
    DoubledTables();
    assert FlightsOk(Doubled);
  }

  lemma Calls()
    ensures RepairStart(Doubled, 0, 1, 0, 102, Called)
  {}

  lemma TakesSecretFirst()
    ensures AcceptStep([OnTwo, Twin], AcceptRequest(Address(1), 10, 102), 30, 5, [Renewal, Twin], 20)
    ensures Known([OnTwo, Twin], AcceptRequest(Address(1), 10, 102))
  {
    var req := AcceptRequest(Address(1), 10, 102);
    assert IsCaller([OnTwo, Twin][0], req);
    assert IsAcceptedEntry([OnTwo, Twin], req, 0);
    assert [OnTwo, Twin][0 := Renewal] == [Renewal, Twin];
  }

  lemma RenewsFirst(n: Net, n': Net)
    requires n == Called && n' == Replied
    ensures OnlyTable(n, n', 2, [Renewal, Twin]) && InPlace(n, n', 2)
  {
    assert n'.tables == n.tables[2 := [Renewal, Twin]];
    assert n'.backing == n.backing[2 := 0];
  }

  lemma Replies()
    ensures Accept(Called, 0, 30, 5, Replied)
  {
    TakesSecretFirst();
    RenewsFirst(Called, Replied);
    IsAnswered(Called, [Renewal, Twin], Replied);
  }

  lemma TwinWins()
    ensures IsDeduped([Renewal, Twin], [Twin]) && HasDuplicate([Renewal, Twin])
  {
    NoDuplicateIsDeduped([Renewal]);
    KeysOf([Renewal]);
    assert FirstKeys([Renewal])[0] == Renewal.url.key by { assert [Renewal][0].url.key == Renewal.url.key; }
    DedupeRival([Renewal], [Renewal], Twin, 0);
    assert [Renewal] + [Twin] == [Renewal, Twin];
    assert [Renewal][0 := Twin] == [Twin];
    assert [Renewal, Twin][0].url.key == [Renewal, Twin][1].url.key;
  }

  lemma DropsFirst(n: Net, n': Net)
    requires n == Replied && n' == Dropped
    ensures OnlyTable(n, n', 2, [Twin]) && !InPlace(n, n', 2)
  {
    assert n'.tables == n.tables[2 := [Twin]];
    assert n'.backing == n.backing[2 := 1];
    assert n'.room == n.room[2 := 2];
  }

  lemma DropsRenewal()
    ensures Dedupe(Replied, 2, Dropped)
  {
    TwinWins();
    DropsFirst(Replied, Dropped);
  }

  lemma WritesOwn(n: Net, n': Net)
    requires n == Dropped && n' == Repaired
    ensures OnlyTable(n, n', 1, [Renewed(OnOne, 102, 20)]) && InPlace(n, n', 1)
  {
    assert n'.tables == n.tables[1 := [Renewed(OnOne, 102, 20)]];
    assert n'.backing == n.backing[1 := 0];
  }

  lemma Completes()
    ensures RepairEnd(Dropped, 0, Repaired)
  {
    WritesOwn(Dropped, Repaired);
    assert [OnOne][0 := Renewed(OnOne, 102, 20)] == [Renewed(OnOne, 102, 20)];
    assert Repaired.flights == Dropped.flights - {0};
  }

  lemma DoubledRun()
    ensures Next(Doubled, Called) && Next(Called, Replied) && Next(Replied, Dropped)
  {
    Calls();
    Replies();
    DropsRenewal();
  }

  lemma DroppedIsWellFormed()
    ensures Inv(Dropped)
  {
    DoubledIsWellFormed();
    DoubledRun();
    TwoSteps(Doubled, Called, Replied);
    StepKeepsInv(Replied, Dropped);
  }

  lemma DoubledWasMirrored()
    ensures Mirrored(Doubled, 1, 10, 2, 20)
  {
    assert OnOne in Doubled.tables[1] && OnTwo in Doubled.tables[2];
    assert HasEntry(Doubled.tables[1], 10, 20, 100) && HasEntry(Doubled.tables[2], 20, 10, 100);
  }

  lemma LacksRenewal()
    ensures RepairEnd(Dropped, 0, Repaired) && !Mirrored(Repaired, 1, 10, 2, 20)
  {
    DroppedIsWellFormed();
    Completes();
    assert !HasId([Twin], 20);
    RepairMirrors(Dropped, 0, Repaired);
  }

  /** The pair was mirrored and the peer holds a second entry for this server. The repair renews the first,
      the peer then deduplicates and keeps the second, the repair completes, and the pair is mirrored no more. */
  lemma RepairIsDropped()
    ensures Inv(Doubled) && Mirrored(Doubled, 1, 10, 2, 20)
    ensures Next(Doubled, Called) && Next(Called, Replied) && Dedupe(Replied, 2, Dropped)
    ensures RepairEnd(Dropped, 0, Repaired) && !Mirrored(Repaired, 1, 10, 2, 20)
  {
    DoubledIsWellFormed();
    DoubledWasMirrored();
    DoubledRun();
    DropsRenewal();
    LacksRenewal();
  }
}
