/** Deduplication while links are being made: when the entries that stay still match. */
module LinkClash {
  import opened LinkTable

  /** The table has one entry for an address. */
  ghost predicate OnlyEntry(links: seq<Link>, l: Link) {
    exists i :: IsOnlyEntry(links, l, i)
  }

  ghost predicate IsOnlyEntry(links: seq<Link>, l: Link, i: int) {
    0 <= i < |links| && links[i] == l && forall k | 0 <= k < |links| && k != i :: links[k].url.key != l.url.key
  }

  /** The table has two entries for an address, `first` before `second`. */
  ghost predicate OnlyTwo(links: seq<Link>, first: Link, second: Link) {
    exists i, j :: AreOnlyTwo(links, first, second, i, j)
  }

  ghost predicate AreOnlyTwo(links: seq<Link>, first: Link, second: Link, i: int, j: int) {
    && 0 <= i < j < |links| && links[i] == first && links[j] == second && first.url.key == second.url.key
    && forall k | 0 <= k < |links| && k != i && k != j :: links[k].url.key != first.url.key
  }

  /** Deduplication has left `l` for an address. */
  predicate IsLeft(kept: seq<Link>, key: string, l: Link) {
    l in kept && l.url.key == key
  }

  lemma LeftIsChoice(links: seq<Link>, kept: seq<Link>, l: Link)
    requires IsDeduped(links, kept) && l in kept
    ensures IsChoice(links, l)
  {}

  /** Of two entries for one peer the later is left if it is better, else the earlier. */
  lemma LeavesOne(links: seq<Link>, first: Link, second: Link, kept: seq<Link>, l: Link)
    requires OnlyTwo(links, first, second) && IsDeduped(links, kept) && IsLeft(kept, first.url.key, l)
    ensures l == if Better(second, first) then second else first
  {
    LeftIsChoice(links, kept, l);
    var i, j :| AreOnlyTwo(links, first, second, i, j);
    var c: nat :| EarliestBest(links, c) && links[c] == l;
    assert c == i || c == j;
  }

  /** Of two entries for one peer the one with more of certificate, remote identifier and trust is left, in
      either order and for any times; with equally many the one linked later; and else the earlier in the table. */
  lemma LeavesMoreComplete(links: seq<Link>, first: Link, second: Link, kept: seq<Link>, l: Link)
    requires OnlyTwo(links, first, second) && IsDeduped(links, kept) && IsLeft(kept, first.url.key, l)
    ensures Completeness(first) > Completeness(second) ==> l == first
    ensures Completeness(first) < Completeness(second) ==> l == second
    ensures Completeness(first) == Completeness(second) ==>
      l == if first.linkedAt < second.linkedAt then second else first
  {
    LeavesOne(links, first, second, kept, l);
  }

  lemma LeavesOnly(links: seq<Link>, only: Link, kept: seq<Link>, l: Link)
    requires OnlyEntry(links, only) && IsDeduped(links, kept) && IsLeft(kept, only.url.key, l)
    ensures l == only
  {
    LeftIsChoice(links, kept, l);
  }

  // ---- two exchanges of one pair at the same time ----

  /** The two entries of a pair agree. */
  predicate Match(x: Link, y: Link) {
    x.remoteID == y.id && y.remoteID == x.id && x.sharedSecret == y.sharedSecret
  }

  /** Two links have crossed: each server has accepted the other's and then completed its own. Times,
      certificates and trust may be anything. */
  predicate Crossed(accA: Link, ownA: Link, accB: Link, ownB: Link) {
    && Match(ownA, accB) && Match(ownB, accA) && ownA.sharedSecret != ownB.sharedSecret
    && accA.url.key == ownA.url.key && accB.url.key == ownB.url.key
  }

  /** The entries for each other that deduplication leaves two servers after crossed links match if and
      only if one server prefers its own and the other does not, whatever else the tables hold. */
  lemma CrossedMatchIff(
    ta: seq<Link>, tb: seq<Link>, accA: Link, ownA: Link, accB: Link, ownB: Link, keptA: seq<Link>, keptB: seq<Link>,
    x: Link, y: Link)
    requires Crossed(accA, ownA, accB, ownB) && OnlyTwo(ta, accA, ownA) && OnlyTwo(tb, accB, ownB)
    requires IsDeduped(ta, keptA) && IsLeft(keptA, ownA.url.key, x)
    requires IsDeduped(tb, keptB) && IsLeft(keptB, ownB.url.key, y)
    ensures Match(x, y) <==> (Better(ownA, accA) <==> !Better(ownB, accB))
  {
    LeavesOne(ta, accA, ownA, keptA, x);
    LeavesOne(tb, accB, ownB, keptB, y);
  }

  /** An unknown caller's entry and the server's own for it, appended later, are the only ones for its address. */
  lemma AcceptedThenOwn(
    before: seq<Link>, req: AcceptRequest, localID: Id, at: int, after: seq<Link>, reply: Id, acc: Link,
    between: seq<Link>, own: Link)
    requires !Known(before, req) && AcceptStep(before, req, localID, at, after, reply)
    requires acc.url.key == req.callerURL.key && own.url.key == req.callerURL.key
    requires forall l | l in between :: l.url.key != req.callerURL.key
    ensures reply == localID && OnlyTwo(after[|before| := acc] + between + [own], acc, own)
  {
    var links := after[|before| := acc] + between + [own];
    var j := |before| + 1 + |between|;
    forall k | 0 <= k < |links| && k != |before| && k != j ensures links[k].url.key != acc.url.key {
      if k < |before| {
        assert links[k] == before[k];
      } else {
        assert links[k] == between[k - |before| - 1];
      }
    }
    assert AreOnlyTwo(links, acc, own, |before|, j);
  }

  /** Entries made by two simultaneous links of servers that hold nothing for each other cross, whenever
      each accepts and completes, whatever else they hold or append in between, and whatever is pinned or
      trusted before they deduplicate. */
  lemma SimultaneousLinksCross(
    a: Url, b: Url, a1: Id, a2: Id, b1: Id, b2: Id, s1: Secret, s2: Secret, atA: int, atB: int,
    ta: seq<Link>, tb: seq<Link>, ta': seq<Link>, tb': seq<Link>, replyA: Id, replyB: Id,
    midA: seq<Link>, midB: seq<Link>, accA: Link, ownA: Link, accB: Link, ownB: Link)
    requires s1 != s2 && !Known(tb, AcceptRequest(a, a1, s1)) && !Known(ta, AcceptRequest(b, b1, s2))
    requires AcceptStep(tb, AcceptRequest(a, a1, s1), b2, atB, tb', replyB)
    requires AcceptStep(ta, AcceptRequest(b, b1, s2), a2, atA, ta', replyA)
    requires accA == ta'[|ta|].(tlsFingerprint := accA.tlsFingerprint, lxdTrusted := accA.lxdTrusted)
    requires accB == tb'[|tb|].(tlsFingerprint := accB.tlsFingerprint, lxdTrusted := accB.lxdTrusted)
    requires ownA == Link(a1, b, s1, replyB, ownA.tlsFingerprint, ownA.lxdTrusted, ownA.linkedAt)
    requires ownB == Link(b1, a, s2, replyA, ownB.tlsFingerprint, ownB.lxdTrusted, ownB.linkedAt)
    requires (forall l | l in midA :: l.url.key != b.key) && forall l | l in midB :: l.url.key != a.key
    ensures Crossed(accA, ownA, accB, ownB)
    ensures OnlyTwo(ta'[|ta| := accA] + midA + [ownA], accA, ownA)
    ensures OnlyTwo(tb'[|tb| := accB] + midB + [ownB], accB, ownB)
  {
    AcceptedThenOwn(ta, AcceptRequest(b, b1, s2), a2, atA, ta', replyA, accA, midA, ownA);
    AcceptedThenOwn(tb, AcceptRequest(a, a1, s1), b2, atB, tb', replyB, accB, midB, ownB);
  }

  lemma OfTwo(first: Link, second: Link)
    requires first.url.key == second.url.key
    ensures OnlyTwo([first, second], first, second)
  {
    assert AreOnlyTwo([first, second], first, second, 0, 1);
  }

  /** Two servers with empty tables link to each other at once: each accepts the other's request,
      pins the certificate it finds, and then completes its own link; later each deduplicates.
      Each keeps the entry of its own link, and neither names the other. */
  lemma SimultaneousLinksDisagree(
    a: Url, b: Url, pinA: string, pinB: string, fpA: string, fpB: string,
    a1: Id, a2: Id, b1: Id, b2: Id, s1: Secret, s2: Secret, ta: seq<Link>, tb: seq<Link>, keptA: seq<Link>,
    keptB: seq<Link>, x: Link, y: Link)
    requires NONE !in {a1, a2, b1, b2} && a1 != a2 && b1 != b2 && s1 != s2 && fpA != "" && fpB != ""
    requires AcceptStep([], AcceptRequest(a, a1, s1), b2, 1, tb, b2)
    requires AcceptStep([], AcceptRequest(b, b1, s2), a2, 1, ta, a2)
    requires IsDeduped([ta[0].(tlsFingerprint := pinB), Link(a1, b, s1, b2, fpB, false, 2)], keptA)
    requires IsDeduped([tb[0].(tlsFingerprint := pinA), Link(b1, a, s2, a2, fpA, false, 2)], keptB)
    requires IsLeft(keptA, b.key, x) && IsLeft(keptB, a.key, y)
    ensures x.remoteID != y.id && y.remoteID != x.id && x.sharedSecret != y.sharedSecret
  {
    var accA, ownA := ta[0].(tlsFingerprint := pinB), Link(a1, b, s1, b2, fpB, false, 2);
    var accB, ownB := tb[0].(tlsFingerprint := pinA), Link(b1, a, s2, a2, fpA, false, 2);
    OfTwo(accA, ownA);
    OfTwo(accB, ownB);
    LeavesOne([accA, ownA], accA, ownA, keptA, x);
    LeavesOne([accB, ownB], accB, ownB, keptB, y);
  }

  lemma RenewedOnly(
    before: seq<Link>, only: Link, req: AcceptRequest, localID: Id, at: int, after: seq<Link>, reply: Id)
    requires OnlyEntry(before, only) && only.url.key == req.callerURL.key
    requires forall k | 0 <= k < |before| :: !IsCaller(before[k], req)
    requires AcceptStep(before, req, localID, at, after, reply)
    ensures reply == only.id && OnlyEntry(after, Renewed(only, req.sharedSecret, req.callerID))
  {
    var i :| IsOnlyEntry(before, only, i);
    assert SameKey(before[i], req);
    var c: nat :| IsAcceptedEntry(before, req, c)
      && after == before[c := Renewed(before[c], req.sharedSecret, req.callerID)] && reply == before[c].id;
    assert c == i;
    assert IsOnlyEntry(after, Renewed(only, req.sharedSecret, req.callerID), i);
  }

  /** If one server completes its own link before it accepts the other's, it has one entry, renewed; the
      entries left the two servers match if and only if the other prefers its own, whatever else they hold. */
  lemma LateAcceptMatchesIff(
    before: seq<Link>, ownA: Link, b: Url, b1: Id, s2: Secret, localID: Id, at: int, ta: seq<Link>, reply: Id,
    keptA: seq<Link>, tb: seq<Link>, accB: Link, ownB: Link, keptB: seq<Link>, x: Link, y: Link)
    requires Match(ownA, accB) && ownA.sharedSecret != s2 && ownA.url.key == b.key && OnlyEntry(before, ownA)
    requires forall k | 0 <= k < |before| :: !IsCaller(before[k], AcceptRequest(b, b1, s2))
    requires AcceptStep(before, AcceptRequest(b, b1, s2), localID, at, ta, reply)
    requires ownB.id == b1 && ownB.sharedSecret == s2 && ownB.remoteID == reply && OnlyTwo(tb, accB, ownB)
    requires IsDeduped(ta, keptA) && IsLeft(keptA, b.key, x)
    requires IsDeduped(tb, keptB) && IsLeft(keptB, ownB.url.key, y)
    ensures Match(x, y) <==> Better(ownB, accB)
  {
    RenewedOnly(before, ownA, AcceptRequest(b, b1, s2), localID, at, ta, reply);
    LeavesOnly(ta, Renewed(ownA, s2, b1), keptA, x);
    LeavesOne(tb, accB, ownB, keptB, y);
  }

  // ---- deduplication in the middle of an exchange ----

  lemma KeptIsBest(links: seq<Link>, kept: seq<Link>, i: nat)
    requires UniqueIds(links) && IsDeduped(links, kept) && i < |links| && HasId(kept, links[i].id)
    ensures EarliestBest(links, i)
  {
    var k :| 0 <= k < |kept| && kept[k].id == links[i].id;
    assert IsChoice(links, kept[k]);
    var b: nat :| EarliestBest(links, b) && links[b] == kept[k];
    assert b == i;
  }

  lemma BestIsKept(links: seq<Link>, kept: seq<Link>, i: nat)
    requires IsDeduped(links, kept) && EarliestBest(links, i)
    ensures HasId(kept, links[i].id)
  {
    KeyMembers(links, links[i].url.key);
    var k :| 0 <= k < |FirstKeys(links)| && FirstKeys(links)[k] == links[i].url.key;
    assert IsChoice(links, kept[k]);
    var b: nat :| EarliestBest(links, b) && links[b] == kept[k];
    EarliestBestIsUnique(links, b, i);
  }

  /** The entry an accepted request has renewed survives a deduplication before the exchange completes
      if and only if it is then the earliest of the best entries with its address. */
  lemma RenewedSurvivesIff(before: seq<Link>, req: AcceptRequest, i: nat, after: seq<Link>, kept: seq<Link>)
    requires UniqueIds(before) && IsAcceptedEntry(before, req, i)
    requires after == before[i := Renewed(before[i], req.sharedSecret, req.callerID)] && IsDeduped(after, kept)
    ensures HasId(kept, before[i].id) <==> EarliestBest(after, i)
  {
    assert after[i].id == before[i].id;
    if HasId(kept, before[i].id) { KeptIsBest(after, kept, i); }
    if EarliestBest(after, i) { BestIsKept(after, kept, i); }
  }

  lemma LeftForKey(links: seq<Link>, kept: seq<Link>, key: string)
    requires IsDeduped(links, kept) && key in FirstKeys(links)
    ensures exists l :: IsLeft(kept, key, l)
  {
    var i :| 0 <= i < |kept| && FirstKeys(links)[i] == key;
    assert IsLeft(kept, key, kept[i]);
  }

  /** The first of two entries for a peer, such as one just renewed, survives if and only if the other is
      not better, whatever else the table holds. */
  lemma RenewedOfTwoSurvivesIff(links: seq<Link>, x: Link, y: Link, kept: seq<Link>)
    requires UniqueIds(links) && OnlyTwo(links, x, y) && IsDeduped(links, kept)
    ensures HasId(kept, x.id) <==> !Better(y, x)
  {
    var i, j :| AreOnlyTwo(links, x, y, i, j);
    KeyMembers(links, x.url.key);
    LeftForKey(links, kept, x.url.key);
    var l :| IsLeft(kept, x.url.key, l);
    LeavesOne(links, x, y, kept, l);
    if HasId(kept, x.id) {
      KeptIsBest(links, kept, i);
      BestIsLeft(links, kept, i, l);
    } else {
      assert l != x;
    }
  }

  lemma BestIsLeft(links: seq<Link>, kept: seq<Link>, i: nat, l: Link)
    requires IsDeduped(links, kept) && EarliestBest(links, i) && IsLeft(kept, links[i].url.key, l)
    ensures l == links[i]
  {
    LeftIsChoice(links, kept, l);
    var c: nat :| EarliestBest(links, c) && links[c] == l;
    EarliestBestIsUnique(links, i, c);
  }

  /** A table with two entries for one peer: an accepted request renews one of them, and a
      deduplication before the exchange completes may drop just that one. */
  lemma DedupeMayDropRenewed(x: Link, y: Link, req: AcceptRequest, localID: Id, at: int, kept: seq<Link>)
    requires req.callerID != NONE && x.remoteID == req.callerID && x.url.key == y.url.key && x.id != y.id
      && Better(y, x)
    requires IsDeduped([Renewed(x, req.sharedSecret, req.callerID), y], kept)
    ensures AcceptStep([x, y], req, localID, at, [Renewed(x, req.sharedSecret, req.callerID), y], x.id)
    ensures !HasId(kept, x.id)
  {
    var links := [x, y];
    assert IsCaller(links[0], req);
    assert IsAcceptedEntry(links, req, 0);
    OfTwo(Renewed(x, req.sharedSecret, req.callerID), y);
    RenewedOfTwoSurvivesIff([Renewed(x, req.sharedSecret, req.callerID), y],
      Renewed(x, req.sharedSecret, req.callerID), y, kept);
  }
}
