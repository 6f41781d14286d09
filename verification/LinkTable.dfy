/** The table of linked servers one server holds, and what each request does to it:
    handlers/interlink.go and handlers/interlink_health.go. Identifiers and secrets are
    numbers; NONE stands for an identifier that is not set. */
module LinkTable {

  type Id = nat
  type Secret = nat

  const NONE: Id := 0

  /** An address as written, and the key its normalization compares. */
  datatype Url = Url(raw: string, key: string)

  datatype Link = Link(
    id: Id, url: Url, sharedSecret: Secret, remoteID: Id, tlsFingerprint: string, lxdTrusted: bool, linkedAt: int)

  datatype AcceptRequest = AcceptRequest(callerURL: Url, callerID: Id, sharedSecret: Secret)

  predicate IsCaller(l: Link, req: AcceptRequest) {
    l.remoteID != NONE && l.remoteID == req.callerID
  }

  /** An identifier that is not set names nobody: not an entry without remote identifier, and no entry by a
      request without one. */
  lemma NoneNamesNobody(l: Link, req: AcceptRequest)
    ensures l.remoteID == NONE || req.callerID == NONE ==> !IsCaller(l, req)
    ensures l.remoteID != NONE && l.remoteID == req.callerID ==> IsCaller(l, req)
  {}

  predicate SameKey(l: Link, req: AcceptRequest) {
    l.url.key == req.callerURL.key
  }

  /** The entry an accept-link request is about: the first that names the caller's link,
      else the first with the caller's address. */
  ghost predicate IsAcceptedEntry(links: seq<Link>, req: AcceptRequest, i: nat) {
    && i < |links|
    && if exists k :: 0 <= k < |links| && IsCaller(links[k], req)
       then IsCaller(links[i], req) && forall k | 0 <= k < i :: !IsCaller(links[k], req)
       else SameKey(links[i], req) && forall k | 0 <= k < i :: !SameKey(links[k], req)
  }

  ghost predicate Known(links: seq<Link>, req: AcceptRequest) {
    exists k :: 0 <= k < |links| && (IsCaller(links[k], req) || SameKey(links[k], req))
  }

  /** What an entry becomes when its peer sends a new secret. */
  function Renewed(l: Link, secret: Secret, remoteID: Id): Link {
    l.(sharedSecret := secret, remoteID := remoteID)
  }

  /** The entry made for a peer that was not known. */
  function Accepted(req: AcceptRequest, localID: Id, at: int): Link {
    Link(localID, req.callerURL, req.sharedSecret, req.callerID, "", false, at)
  }

  /** Renewal changes the secret and the remote identifier alone; a new entry has what the request says,
      no certificate, no trust and the time of its making. */
  lemma RenewedAndAccepted(l: Link, req: AcceptRequest, localID: Id, at: int, secret: Secret, remoteID: Id)
    ensures var r := Renewed(l, secret, remoteID);
      && r.id == l.id && r.url == l.url && r.tlsFingerprint == l.tlsFingerprint && r.lxdTrusted == l.lxdTrusted
      && r.linkedAt == l.linkedAt && r.sharedSecret == secret && r.remoteID == remoteID
    ensures var a := Accepted(req, localID, at);
      && a.id == localID && a.url == req.callerURL && a.sharedSecret == req.sharedSecret && a.remoteID == req.callerID
      && a.tlsFingerprint == "" && !a.lxdTrusted && a.linkedAt == at
  {}

  /** An accepted request renews the entry it is about or appends one; `reply` is the identifier sent back. */
  ghost predicate AcceptStep(before: seq<Link>, req: AcceptRequest, localID: Id, at: int, after: seq<Link>, reply: Id) {
    if Known(before, req) then
      exists i: nat :: IsAcceptedEntry(before, req, i)
        && after == before[i := Renewed(before[i], req.sharedSecret, req.callerID)] && reply == before[i].id
    else after == before + [Accepted(req, localID, at)] && reply == localID
  }

  /** The table without the entries of one identifier. */
  function Without(links: seq<Link>, id: Id): seq<Link> {
    if links == [] then []
    else if links[0].id == id then Without(links[1..], id)
    else [links[0]] + Without(links[1..], id)
  }

  ghost predicate HasId(links: seq<Link>, id: Id) {
    exists i :: 0 <= i < |links| && links[i].id == id
  }

  /** A remote-unlink is obeyed when an entry has the identifier and signs with the same secret. */
  ghost predicate Signed(links: seq<Link>, id: Id, secret: Secret) {
    exists i :: 0 <= i < |links| && links[i].id == id && links[i].sharedSecret == secret
  }

  ghost function RemoteUnlinked(links: seq<Link>, id: Id, secret: Secret): seq<Link> {
    if Signed(links, id, secret) then Without(links, id) else links
  }

  /** A remote-unlink removes the entries of the identifier if one of them has the secret it is signed with, and
      otherwise nothing. */
  lemma RemoteUnlinkNeedsSecret(links: seq<Link>, id: Id, secret: Secret)
    ensures Signed(links, id, secret) <==> exists l :: l in links && l.id == id && l.sharedSecret == secret
    ensures (exists l :: l in links && l.id == id && l.sharedSecret == secret) ==>
      forall l :: l in RemoteUnlinked(links, id, secret) <==> l in links && l.id != id
    ensures !(exists l :: l in links && l.id == id && l.sharedSecret == secret) ==>
      RemoteUnlinked(links, id, secret) == links
  {
    if l :| l in links && l.id == id && l.sharedSecret == secret {
      var i :| 0 <= i < |links| && links[i] == l;
      assert Signed(links, id, secret);
    }
    WithoutMembers(links, id);
  }

  lemma {:induction false} WithoutAppend(s: seq<Link>, l: Link, id: Id)
    ensures Without(s + [l], id) == Without(s, id) + if l.id == id then [] else [l]
    decreases |s|
  {
    if s == [] {
      assert s + [l] == [l];
      assert Without([l], id) == if l.id == id then [] else [l];
    } else {
      assert (s + [l])[1..] == s[1..] + [l];
      WithoutAppend(s[1..], l, id);
    }
  }

  lemma {:induction false} WithoutAbsent(links: seq<Link>, id: Id)
    requires !HasId(links, id)
    ensures Without(links, id) == links
    decreases |links|
  {
    if links != [] {
      assert links[0].id != id;
      forall i | 0 <= i < |links[1..]| ensures links[1..][i].id != id { assert links[1..][i] == links[i + 1]; }
      WithoutAbsent(links[1..], id);
    }
  }

  lemma {:induction false} WithoutMembers(links: seq<Link>, id: Id)
    ensures forall l :: l in Without(links, id) <==> l in links && l.id != id
    ensures !HasId(Without(links, id), id)
    decreases |links|
  {
    if links != [] {
      WithoutMembers(links[1..], id);
      assert links == [links[0]] + links[1..];
    }
    forall i | 0 <= i < |Without(links, id)| ensures Without(links, id)[i].id != id {
      assert Without(links, id)[i] in Without(links, id);
    }
  }

  ghost predicate UniqueIds(links: seq<Link>) {
    forall i, j | 0 <= i < j < |links| :: links[i].id != links[j].id
  }

  lemma IdDetermines(links: seq<Link>, l: Link, k: Link)
    requires UniqueIds(links) && l in links && k in links && l.id == k.id
    ensures l == k
  {}

  lemma HasIdOfMember(links: seq<Link>, l: Link)
    requires l in links
    ensures HasId(links, l.id)
  {}

  lemma {:induction false} WithoutUnique(links: seq<Link>, id: Id)
    requires UniqueIds(links)
    ensures UniqueIds(Without(links, id))
    decreases |links|
  {
    if links != [] {
      var rest := Without(links[1..], id);
      WithoutUnique(links[1..], id);
      WithoutMembers(links[1..], id);
      forall i | 0 <= i < |rest| ensures rest[i].id != links[0].id {
        assert rest[i] in links[1..];
        var k :| 0 <= k < |links[1..]| && links[1..][k] == rest[i];
        assert links[k + 1] == rest[i];
      }
    }
  }

  // ---- duplicates ----

  function Completeness(l: Link): int {
    (if l.tlsFingerprint != "" then 1 else 0) + (if l.remoteID != NONE then 1 else 0) + (if l.lxdTrusted then 1 else 0)
  }

  /** A bare entry scores nothing, and each of certificate, remote identifier and trust adds one, whatever
      the entry has besides; nothing else counts. */
  lemma CompletenessCounts(l: Link, id: Id, url: Url, secret: Secret, at: int)
    ensures l.tlsFingerprint == "" && l.remoteID == NONE && !l.lxdTrusted ==> Completeness(l) == 0
    ensures forall fp | fp != "" && l.tlsFingerprint == "" ::
      Completeness(l.(tlsFingerprint := fp)) == Completeness(l) + 1
    ensures forall r | r != NONE && l.remoteID == NONE :: Completeness(l.(remoteID := r)) == Completeness(l) + 1
    ensures !l.lxdTrusted ==> Completeness(l.(lxdTrusted := true)) == Completeness(l) + 1
    ensures forall fp, r | fp != "" && l.tlsFingerprint != "" && r != NONE && l.remoteID != NONE ::
      Completeness(l.(tlsFingerprint := fp, remoteID := r)) == Completeness(l)
    ensures Completeness(l.(id := id, url := url, sharedSecret := secret, linkedAt := at)) == Completeness(l)
  {}

  /** `x` replaces `y` when both reach the same peer. */
  predicate Better(x: Link, y: Link) {
    Completeness(x) > Completeness(y) || (Completeness(x) == Completeness(y) && x.linkedAt > y.linkedAt)
  }

  /** The keys of a table in order of first occurrence. */
  function FirstKeys(links: seq<Link>): seq<string> {
    if links == [] then []
    else
      var keys := FirstKeys(links[..|links| - 1]);
      var key := links[|links| - 1].url.key;
      if key in keys then keys else keys + [key]
  }

  ghost predicate HasDuplicate(links: seq<Link>) {
    exists i, j :: 0 <= i < j < |links| && links[i].url.key == links[j].url.key
  }

  /** Entry `b` is the earliest of the best entries with its key. */
  ghost predicate EarliestBest(links: seq<Link>, b: nat) {
    && b < |links|
    && (forall j | 0 <= j < |links| && links[j].url.key == links[b].url.key :: !Better(links[j], links[b]))
    && (forall j | 0 <= j < b && links[j].url.key == links[b].url.key :: Better(links[b], links[j]))
  }

  /** Among the entries with its key it has the most of certificate, remote identifier and trust; of those
      it was linked last; and of those it is the first in the table. */
  lemma EarliestBestIff(links: seq<Link>, b: nat)
    requires b < |links|
    ensures EarliestBest(links, b) <==> forall j | 0 <= j < |links| && links[j].url.key == links[b].url.key ::
      || Completeness(links[j]) < Completeness(links[b])
      || (Completeness(links[j]) == Completeness(links[b]) && links[j].linkedAt < links[b].linkedAt)
      || (Completeness(links[j]) == Completeness(links[b]) && links[j].linkedAt == links[b].linkedAt && b <= j)
  {}

  /** `l` is the choice for its key. */
  ghost predicate IsChoice(links: seq<Link>, l: Link) {
    exists b: nat :: EarliestBest(links, b) && links[b] == l
  }

  /** One entry for each key, in order of first occurrence, each the earliest of the best. */
  ghost predicate IsDeduped(links: seq<Link>, kept: seq<Link>) {
    && |kept| == |FirstKeys(links)|
    && (forall i | 0 <= i < |kept| :: kept[i].url.key == FirstKeys(links)[i])
    && (forall i | 0 <= i < |kept| :: IsChoice(links, kept[i]))
  }

  lemma {:induction false} KeyMembers(links: seq<Link>, k: string)
    ensures k in FirstKeys(links) <==> exists i :: 0 <= i < |links| && links[i].url.key == k
    decreases |links|
  {
    if links != [] {
      var n := |links| - 1;
      KeyMembers(links[..n], k);
      assert forall i | 0 <= i < n :: links[..n][i] == links[i];
    }
  }

  lemma {:induction false} KeyCount(links: seq<Link>)
    ensures forall i, j | 0 <= i < j < |FirstKeys(links)| :: FirstKeys(links)[i] != FirstKeys(links)[j]
    ensures |FirstKeys(links)| <= |links|
    ensures |FirstKeys(links)| == |links| <==> !HasDuplicate(links)
    decreases |links|
  {
    if links != [] {
      var n := |links| - 1;
      var front := links[..n];
      KeyCount(front);
      KeyMembers(front, links[n].url.key);
      assert forall i | 0 <= i < n :: front[i] == links[i];
      if HasDuplicate(front) {
        var i, j :| 0 <= i < j < n && front[i].url.key == front[j].url.key;
        assert links[i].url.key == links[j].url.key;
      }
    }
  }

  /** The keys of a table, each once; all of them are different exactly if there is no duplicate. */
  lemma {:induction false} KeysOf(links: seq<Link>)
    ensures forall k :: k in FirstKeys(links) <==> exists i :: 0 <= i < |links| && links[i].url.key == k
    ensures forall i, j | 0 <= i < j < |FirstKeys(links)| :: FirstKeys(links)[i] != FirstKeys(links)[j]
    ensures |FirstKeys(links)| <= |links|
    ensures |FirstKeys(links)| == |links| <==> !HasDuplicate(links)
  {
    forall k { KeyMembers(links, k); }
    KeyCount(links);
  }

  lemma EarliestBestIsUnique(links: seq<Link>, b: nat, c: nat)
    requires EarliestBest(links, b) && EarliestBest(links, c) && links[b].url.key == links[c].url.key
    ensures b == c
  {}

  /** A table has one result of deduplication; it has no duplicate, so deduplicating again changes
      nothing, and it has the keys of the table. */
  lemma DedupedIsSettled(links: seq<Link>, kept: seq<Link>, other: seq<Link>)
    requires IsDeduped(links, kept) && IsDeduped(links, other)
    ensures kept == other
    ensures !HasDuplicate(kept)
    ensures forall k :: k in FirstKeys(kept) <==> k in FirstKeys(links)
  {
    KeysOf(links);
    forall i | 0 <= i < |kept| ensures kept[i] == other[i] {
      var b: nat :| EarliestBest(links, b) && links[b] == kept[i];
      var c: nat :| EarliestBest(links, c) && links[c] == other[i];
      EarliestBestIsUnique(links, b, c);
    }
    KeysOf(kept);
    var keys := FirstKeys(links);
    forall k ensures k in FirstKeys(kept) <==> k in keys {
      if k in keys {
        var i :| 0 <= i < |keys| && keys[i] == k;
        assert kept[i].url.key == k;
      }
    }
  }

  /** A later entry that does not beat the best with its key leaves the choice as it was. */
  lemma StillBest(links: seq<Link>, l: Link, b: nat)
    requires EarliestBest(links, b) && (l.url.key == links[b].url.key ==> !Better(l, links[b]))
    ensures EarliestBest(links + [l], b)
  {}

  /** A later entry that beats the best with its key is the new choice. */
  lemma NewBest(links: seq<Link>, l: Link)
    requires forall j | 0 <= j < |links| && links[j].url.key == l.url.key :: Better(l, links[j])
    ensures EarliestBest(links + [l], |links|)
  {}

  lemma FirstKeysAppend(links: seq<Link>, l: Link)
    ensures FirstKeys(links + [l]) ==
      if l.url.key in FirstKeys(links) then FirstKeys(links) else FirstKeys(links) + [l.url.key]
  {}

  /** Entries kept for other keys stay as they are. */
  lemma OthersKept(links: seq<Link>, kept: seq<Link>, l: Link, i: nat)
    requires IsDeduped(links, kept) && i < |kept| && kept[i].url.key != l.url.key
    ensures IsChoice(links + [l], kept[i])
  {
    var b: nat :| EarliestBest(links, b) && links[b] == kept[i];
    StillBest(links, l, b);
    assert (links + [l])[b] == kept[i];
  }

  /** The result has the keys of the table in its order, and chosen entries only. */
  lemma DedupedFrom(links: seq<Link>, keys: seq<string>, kept: seq<Link>)
    requires keys == FirstKeys(links) && |kept| == |keys|
    requires forall i | 0 <= i < |kept| :: kept[i].url.key == keys[i] && IsChoice(links, kept[i])
    ensures IsDeduped(links, kept)
  {}

  lemma NewestIsChoice(links: seq<Link>, l: Link)
    requires l.url.key !in FirstKeys(links)
    ensures IsChoice(links + [l], l)
  {
    KeysOf(links);
    NewBest(links, l);
    assert (links + [l])[|links|] == l;
  }

  /** One more entry with a new key is kept. */
  lemma DedupeNewKey(links: seq<Link>, kept: seq<Link>, l: Link)
    requires IsDeduped(links, kept) && l.url.key !in FirstKeys(links)
    ensures IsDeduped(links + [l], kept + [l])
  {
    var keys, next := FirstKeys(links), kept + [l];
    FirstKeysAppend(links, l);
    NewestIsChoice(links, l);
    forall i | 0 <= i < |next| ensures next[i].url.key == (keys + [l.url.key])[i] && IsChoice(links + [l], next[i]) {
      if i < |kept| {
        assert keys[i] in keys;
        OthersKept(links, kept, l, i);
      }
    }
    DedupedFrom(links + [l], keys + [l.url.key], next);
  }

  lemma Rivals(links: seq<Link>, l: Link, k: Link)
    requires IsChoice(links, k) && k.url.key == l.url.key
    ensures IsChoice(links + [l], if Better(l, k) then l else k)
  {
    var b: nat :| EarliestBest(links, b) && links[b] == k;
    if Better(l, k) {
      NewBest(links, l);
      assert (links + [l])[|links|] == l;
    } else {
      StillBest(links, l, b);
      assert (links + [l])[b] == k;
    }
  }

  /** One more entry with a known key competes with the entry kept for that key. */
  lemma DedupeRival(links: seq<Link>, kept: seq<Link>, l: Link, at: nat)
    requires IsDeduped(links, kept) && at < |kept| && FirstKeys(links)[at] == l.url.key
    ensures IsDeduped(links + [l], if Better(l, kept[at]) then kept[at := l] else kept)
  {
    var next := if Better(l, kept[at]) then kept[at := l] else kept;
    var keys := FirstKeys(links);
    FirstKeysAppend(links, l);
    KeyCount(links);
    assert keys[at] in keys;
    forall i | 0 <= i < |next| ensures next[i].url.key == keys[i] && IsChoice(links + [l], next[i]) {
      if i == at {
        Rivals(links, l, kept[at]);
      } else {
        OthersKept(links, kept, l, i);
      }
    }
    DedupedFrom(links + [l], keys, next);
  }

  lemma ChoiceIsMember(links: seq<Link>, l: Link)
    requires IsChoice(links, l)
    ensures l in links
  {}

  /** An entry left has at least as much of certificate, remote identifier and trust as any other for its
      address, and was linked no earlier than those with as much. */
  lemma LeftIsMaximal(links: seq<Link>, kept: seq<Link>, l: Link, x: Link)
    requires IsDeduped(links, kept) && l in kept && x in links && x.url.key == l.url.key
    ensures l in links
    ensures Completeness(x) < Completeness(l) || (Completeness(x) == Completeness(l) && x.linkedAt <= l.linkedAt)
  {
    assert IsChoice(links, l);
    ChoiceIsMember(links, l);
    var b: nat :| EarliestBest(links, b) && links[b] == l;
    EarliestBestIff(links, b);
  }

  /** Entries from a table, one for each key, have different identifiers if the table's have. */
  lemma PartUnique(links: seq<Link>, part: seq<Link>)
    requires UniqueIds(links) && !HasDuplicate(part) && forall i | 0 <= i < |part| :: part[i] in links
    ensures UniqueIds(part) && forall l | l in part :: l in links
  {
    forall i, j | 0 <= i < j < |part| ensures part[i].id != part[j].id {
      if part[i].id == part[j].id { IdDetermines(links, part[i], part[j]); }
    }
  }

  lemma DedupedMembers(links: seq<Link>, kept: seq<Link>)
    requires IsDeduped(links, kept) && UniqueIds(links)
    ensures forall l | l in kept :: l in links
    ensures UniqueIds(kept)
  {
    DedupedIsSettled(links, kept, kept);
    forall i | 0 <= i < |kept| ensures kept[i] in links { ChoiceIsMember(links, kept[i]); }
    PartUnique(links, kept);
  }

  /** A table without duplicates stays as it is. */
  lemma {:induction false} NoDuplicateIsDeduped(links: seq<Link>)
    requires !HasDuplicate(links)
    ensures IsDeduped(links, links)
    decreases |links|
  {
    if links != [] {
      var front, l := links[..|links| - 1], links[|links| - 1];
      assert links == front + [l];
      NoDuplicateIsDeduped(front);
      KeysOf(front);
      DedupeNewKey(front, front, l);
    }
  }
}
