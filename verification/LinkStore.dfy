/** The table of linked servers as the program holds it: a slice, that is a length and a
    backing array with room to spare, whose entries are written through pointers. */
module LinkStore {
  import opened Options
  import opened LinkTable

  class Store {
    var links: array<Link>   // the backing array
    var len: nat

    ghost predicate Valid()
      reads this
    {
      len <= links.Length
    }

    ghost function Table(): seq<Link>
      requires Valid()
      reads this, links
    {
      links[..len]
    }

    constructor (first: seq<Link>)
      ensures Valid() && fresh(links) && Table() == first
    {
      links := new Link[|first|](i requires 0 <= i < |first| => first[i]);
      len := |first|;
    }

    /** The slice becomes a new one that holds `kept`. */
    method Replace(kept: seq<Link>)
      requires Valid()
      modifies this
      ensures Valid() && fresh(links) && Table() == kept
    {
      links := new Link[|kept|](i requires 0 <= i < |kept| => kept[i]);
      len := |kept|;
    }

    /** append: in place while there is room, else into a larger backing array. */
    method Append(l: Link)
      requires Valid()
      modifies this, links
      ensures Valid() && Table() == old(Table()) + [l]
      ensures links == old(links) || fresh(links)
      ensures links == old(links) <==> old(len) < old(links.Length)
    {
      if len == links.Length {
        var room := new Link[2 * len + 1](i requires 0 <= i < 2 * len + 1 reads this, links => if i < len
          && len <= links.Length then links[i] else l);
        links := room;
      } else {
        links[len] := l;
      }
      len := len + 1;
    }

    /** findAcceptedLink: two passes over the table. */
    method FindAccepted(req: AcceptRequest) returns (i: int)
      requires Valid()
      ensures if Known(Table(), req) then i >= 0 && IsAcceptedEntry(Table(), req, i) else i == -1
    {
      for k := 0 to len
        invariant forall j | 0 <= j < k :: !IsCaller(links[j], req)
      {
        if links[k].remoteID != NONE && links[k].remoteID == req.callerID {
          assert IsCaller(Table()[k], req);
          return k;
        }
      }
      for k := 0 to len
        invariant forall j | 0 <= j < k :: !SameKey(links[j], req)
      {
        if links[k].url.key == req.callerURL.key {
          assert SameKey(Table()[k], req);
          return k;
        }
      }
      return -1;
    }

    /** The check and update of HandleInterlinkAcceptLink, under its mutex. */
    method AcceptLink(req: AcceptRequest, localID: Id, at: int) returns (reply: Id)
      requires Valid()
      modifies this, links
      ensures Valid() && AcceptStep(old(Table()), req, localID, at, Table(), reply)
      ensures |Table()| == |old(Table())| ==> forall j | 0 <= j < len ::
        && links[j].id == old(Table())[j].id && links[j].url == old(Table())[j].url
        && links[j].tlsFingerprint == old(Table())[j].tlsFingerprint
        && links[j].lxdTrusted == old(Table())[j].lxdTrusted && links[j].linkedAt == old(Table())[j].linkedAt
      ensures |Table()| != |old(Table())| ==>
        && |Table()| == |old(Table())| + 1 && Table()[..|old(Table())|] == old(Table())
        && var l := links[len - 1];
           && l.id == reply == localID && l.url == req.callerURL && l.sharedSecret == req.sharedSecret
           && l.remoteID == req.callerID && l.tlsFingerprint == "" && !l.lxdTrusted && l.linkedAt == at
      ensures links == old(links) || fresh(links)
    {
      var i := FindAccepted(req);
      if i >= 0 {
        ghost var before := Table();
        links[i] := Renewed(links[i], req.sharedSecret, req.callerID);
        assert Table() == before[i := Renewed(before[i], req.sharedSecret, req.callerID)];
        return links[i].id;
      }
      Append(Accepted(req, localID, at));
      return localID;
    }

    /** The removal both unlink handlers make, into a new slice. */
    method Remove(id: Id)
      requires Valid()
      modifies this
      ensures Valid() && fresh(links) && Table() == Without(old(Table()), id)
    {
      var kept := [];
      for i := 0 to len
        invariant unchanged(this) && unchanged(links)
        invariant kept == Without(Table()[..i], id)
      {
        assert Table()[..i + 1] == Table()[..i] + [links[i]];
        WithoutAppend(Table()[..i], links[i], id);
        if links[i].id != id {
          kept := kept + [links[i]];
        }
      }
      assert Table()[..len] == Table();
      Replace(kept);
    }

    /** The local half of HandleInterlinkUnlink; the entry removed tells whom to notify. */
    method Unlink(id: Id) returns (removed: Option<Link>)
      requires Valid()
      modifies this
      ensures Valid() && Table() == Without(old(Table()), id)
      ensures removed.Some? <==> HasId(old(Table()), id)
      ensures removed.Some? ==> removed.value in old(Table()) && removed.value.id == id
    {
      removed := None;
      for i := 0 to len
        invariant unchanged(this) && unchanged(links)
        invariant removed.Some? <==> exists j :: 0 <= j < i && links[j].id == id
        invariant removed.Some? ==> removed.value in Table() && removed.value.id == id
      {
        if links[i].id == id {
          assert Table()[i] == links[i];
          removed := Some(links[i]);
        }
      }
      assert forall i | 0 <= i < len :: Table()[i] == links[i];
      if removed.Some? {
        Remove(id);
      } else {
        WithoutAbsent(Table(), id);
      }
    }

    /** HandleInterlinkRemoteUnlink. */
    method RemoteUnlink(id: Id, secret: Secret) returns (removed: bool)
      requires Valid()
      modifies this
      ensures Valid() && Table() == RemoteUnlinked(old(Table()), id, secret)
      ensures removed <==> Signed(old(Table()), id, secret)
    {
      for i := 0 to len
        invariant unchanged(this) && unchanged(links)
        invariant forall j | 0 <= j < i :: !(links[j].id == id && links[j].sharedSecret == secret)
      {
        if links[i].id == id && links[i].sharedSecret == secret {
          assert Table()[i].id == id && Table()[i].sharedSecret == secret;
          Remove(id);
          return true;
        }
      }
      return false;
    }

    /** interlinkByID: a pointer into the backing array of the moment. */
    method ById(id: Id) returns (entry: Option<(array<Link>, nat)>)
      requires Valid()
      ensures entry.Some? <==> HasId(Table(), id)
      ensures entry.Some? ==> entry.value.0 == links && entry.value.1 < len && links[entry.value.1].id == id
    {
      for i := 0 to len
        invariant forall j | 0 <= j < i :: links[j].id != id
      {
        if links[i].id == id {
          assert Table()[i].id == id;
          return Some((links, i));
        }
      }
      return None;
    }

    /** The end of HandleInterlinkRepairLink writes through the pointer it took before it called
        the peer. The write reaches the table only if the slice still has that backing array. */
    method FinishRepair(backing: array<Link>, i: nat, secret: Secret, remoteID: Id)
      requires Valid() && i < backing.Length && (backing == links ==> i < len)
      modifies backing
      ensures Valid() && unchanged(this)
      ensures backing == links ==> Table() == old(Table())[i := Renewed(old(Table())[i], secret, remoteID)]
      ensures backing != links ==> Table() == old(Table())
    {
      backing[i] := Renewed(backing[i], secret, remoteID);
    }

    /** dedupeInterLink. */
    method Dedupe() returns (changed: bool)
      requires Valid()
      modifies this
      ensures Valid() && IsDeduped(old(Table()), Table())
      ensures changed <==> HasDuplicate(old(Table()))
      ensures !changed ==> unchanged(this) && Table() == old(Table())
      ensures forall l, x | l in Table() && x in old(Table()) && x.url.key == l.url.key ::
        && l in old(Table()) && Completeness(x) <= Completeness(l)
        && (Completeness(x) == Completeness(l) ==> x.linkedAt <= l.linkedAt)
    {
      var kept;
      kept, changed := Collapse(links[..len]);
      if changed {
        Replace(kept);
      }
      AllLeftAreMaximal(old(Table()), Table());
    }
  }

  lemma AllLeftAreMaximal(links: seq<Link>, kept: seq<Link>)
    requires IsDeduped(links, kept)
    ensures forall l, x | l in kept && x in links && x.url.key == l.url.key ::
      && l in links && Completeness(x) <= Completeness(l)
      && (Completeness(x) == Completeness(l) ==> x.linkedAt <= l.linkedAt)
  {
    forall l, x | l in kept && x in links && x.url.key == l.url.key
      ensures l in links && Completeness(x) <= Completeness(l)
      ensures Completeness(x) == Completeness(l) ==> x.linkedAt <= l.linkedAt
    {
      LeftIsMaximal(links, kept, l, x);
    }
  }

  /** The map of the keys seen to their places. */
  ghost predicate Indexes(seen: map<string, nat>, keys: seq<string>) {
    && (forall k :: k in seen <==> k in keys)
    && (forall k | k in seen :: seen[k] < |keys| && keys[seen[k]] == k)
  }

  lemma IndexNewKey(seen: map<string, nat>, keys: seq<string>, key: string)
    requires Indexes(seen, keys) && key !in keys
    ensures Indexes(seen[key := |keys|], keys + [key])
  {}

  /** One more entry, kept if its key is new, else a rival of the one kept for its key. */
  lemma KeepOne(done: seq<Link>, kept: seq<Link>, seen: map<string, nat>, l: Link)
    requires IsDeduped(done, kept) && Indexes(seen, FirstKeys(done))
    ensures l.url.key in seen ==> seen[l.url.key] < |kept|
    ensures l.url.key in seen ==>
      var at := seen[l.url.key];
      IsDeduped(done + [l], if Better(l, kept[at]) then kept[at := l] else kept) && Indexes(seen, FirstKeys(done + [l]))
    ensures l.url.key !in seen ==>
      IsDeduped(done + [l], kept + [l]) && Indexes(seen[l.url.key := |kept|], FirstKeys(done + [l]))
  {
    FirstKeysAppend(done, l);
    if l.url.key in seen {
      DedupeRival(done, kept, l, seen[l.url.key]);
    } else {
      DedupeNewKey(done, kept, l);
      IndexNewKey(seen, FirstKeys(done), l.url.key);
    }
  }

  lemma OneMore(links: seq<Link>, i: nat)
    requires i < |links|
    ensures links[..i + 1] == links[..i] + [links[i]]
  {}

  /** The loop of dedupeInterLink. */
  method Collapse(links: seq<Link>) returns (kept: seq<Link>, changed: bool)
    ensures IsDeduped(links, kept)
    ensures changed <==> HasDuplicate(links)
    ensures !changed ==> kept == links
  {
    var seen: map<string, nat> := map[];
    kept, changed := [], false;
    ghost var done: seq<Link> := [];
    for i := 0 to |links|
      invariant done == links[..i]
      invariant IsDeduped(done, kept)
      invariant Indexes(seen, FirstKeys(done))
      invariant |kept| <= i && (changed <==> |kept| < i)
    {
      var l := links[i];
      KeepOne(done, kept, seen, l);
      if l.url.key in seen {
        var at := seen[l.url.key];
        changed := true;
        if Better(l, kept[at]) {
          kept := kept[at := l];
        }
      } else {
        seen := seen[l.url.key := |kept|];
        kept := kept + [l];
      }
      OneMore(links, i);
      done := done + [l];
    }
    assert links[..|links|] == links;
    KeysOf(links);
    if !changed {
      NoDuplicateIsDeduped(links);
      DedupedIsSettled(links, kept, links);
    }
  }
}
