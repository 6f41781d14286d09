/** Count-based retention of scheduled snapshots: the end of runLXDSnapshotPolicy in
    handlers/lxd_snap_schedule.go. Creation times are plain integers; nothing is assumed
    about the clock that gives them. */
module Retention {
  datatype Snap = Snap(name: string, created: int)

  predicate Matches(prefix: string, name: string) {
    prefix + "-" <= name || name == prefix
  }

  /** A name matches if it is the prefix itself or goes on after it with a dash: "auto" does not manage
      "automation". */
  lemma MatchesAfterDash(prefix: string, name: string)
    ensures Matches(prefix, name) <==>
      |prefix| <= |name| && name[..|prefix|] == prefix && (|name| > |prefix| ==> name[|prefix|] == '-')
    ensures !Matches("auto", "automation") && Matches("auto", "auto-20240101-120000")
  {
    if |prefix| < |name| { assert name[..|prefix| + 1] == name[..|prefix|] + [name[|prefix|]]; }
    assert "automation"[4] != "auto-"[4];
    assert "auto-20240101-120000"[..5] == "auto-";
  }

  /** The snapshots a policy manages. */
  type Managed = iset<string>

  ghost function ByPrefix(prefix: string): Managed {
    iset name | Matches(prefix, name)
  }

  ghost function Matching(snaps: map<string, int>, mine: Managed): set<string> {
    set n | n in snaps && n in mine
  }

  function Min(a: int, b: int): int {
    if a < b then a else b
  }

  /** `after` is `before` less the matching snapshots past the newest `keep`. */
  ghost predicate NewestKept(before: map<string, int>, after: map<string, int>, mine: Managed, keep: nat) {
    && (forall n | n in after :: n in before && after[n] == before[n])
    && (forall n | n in before && n !in mine :: n in after)
    && |Matching(after, mine)| == Min(|Matching(before, mine)|, keep)
    && NoneNewer(before, after, mine)
  }

  /** No snapshot that went is newer than a managed one that stayed. */
  ghost predicate NoneNewer(before: map<string, int>, after: map<string, int>, mine: Managed) {
    forall d, k | d in before && d !in after && k in after && k in before && k in mine :: before[d] <= before[k]
  }

  predicate NewestFirst(s: seq<Snap>) {
    forall i, j | 0 <= i < j < |s| :: s[i].created >= s[j].created
  }

  ghost predicate Distinct(s: seq<Snap>) {
    forall i, j | 0 <= i < j < |s| :: s[i].name != s[j].name
  }

  ghost function Names(s: seq<Snap>): set<string> {
    set i | 0 <= i < |s| :: s[i].name
  }

  lemma {:induction false} CountNames(s: seq<Snap>)
    requires Distinct(s)
    ensures |Names(s)| == |s|
  {
    if s != [] {
      var t := s[..|s| - 1];
      CountNames(t);
      assert Names(s) == Names(t) + {s[|s| - 1].name};
    }
  }

  class Instance {
    var snaps: map<string, int>   // name and creation time of every snapshot

    constructor (snaps: map<string, int>)
      ensures this.snaps == snaps
    {
      this.snaps := snaps;
    }

    /** The daemon lists snapshots in no particular order. */
    method List() returns (all: seq<Snap>)
      ensures Distinct(all) && Names(all) == snaps.Keys
      ensures forall i | 0 <= i < |all| :: all[i].name in snaps && all[i].created == snaps[all[i].name]
    {
      all := [];
      var left := snaps.Keys;
      while left != {}
        invariant left <= snaps.Keys && Names(all) == snaps.Keys - left && Distinct(all)
        invariant forall i | 0 <= i < |all| :: all[i].name in snaps && all[i].created == snaps[all[i].name]
        decreases left
      {
        var n :| n in left;
        assert forall i | 0 <= i < |all| :: all[i].name in Names(all);
        var next := all + [Snap(n, snaps[n])];
        assert Names(next) == Names(all) + {n} by {
          assert next[|all|].name == n;
          forall m | m in Names(all) ensures m in Names(next) {
            var i :| 0 <= i < |all| && all[i].name == m;
            assert next[i].name == m;
          }
        }
        all, left := next, left - {n};
      }
    }

    /** Creating and deleting may fail. */
    method Create(name: string, at: int) returns (ok: bool)
      modifies this
      ensures snaps == if ok then old(snaps)[name := at] else old(snaps)
    {
      ok := *;
      if ok { snaps := snaps[name := at]; }
    }

    method Delete(name: string) returns (ok: bool)
      modifies this
      ensures snaps == if ok then old(snaps) - {name} else old(snaps)
    {
      ok := *;
      if ok { snaps := snaps - {name}; }
    }

    /** Deletes the matching snapshots past the newest `keep`. What retention leaves is `target`;
        a deletion that fails leaves its snapshot behind as well, and nothing else. */
    method Prune(prefix: string, keep: nat) returns (clean: bool, ghost target: map<string, int>)
      modifies this
      ensures NewestKept(old(snaps), target, ByPrefix(prefix), keep)
      ensures clean ==> snaps == target
      ensures forall n | n in target :: n in snaps
      ensures forall n | n in snaps :: n in old(snaps) && snaps[n] == old(snaps)[n]
    {
      ghost var before := snaps;
      var all := List();
      var matched := Filter(all, prefix);
      matched := SortNewestFirst(matched);
      assert Names(matched) == Matching(before, ByPrefix(prefix));
      clean := true;
      target := snaps;
      if |matched| <= keep {
        CountNames(matched);
        return;
      }
      clean, target := DeletePast(matched, keep);
      CutIsNewest(before, target, ByPrefix(prefix), keep, matched);
    }

    /** The loop that deletes the listed snapshots past the first `keep`. */
    method DeletePast(matched: seq<Snap>, keep: nat) returns (clean: bool, ghost target: map<string, int>)
      requires keep <= |matched|
      modifies this
      ensures forall n | n in target :: n in old(snaps) && target[n] == old(snaps)[n]
      ensures forall n | n in old(snaps) :: n in target <==> n !in Names(matched[keep..])
      ensures clean ==> snaps == target
      ensures forall n | n in target :: n in snaps
      ensures forall n | n in snaps :: n in old(snaps) && snaps[n] == old(snaps)[n]
    {
      ghost var before := snaps;
      clean := true;
      target := snaps;
      var i := keep;
      while i < |matched|
        invariant keep <= i <= |matched|
        invariant forall n | n in target :: n in before && target[n] == before[n]
        invariant forall n | n in before :: n in target <==> n !in Names(matched[keep..i])
        invariant forall n | n in snaps :: n in before && snaps[n] == before[n]
        invariant forall n | n in target :: n in snaps
        invariant clean ==> snaps == target
      {
        var gone := matched[i].name;
        LastName(matched[keep..i + 1]);
        assert matched[keep..i + 1][..i - keep] == matched[keep..i];
        var ok := Delete(gone);
        clean := clean && ok;
        target := target - {gone};
        i := i + 1;
      }
      assert matched[keep..i] == matched[keep..];
    }

    /** One fire of a policy: a new snapshot, then retention. */
    method Fire(prefix: string, keep: nat, name: string, at: int) returns (created: bool, clean: bool)
      modifies this
      ensures !created ==> snaps == old(snaps)
      ensures created && clean ==> NewestKept(old(snaps)[name := at], snaps, ByPrefix(prefix), keep)
    {
      clean := true;
      created := Create(name, at);
      if created {
        ghost var target;
        clean, target := Prune(prefix, keep);
      }
    }
  }

  lemma LastName(s: seq<Snap>)
    requires s != []
    ensures Names(s) == Names(s[..|s| - 1]) + {s[|s| - 1].name}
  {}

  /** The loop that filters the listing by prefix. */
  method Filter(all: seq<Snap>, prefix: string) returns (matched: seq<Snap>)
    requires Distinct(all)
    ensures Distinct(matched)
    ensures Names(matched) == set n | n in Names(all) && Matches(prefix, n)
    ensures forall x | x in matched :: x in all
  {
    matched := [];
    for i := 0 to |all|
      invariant Distinct(matched)
      invariant Names(matched) == set n | n in Names(all[..i]) && Matches(prefix, n)
      invariant forall x | x in matched :: x in all[..i]
    {
      LastName(all[..i + 1]);
      assert all[..i + 1][..i] == all[..i];
      if Matches(prefix, all[i].name) {
        LastName(matched + [all[i]]);
        assert (matched + [all[i]])[..|matched|] == matched;
        matched := matched + [all[i]];
      }
    }
    assert all[..|all|] == all;
  }

  function InsertAt(r: seq<Snap>, k: nat, x: Snap): seq<Snap>
    requires k <= |r|
  {
    r[..k] + [x] + r[k..]
  }

  lemma InsertedAt(r: seq<Snap>, k: nat, x: Snap, i: nat)
    requires k <= |r| && i <= |r|
    ensures InsertAt(r, k, x)[i] == if i < k then r[i] else if i == k then x else r[i - 1]
  {}

  lemma InsertedMembers(r: seq<Snap>, k: nat, x: Snap)
    requires k <= |r|
    ensures forall y :: y in InsertAt(r, k, x) <==> y == x || y in r
  {}

  lemma NamesOfMembers(s: seq<Snap>, n: string)
    ensures n in Names(s) <==> exists y :: y in s && y.name == n
  {}

  lemma InsertedNameSet(r: seq<Snap>, k: nat, x: Snap)
    requires k <= |r|
    ensures Names(InsertAt(r, k, x)) == Names(r) + {x.name}
  {
    InsertedMembers(r, k, x);
    forall n ensures n in Names(InsertAt(r, k, x)) <==> n in Names(r) || n == x.name {
      NamesOfMembers(r, n);
      NamesOfMembers(InsertAt(r, k, x), n);
    }
  }

  lemma InsertedNames(r: seq<Snap>, k: nat, x: Snap)
    requires k <= |r| && Distinct(r) && x.name !in Names(r)
    ensures Distinct(InsertAt(r, k, x)) && Names(InsertAt(r, k, x)) == Names(r) + {x.name}
    ensures forall y :: y in InsertAt(r, k, x) <==> y == x || y in r
  {
    InsertedMembers(r, k, x);
    InsertedNameSet(r, k, x);
    var t := InsertAt(r, k, x);
    forall i, j | 0 <= i < j < |t| ensures t[i].name != t[j].name {
      InsertedAt(r, k, x, i);
      InsertedAt(r, k, x, j);
      assert forall m | 0 <= m < |r| :: r[m].name in Names(r);
    }
  }

  /** The library sort by descending creation time; ties come out in any order. */
  method SortNewestFirst(s: seq<Snap>) returns (r: seq<Snap>)
    requires Distinct(s)
    ensures NewestFirst(r) && Distinct(r) && Names(r) == Names(s)
    ensures forall x :: x in r <==> x in s
  {
    r := [];
    for i := 0 to |s|
      invariant NewestFirst(r) && Distinct(r) && Names(r) == Names(s[..i])
      invariant forall x :: x in r <==> x in s[..i]
    {
      var k := 0;
      while k < |r| && r[k].created >= s[i].created
        invariant 0 <= k <= |r|
        invariant forall j | 0 <= j < k :: r[j].created >= s[i].created
      {
        k := k + 1;
      }
      assert s[..i + 1] == s[..i] + [s[i]];
      LastName(s[..i + 1]);
      InsertedNames(r, k, s[i]);
      r := InsertAt(r, k, s[i]);
    }
    assert s[..|s|] == s;
  }

  lemma CutIsNewest(before: map<string, int>, after: map<string, int>, mine: Managed, keep: nat, matched: seq<Snap>)
    requires Distinct(matched) && NewestFirst(matched) && keep < |matched|
    requires Names(matched) == Matching(before, mine)
    requires forall x | x in matched :: x.name in before && before[x.name] == x.created
    requires forall n | n in after :: n in before && after[n] == before[n]
    requires forall n | n in before :: n in after <==> n !in Names(matched[keep..])
    ensures NewestKept(before, after, mine, keep)
  {
    CutMatching(before, after, mine, keep, matched);
    CutNoneNewer(before, after, mine, keep, matched);
  }

  lemma CutMatching(before: map<string, int>, after: map<string, int>, mine: Managed, keep: nat, matched: seq<Snap>)
    requires Distinct(matched) && keep < |matched| && Names(matched) == Matching(before, mine)
    requires forall n | n in after :: n in before && after[n] == before[n]
    requires forall n | n in before :: n in after <==> n !in Names(matched[keep..])
    ensures Matching(after, mine) == Names(matched[..keep])
    ensures |Matching(after, mine)| == Min(|Matching(before, mine)|, keep)
    ensures forall n | n in before && n !in mine :: n in after
  {
    CutNames(matched, keep);
    SplitMatching(before, after, mine, Names(matched[..keep]), Names(matched[keep..]));
  }

  lemma CutNoneNewer(before: map<string, int>, after: map<string, int>, mine: Managed, keep: nat, matched: seq<Snap>)
    requires NewestFirst(matched) && keep < |matched|
    requires forall x | x in matched :: x.name in before && before[x.name] == x.created
    requires Matching(after, mine) == Names(matched[..keep])
    requires forall n | n in before :: n in after <==> n !in Names(matched[keep..])
    ensures NoneNewer(before, after, mine)
  {
    forall d, k | d in before && d !in after && k in after && k in before && k in mine ensures before[d] <= before[k] {
      assert k in Matching(after, mine);
      CutOrder(before, keep, matched, d, k);
    }
  }

  lemma SplitMatching(
    before: map<string, int>, after: map<string, int>, mine: Managed, newest: set<string>, rest: set<string>)
    requires Matching(before, mine) == newest + rest && newest !! rest
    requires forall n | n in after :: n in before && after[n] == before[n]
    requires forall n | n in before :: n in after <==> n !in rest
    ensures Matching(after, mine) == newest
    ensures forall n | n in before && n !in mine :: n in after
  {}

  lemma CutOrder(before: map<string, int>, keep: nat, matched: seq<Snap>, d: string, k: string)
    requires NewestFirst(matched) && keep < |matched|
    requires forall x | x in matched :: x.name in before && before[x.name] == x.created
    requires d in Names(matched[keep..]) && k in Names(matched[..keep])
    ensures d in before && k in before && before[d] <= before[k]
  {}

  /** Cutting a list of distinct names splits its names in two. */
  lemma CutNames(s: seq<Snap>, keep: nat)
    requires Distinct(s) && keep <= |s|
    ensures Names(s) == Names(s[..keep]) + Names(s[keep..]) && Names(s[..keep]) !! Names(s[keep..])
    ensures |Names(s)| == |s| && |Names(s[..keep])| == keep
  {
    CountNames(s);
    CountNames(s[..keep]);
    forall i | 0 <= i < |s| ensures s[i].name in Names(s[..keep]) + Names(s[keep..]) {
      if i < keep { assert s[..keep][i] == s[i]; } else { assert s[keep..][i - keep] == s[i]; }
    }
    forall n | n in Names(s[..keep]) ensures n in Names(s) && n !in Names(s[keep..]) {
      var i :| 0 <= i < keep && s[..keep][i].name == n;
      assert s[i].name == n;
    }
    forall n | n in Names(s[keep..]) ensures n in Names(s) {
      var i :| 0 <= i < |s| - keep && s[keep..][i].name == n;
      assert s[keep + i].name == n;
    }
  }

  // ---- retention over a run of fires ----

  /** The snapshots there ever were: the first ones and those made by each fire. */
  ghost function Ever(first: map<string, int>, fires: seq<Snap>): map<string, int> {
    if fires == [] then first
      else Ever(first, fires[..|fires| - 1])[fires[|fires| - 1].name := fires[|fires| - 1].created]
  }

  /** `states[i + 1]` is what the fire of `fires[i]` left of `states[i]`; names are never used twice. */
  ghost predicate IsRun(states: seq<map<string, int>>, fires: seq<Snap>, mine: Managed, keep: nat) {
    && |states| == |fires| + 1
    && forall i | 0 <= i < |fires| ::
      && fires[i].name in mine
      && fires[i].name !in Ever(states[0], fires[..i])
      && NewestKept(states[i][fires[i].name := fires[i].created], states[i + 1], mine, keep)
  }

  /** Any snapshots are a run without fires, and any fire of a new managed name that keeps the newest makes
      a run longer. */
  lemma FireExtendsRun(
    states: seq<map<string, int>>, fires: seq<Snap>, x: Snap, after: map<string, int>, mine: Managed, keep: nat)
    requires IsRun(states, fires, mine, keep) && x.name in mine && x.name !in Ever(states[0], fires)
    requires NewestKept(states[|fires|][x.name := x.created], after, mine, keep)
    ensures IsRun(states[..1], [], mine, keep) && IsRun(states + [after], fires + [x], mine, keep)
  {
    var more := fires + [x];
    assert more[..|fires|] == fires;
    forall i | 0 <= i < |fires| ensures more[..i] == fires[..i] {}
  }

  /** Pruning after one more snapshot keeps the newest of all there ever were. */
  lemma OneMoreFire(
    ever: map<string, int>, s: map<string, int>, after: map<string, int>, x: Snap, mine: Managed, keep: nat)
    requires NewestKept(ever, s, mine, keep) && x.name !in ever && x.name in mine
    requires NewestKept(s[x.name := x.created], after, mine, keep)
    ensures NewestKept(ever[x.name := x.created], after, mine, keep)
  {
    var all, mid := ever[x.name := x.created], s[x.name := x.created];
    OneMoreMatches(ever, x, mine);
    OneMoreMatches(s, x, mine);
    forall d, k | d in all && d !in after && k in after && k in all && k in mine ensures all[d] <= all[k] {
      if d !in mid && k == x.name {
        var e := CostsOneMore(ever, s, after, x, mine, keep, d);
        assert ever[d] <= ever[e] && mid[e] <= mid[k];
      }
    }
  }

  lemma OneMoreMatches(s: map<string, int>, x: Snap, mine: Managed)
    requires x.name !in s && x.name in mine
    ensures |Matching(s[x.name := x.created], mine)| == |Matching(s, mine)| + 1
  {
    assert Matching(s[x.name := x.created], mine) == Matching(s, mine) + {x.name};
  }

  /** When `d` went in an earlier fire, `keep` were left, and making room for `x` cost another one. */
  lemma CostsOneMore(
    ever: map<string, int>, s: map<string, int>, after: map<string, int>, x: Snap, mine: Managed, keep: nat,
    d: string)
    returns (e: string)
    requires NewestKept(ever, s, mine, keep) && x.name !in ever && x.name in mine
    requires NewestKept(s[x.name := x.created], after, mine, keep)
    requires d in ever && d !in s && x.name in after
    ensures e in s && e !in after && e in mine
  {
    var mid := s[x.name := x.created];
    assert Matching(mid, mine) == Matching(s, mine) + {x.name};
    assert d in mine;
    assert d in Matching(ever, mine);
    assert d !in Matching(s, mine);
    SubsetSize(Matching(s, mine), Matching(ever, mine));
    SubsetSize(Matching(after, mine), Matching(mid, mine));
    e :| e in Matching(mid, mine) - Matching(after, mine);
  }

  lemma SubsetSize(a: set<string>, b: set<string>)
    requires a <= b
    ensures |b - a| == |b| - |a|
  {}

  /** After any run of fires, from any snapshots, the matching ones left are exactly the newest
      `keep` of all there ever were, and the others are all still there. */
  lemma {:induction false} RunKeepsNewest(states: seq<map<string, int>>, fires: seq<Snap>, mine: Managed, keep: nat)
    requires IsRun(states, fires, mine, keep) && fires != []
    ensures NewestKept(Ever(states[0], fires), states[|fires|], mine, keep)
    decreases |fires|
  {
    var n := |fires|;
    var earlier := fires[..n - 1];
    if n > 1 {
      forall i | 0 <= i < n - 1 ensures earlier[..i] == fires[..i] {}
      RunKeepsNewest(states[..n], earlier, mine, keep);
      OneMoreFire(Ever(states[0], earlier), states[n - 1], states[n], fires[n - 1], mine, keep);
    } else {
      assert Ever(states[0], earlier) == states[0];
    }
  }
}
